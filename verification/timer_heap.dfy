/** The pointer-linked binary heap of heap-inl.h, with the nodes' own links. */
module TimerHeap {

  /** A uv_timer_t with its embedded heap node. */
  class Timer {
    var left: Timer?
    var right: Timer?
    var parent: Timer?
    var timeout: nat
    var startId: nat
    var repeat: nat
    var hasCallback: bool
    var active: bool
    var closing: bool

    /** uv_timer_init */
    constructor ()
      ensures !hasCallback && !active && !closing && repeat == 0
    {
      left, right, parent, timeout, startId, repeat := null, null, null, 0, 0, 0;
      hasCallback, active, closing := false, false, false;
    }
  }

  datatype Key = Key(timeout: nat, startId: nat)

  predicate Less(a: Key, b: Key) { a.timeout < b.timeout || (a.timeout == b.timeout && a.startId < b.startId) }

  /** timer_less_than */
  predicate TimerLess(a: Timer, b: Timer)
    reads a`timeout, a`startId, b`timeout, b`startId
  {
    if a.timeout < b.timeout then true else if b.timeout < a.timeout then false else a.startId < b.startId
  }

  function KeyOf(t: Timer): Key
    reads t`timeout, t`startId
  { Key(t.timeout, t.startId) }

  function KeysOf(slots: seq<Timer>): (keys: seq<Key>)
    reads slots`timeout, slots`startId
    ensures |keys| == |slots| && forall i :: 0 <= i < |slots| ==> keys[i] == KeyOf(slots[i])
  { if slots == [] then [] else KeysOf(slots[..|slots| - 1]) + [KeyOf(slots[|slots| - 1])] }

  // ---- heap order on the slots ----

  function Up(i: nat): int { (i - 1) / 2 }

  ghost predicate Ordered(keys: seq<Key>, i: nat)
    requires 0 < i < |keys|
  { !Less(keys[i], keys[Up(i)]) }

  ghost predicate HeapOrder(keys: seq<Key>) {
    forall i :: 0 < i < |keys| ==> Ordered(keys, i)
  }

  /** In order but for slot c and its children, which are in order with c's parent. */
  ghost predicate OrderBut(keys: seq<Key>, c: nat) {
    && (forall i :: 0 < i < |keys| && i != c && Up(i) != c ==> Ordered(keys, i))
    && (c > 0 ==> forall i :: 0 < i < |keys| && Up(i) == c ==> !Less(keys[i], keys[Up(c)]))
  }

  /** In order but for slot c and its parent. */
  ghost predicate OrderBelow(keys: seq<Key>, c: nat) {
    && (forall i :: 0 < i < |keys| && i != c ==> Ordered(keys, i))
    && (c > 0 ==> forall i :: 0 < i < |keys| && Up(i) == c ==> !Less(keys[i], keys[Up(c)]))
  }

  /** No child of c is less than slot m. */
  ghost predicate LeastChild(keys: seq<Key>, c: nat, m: nat)
    requires m < |keys|
  {
    forall i :: 0 < i < |keys| && Up(i) == c ==> !Less(keys[i], keys[m])
  }

  function Swapped<T>(s: seq<T>, p: nat, c: nat): (r: seq<T>)
    requires p < |s| && c < |s|
    ensures |r| == |s|
  { s[p := s[c]][c := s[p]] }

  lemma SiftUp(keys: seq<Key>, c: nat)
    requires 0 < c < |keys| && OrderBelow(keys, c) && Less(keys[c], keys[Up(c)])
    ensures OrderBelow(Swapped(keys, Up(c), c), Up(c))
  {
    var p := Up(c);
    var keys' := Swapped(keys, p, c);
    assert p > 0 ==> Ordered(keys, p);
    forall i | 0 < i < |keys| && i != p ensures Ordered(keys', i) {
      assert i != c ==> Ordered(keys, i);
    }
    forall i | p > 0 && 0 < i < |keys| && Up(i) == p ensures !Less(keys'[i], keys'[Up(p)]) {
      assert i != c ==> Ordered(keys, i);
    }
  }

  lemma AppendOrder(keys: seq<Key>, k: Key)
    requires HeapOrder(keys)
    ensures OrderBelow(keys + [k], |keys|)
  {
    forall i | 0 < i < |keys| ensures Ordered(keys + [k], i) {
      assert Ordered(keys, i);
    }
  }

  lemma AllInOrder(keys: seq<Key>, c: nat)
    requires c < |keys| && OrderBelow(keys, c) && (c > 0 ==> Ordered(keys, c))
    ensures HeapOrder(keys)
  {
  }

  lemma ChildrenInOrder(keys: seq<Key>, c: nat)
    requires c < |keys| && OrderBut(keys, c) && LeastChild(keys, c, c)
    ensures OrderBelow(keys, c)
  {
  }

  /** Replacing one key disturbs the order around it only. */
  lemma ReplaceOrder(keys: seq<Key>, i: nat, k: Key)
    requires HeapOrder(keys) && i < |keys|
    ensures OrderBut(keys[i := k], i)
  {
    var keys' := keys[i := k];
    forall j | 0 < j < |keys| && j != i && Up(j) != i ensures Ordered(keys', j) { assert Ordered(keys, j); }
    if i > 0 {
      assert Ordered(keys, i);
      forall j | 0 < j < |keys| && Up(j) == i ensures !Less(keys'[j], keys'[Up(i)]) { assert Ordered(keys, j); }
    }
  }

  lemma PrefixOrder(keys: seq<Key>, n: nat)
    requires HeapOrder(keys) && n <= |keys|
    ensures HeapOrder(keys[..n])
  {
    forall j | 0 < j < n ensures Ordered(keys[..n], j) { assert Ordered(keys, j); }
  }

  /** The smaller child moves up. */
  lemma SiftDown(keys: seq<Key>, c: nat, m: nat)
    requires c < |keys| && OrderBut(keys, c) && 0 < m < |keys| && Up(m) == c && Less(keys[m], keys[c])
    requires LeastChild(keys, c, m)
    ensures OrderBut(Swapped(keys, c, m), m) && Ordered(Swapped(keys, c, m), m)
  {
  }

  lemma {:induction false} RootIsLeast(keys: seq<Key>, i: nat)
    requires HeapOrder(keys) && i < |keys|
    ensures !Less(keys[i], keys[0])
  {
    if i > 0 {
      RootIsLeast(keys, Up(i));
      assert Ordered(keys, i);
    }
  }

  // ---- the path to a node ----

  /** The k low bits of `path`, taken one by one, lead from node n to node m. */
  ghost predicate Leads(n: nat, path: nat, k: nat, m: nat)
    decreases k
  {
    if k == 0 then n == m else Leads(2 * n + path % 2, path / 2, k - 1, m)
  }

  lemma {:induction false} LeadsDown(n: nat, path: nat, k: nat, m: nat)
    requires Leads(n, path, k, m) && n >= 1
    ensures n <= m && (k > 0 ==> 2 * n + path % 2 <= m)
    decreases k
  {
    if k > 0 { LeadsDown(2 * n + path % 2, path / 2, k - 1, m); }
  }

  /** The bits of m below the leading one, the highest first. */
  method PathTo(m: nat) returns (path: nat, k: nat)
    requires m >= 1
    ensures Leads(1, path, k, m)
  {
    path, k := 0, 0;
    var n := m;
    while n >= 2
      invariant n >= 1 && Leads(n, path, k, m)
    {
      path, k, n := path * 2 + n % 2, k + 1, n / 2;
    }
  }

  // ---- the linked heap ----

  ghost predicate Distinct(slots: seq<Timer>) { forall i, j :: 0 <= i < j < |slots| ==> slots[i] != slots[j] }

  ghost function At(slots: seq<Timer>, i: int): Timer? { if 0 <= i < |slots| then slots[i] else null }

  ghost predicate LinksOk(slots: seq<Timer>, i: nat)
    requires i < |slots|
    reads slots`left, slots`right, slots`parent
  {
    slots[i].left == At(slots, 2 * i + 1) && slots[i].right == At(slots, 2 * i + 2)
        && slots[i].parent == At(slots, Up(i))
  }

  // The links of all nodes, slot by slot.

  ghost function Lefts(slots: seq<Timer>): (links: seq<Timer?>)
    reads slots`left
    ensures |links| == |slots| && forall i :: 0 <= i < |slots| ==> links[i] == slots[i].left
  { if slots == [] then [] else Lefts(slots[..|slots| - 1]) + [slots[|slots| - 1].left] }

  ghost function Rights(slots: seq<Timer>): (links: seq<Timer?>)
    reads slots`right
    ensures |links| == |slots| && forall i :: 0 <= i < |slots| ==> links[i] == slots[i].right
  { if slots == [] then [] else Rights(slots[..|slots| - 1]) + [slots[|slots| - 1].right] }

  ghost function Parents(slots: seq<Timer>): (links: seq<Timer?>)
    reads slots`parent
    ensures |links| == |slots| && forall i :: 0 <= i < |slots| ==> links[i] == slots[i].parent
  { if slots == [] then [] else Parents(slots[..|slots| - 1]) + [slots[|slots| - 1].parent] }

  /** The links to children (left with side 1, right with side 2) once the nodes of
      slots p and c have exchanged links and their neighbours point to the other one. */
  ghost predicate ChildrenMoved(slots: seq<Timer>, before: seq<Timer?>, after: seq<Timer?>, p: nat, c: nat, side: nat)
    requires |before| == |after| == |slots| && p < |slots| && c < |slots|
  {
    forall i :: 0 <= i < |slots| ==>
      after[i] == if i == p then before[c]
                  else if i == c then (if 2 * p + side == c then slots[p] else before[p])
                  else if 2 * i + side == p then slots[c] else before[i]
  }

  ghost predicate ParentsMoved(slots: seq<Timer>, before: seq<Timer?>, after: seq<Timer?>, p: nat, c: nat)
    requires |before| == |after| == |slots| && p < |slots| && c < |slots|
  {
    forall i :: 0 <= i < |slots| ==>
      after[i] == if i == p then slots[c] else if i == c then before[p]
                  else if Up(i) == p then slots[c] else if Up(i) == c then slots[p] else before[i]
  }

  ghost predicate ChildLinks(slots: seq<Timer>, links: seq<Timer?>, side: nat) {
    |links| == |slots| && forall i :: 0 <= i < |slots| ==> links[i] == At(slots, 2 * i + side)
  }

  ghost predicate ParentLinks(slots: seq<Timer>, links: seq<Timer?>) {
    |links| == |slots| && forall i :: 0 <= i < |slots| ==> links[i] == At(slots, Up(i))
  }

  lemma LeftsMoved(slots: seq<Timer>, lefts: seq<Timer?>, p: nat, c: nat)
    requires |lefts| == |slots| && 0 < c < |slots| && p == Up(c) && slots[p].left == lefts[c]
    requires slots[c].left == if c == 2 * p + 1 then slots[p] else lefts[p]
    requires p > 0 ==> slots[Up(p)].left == if p == 2 * Up(p) + 1 then slots[c] else lefts[Up(p)]
    requires forall i :: 0 <= i < |slots| && i != p && i != c && i != Up(p) ==> slots[i].left == lefts[i]
    ensures ChildrenMoved(slots, lefts, Lefts(slots), p, c, 1)
  {
    hide Lefts;
  }

  lemma RightsMoved(slots: seq<Timer>, rights: seq<Timer?>, p: nat, c: nat)
    requires |rights| == |slots| && 0 < c < |slots| && p == Up(c) && slots[p].right == rights[c]
    requires slots[c].right == if c == 2 * p + 1 then rights[p] else slots[p]
    requires p > 0 ==> slots[Up(p)].right == if p == 2 * Up(p) + 1 then rights[Up(p)] else slots[c]
    requires forall i :: 0 <= i < |slots| && i != p && i != c && i != Up(p) ==> slots[i].right == rights[i]
    ensures ChildrenMoved(slots, rights, Rights(slots), p, c, 2)
  {
    hide Rights;
  }

  lemma ChildrenFollow(slots: seq<Timer>, before: seq<Timer?>, after: seq<Timer?>, p: nat, c: nat, side: nat)
    requires Distinct(slots) && 0 < c < |slots| && p == Up(c) && side in {1, 2}
    requires ChildLinks(slots, before, side) && |after| == |slots| && ChildrenMoved(slots, before, after, p, c, side)
    ensures ChildLinks(Swapped(slots, p, c), Swapped(after, p, c), side)
  {
  }

  lemma ParentsFollow(slots: seq<Timer>, before: seq<Timer?>, after: seq<Timer?>, p: nat, c: nat)
    requires Distinct(slots) && 0 < c < |slots| && p == Up(c)
    requires ParentLinks(slots, before) && |after| == |slots| && ParentsMoved(slots, before, after, p, c)
    ensures ParentLinks(Swapped(slots, p, c), Swapped(after, p, c))
  {
  }

  ghost predicate AllLinked(slots: seq<Timer>)
    reads slots`left, slots`right, slots`parent
  {
    forall i :: 0 <= i < |slots| ==> LinksOk(slots, i)
  }

  /** The links, one list per field. */
  lemma LinkLists(slots: seq<Timer>)
    ensures AllLinked(slots) <==>
              ChildLinks(slots, Lefts(slots), 1) && ChildLinks(slots, Rights(slots), 2)
                  && ParentLinks(slots, Parents(slots))
  {
    if AllLinked(slots) {
      forall i | 0 <= i < |slots|
        ensures Lefts(slots)[i] == At(slots, 2 * i + 1) && Rights(slots)[i] == At(slots, 2 * i + 2)
        ensures Parents(slots)[i] == At(slots, Up(i))
      { assert LinksOk(slots, i); }
    }
    if ChildLinks(slots, Lefts(slots), 1) && ChildLinks(slots, Rights(slots), 2) && ParentLinks(slots, Parents(slots)) {
      forall i | 0 <= i < |slots| ensures LinksOk(slots, i) {
        assert Lefts(slots)[i] == slots[i].left && Rights(slots)[i] == slots[i].right
               && Parents(slots)[i] == slots[i].parent;
      }
    }
  }

  lemma SwapAt<T>(s: seq<T>, p: nat, c: nat, i: nat)
    requires p < |s| && c < |s| && i < |s|
    ensures Swapped(s, p, c)[i] == s[if i == p then c else if i == c then p else i]
  {
  }

  lemma DistinctSwap(slots: seq<Timer>, p: nat, c: nat)
    requires Distinct(slots) && p < |slots| && c < |slots|
    ensures Distinct(Swapped(slots, p, c))
  {
    forall i, j | 0 <= i < j < |slots| ensures Swapped(slots, p, c)[i] != Swapped(slots, p, c)[j] {
      SwapAt(slots, p, c, i);
      SwapAt(slots, p, c, j);
    }
  }

  lemma ListsSwap(slots: seq<Timer>, p: nat, c: nat)
    requires p < |slots| && c < |slots|
    ensures Lefts(Swapped(slots, p, c)) == Swapped(Lefts(slots), p, c)
    ensures Rights(Swapped(slots, p, c)) == Swapped(Rights(slots), p, c)
    ensures Parents(Swapped(slots, p, c)) == Swapped(Parents(slots), p, c)
  {
    hide Lefts;
    hide Rights;
    hide Parents;
    hide Swapped;
    forall i | 0 <= i < |slots|
      ensures Lefts(Swapped(slots, p, c))[i] == Swapped(Lefts(slots), p, c)[i]
      ensures Rights(Swapped(slots, p, c))[i] == Swapped(Rights(slots), p, c)[i]
      ensures Parents(Swapped(slots, p, c))[i] == Swapped(Parents(slots), p, c)[i]
    {
      SwapAt(slots, p, c, i);
      SwapAt(Lefts(slots), p, c, i);
      SwapAt(Rights(slots), p, c, i);
      SwapAt(Parents(slots), p, c, i);
    }
  }

  ghost predicate Outside(slots: seq<Timer>, t: Timer) { forall i :: 0 <= i < |slots| ==> slots[i] != t }

  ghost predicate Among(slots: seq<Timer>, nodes: set<Timer>) {
    forall i :: 0 <= i < |slots| ==> slots[i] in nodes
  }

  /** struct heap; `slots` lists its nodes level by level. */
  class Heap {
    var min: Timer?
    var nelts: nat
    ghost var slots: seq<Timer>
    ghost var nodes: set<Timer>

    ghost predicate Linked()
      reads this, slots`left, slots`right, slots`parent
    {
      && nelts == |slots| && Distinct(slots) && Among(slots, nodes) && min == At(slots, 0)
      && AllLinked(slots)
    }

    /** heap_init */
    constructor ()
      ensures Linked() && slots == [] && nodes == {}
    {
      min, nelts, slots, nodes := null, 0, [], {};
    }

    /** The other child, and the grandchildren: their parent changes. */
    static ghost function Below(parent: Timer, child: Timer): set<Timer?>
      reads parent`left, parent`right, child`left, child`right
    { {Sibling(parent, child), child.left, child.right} - {null} }

    /** The node above: one of its children changes. */
    static ghost function Above(parent: Timer): set<Timer?>
      reads parent`parent
    { {parent.parent} - {null} }

    static ghost function Sibling(parent: Timer, child: Timer): Timer?
      reads parent`left, parent`right
    { if parent.left == child then parent.right else parent.left }

    static ghost predicate Apart(parent: Timer, child: Timer)
      reads parent, child
    {
      var sibling := Sibling(parent, child);
      && parent != child && parent !in {parent.parent, child.left, child.right, sibling}
      && child !in {parent.parent, child.left, child.right, sibling}
      && (sibling != null ==> sibling !in {parent.parent, child.left, child.right})
      && (child.left != null ==> child.left !in {parent.parent, child.right})
      && (child.right != null ==> child.right != parent.parent)
    }

    /** heap_node_swap, pointer by pointer. */
    method Relink(parent: Timer, child: Timer)
      requires Apart(parent, child) && (parent.left == child || parent.right == child)
      requires parent.parent != null ==> parent.parent.left == parent || parent.parent.right == parent
      modifies this`min, parent`left, parent`right, parent`parent, child`left, child`right, child`parent
      modifies Below(parent, child)`parent, Above(parent)`left, Above(parent)`right
      ensures slots == old(slots) && nodes == old(nodes) && nelts == old(nelts)
      ensures parent.left == old(child.left) && parent.right == old(child.right) && parent.parent == child
      ensures child.left == (if old(parent.left) == child then parent else old(parent.left))
      ensures child.right == (if old(parent.left) == child then old(parent.right) else parent)
      ensures child.parent == old(parent.parent)
      ensures old(Sibling(parent, child)) != null ==> old(Sibling(parent, child)).parent == child
      ensures old(child.left) != null ==> old(child.left).parent == parent
      ensures old(child.right) != null ==> old(child.right).parent == parent
      ensures old(parent.parent) == null ==> min == child
      ensures old(parent.parent) != null ==>
                && min == old(min)
                && old(parent.parent).left == (if old(parent.parent.left) == parent then child
                                               else old(parent.parent.left))
                && old(parent.parent).right == (if old(parent.parent.left) == parent then old(parent.parent.right)
                                                else child)
    {
      var left, right, up := parent.left, parent.right, parent.parent;
      parent.left, parent.right, parent.parent := child.left, child.right, child.parent;
      child.left, child.right, child.parent := left, right, up;

      parent.parent := child;
      var sibling;
      if child.left == child {
        child.left := parent;
        sibling := child.right;
      } else {
        child.right := parent;
        sibling := child.left;
      }
      if sibling != null { sibling.parent := child; }
      if parent.left != null { parent.left.parent := parent; }
      if parent.right != null { parent.right.parent := parent; }
      if child.parent == null {
        min := child;
      } else if child.parent.left == parent {
        child.parent.left := child;
      } else {
        child.parent.right := child;
      }
    }

    /** Where the nodes around slots p and c are. */
    lemma Neighbours(p: nat, c: nat)
      requires Linked() && 0 < c < |slots| && p == Up(c)
      ensures Apart(slots[p], slots[c]) && (slots[p].left == slots[c] <==> c == 2 * p + 1)
      ensures slots[p].left == slots[c] || slots[p].right == slots[c]
      ensures slots[p].parent == if p == 0 then null else slots[Up(p)]
      ensures forall x :: x in Below(slots[p], slots[c]) ==> x in nodes
      ensures forall x :: x in Above(slots[p]) ==> x in nodes
      ensures slots[p] in nodes && slots[c] in nodes
      ensures p > 0 ==> slots[Up(p)].left == slots[p] || slots[Up(p)].right == slots[p]
      ensures p > 0 ==> (slots[Up(p)].left == slots[p] <==> p == 2 * Up(p) + 1)
      ensures Distinct(slots)
      ensures forall i :: 0 <= i < |slots| && Up(i) == p && i != c ==> slots[i] == Sibling(slots[p], slots[c])
      ensures forall i :: 0 <= i < |slots| && Up(i) == c ==> slots[i] == slots[c].left || slots[i] == slots[c].right
      ensures forall i :: 0 <= i < |slots| && slots[i] in Below(slots[p], slots[c]) ==>
                i != c && (Up(i) == p || Up(i) == c)
    {
      assert LinksOk(slots, p) && LinksOk(slots, c);
      assert p > 0 ==> LinksOk(slots, Up(p));
    }

    /** heap_node_swap, slot by slot. */
    method RelinkSlots(parent: Timer, child: Timer, ghost p: nat, ghost c: nat)
      requires Linked() && 0 < c < |slots| && p == Up(c) && slots[p] == parent && slots[c] == child
      modifies this`min, nodes`left, nodes`right, nodes`parent
      ensures slots == old(slots) && nodes == old(nodes) && nelts == old(nelts)
      ensures min == if p == 0 then child else old(min)
      ensures slots[p].left == old(slots[c].left) && slots[p].right == old(slots[c].right)
      ensures slots[c].left == if c == 2 * p + 1 then slots[p] else old(slots[p].left)
      ensures slots[c].right == if c == 2 * p + 1 then old(slots[p].right) else slots[p]
      ensures p > 0 ==> slots[Up(p)].left == if p == 2 * Up(p) + 1 then slots[c] else old(slots[Up(p)].left)
      ensures p > 0 ==> slots[Up(p)].right == if p == 2 * Up(p) + 1 then old(slots[Up(p)].right) else slots[c]
      ensures forall i :: 0 <= i < |slots| && i != p && i != c && i != Up(p) ==>
                slots[i].left == old(slots[i].left) && slots[i].right == old(slots[i].right)
      ensures ParentsMoved(slots, old(Parents(slots)), Parents(slots), p, c)
    {
      hide Linked;
      hide Apart;
      hide At;
      hide Parents;
      Neighbours(p, c);
      Relink(parent, child);
    }

    method ListsMove(parent: Timer, child: Timer, ghost p: nat, ghost c: nat)
      requires Linked() && 0 < c < |slots| && p == Up(c) && slots[p] == parent && slots[c] == child
      modifies this`min, nodes`left, nodes`right, nodes`parent
      ensures slots == old(slots) && nodes == old(nodes) && nelts == old(nelts)
      ensures min == if p == 0 then child else old(min)
      ensures ChildrenMoved(slots, old(Lefts(slots)), Lefts(slots), p, c, 1)
      ensures ChildrenMoved(slots, old(Rights(slots)), Rights(slots), p, c, 2)
      ensures ParentsMoved(slots, old(Parents(slots)), Parents(slots), p, c)
    {
      hide Lefts;
      hide Rights;
      hide Parents;
      hide ParentsMoved;
      ghost var lefts, rights := Lefts(slots), Rights(slots);
      RelinkSlots(parent, child, p, c);
      hide Linked;
      LeftsMoved(slots, lefts, p, c);
      RightsMoved(slots, rights, p, c);
      hide ChildrenMoved;
    }

    /** heap_node_swap exchanges two slots and touches no key. */
    method NodeSwap(parent: Timer, child: Timer, ghost p: nat, ghost c: nat)
      requires Linked() && 0 < c < |slots| && p == Up(c) && slots[p] == parent && slots[c] == child
      modifies this`min, this`slots, nodes`left, nodes`right, nodes`parent
      ensures Linked() && slots == Swapped(old(slots), p, c) && nodes == old(nodes) && nelts == old(nelts)
      ensures KeysOf(slots) == Swapped(old(KeysOf(slots)), p, c)
    {
      ghost var ss, keys := slots, KeysOf(slots);
      SwapSlots(parent, child, p, c);
      hide Linked;
      hide KeysOf;
      hide Swapped;
      assert KeysOf(ss) == keys;
      KeysSwap(ss, p, c);
    }

    method SwapSlots(parent: Timer, child: Timer, ghost p: nat, ghost c: nat)
      requires Linked() && 0 < c < |slots| && p == Up(c) && slots[p] == parent && slots[c] == child
      modifies this`min, this`slots, nodes`left, nodes`right, nodes`parent
      ensures Linked() && slots == Swapped(old(slots), p, c) && nodes == old(nodes) && nelts == old(nelts)
    {
      hide AllLinked;
      hide ChildrenMoved;
      hide ParentsMoved;
      hide ChildLinks;
      hide ParentLinks;
      hide Lefts;
      hide Rights;
      hide Parents;
      hide Distinct;
      ghost var ss, lefts, rights, parents := slots, Lefts(slots), Rights(slots), Parents(slots);
      LinkLists(ss);
      ListsMove(parent, child, p, c);
      slots := Swapped(ss, p, c);
      ListsFollow(ss, lefts, rights, parents, p, c);
    }

    /** *link */
    function Deref(link: Link): Timer?
      reads this`min, link.Nodes()`left, link.Nodes()`right
    {
      match link case AtMin => min case LeftOf(t) => t.left case RightOf(t) => t.right
    }

    /** *link = t */
    method Store(link: Link, t: Timer?)
      modifies this`min, link.Nodes()`left, link.Nodes()`right
      ensures min == (if link == AtMin then t else old(min))
      ensures slots == old(slots) && nodes == old(nodes) && nelts == old(nelts)
      ensures link.LeftOf? ==> link.t.left == t && link.t.right == old(link.t.right)
      ensures link.RightOf? ==> link.t.right == t && link.t.left == old(link.t.left)
    {
      match link
      case AtMin => min := t;
      case LeftOf(n) => n.left := t;
      case RightOf(n) => n.right := t;
    }

    /** The walk from the root along the bits of m ends at the link to node m, and has
        passed the link to its parent just before. */
    method FindSlot(m: nat) returns (parent: Link, child: Link)
      requires Linked() && 1 <= m <= |slots| + 1
      ensures child == LinkTo(slots, m - 1)
      ensures if m == 1 then parent == AtMin else parent == LinkTo(slots, Up(m - 1))
    {
      hide AllLinked;
      hide Distinct;
      hide Among;
      var path, k := PathTo(m);
      parent, child := AtMin, AtMin;
      LinkAtRoot(slots);
      hide LinkTo;
      ghost var n := 1;
      while k > 0
        invariant n >= 1 && Leads(n, path, k, m) && n <= |slots| + 1
        invariant child == LinkTo(slots, n - 1)
        invariant if n == 1 then parent == AtMin else parent == LinkTo(slots, Up(n - 1))
        decreases k
      {
        LeadsDown(n, path, k, m);
        parent := child;
        DerefSlot(n - 1);
        LinkBelow(slots, n, path % 2);
        if path % 2 == 1 {
          child := RightOf(Deref(child));
        } else {
          child := LeftOf(Deref(child));
        }
        n := 2 * n + path % 2;
        path := path / 2;
        k := k - 1;
      }
    }

    /** Hang the new node on the link that ends the walk. */
    method Hang(newnode: Timer, parent: Link, child: Link)
      requires Distinct(slots) && Among(slots, nodes) && newnode !in nodes && newnode.left == null
               && newnode.right == null
      requires parent.Nodes() <= nodes && Deref(parent) == At(slots, Up(|slots|)) && child == LinkTo(slots, |slots|)
      modifies this, nodes`left, nodes`right, newnode`left, newnode`right, newnode`parent
      ensures slots == old(slots) + [newnode] && |slots| == |old(slots)| + 1
      ensures nodes == old(nodes) + {newnode} && nelts == old(nelts) + 1
      ensures min == (if |old(slots)| == 0 then newnode else old(min))
      ensures LinkedLast(old(slots), newnode, old(Lefts(slots)), old(Rights(slots)), old(Parents(slots)))
    {
      hide Lefts;
      hide Rights;
      hide Parents;
      hide At;
      newnode.parent := Deref(parent);
      Store(child, newnode);
      nelts := nelts + 1;
      slots, nodes := slots + [newnode], nodes + {newnode};
    }

    /** Find the left-most free place of the bottom row and link the new node there. */
    method LinkLast(newnode: Timer)
      requires Linked() && newnode !in nodes
      modifies this, nodes`left, nodes`right, newnode`left, newnode`right, newnode`parent
      ensures slots == old(slots) + [newnode] && |slots| == |old(slots)| + 1
      ensures nodes == old(nodes) + {newnode} && nelts == old(nelts) + 1
      ensures min == (if |old(slots)| == 0 then newnode else old(min))
      ensures LinkedLast(old(slots), newnode, old(Lefts(slots)), old(Rights(slots)), old(Parents(slots)))
    {
      hide Lefts;
      hide Rights;
      hide Parents;
      hide At;
      hide LinkedLast;
      hide Linked;
      hide Distinct;
      hide Among;
      hide LinkTo;
      LinkedParts(newnode);
      newnode.left, newnode.right, newnode.parent := null, null, null;
      var parent, child := FindSlot(nelts + 1);
      DerefSlot(if nelts == 0 then 0 else Up(nelts));
      ParentLink(if nelts == 0 then 0 else Up(nelts));
      Hang(newnode, parent, child);
    }

    method Append(newnode: Timer)
      requires Linked() && newnode !in nodes
      modifies this, nodes`left, nodes`right, newnode`left, newnode`right, newnode`parent
      ensures Linked() && slots == old(slots) + [newnode] && nodes == old(nodes) + {newnode}
    {
      ghost var ss, lefts, rights, parents := slots, Lefts(slots), Rights(slots), Parents(slots);
      LinkLists(ss);
      DistinctAppend(ss, nodes, newnode);
      AtAppend(ss, newnode, 0);
      hide AllLinked;
      hide Distinct;
      hide Among;
      hide At;
      hide ChildLinks;
      hide ParentLinks;
      hide Lefts;
      hide Rights;
      hide Parents;
      hide LinkedLast;
      LinkLast(newnode);
      AppendedLinks(ss, newnode, lefts, rights, parents);
    }

    /** A linked heap in heap order; `nodes` are exactly the nodes in the slots. */
    ghost predicate Valid()
      reads this, slots`left, slots`right, slots`parent, slots`timeout, slots`startId
    {
      Linked() && Covered(slots, nodes) && HeapOrder(KeysOf(slots))
    }

    /** One turn of the loops that walk up the tree. */
    method StepUp(t: Timer, ghost c: nat)
      requires Linked() && Covered(slots, nodes) && c < |slots| && slots[c] == t && OrderBelow(KeysOf(slots), c)
      requires t.parent != null && TimerLess(t, t.parent)
      modifies this`min, this`slots, nodes`left, nodes`right, nodes`parent
      ensures Linked() && Covered(slots, nodes) && 0 <= Up(c) < c < |slots| && slots[Up(c)] == t
      ensures nodes == old(nodes)
      ensures OrderBelow(KeysOf(slots), Up(c))
    {
      ParentSlot(c);
      ghost var ss := slots;
      ghost var keys := KeysOf(ss);
      CoveredSwap(ss, nodes, Up(c), c);
      SiftUp(keys, c);
      SwapAt(ss, Up(c), c, Up(c));
      hide AllLinked;
      hide OrderBelow;
      hide Covered;
      hide KeysOf;
      hide Swapped;
      NodeSwap(t.parent, t, Up(c), c);
    }

    lemma ParentSlot(c: nat)
      requires Linked() && c < |slots|
      ensures slots[c].parent == null <==> c == 0
      ensures c > 0 ==> slots[c].parent == slots[Up(c)]
    {
      assert LinksOk(slots, c);
    }

    /** heap_insert */
    method Insert(newnode: Timer)
      requires Valid() && newnode !in nodes
      modifies this, nodes`left, nodes`right, nodes`parent, newnode`left, newnode`right, newnode`parent
      ensures Valid() && nodes == old(nodes) + {newnode}
    {
      ghost var ss := slots;
      LastOutOfOrder(ss, newnode);
      CoveredAppend(ss, nodes, newnode);
      Append(newnode);
      hide AllLinked;
      hide OrderBelow;
      hide HeapOrder;
      hide Covered;
      hide KeysOf;
      WalkUp(newnode, |slots| - 1);
    }

    /** While less than its parent, move up. */
    method WalkUp(t: Timer, ghost start: nat)
      requires Linked() && Covered(slots, nodes) && start < |slots| && slots[start] == t
               && OrderBelow(KeysOf(slots), start)
      modifies this`min, this`slots, nodes`left, nodes`right, nodes`parent
      ensures Valid() && nodes == old(nodes)
    {
      hide AllLinked;
      hide OrderBelow;
      hide HeapOrder;
      hide Covered;
      hide KeysOf;
      ghost var c := start;
      while t.parent != null && TimerLess(t, t.parent)
        invariant Linked() && Covered(slots, nodes) && nodes == old(nodes)
        invariant 0 <= c < |slots| && slots[c] == t && OrderBelow(KeysOf(slots), c)
        decreases c
      {
        StepUp(t, c);
        c := Up(c);
      }
      ParentSlot(c);
      AllInOrder(KeysOf(slots), c);
    }

    /** Cut the link to the last node. */
    method Cut(max: Link)
      requires Distinct(slots) && Among(slots, nodes) && |slots| > 0 && max == LinkTo(slots, |slots| - 1)
      modifies this`min, this`slots, nodes`left, nodes`right
      ensures slots == old(slots)[..|old(slots)| - 1] && nodes == old(nodes) && nelts == old(nelts)
      ensures min == if |old(slots)| == 1 then null else old(min)
      ensures UnlinkedLast(old(slots), old(Lefts(slots)), old(Rights(slots)), old(Parents(slots)))
    {
      hide Lefts;
      hide Rights;
      hide Parents;
      Store(max, null);
      slots := slots[..|slots| - 1];
    }

    /** Unlink the left-most node of the bottom row. */
    method UnlinkLast() returns (last: Timer)
      requires Linked() && |slots| > 0
      modifies this`min, this`slots, nodes`left, nodes`right
      ensures slots == old(slots)[..|old(slots)| - 1] && last == old(slots)[|old(slots)| - 1]
      ensures nodes == old(nodes) && nelts == old(nelts)
      ensures min == if |old(slots)| == 1 then null else old(min)
      ensures UnlinkedLast(old(slots), old(Lefts(slots)), old(Rights(slots)), old(Parents(slots)))
    {
      hide Lefts;
      hide Rights;
      hide Parents;
      hide UnlinkedLast;
      var _, max := FindSlot(nelts);
      DerefSlot(nelts - 1);
      last := Deref(max);
      Cut(max);
    }

    method DropLast() returns (last: Timer)
      requires Linked() && |slots| > 0
      modifies this`min, this`slots, this`nelts, nodes`left, nodes`right
      ensures Linked() && slots == old(slots)[..|old(slots)| - 1] && last == old(slots)[|old(slots)| - 1]
      ensures nodes == old(nodes)
    {
      ghost var ss, lefts, rights, parents := slots, Lefts(slots), Rights(slots), Parents(slots);
      LinkLists(ss);
      DistinctPrefix(ss, nodes);
      AtPrefix(ss, 0);
      hide AllLinked;
      hide Distinct;
      hide Among;
      hide At;
      hide ChildLinks;
      hide ParentLinks;
      hide Lefts;
      hide Rights;
      hide Parents;
      hide UnlinkedLast;
      last := UnlinkLast();
      nelts := nelts - 1;
      DroppedLinks(ss, lefts, rights, parents);
    }

    /** The children of a node. */
    static ghost function Children(node: Timer): set<Timer?>
      reads node`left, node`right
    { {node.left, node.right} - {null} }

    /** Put `t` into the place of `node`, pointer by pointer. */
    method TakeLinks(t: Timer, node: Timer)
      requires t != node && {t, node} !! Children(node) + Above(node) && Children(node) !! Above(node)
      requires node.left != null ==> node.left != node.right
      modifies this`min, t`left, t`right, t`parent
      modifies Children(node)`parent, Above(node)`left, Above(node)`right
      ensures slots == old(slots) && nodes == old(nodes) && nelts == old(nelts)
      ensures t.left == old(node.left) && t.right == old(node.right) && t.parent == old(node.parent)
      ensures forall x :: x in old(Children(node)) ==> x.parent == t
      ensures node.parent == null ==> min == t
      ensures node.parent != null ==>
                && min == old(min)
                && node.parent.left == (if old(node.parent.left) == node then t else old(node.parent.left))
                && node.parent.right == (if old(node.parent.left) == node then old(node.parent.right) else t)
    {
      t.left, t.right, t.parent := node.left, node.right, node.parent;
      if t.left != null { t.left.parent := t; }
      if t.right != null { t.right.parent := t; }
      if node.parent == null {
        min := t;
      } else if node.parent.left == node {
        node.parent.left := t;
      } else {
        node.parent.right := t;
      }
    }

    /** The same, slot by slot. */
    method TakeOver(t: Timer, node: Timer, ghost i: nat)
      requires Linked() && i < |slots| && slots[i] == node && Outside(slots, t) && t in nodes
      modifies this`min, this`slots, nodes`left, nodes`right, nodes`parent
      ensures slots == old(slots)[i := t] && |slots| == |old(slots)| && nodes == old(nodes) && nelts == old(nelts)
      ensures min == if i == 0 then t else old(min)
      ensures TakenOver(old(slots), t, i, old(Lefts(slots)), old(Rights(slots)), old(Parents(slots)))
    {
      hide Linked;
      hide Lefts;
      hide Rights;
      hide Parents;
      hide At;
      hide Children;
      hide Above;
      NodeAt(t, i);
      TakeLinks(t, node);
      slots := slots[i := t];
    }

    /** Where the neighbours of slot i are. */
    lemma NodeAt(t: Timer, i: nat)
      requires Linked() && i < |slots| && Outside(slots, t)
      ensures var node := slots[i];
              && {t, node} !! Children(node) + Above(node) && Children(node) !! Above(node)
              && (node.left != null ==> node.left != node.right)
              && node.parent == (if i == 0 then null else slots[Up(i)])
              && (forall x :: x in Children(node) + Above(node) ==> x in nodes)
      ensures i > 0 ==> (slots[Up(i)].left == slots[i] <==> i == 2 * Up(i) + 1)
      ensures forall j :: 0 <= j < |slots| ==> (slots[j] in Children(slots[i]) <==> Up(j) == i)
      ensures forall j :: 0 <= j < |slots| ==> (slots[j] in Above(slots[i]) <==> j == Up(i))
      ensures forall j :: 0 <= j < |slots| ==> (slots[j] == slots[i] <==> j == i) && slots[j] in nodes
    {
      assert LinksOk(slots, i);
      assert i > 0 ==> LinksOk(slots, Up(i));
      hide LinksOk;
      hide AllLinked;
    }

    method Replace(t: Timer, node: Timer, ghost i: nat)
      requires Linked() && i < |slots| && slots[i] == node && Outside(slots, t) && t in nodes
      modifies this`min, this`slots, nodes`left, nodes`right, nodes`parent
      ensures Linked() && slots == old(slots)[i := t] && nodes == old(nodes)
    {
      ghost var ss, lefts, rights, parents := slots, Lefts(slots), Rights(slots), Parents(slots);
      LinkLists(ss);
      DistinctUpdate(ss, nodes, i, t);
      AtUpdate(ss, i, t, 0);
      hide AllLinked;
      hide Distinct;
      hide Among;
      hide At;
      hide ChildLinks;
      hide ParentLinks;
      hide Lefts;
      hide Rights;
      hide Parents;
      hide TakenOver;
      hide Outside;
      TakeOver(t, node, i);
      ReplacedLinks(ss, t, i, lefts, rights, parents);
    }

    /** The least of a node and its children, preferring the node, then the left child. */
    method SmallestHere(t: Timer, ghost c: nat) returns (smallest: Timer, ghost m: nat)
      requires Linked() && c < |slots| && slots[c] == t
      ensures m < |slots| && slots[m] == smallest && (m == c || Up(m) == c)
      ensures m == c || Less(KeysOf(slots)[m], KeysOf(slots)[c])
      ensures LeastChild(KeysOf(slots), c, m)
    {
      NodeAndChildren(c);
      hide Linked;
      hide KeysOf;
      smallest, m := t, c;
      if t.left != null && TimerLess(t.left, smallest) { smallest, m := t.left, 2 * c + 1; }
      if t.right != null && TimerLess(t.right, smallest) { smallest, m := t.right, 2 * c + 2; }
    }

    lemma NodeAndChildren(i: nat)
      requires Linked() && i < |slots|
      ensures slots[i].left == if 2 * i + 1 < |slots| then slots[2 * i + 1] else null
      ensures slots[i].right == if 2 * i + 2 < |slots| then slots[2 * i + 2] else null
      ensures forall j :: 0 <= j < |slots| ==> (slots[j] == slots[i] <==> j == i)
    {
      assert LinksOk(slots, i);
    }

    /** One turn of the loop that walks down the tree. */
    method StepDown(t: Timer, child: Timer, ghost c: nat, ghost m: nat)
      requires Linked() && Covered(slots, nodes) && c < |slots| && slots[c] == t && OrderBut(KeysOf(slots), c)
      requires 0 < m < |slots| && slots[m] == child && Up(m) == c && Less(KeysOf(slots)[m], KeysOf(slots)[c])
      requires LeastChild(KeysOf(slots), c, m)
      modifies this`min, this`slots, nodes`left, nodes`right, nodes`parent
      ensures Linked() && Covered(slots, nodes) && m < |slots| == |old(slots)| && slots[m] == t
      ensures nodes == old(nodes) && OrderBut(KeysOf(slots), m)
    {
      ghost var ss := slots;
      ghost var keys := KeysOf(ss);
      CoveredSwap(ss, nodes, c, m);
      SiftDown(keys, c, m);
      SwapAt(ss, c, m, m);
      hide LeastChild;
      hide AllLinked;
      hide OrderBut;
      hide Covered;
      hide KeysOf;
      hide Swapped;
      NodeSwap(t, child, c, m);
    }

    /** While some child is less, move down. */
    method WalkDown(t: Timer, ghost start: nat) returns (ghost c: nat)
      requires Linked() && Covered(slots, nodes) && start < |slots| && slots[start] == t
               && OrderBut(KeysOf(slots), start)
      modifies this`min, this`slots, nodes`left, nodes`right, nodes`parent
      ensures Linked() && Covered(slots, nodes) && nodes == old(nodes)
      ensures c < |slots| && slots[c] == t && OrderBelow(KeysOf(slots), c)
    {
      hide AllLinked;
      hide OrderBut;
      hide OrderBelow;
      hide Covered;
      hide KeysOf;
      hide LeastChild;
      c := start;
      ghost var m;
      while true
        invariant Linked() && Covered(slots, nodes) && nodes == old(nodes)
        invariant 0 <= c < |slots| && slots[c] == t && OrderBut(KeysOf(slots), c)
        decreases |slots| - c
      {
        var smallest;
        smallest, m := SmallestHere(t, c);
        if smallest == t { break; }
        StepDown(t, smallest, c, m);
        c := m;
      }
      assert Distinct(slots);
      ChildrenInOrder(KeysOf(slots), c);
    }

    /** heap_remove */
    method Remove(node: Timer?)
      requires Valid() && (nelts > 0 ==> node != null && node in nodes)
      modifies this, nodes`left, nodes`right, nodes`parent
      ensures Valid() && nodes == old(nodes) - {node}
    {
      hide AllLinked;
      hide OrderBut;
      hide OrderBelow;
      hide HeapOrder;
      hide KeysOf;
      if nelts == 0 {
        NothingCovered(slots, nodes);
        return;
      }
      ghost var ss := slots;
      ghost var i := IndexOf(ss, nodes, node);
      LastLeft(ss, nodes);
      var child := DropLast();
      if child == node {
        nodes := nodes - {node};
        return;  // a last node that was the root is already unlinked from `min`
      }
      MoveInto(child, node, ss, i);
    }

    method PutLast(child: Timer, node: Timer, ghost ss: seq<Timer>, ghost i: nat)
      requires Linked() && 0 <= i < |ss| - 1 && slots == ss[..|ss| - 1] && child == ss[|ss| - 1] && node == ss[i]
      requires Distinct(ss) && Among(ss, nodes) && Covered(ss, nodes) && HeapOrder(KeysOf(ss))
      modifies this, nodes`left, nodes`right, nodes`parent
      ensures Linked() && Covered(slots, nodes) && nodes == old(nodes) - {node}
      ensures i < |slots| && slots[i] == child && OrderBut(KeysOf(slots), i)
    {
      hide AllLinked;
      hide Outside;
      hide OrderBut;
      hide HeapOrder;
      hide KeysOf;
      hide Covered;
      LastMoved(ss, nodes, i);
      LastLeft(ss, nodes);
      assert child in nodes;
      hide Distinct;
      hide Among;
      ghost var keys := KeysOf(slots[i := child]);
      Replace(child, node, i);
      nodes := nodes - {node};
      assert KeysOf(slots) == keys;
    }

    /** Replace the node to be deleted by the last one, and restore the order. */
    method MoveInto(child: Timer, node: Timer, ghost ss: seq<Timer>, ghost i: nat)
      requires Linked() && 0 <= i < |ss| - 1 && slots == ss[..|ss| - 1] && child == ss[|ss| - 1] && node == ss[i]
      requires Distinct(ss) && Among(ss, nodes) && Covered(ss, nodes) && HeapOrder(KeysOf(ss))
      modifies this, nodes`left, nodes`right, nodes`parent
      ensures Valid() && nodes == old(nodes) - {node}
    {
      hide AllLinked;
      hide Distinct;
      hide Among;
      hide OrderBut;
      hide OrderBelow;
      hide HeapOrder;
      hide KeysOf;
      hide Covered;
      PutLast(child, node, ss, i);
      ghost var c := WalkDown(child, i);
      WalkUp(child, c);
    }

    /** heap_dequeue */
    method Dequeue()
      requires Valid()
      modifies this, nodes`left, nodes`right, nodes`parent
      ensures Valid() && nodes == old(nodes) - {old(min)}
    {
      MinIsNode();
      Remove(min);
    }

    lemma MinIsNode()
      requires Valid()
      ensures nelts > 0 ==> min != null && min in nodes
      ensures nelts == 0 ==> min == null && nodes == {}
      ensures nelts > 0 ==> forall t :: t in nodes ==> !Less(KeyOf(t), KeyOf(min))
    {
      if nelts == 0 { NothingCovered(slots, nodes); }
      forall t | t in nodes ensures nelts > 0 && !Less(KeyOf(t), KeyOf(min)) {
        var i := IndexOf(slots, nodes, t);
        RootIsLeast(KeysOf(slots), i);
      }
    }

    lemma LinkedParts(t: Timer)
      requires Linked() && t !in nodes
      ensures nelts == |slots| && Distinct(slots) && Among(slots, nodes) && t !in slots && min == At(slots, 0)
      ensures |slots| == 0 ==> At(slots, 0) == null && At(slots, Up(0)) == null
    {
    }

    lemma ParentLink(i: nat)
      requires Among(slots, nodes) && i <= |slots|
      ensures LinkTo(slots, i).Nodes() <= nodes && (i == 0 ==> LinkTo(slots, i) == AtMin)
    {
    }

    lemma DerefSlot(i: nat)
      requires Linked() && i <= |slots|
      ensures Deref(LinkTo(slots, i)) == At(slots, i)
    {
      if i > 0 { assert LinksOk(slots, Up(i)); }
    }
  }

  /** The links once t hangs below the slots; the lists are the slots' links before. */
  ghost predicate LinkedLast(slots: seq<Timer>, t: Timer, lefts: seq<Timer?>, rights: seq<Timer?>, parents: seq<Timer?>)
    requires |lefts| == |rights| == |parents| == |slots|
    reads t, slots`left, slots`right, slots`parent
  {
    && t.left == null && t.right == null && t.parent == At(slots, Up(|slots|))
    && forall i :: 0 <= i < |slots| ==>
         && slots[i].left == (if 2 * i + 1 == |slots| then t else lefts[i])
         && slots[i].right == (if 2 * i + 2 == |slots| then t else rights[i])
         && slots[i].parent == parents[i]
  }

  /** Node n's children are the nodes 2n and 2n + 1. */
  lemma LinkBelow(slots: seq<Timer>, n: nat, bit: nat)
    requires 1 <= n && bit < 2 && 2 * n + bit - 1 <= |slots|
    ensures LinkTo(slots, 2 * n + bit - 1) == if bit == 1 then RightOf(slots[n - 1]) else LeftOf(slots[n - 1])
    ensures Up(2 * n + bit - 1) == n - 1
  {
  }

  lemma LinkAtRoot(slots: seq<Timer>)
    ensures LinkTo(slots, 0) == AtMin
  {
  }

  lemma AppendedLinks(slots: seq<Timer>, t: Timer, lefts: seq<Timer?>, rights: seq<Timer?>, parents: seq<Timer?>)
    requires |lefts| == |rights| == |parents| == |slots|
    requires ChildLinks(slots, lefts, 1) && ChildLinks(slots, rights, 2) && ParentLinks(slots, parents)
    requires LinkedLast(slots, t, lefts, rights, parents)
    ensures AllLinked(slots + [t])
  {
    hide At;
    var n := |slots|;
    forall i | 0 <= i <= n ensures LinksOk(slots + [t], i) {
      AtAppend(slots, t, 2 * i + 1);
      AtAppend(slots, t, 2 * i + 2);
      AtAppend(slots, t, Up(i));
    }
  }

  lemma DistinctAppend(slots: seq<Timer>, nodes: set<Timer>, t: Timer)
    requires Distinct(slots) && Among(slots, nodes) && t !in nodes
    ensures Distinct(slots + [t]) && Among(slots + [t], nodes + {t})
  {
  }

  ghost predicate Covered(slots: seq<Timer>, nodes: set<Timer>) {
    forall t :: t in nodes ==> t in slots
  }

  lemma CoveredAppend(slots: seq<Timer>, nodes: set<Timer>, t: Timer)
    requires Covered(slots, nodes)
    ensures Covered(slots + [t], nodes + {t})
  {
  }

  lemma CoveredSwap(slots: seq<Timer>, nodes: set<Timer>, p: nat, c: nat)
    requires Covered(slots, nodes) && p < |slots| && c < |slots|
    ensures Covered(Swapped(slots, p, c), nodes)
  {
    forall t | t in nodes ensures t in Swapped(slots, p, c) {
      var i :| 0 <= i < |slots| && slots[i] == t;
      var j := if i == p then c else if i == c then p else i;
      SwapAt(slots, p, c, j);
      assert Swapped(slots, p, c)[j] == t;
    }
  }

  lemma KeysSwap(slots: seq<Timer>, p: nat, c: nat)
    requires p < |slots| && c < |slots|
    ensures KeysOf(Swapped(slots, p, c)) == Swapped(KeysOf(slots), p, c)
  {
    hide Swapped;
    forall i | 0 <= i < |slots| ensures KeysOf(Swapped(slots, p, c))[i] == Swapped(KeysOf(slots), p, c)[i] {
      SwapAt(slots, p, c, i);
      SwapAt(KeysOf(slots), p, c, i);
    }
  }

  /** A node added at the end may be out of order with its parent only. */
  lemma LastOutOfOrder(slots: seq<Timer>, t: Timer)
    requires HeapOrder(KeysOf(slots))
    ensures OrderBelow(KeysOf(slots + [t]), |slots|)
  {
    assert (slots + [t])[..|slots|] == slots;
    AppendOrder(KeysOf(slots), KeyOf(t));
  }

  /** The links of all slots but the last once that is unlinked. */
  ghost predicate UnlinkedLast(slots: seq<Timer>, lefts: seq<Timer?>, rights: seq<Timer?>, parents: seq<Timer?>)
    requires |lefts| == |rights| == |parents| == |slots|
    reads slots`left, slots`right, slots`parent
  {
    forall i :: 0 <= i < |slots| - 1 ==>
      && slots[i].left == (if 2 * i + 1 == |slots| - 1 then null else lefts[i])
      && slots[i].right == (if 2 * i + 2 == |slots| - 1 then null else rights[i])
      && slots[i].parent == parents[i]
  }

  lemma DroppedLinks(slots: seq<Timer>, lefts: seq<Timer?>, rights: seq<Timer?>, parents: seq<Timer?>)
    requires |lefts| == |rights| == |parents| == |slots| > 0
    requires ChildLinks(slots, lefts, 1) && ChildLinks(slots, rights, 2) && ParentLinks(slots, parents)
    requires UnlinkedLast(slots, lefts, rights, parents)
    ensures AllLinked(slots[..|slots| - 1])
  {
    hide At;
    var n := |slots| - 1;
    forall i | 0 <= i < n ensures LinksOk(slots[..n], i) {
      AtPrefix(slots, 2 * i + 1);
      AtPrefix(slots, 2 * i + 2);
      AtPrefix(slots, Up(i));
    }
  }

  lemma AtPrefix(slots: seq<Timer>, i: int)
    requires |slots| > 0
    ensures At(slots[..|slots| - 1], i) == if i == |slots| - 1 then null else At(slots, i)
  {
  }

  lemma DistinctPrefix(slots: seq<Timer>, nodes: set<Timer>)
    requires Distinct(slots) && Among(slots, nodes) && |slots| > 0
    ensures Distinct(slots[..|slots| - 1]) && Among(slots[..|slots| - 1], nodes)
  {
  }

  /** The links once t has taken the place of slot i. */
  ghost predicate TakenOver(slots: seq<Timer>, t: Timer, i: nat, lefts: seq<Timer?>, rights: seq<Timer?>,
                            parents: seq<Timer?>)
    requires |lefts| == |rights| == |parents| == |slots| && i < |slots|
    reads t, slots`left, slots`right, slots`parent
  {
    && t.left == lefts[i] && t.right == rights[i] && t.parent == parents[i]
    && forall j :: 0 <= j < |slots| && j != i ==>
         && slots[j].left == (if 2 * j + 1 == i then t else lefts[j])
         && slots[j].right == (if 2 * j + 2 == i then t else rights[j])
         && slots[j].parent == (if Up(j) == i then t else parents[j])
  }

  lemma ReplacedLinks(slots: seq<Timer>, t: Timer, i: nat, lefts: seq<Timer?>, rights: seq<Timer?>,
                      parents: seq<Timer?>)
    requires |lefts| == |rights| == |parents| == |slots| && i < |slots|
    requires ChildLinks(slots, lefts, 1) && ChildLinks(slots, rights, 2) && ParentLinks(slots, parents)
    requires TakenOver(slots, t, i, lefts, rights, parents)
    ensures AllLinked(slots[i := t])
  {
    hide At;
    var moved := slots[i := t];
    forall j | 0 <= j < |moved| ensures LinksOk(moved, j) {
      AtUpdate(slots, i, t, 2 * j + 1);
      AtUpdate(slots, i, t, 2 * j + 2);
      AtUpdate(slots, i, t, Up(j));
    }
  }

  lemma AtUpdate(slots: seq<Timer>, i: nat, t: Timer, j: int)
    requires i < |slots|
    ensures At(slots[i := t], j) == if i == j then t else At(slots, j)
  {
  }

  lemma DistinctUpdate(slots: seq<Timer>, nodes: set<Timer>, i: nat, t: Timer)
    requires Distinct(slots) && Among(slots, nodes) && i < |slots| && Outside(slots, t) && t in nodes
    ensures Distinct(slots[i := t]) && Among(slots[i := t], nodes)
  {
  }

  lemma NothingCovered(slots: seq<Timer>, nodes: set<Timer>)
    requires Covered(slots, nodes) && slots == []
    ensures nodes == {}
  {
  }

  lemma IndexOf(slots: seq<Timer>, nodes: set<Timer>, t: Timer) returns (i: nat)
    requires Covered(slots, nodes) && t in nodes
    ensures i < |slots| && slots[i] == t
  {
    i :| i < |slots| && slots[i] == t;
  }

  /** The slots without the last one. */
  lemma LastLeft(slots: seq<Timer>, nodes: set<Timer>)
    requires Distinct(slots) && Among(slots, nodes) && Covered(slots, nodes) && HeapOrder(KeysOf(slots)) && |slots| > 0
    ensures var last := slots[|slots| - 1]; var rest := slots[..|slots| - 1];
            Among(rest, nodes - {last}) && Covered(rest, nodes - {last}) && HeapOrder(KeysOf(rest))
                && Outside(rest, last)
  {
    var n := |slots| - 1;
    assert slots == slots[..n] + [slots[n]];
    assert KeysOf(slots[..n]) == KeysOf(slots)[..n];
    PrefixOrder(KeysOf(slots), n);
  }

  lemma LastMovedOrder(slots: seq<Timer>, nodes: set<Timer>, i: nat)
    requires Distinct(slots) && Among(slots, nodes) && Covered(slots, nodes) && HeapOrder(KeysOf(slots))
    requires i < |slots| - 1
    ensures OrderBut(KeysOf(slots[..|slots| - 1][i := slots[|slots| - 1]]), i)
  {
    hide Distinct;
    hide Among;
    hide Covered;
    hide HeapOrder;
    hide OrderBut;
    var n := |slots| - 1;
    var rest := slots[..n];
    LastLeft(slots, nodes);
    assert KeysOf(rest[i := slots[n]]) == KeysOf(rest)[i := KeyOf(slots[n])];
    ReplaceOrder(KeysOf(rest), i, KeyOf(slots[n]));
  }

  /** The last node in the place of slot i. */
  lemma LastMoved(slots: seq<Timer>, nodes: set<Timer>, i: nat)
    requires Distinct(slots) && Among(slots, nodes) && Covered(slots, nodes) && HeapOrder(KeysOf(slots))
    requires i < |slots| - 1
    ensures var moved := slots[..|slots| - 1][i := slots[|slots| - 1]];
            && Among(moved, nodes - {slots[i]}) && Covered(moved, nodes - {slots[i]})
            && OrderBut(KeysOf(moved), i)
  {
    hide KeysOf;
    hide HeapOrder;
    hide OrderBut;
    LastMovedOrder(slots, nodes, i);
    var n := |slots| - 1;
    var moved := slots[..n][i := slots[n]];
    forall t | t in nodes - {slots[i]} ensures t in moved {
      var j :| 0 <= j < |slots| && slots[j] == t;
      assert moved[if j == n then i else j] == t;
    }
  }

  lemma AtAppend(slots: seq<Timer>, t: Timer, i: int)
    ensures At(slots + [t], i) == if i == |slots| then t else At(slots, i)
    ensures i > |slots| ==> At(slots, i) == null
  {
  }

  /** A struct heap_node**: the root pointer or a child pointer. */
  datatype Link = AtMin | LeftOf(t: Timer) | RightOf(t: Timer) {
    ghost function Nodes(): set<Timer> { if AtMin? then {} else {t} }
  }

  /** The pointer that points to slot i, or would. */
  ghost function LinkTo(slots: seq<Timer>, i: nat): Link
    requires i <= |slots|
  {
    if i == 0 then AtMin else if i % 2 == 1 then LeftOf(slots[Up(i)]) else RightOf(slots[Up(i)])
  }

  /** Exchanged nodes with exchanged links are linked as before. */
  lemma ListsFollow(slots: seq<Timer>, lefts: seq<Timer?>, rights: seq<Timer?>, parents: seq<Timer?>, p: nat, c: nat)
    requires Distinct(slots) && 0 < c < |slots| && p == Up(c)
    requires ChildLinks(slots, lefts, 1) && ChildrenMoved(slots, lefts, Lefts(slots), p, c, 1)
    requires ChildLinks(slots, rights, 2) && ChildrenMoved(slots, rights, Rights(slots), p, c, 2)
    requires ParentLinks(slots, parents) && ParentsMoved(slots, parents, Parents(slots), p, c)
    ensures AllLinked(Swapped(slots, p, c)) && Distinct(Swapped(slots, p, c))
    ensures forall nodes :: Among(slots, nodes) ==> Among(Swapped(slots, p, c), nodes)
  {
    hide AllLinked;
    hide ChildrenMoved;
    hide ParentsMoved;
    hide ChildLinks;
    hide ParentLinks;
    hide Lefts;
    hide Rights;
    hide Parents;
    hide Distinct;
    ChildrenFollow(slots, lefts, Lefts(slots), p, c, 1);
    ChildrenFollow(slots, rights, Rights(slots), p, c, 2);
    ParentsFollow(slots, parents, Parents(slots), p, c);
    ListsSwap(slots, p, c);
    LinkLists(Swapped(slots, p, c));
    DistinctSwap(slots, p, c);
  }
}
