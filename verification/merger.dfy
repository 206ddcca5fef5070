/** MergingIterator (table/merger.cc): one cursor over the union of sorted children,
    for any mix of seeks, forward and backward moves. */
module Merger {
  import opened InternalKeys
  import opened Versions

  ghost function Union(children: seq<seq<Entry>>): set<Entry> { set es, e | es in children && e in es :: e }

  // ---- the cursor being refined, on a flat set of entries ----

  ghost predicate FirstAfter(all: set<Entry>, key: Entry, r: Option<Entry>) {
    if r.None? then forall e :: e in all ==> !Before(key, e)
    else r.value in all && Before(key, r.value) && forall e :: e in all && Before(key, e) ==> AtOrBefore(r.value, e)
  }

  ghost predicate FirstFrom(all: set<Entry>, key: Entry, r: Option<Entry>) {
    if r.None? then forall e :: e in all ==> Before(e, key)
    else r.value in all && !Before(r.value, key) && forall e :: e in all && !Before(e, key) ==> AtOrBefore(r.value, e)
  }

  ghost predicate LastBefore(all: set<Entry>, key: Entry, r: Option<Entry>) {
    if r.None? then forall e :: e in all ==> !Before(e, key)
    else r.value in all && Before(r.value, key) && forall e :: e in all && Before(e, key) ==> AtOrBefore(e, r.value)
  }

  ghost predicate Least(all: set<Entry>, r: Option<Entry>) {
    if r.None? then all == {} else r.value in all && forall e :: e in all ==> AtOrBefore(r.value, e)
  }

  ghost predicate Greatest(all: set<Entry>, r: Option<Entry>) {
    if r.None? then all == {} else r.value in all && forall e :: e in all ==> AtOrBefore(e, r.value)
  }

  lemma BeforeIsEarlier(sorted: seq<Entry>, i: nat, j: nat)
    requires Sorted(sorted) && i < |sorted| && j < |sorted| && Before(sorted[i], sorted[j])
    ensures i < j
  {
  }

  /** On the sorted list of all entries the moves are index arithmetic. */
  lemma MovesAreIndexSteps(sorted: seq<Entry>, i: nat, next: Option<Entry>, prev: Option<Entry>)
    requires Sorted(sorted) && i < |sorted|
    requires FirstAfter(Elements(sorted), sorted[i], next) && LastBefore(Elements(sorted), sorted[i], prev)
    ensures next == if i + 1 < |sorted| then Some(sorted[i + 1]) else None
    ensures prev == if i > 0 then Some(sorted[i - 1]) else None
  {
    if i + 1 < |sorted| {
      assert sorted[i + 1] in Elements(sorted) && Before(sorted[i], sorted[i + 1]);
      var j :| 0 <= j < |sorted| && sorted[j] == next.value;
      BeforeIsEarlier(sorted, i, j);
    }
    if i > 0 {
      assert sorted[i - 1] in Elements(sorted) && Before(sorted[i - 1], sorted[i]);
      var j :| 0 <= j < |sorted| && sorted[j] == prev.value;
      BeforeIsEarlier(sorted, j, i);
    }
  }

  // ---- one child: a cursor on a sorted run; |es| is the invalid position ----

  predicate ValidAt(es: seq<Entry>, p: nat) { p < |es| }

  function PrevPos(es: seq<Entry>, p: nat): nat { if p == 0 then |es| else p - 1 }

  function LastPos(es: seq<Entry>): nat { if es == [] then 0 else |es| - 1 }

  /** Position of the first entry after `key`. */
  ghost predicate PosAfter(es: seq<Entry>, key: Entry, p: nat) {
    && p <= |es|
    && (forall i :: 0 <= i < p ==> AtOrBefore(es[i], key))
    && forall i :: p <= i < |es| ==> Before(key, es[i])
  }

  ghost predicate PosFrom(es: seq<Entry>, key: Entry, p: nat) {
    && p <= |es|
    && (forall i :: 0 <= i < p ==> Before(es[i], key))
    && forall i :: p <= i < |es| ==> AtOrBefore(key, es[i])
  }

  /** Position of the last entry before `key`, invalid if there is none. */
  ghost predicate PosBefore(es: seq<Entry>, key: Entry, p: nat) {
    && p <= |es|
    && (if p < |es| then (forall i :: 0 <= i <= p ==> Before(es[i], key))
        && (forall i :: p < i < |es| ==> AtOrBefore(key, es[i]))
        else forall i :: 0 <= i < |es| ==> AtOrBefore(key, es[i]))
  }

  ghost predicate PosUpTo(es: seq<Entry>, key: Entry, p: nat) {
    && p <= |es|
    && (if p < |es| then (forall i :: 0 <= i <= p ==> AtOrBefore(es[i], key))
        && (forall i :: p < i < |es| ==> Before(key, es[i]))
        else forall i :: 0 <= i < |es| ==> Before(key, es[i]))
  }

  /** No two children hold the same internal key. */
  ghost predicate DistinctKeys(children: seq<seq<Entry>>) {
    forall i, j, a, b ::
      0 <= i < |children| && 0 <= j < |children| && i != j && a in children[i] && b in children[j] ==>
        Before(a, b) || Before(b, a)
  }

  ghost predicate SortedChildren(children: seq<seq<Entry>>) {
    DistinctKeys(children) && forall i :: 0 <= i < |children| ==> Sorted(children[i])
  }

  ghost predicate AmongPositions(children: seq<seq<Entry>>, pos: seq<nat>, e: Entry)
    requires |pos| == |children|
  {
    exists i :: 0 <= i < |children| && ValidAt(children[i], pos[i]) && children[i][pos[i]] == e
  }

  lemma PositionsInUnion(children: seq<seq<Entry>>, pos: seq<nat>, e: Entry)
    requires |pos| == |children| && AmongPositions(children, pos, e)
    ensures e in Union(children)
  {
    var i :| 0 <= i < |children| && ValidAt(children[i], pos[i]) && children[i][pos[i]] == e;
    assert children[i] in children && e in children[i];
  }

  /** `cur` is the least (greatest) of the keys the children are at. */
  ghost predicate SmallestAt(children: seq<seq<Entry>>, pos: seq<nat>, cur: Option<Entry>)
    requires |pos| == |children|
  {
    && (cur.None? ==> forall i :: 0 <= i < |children| ==> !ValidAt(children[i], pos[i]))
    && (cur.Some? ==> AmongPositions(children, pos, cur.value))
    && (cur.Some? ==> forall i :: 0 <= i < |children| && ValidAt(children[i], pos[i]) ==>
        AtOrBefore(cur.value, children[i][pos[i]]))
  }

  ghost predicate LargestAt(children: seq<seq<Entry>>, pos: seq<nat>, cur: Option<Entry>)
    requires |pos| == |children|
  {
    && (cur.None? ==> forall i :: 0 <= i < |children| ==> !ValidAt(children[i], pos[i]))
    && (cur.Some? ==> AmongPositions(children, pos, cur.value))
    && (cur.Some? ==> forall i :: 0 <= i < |children| && ValidAt(children[i], pos[i]) ==>
        AtOrBefore(children[i][pos[i]], cur.value))
  }

  /** Children all at their first entry satisfying an upward-closed test: the least
      of them is the first such entry of the union. */
  lemma ForwardFound(children: seq<seq<Entry>>, pos: seq<nat>, cur: Option<Entry>)
    requires SortedChildren(children) && |pos| == |children| && SmallestAt(children, pos, cur)
    requires forall i :: 0 <= i < |children| ==> pos[i] <= |children[i]|
    ensures cur.Some? ==> cur.value in Union(children)
    ensures forall i, p :: 0 <= i < |children| && pos[i] <= p < |children[i]| ==>
              cur.Some? && AtOrBefore(cur.value, children[i][p])
  {
    if cur.Some? { PositionsInUnion(children, pos, cur.value); }
    forall i, p | 0 <= i < |children| && pos[i] <= p < |children[i]|
      ensures cur.Some? && AtOrBefore(cur.value, children[i][p])
    { assert ValidAt(children[i], pos[i]); }
  }

  lemma BackwardFound(children: seq<seq<Entry>>, pos: seq<nat>, cur: Option<Entry>)
    requires SortedChildren(children) && |pos| == |children| && LargestAt(children, pos, cur)
    requires forall i :: 0 <= i < |children| ==> pos[i] <= |children[i]|
    ensures cur.Some? ==> cur.value in Union(children)
    ensures forall i, p :: 0 <= i < |children| && 0 <= p <= pos[i] < |children[i]| ==>
              cur.Some? && AtOrBefore(children[i][p], cur.value)
  {
    if cur.Some? { PositionsInUnion(children, pos, cur.value); }
    forall i, p | 0 <= i < |children| && 0 <= p <= pos[i] < |children[i]|
      ensures cur.Some? && AtOrBefore(children[i][p], cur.value)
    { assert ValidAt(children[i], pos[i]); }
  }

  /** The iterator's invariant on plain values. */
  ghost predicate Aligned(children: seq<seq<Entry>>, pos: seq<nat>, cur: Option<Entry>, forward: bool)
    requires |pos| == |children|
  {
    cur.Some? ==> forall i :: 0 <= i < |children| ==>
      if forward then PosFrom(children[i], cur.value, pos[i]) else PosUpTo(children[i], cur.value, pos[i])
  }

  lemma AfterFound(children: seq<seq<Entry>>, pos: seq<nat>, key: Entry, cur: Option<Entry>)
    requires SortedChildren(children) && |pos| == |children| && SmallestAt(children, pos, cur)
    requires forall i :: 0 <= i < |children| ==> PosAfter(children[i], key, pos[i])
    ensures FirstAfter(Union(children), key, cur) && Aligned(children, pos, cur, true)
  {
    ForwardFound(children, pos, cur);
    forall e | e in Union(children) && Before(key, e) ensures cur.Some? && AtOrBefore(cur.value, e) {
      var i :| 0 <= i < |children| && e in children[i];
      var p :| 0 <= p < |children[i]| && children[i][p] == e;
      assert pos[i] <= p;
    }
  }

  lemma FromFound(children: seq<seq<Entry>>, pos: seq<nat>, key: Entry, cur: Option<Entry>)
    requires SortedChildren(children) && |pos| == |children| && SmallestAt(children, pos, cur)
    requires forall i :: 0 <= i < |children| ==> PosFrom(children[i], key, pos[i])
    ensures FirstFrom(Union(children), key, cur) && Aligned(children, pos, cur, true)
  {
    ForwardFound(children, pos, cur);
    forall e | e in Union(children) && !Before(e, key) ensures cur.Some? && AtOrBefore(cur.value, e) {
      var i :| 0 <= i < |children| && e in children[i];
      var p :| 0 <= p < |children[i]| && children[i][p] == e;
      assert pos[i] <= p;
    }
  }

  lemma BeforeFound(children: seq<seq<Entry>>, pos: seq<nat>, key: Entry, cur: Option<Entry>)
    requires SortedChildren(children) && |pos| == |children| && LargestAt(children, pos, cur)
    requires forall i :: 0 <= i < |children| ==> PosBefore(children[i], key, pos[i])
    ensures LastBefore(Union(children), key, cur) && Aligned(children, pos, cur, false)
  {
    BackwardFound(children, pos, cur);
    forall e | e in Union(children) && Before(e, key) ensures cur.Some? && AtOrBefore(e, cur.value) {
      var i :| 0 <= i < |children| && e in children[i];
      var p :| 0 <= p < |children[i]| && children[i][p] == e;
      assert pos[i] < |children[i]| && p <= pos[i];
    }
  }

  lemma FirstFound(children: seq<seq<Entry>>, pos: seq<nat>, cur: Option<Entry>)
    requires SortedChildren(children) && |pos| == |children| && SmallestAt(children, pos, cur)
    requires forall i :: 0 <= i < |children| ==> pos[i] == 0
    ensures Least(Union(children), cur) && Aligned(children, pos, cur, true)
  {
    ForwardFound(children, pos, cur);
    forall e | e in Union(children) ensures cur.Some? && AtOrBefore(cur.value, e) {
      var i :| 0 <= i < |children| && e in children[i];
    }
  }

  lemma LastFound(children: seq<seq<Entry>>, pos: seq<nat>, cur: Option<Entry>)
    requires SortedChildren(children) && |pos| == |children| && LargestAt(children, pos, cur)
    requires forall i :: 0 <= i < |children| ==> pos[i] == LastPos(children[i])
    ensures Greatest(Union(children), cur) && Aligned(children, pos, cur, false)
  {
    BackwardFound(children, pos, cur);
    forall e | e in Union(children) ensures cur.Some? && AtOrBefore(e, cur.value) {
      var i :| 0 <= i < |children| && e in children[i];
    }
  }

  // ---- positions of the children that are not current ----

  lemma SeekIsFrom(es: seq<Entry>, key: Entry)
    requires Sorted(es)
    ensures PosFrom(es, key, SeekIndex(es, key))
  {
    var p := SeekIndex(es, key);
    assert p < |es| ==> AtOrBefore(key, es[p]);
  }

  /** Another child never holds the key itself. */
  lemma OtherChild(children: seq<seq<Entry>>, cur: nat, i: nat, key: Entry, p: nat)
    requires SortedChildren(children) && cur < |children| && i < |children| && i != cur && key in children[cur]
    ensures PosFrom(children[i], key, p) ==> PosAfter(children[i], key, p)
    ensures PosUpTo(children[i], key, p) ==> PosBefore(children[i], key, p)
  {
    forall q | 0 <= q < |children[i]| ensures Before(children[i][q], key) || Before(key, children[i][q]) {
      assert children[i][q] in children[i];
    }
  }

  /** Stepping the current child off the key. */
  lemma CurrentChild(es: seq<Entry>, p: nat)
    requires Sorted(es) && p < |es|
    ensures PosAfter(es, es[p], p + 1) && PosBefore(es, es[p], PrevPos(es, p))
  {
  }

  predicate SameKey(a: Entry, b: Entry) { a.ukey == b.ukey && PackedTag(a) == PackedTag(b) }

  /** Turning round: Seek, then one step on if the key itself was found. */
  lemma PastKey(es: seq<Entry>, key: Entry)
    requires Sorted(es)
    ensures var p := SeekIndex(es, key); PosAfter(es, key, if ValidAt(es, p) && SameKey(key, es[p]) then p + 1 else p)
  {
    SeekIsFrom(es, key);
  }

  /** Turning round: Seek, then one step back, or to the last entry. */
  lemma TurnBack(es: seq<Entry>, key: Entry)
    requires Sorted(es)
    ensures var p := SeekIndex(es, key); PosBefore(es, key, if ValidAt(es, p) then PrevPos(es, p) else LastPos(es))
  {
    SeekIsFrom(es, key);
  }

  datatype Direction = Forward | Reverse

  class MergingIterator {
    const children: seq<seq<Entry>>
    var pos: seq<nat>
    var current: Option<nat>
    var direction: Direction

    ghost predicate Shape()
      reads this
    {
      && SortedChildren(children) && |pos| == |children|
         && (forall i :: 0 <= i < |children| ==> pos[i] <= |children[i]|)
      && (current.Some? ==> current.value < |children| && ValidAt(children[current.value], pos[current.value]))
    }

    /** The key under the cursor. */
    ghost function Current(): Option<Entry>
      reads this
      requires Shape()
    {
      if current.None? then None else Some(children[current.value][pos[current.value]])
    }

    /** Moving forward, every child is at its first entry not before the key; moving
        backward, at its last entry not after it. */
    ghost predicate Valid()
      reads this
    {
      Shape() && Aligned(children, pos, Current(), direction == Forward)
    }

    constructor (children: seq<seq<Entry>>)
      requires SortedChildren(children)
      ensures Valid() && this.children == children && current == None
    {
      this.children := children;
      pos := seq(|children|, i requires 0 <= i < |children| => |children[i]|);
      current := None;
      direction := Forward;
    }

    /** FindSmallest: the first of the least keys the children are at. */
    method FindSmallest()
      requires Shape()
      modifies this`current
      ensures Shape() && SmallestAt(children, pos, Current())
    {
      current := None;
      for i := 0 to |children|
        invariant Shape()
        invariant current.None? ==> forall j :: 0 <= j < i ==> !ValidAt(children[j], pos[j])
        invariant current.Some? ==> forall j :: 0 <= j < i && ValidAt(children[j], pos[j]) ==>
                    AtOrBefore(Current().value, children[j][pos[j]])
      {
        if ValidAt(children[i], pos[i]) {
          if current.None? || Before(children[i][pos[i]], children[current.value][pos[current.value]]) {
            current := Some(i);
          }
        }
      }
    }

    /** FindLargest: the last of the greatest keys. */
    method FindLargest()
      requires Shape()
      modifies this`current
      ensures Shape() && LargestAt(children, pos, Current())
    {
      current := None;
      for i := |children| downto 0
        invariant Shape()
        invariant current.None? ==> forall j :: i <= j < |children| ==> !ValidAt(children[j], pos[j])
        invariant current.Some? ==> forall j :: i <= j < |children| && ValidAt(children[j], pos[j]) ==>
                    AtOrBefore(children[j][pos[j]], Current().value)
      {
        if ValidAt(children[i], pos[i]) {
          if current.None? || Before(children[current.value][pos[current.value]], children[i][pos[i]]) {
            current := Some(i);
          }
        }
      }
    }

    method SeekToFirst()
      requires Shape()
      modifies this
      ensures Valid() && Least(Union(children), Current())
    {
      pos := seq(|children|, _ => 0);
      current := None;
      FindSmallest();
      direction := Forward;
      FirstFound(children, pos, Current());
    }

    method SeekToLast()
      requires Shape()
      modifies this
      ensures Valid() && Greatest(Union(children), Current())
    {
      pos := seq(|children|, i requires 0 <= i < |children| => LastPos(children[i]));
      current := None;
      FindLargest();
      direction := Reverse;
      LastFound(children, pos, Current());
    }

    method Seek(target: Entry)
      requires Shape()
      modifies this
      ensures Valid() && FirstFrom(Union(children), target, Current())
    {
      pos := seq(|children|, i requires 0 <= i < |children| => SeekIndex(children[i], target));
      current := None;
      forall i | 0 <= i < |children| ensures PosFrom(children[i], target, pos[i]) { SeekIsFrom(children[i], target); }
      FindSmallest();
      direction := Forward;
      FromFound(children, pos, target, Current());
    }

    /** Position every child but the current one after the key. */
    method TurnForward()
      requires Valid() && current.Some?
      modifies this`pos
      ensures Shape() && Current() == old(Current())
      ensures forall j :: 0 <= j < |children| && j != current.value ==> PosAfter(children[j], Current().value, pos[j])
    {
      var cur := current.value;
      var key := children[cur][pos[cur]];
      for i := 0 to |children|
        invariant Shape() && pos[cur] == old(pos)[cur]
        invariant forall j :: 0 <= j < i && j != cur ==> PosAfter(children[j], key, pos[j])
      {
        if i != cur {
          var p := SeekIndex(children[i], key);
          PastKey(children[i], key);
          if ValidAt(children[i], p) && SameKey(key, children[i][p]) { p := p + 1; }
          pos := pos[i := p];
        }
      }
    }

    method TurnBackward()
      requires Valid() && current.Some?
      modifies this`pos
      ensures Shape() && Current() == old(Current())
      ensures forall j :: 0 <= j < |children| && j != current.value ==> PosBefore(children[j], Current().value, pos[j])
    {
      var cur := current.value;
      var key := children[cur][pos[cur]];
      for i := 0 to |children|
        invariant Shape() && pos[cur] == old(pos)[cur]
        invariant forall j :: 0 <= j < i && j != cur ==> PosBefore(children[j], key, pos[j])
      {
        if i != cur {
          var p := SeekIndex(children[i], key);
          TurnBack(children[i], key);
          pos := pos[i := if ValidAt(children[i], p) then PrevPos(children[i], p) else LastPos(children[i])];
        }
      }
    }

    method Next()
      requires Valid() && current.Some?
      modifies this
      ensures Valid() && FirstAfter(Union(children), old(Current()).value, Current())
    {
      hide Before;
      ghost var key := Current().value;
      var cur := current.value;
      if direction != Forward {
        TurnForward();
        direction := Forward;
      } else {
        forall j | 0 <= j < |children| && j != cur
          ensures PosAfter(children[j], key, pos[j])
        { OtherChild(children, cur, j, key, pos[j]); }
      }
      CurrentChild(children[cur], pos[cur]);
      pos := pos[cur := pos[cur] + 1];
      current := None;
      FindSmallest();
      AfterFound(children, pos, key, Current());
    }

    method Prev()
      requires Valid() && current.Some?
      modifies this
      ensures Valid() && LastBefore(Union(children), old(Current()).value, Current())
    {
      ghost var key := Current().value;
      var cur := current.value;
      if direction != Reverse {
        TurnBackward();
        direction := Reverse;
      } else {
        forall j | 0 <= j < |children| && j != cur
          ensures PosBefore(children[j], key, pos[j])
        { OtherChild(children, cur, j, key, pos[j]); }
      }
      CurrentChild(children[cur], pos[cur]);
      pos := pos[cur := PrevPos(children[cur], pos[cur])];
      current := None;
      FindLargest();
      BeforeFound(children, pos, key, Current());
    }
  }
}
