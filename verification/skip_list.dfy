/** The skip list of the memtable, link by link (db/skiplist.h). */
module SkipLists {
  import opened Lists

  const MAX_HEIGHT := 12

  /** A Node*: null, the head, or the node holding a key. */
  datatype Ref = Null | Head | At(key: real)

  /** The next_ pointers of one level, by node. */
  type Links = map<Ref, Ref>

  predicate Precedes(x: Ref, k: real) { x == Head || (x.At? && x.key < k) }

  /** r points to the first key of the level after node x. */
  ghost predicate NextIn(keys: set<real>, x: Ref, r: Ref) {
    match r
    case Null => forall k :: k in keys ==> !Precedes(x, k)
    case Head => false
    case At(n) => n in keys && Precedes(x, n) && forall k :: k in keys && Precedes(x, k) ==> n <= k
  }

  /** The links join exactly these keys, in order. */
  ghost predicate LevelOk(next: Links, keys: set<real>) {
    forall x: Ref :: x == Head || (x.At? && x.key in keys) ==> x in next && NextIn(keys, x, next[x])
  }

  /** What a thread can see: the links and max_height_; `levels` are the keys linked
      at each level. */
  datatype State = State(next: seq<Links>, maxHeight: nat, levels: seq<set<real>>)

  ghost predicate Valid(s: State) {
    && |s.next| == |s.levels| == MAX_HEIGHT && 1 <= s.maxHeight <= MAX_HEIGHT
    && (forall i :: 0 <= i < MAX_HEIGHT ==> LevelOk(s.next[i], s.levels[i]))
    && (forall i, j :: 0 <= i < j < MAX_HEIGHT ==> s.levels[j] <= s.levels[i])
    && (forall i :: s.maxHeight <= i < MAX_HEIGHT ==> s.levels[i] == {})
  }

  /** Keys are only ever added. */
  ghost predicate Grows(s: State, s': State) {
    && Valid(s) && Valid(s') && s.maxHeight <= s'.maxHeight
    && forall i :: 0 <= i < MAX_HEIGHT ==> s.levels[i] <= s'.levels[i]
  }

  // ---- what a search looks for ----

  ghost predicate FirstFrom(keys: set<real>, target: real, r: Ref) {
    match r
    case Null => forall k :: k in keys ==> k < target
    case Head => false
    case At(n) => n in keys && target <= n && forall k :: k in keys && target <= k ==> n <= k
  }

  ghost predicate LastBefore(keys: set<real>, target: real, x: Ref) {
    match x
    case Null => false
    case Head => forall k :: k in keys ==> target <= k
    case At(n) => n in keys && n < target && forall k :: k in keys && k < target ==> k <= n
  }

  ghost predicate IsLast(keys: set<real>, x: Ref) {
    match x
    case Null => false
    case Head => keys == {}
    case At(n) => n in keys && forall k :: k in keys ==> k <= n
  }

  predicate KeyIsAfterNode(key: real, n: Ref) { n.At? && n.key < key }

  // ---- a search among concurrent stores ----

  /** Where a search is: at node x of a level. */
  datatype Position = Position(x: Ref, level: nat)

  /** Node x is linked at the level and lies before the target. */
  ghost predicate PositionOk(s: State, p: Position, target: real)
    requires Valid(s)
  {
    p.level < MAX_HEIGHT && (p.x == Head || (p.x.At? && p.x.key in s.levels[p.level] && p.x.key < target))
  }

  /** One turn of FindGreaterOrEqual's loop: one load, then right, down, or done. */
  predicate Turn(s: State, p: Position, target: real, p': Position) {
    && p.level < |s.next| && p.x in s.next[p.level]
    && var n := s.next[p.level][p.x];
      if KeyIsAfterNode(target, n) then p' == Position(n, p.level) else p.level > 0 && p' == Position(p.x, p.level - 1)
  }

  predicate Returns(s: State, p: Position, target: real, r: Ref) {
    p.level == 0 < |s.next| && p.x in s.next[0] && r == s.next[0][p.x] && !KeyIsAfterNode(target, r)
  }

  /** No load fails: the node a search stands on has a pointer at its level. */
  lemma SearchCanGoOn(s: State, p: Position, target: real)
    requires Valid(s) && PositionOk(s, p, target)
    ensures (exists p' :: Turn(s, p, target, p')) || (exists r :: Returns(s, p, target, r))
  {
    var n := s.next[p.level][p.x];
    if KeyIsAfterNode(target, n) {
      assert Turn(s, p, target, Position(n, p.level));
    } else if p.level > 0 {
      assert Turn(s, p, target, Position(p.x, p.level - 1));
    } else {
      assert Returns(s, p, target, n);
    }
  }

  lemma TurnKeepsPosition(s: State, p: Position, target: real, p': Position)
    requires Valid(s) && PositionOk(s, p, target) && Turn(s, p, target, p')
    ensures PositionOk(s, p', target)
  {
    assert NextIn(s.levels[p.level], p.x, s.next[p.level][p.x]);
  }

  lemma ReturnIsFirst(s: State, p: Position, target: real, r: Ref)
    requires Valid(s) && PositionOk(s, p, target) && Returns(s, p, target, r)
    ensures FirstFrom(s.levels[0], target, r)
  {
    assert NextIn(s.levels[0], p.x, r);
  }

  lemma GrowthKeepsPosition(s: State, s': State, p: Position, target: real)
    requires Grows(s, s') && PositionOk(s, p, target)
    ensures PositionOk(s', p, target)
  {
  }

  /** A search that makes its loads in these states, with any number of stores in
      between; it starts at the head, from any height it has read. */
  ghost predicate Search(states: seq<State>, path: seq<Position>, target: real) {
    && |states| == |path| > 0
    && (forall i :: 0 <= i < |states| - 1 ==> Grows(states[i], states[i + 1]))
    && Valid(states[0]) && path[0].x == Head && path[0].level < MAX_HEIGHT
    && forall i :: 0 <= i < |states| - 1 ==>
         Turn(states[i], path[i], target, path[i + 1])
  }

  lemma {:induction false} SearchStaysLinked(states: seq<State>, path: seq<Position>, target: real, i: nat)
    requires Search(states, path, target) && i < |states|
    ensures Valid(states[i]) && PositionOk(states[i], path[i], target)
  {
    if i > 0 {
      SearchStaysLinked(states, path, target, i - 1);
      TurnKeepsPosition(states[i - 1], path[i - 1], target, path[i]);
      GrowthKeepsPosition(states[i - 1], states[i], path[i], target);
    }
  }

  /** A search among concurrent insertions returns exactly the first key >= target
      linked at the moment of its last load. */
  lemma SearchIsExact(states: seq<State>, path: seq<Position>, target: real, r: Ref)
    requires Search(states, path, target) && Returns(states[|states| - 1], path[|states| - 1], target, r)
    ensures Valid(states[|states| - 1]) && FirstFrom(states[|states| - 1].levels[0], target, r)
  {
    SearchStaysLinked(states, path, target, |states| - 1);
    ReturnIsFirst(states[|states| - 1], path[|states| - 1], target, r);
  }

  // ---- the stores of one insertion ----

  /** Link node `key` at level i after node x: fill in its own pointer, then publish it. */
  function Published(s: State, i: nat, x: Ref, key: real): State
    requires i < |s.next| == |s.levels| && x in s.next[i]
  {
    var filled := s.next[i][At(key) := s.next[i][x]];
    State(s.next[i := filled[x := At(key)]], s.maxHeight, s.levels[i := s.levels[i] + {key}])
  }

  lemma LinkOne(next: Links, keys: set<real>, x: Ref, key: real)
    requires LevelOk(next, keys) && key !in keys && LastBefore(keys, key, x)
    ensures x in next && LevelOk(next[At(key) := next[x]][x := At(key)], keys + {key})
  {
    assert NextIn(keys, x, next[x]);
    var keys' := keys + {key};
    var next' := next[At(key) := next[x]][x := At(key)];
    NewPointers(keys, x, next[x], key);
    forall y: Ref | y == Head || (y.At? && y.key in keys') ensures y in next' && NextIn(keys', y, next'[y]) {
      if y == x {
        assert next'[y] == At(key);
      } else if y == At(key) {
        assert next'[y] == next[x];
      } else {
        assert next'[y] == next[y] && NextIn(keys, y, next[y]);
        OldPointer(keys, x, y, next[y], key);
      }
    }
  }

  /** The two pointers that are stored. */
  lemma NewPointers(keys: set<real>, x: Ref, r: Ref, key: real)
    requires NextIn(keys, x, r) && key !in keys && LastBefore(keys, key, x)
    ensures NextIn(keys + {key}, x, At(key)) && NextIn(keys + {key}, At(key), r)
  {
  }

  lemma OldPointer(keys: set<real>, x: Ref, y: Ref, r: Ref, key: real)
    requires NextIn(keys, y, r) && key !in keys && LastBefore(keys, key, x) && y != x
             && (y == Head || (y.At? && y.key in keys))
    ensures NextIn(keys + {key}, y, r)
  {
  }

  /** A pointer filled in for a node not yet linked at the level is not seen. */
  lemma FillUnseen(next: Links, keys: set<real>, key: real, r: Ref)
    requires LevelOk(next, keys) && key !in keys
    ensures LevelOk(next[At(key) := r], keys)
  {
  }

  lemma FillGrows(s: State, i: nat, key: real, r: Ref)
    requires Valid(s) && i < MAX_HEIGHT && key !in s.levels[i]
    ensures Grows(s, s.(next := s.next[i := s.next[i][At(key) := r]]))
  {
    FillUnseen(s.next[i], s.levels[i], key, r);
  }

  /** The list grows with every single store, provided the levels are linked upwards. */
  lemma PublishGrows(s: State, i: nat, x: Ref, key: real)
    requires Valid(s) && i < s.maxHeight && LastBefore(s.levels[i], key, x) && key !in s.levels[i]
    requires forall j :: 0 <= j < i ==> key in s.levels[j]
    ensures x in s.next[i] && Grows(s, Published(s, i, x, key))
  {
    LinkOne(s.next[i], s.levels[i], x, key);
    var s' := Published(s, i, x, key);
    assert forall j :: 0 <= j < MAX_HEIGHT && j != i ==> s'.next[j] == s.next[j] && s'.levels[j] == s.levels[j];
  }

  /** One pointer of one node has been stored. */
  ghost predicate PointerStored(s: State, s': State, i: nat, x: Ref, r: Ref) {
    i < |s.next| && s'.maxHeight == s.maxHeight && s'.next == s.next[i := s.next[i][x := r]]
  }

  /** What a reader can tell two states apart by: one pointer, or max_height_. */
  ghost predicate OneStore(s: State, s': State) {
    || (s'.next == s.next && s'.levels == s.levels && s'.maxHeight > s.maxHeight)
    || exists i, x, r :: PointerStored(s, s', i, x, r)
  }

  /** States that follow one another by single stores, the list only growing. */
  ghost predicate GrowingRun(states: seq<State>) {
    && (forall i :: 0 <= i < |states| ==> Valid(states[i]))
    && forall i :: 0 <= i < |states| - 1 ==> Grows(states[i], states[i + 1]) && OneStore(states[i], states[i + 1])
  }

  lemma RunGrows(states: seq<State>, s: State)
    requires GrowingRun(states) && states != [] && Grows(states[|states| - 1], s) && OneStore(states[|states| - 1], s)
    ensures GrowingRun(states + [s])
  {
    hide OneStore;
  }

  class SkipList {
    var next: seq<Links>
    var maxHeight: nat
    ghost var levels: seq<set<real>>

    ghost function View(): State
      reads this
    { State(next, maxHeight, levels) }

    constructor ()
      ensures Valid(View()) && levels[0] == {}
    {
      next := seq(MAX_HEIGHT, _ => map[Head := Null]);
      maxHeight := 1;
      levels := seq(MAX_HEIGHT, _ => {});
    }

    /** Keys of a level between node x and the target. */
    static ghost function Between(keys: set<real>, x: Ref, target: real): set<real> {
      set k | k in keys && Precedes(x, k) && k < target
    }

    static lemma MovesCloser(keys: set<real>, x: Ref, n: Ref, target: real)
      requires NextIn(keys, x, n) && n.At? && n.key < target
      ensures |Between(keys, n, target)| < |Between(keys, x, target)|
    {
      assert Between(keys, n, target) <= Between(keys, x, target) - {n.key};
      SubsetSize(Between(keys, n, target), Between(keys, x, target) - {n.key});
    }

    method FindGreaterOrEqual(key: real) returns (node: Ref, prev: seq<Ref>)
      requires Valid(View())
      ensures FirstFrom(levels[0], key, node)
      ensures |prev| == MAX_HEIGHT && forall i :: 0 <= i < maxHeight ==> LastBefore(levels[i], key, prev[i])
    {
      prev := seq(MAX_HEIGHT, _ => Null);
      var x, level := Head, maxHeight - 1;
      while true
        invariant 0 <= level < maxHeight && |prev| == MAX_HEIGHT && PositionOk(View(), Position(x, level), key)
        invariant forall i :: level < i < maxHeight ==> LastBefore(levels[i], key, prev[i])
        decreases level, |Between(levels[level], x, key)|
      {
        var n := next[level][x];
        assert NextIn(levels[level], x, n);
        if KeyIsAfterNode(key, n) {
          MovesCloser(levels[level], x, n, key);
          x := n;
        } else {
          prev := prev[level := x];
          if level == 0 { return n, prev; }
          level := level - 1;
        }
      }
    }

    method FindLessThan(key: real) returns (node: Ref)
      requires Valid(View())
      ensures LastBefore(levels[0], key, node)
    {
      var x, level := Head, maxHeight - 1;
      while true
        invariant 0 <= level < maxHeight && PositionOk(View(), Position(x, level), key)
        decreases level, |Between(levels[level], x, key)|
      {
        var n := next[level][x];
        assert NextIn(levels[level], x, n);
        if n == Null || n.key >= key {
          if level == 0 { return x; }
          level := level - 1;
        } else {
          MovesCloser(levels[level], x, n, key);
          x := n;
        }
      }
    }

    method FindLast() returns (node: Ref)
      requires Valid(View())
      ensures IsLast(levels[0], node)
    {
      var x, level := Head, maxHeight - 1;
      while true
        invariant 0 <= level < maxHeight && (x == Head || (x.At? && x.key in levels[level]))
        decreases level, |Beyond(levels[level], x)|
      {
        var n := next[level][x];
        assert NextIn(levels[level], x, n);
        if n == Null {
          if level == 0 { return x; }
          level := level - 1;
        } else {
          assert Beyond(levels[level], n) <= Beyond(levels[level], x) - {n.key};
          SubsetSize(Beyond(levels[level], n), Beyond(levels[level], x) - {n.key});
          x := n;
        }
      }
    }

    static ghost function Beyond(keys: set<real>, x: Ref): set<real> { set k | k in keys && Precedes(x, k) }

    /** Insert with the height it has drawn.  `run` is what concurrent readers can see:
        one state after every store. */
    method Insert(key: real, height: nat) returns (ghost run: seq<State>)
      requires Valid(View()) && key !in levels[0] && 1 <= height <= MAX_HEIGHT
      modifies this
      ensures Valid(View()) && maxHeight == if height > old(maxHeight) then height else old(maxHeight)
      ensures forall i :: 0 <= i < MAX_HEIGHT ==>
                levels[i] == if i < height then old(levels[i]) + {key} else old(levels[i])
      ensures GrowingRun(run) && run != [] && run[0] == old(View()) && run[|run| - 1] == View()
      ensures |run| == 1 + (if height > old(maxHeight) then 1 else 0) + 2 * height
    {
      run := [View()];
      var _, prev := FindGreaterOrEqual(key);
      prev := Raise(key, height, prev);
      if height > old(maxHeight) { run := Seen(run); }
      ghost var before, n := View(), |run|;
      hide Valid;
      hide Grows;
      hide GrowingRun;
      hide OneStore;
      hide LastBefore;
      for i := 0 to height
        invariant Valid(View()) && GrowingRun(run) && |run| == n + 2 * i && run[0] == old(View())
                  && run[|run| - 1] == View()
        invariant |prev| == MAX_HEIGHT && maxHeight == before.maxHeight && LinkedUpto(before, View(), key, i)
        invariant forall j :: i <= j < height ==> LastBefore(before.levels[j], key, prev[j])
      {
        run := LinkAt(key, i, prev[i], before, run);
      }
    }

    /** The key is linked at the lowest i levels. */
    static ghost predicate LinkedUpto(before: State, s: State, key: real, i: nat) {
      && |before.levels| == |s.levels| == MAX_HEIGHT && key !in before.levels[0]
      && forall j :: 0 <= j < MAX_HEIGHT ==> s.levels[j] == if j < i then before.levels[j] + {key} else before.levels[j]
    }

    /** Before linking, raise max_height_ and let the head precede on the new levels. */
    method Raise(key: real, height: nat, prev: seq<Ref>) returns (prev': seq<Ref>)
      requires Valid(View()) && 1 <= height <= MAX_HEIGHT && |prev| == MAX_HEIGHT
      requires forall i :: 0 <= i < maxHeight ==> LastBefore(levels[i], key, prev[i])
      modifies this`maxHeight
      ensures Grows(old(View()), View()) && maxHeight == (if height > old(maxHeight) then height else old(maxHeight))
      ensures |prev'| == MAX_HEIGHT && forall i :: 0 <= i < height ==> LastBefore(levels[i], key, prev'[i])
    {
      prev' := prev;
      if height > maxHeight {
        for i := maxHeight to height
          invariant |prev'| == MAX_HEIGHT
          invariant forall j :: 0 <= j < i ==> LastBefore(levels[j], key, prev'[j])
        {
          prev' := prev'[i := Head];
        }
        maxHeight := height;
      }
    }

    /** The two stores of one level. */
    method LinkAt(key: real, i: nat, x: Ref, ghost before: State, ghost run: seq<State>)
      returns (ghost run': seq<State>)
      requires Valid(View()) && i < maxHeight && LinkedUpto(before, View(), key, i)
               && LastBefore(before.levels[i], key, x)
      requires Valid(before) && GrowingRun(run) && run != [] && run[|run| - 1] == View()
      modifies this`next, this`levels
      ensures Valid(View()) && LinkedUpto(before, View(), key, i + 1) && maxHeight == old(maxHeight)
      ensures GrowingRun(run') && |run'| == |run| + 2 && run <= run' && run'[|run'| - 1] == View()
    {
      hide LevelOk;
      hide GrowingRun;
      hide LastBefore;
      ghost var now := View();
      KeyNotYet(before, now, key, i);
      PublishGrows(now, i, x, key);
      FillGrows(now, i, key, now.next[i][x]);
      next := next[i := next[i][At(key) := next[i][x]]];
      assert PointerStored(now, View(), i, At(key), now.next[i][x]);
      run' := Seen(run);
      ghost var filled := View();
      next := next[i := next[i][x := At(key)]];
      levels := levels[i := levels[i] + {key}];
      assert View() == Published(now, i, x, key) && PointerStored(filled, View(), i, x, At(key));
      run' := Seen(run');
    }

    static lemma KeyNotYet(before: State, s: State, key: real, i: nat)
      requires Valid(before) && LinkedUpto(before, s, key, i) && i < MAX_HEIGHT
      ensures key !in s.levels[i] && s.levels[i] == before.levels[i]
    {
    }

    /** Record what readers can see now. */
    ghost method Seen(run: seq<State>) returns (run': seq<State>)
      requires GrowingRun(run) && run != [] && Grows(run[|run| - 1], View()) && OneStore(run[|run| - 1], View())
      ensures run' == run + [View()] && GrowingRun(run')
    {
      run' := run + [View()];
      RunGrows(run, View());
    }

    method Contains(key: real) returns (found: bool)
      requires Valid(View())
      ensures found <==> key in levels[0]
    {
      var x, _ := FindGreaterOrEqual(key);
      found := x.At? && x.key == key;
    }
  }

  /** Stepping forwards and stepping back are inverse, although only forward pointers
      are stored. */
  lemma PrevUndoesNext(keys: set<real>, a: real, b: real)
    requires a in keys && b in keys
    ensures NextIn(keys, At(a), At(b)) <==> LastBefore(keys, b, At(a))
  {
  }

  class Iterator {
    const list: SkipList
    var node: Ref

    ghost predicate AtKey()
      reads this, list
    { |list.levels| == MAX_HEIGHT && (node == Null || (node.At? && node.key in list.levels[0])) }

    constructor (list: SkipList)
      requires Valid(list.View())
      ensures this.list == list && node == Null && AtKey()
    {
      this.list, node := list, Null;
    }

    method Next()
      requires Valid(list.View()) && AtKey() && node.At?
      modifies this
      ensures AtKey() && NextIn(list.levels[0], old(node), node)
    {
      assert NextIn(list.levels[0], node, list.next[0][node]);
      node := list.next[0][node];
    }

    method Prev()
      requires Valid(list.View()) && AtKey() && node.At?
      modifies this
      ensures AtKey() && LastBefore(list.levels[0], old(node).key, if node == Null then Head else node)
    {
      node := list.FindLessThan(node.key);
      if node == Head { node := Null; }
    }

    method Seek(target: real)
      requires Valid(list.View())
      modifies this
      ensures AtKey() && FirstFrom(list.levels[0], target, node)
    {
      var found, _ := list.FindGreaterOrEqual(target);
      node := found;
    }

    method SeekToFirst()
      requires Valid(list.View())
      modifies this
      ensures AtKey() && NextIn(list.levels[0], Head, node)
    {
      assert NextIn(list.levels[0], Head, list.next[0][Head]);
      node := list.next[0][Head];
    }

    method SeekToLast()
      requires Valid(list.View())
      modifies this
      ensures AtKey() && IsLast(list.levels[0], if node == Null then Head else node)
    {
      node := list.FindLast();
      if node == Head { node := Null; }
    }
  }
}
