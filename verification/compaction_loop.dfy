/** The merge loop of DBImpl::DoCompactionWork, Compaction::IsBaseLevelForKey and
    Compaction::ShouldStopBefore. */
module CompactionLoop {
  import opened InternalKeys
  import opened Lists
  import opened Versions
  import opened CompactionRules

  /** No file below the output level covers k. */
  predicate IsBase(levels: seq<seq<File>>, level: nat, k: UserKey)
    requires forall l :: 0 <= l < |levels| ==> forall i :: 0 <= i < |levels[l]| ==> ValidFile(levels[l][i])
  {
    forall l :: level + 2 <= l < |levels| ==> forall i :: 0 <= i < |levels[l]| ==> !Covers(levels[l][i], k)
  }

  ghost function Base(levels: seq<seq<File>>, level: nat): UserKey -> bool
    requires SearchableLevels(levels)
  { k => IsBase(levels, level, k) }

  /** Compaction::level_ptrs_ with the version it points into. */
  class BaseLevelScan {
    const levels: seq<seq<File>>
    const level: nat
    var levelPtrs: seq<nat>
    ghost var asked: Option<UserKey>  // the last key asked about

    ghost predicate Valid()
      reads this
    {
      && SearchableLevels(levels) && |levelPtrs| == |levels|
      && forall l :: 1 <= l < |levels| ==> PointerOk(levels[l], levelPtrs[l], asked)
    }

    /** Every file passed over ends before the last key asked about. */
    static ghost predicate PointerOk(files: seq<File>, p: nat, asked: Option<UserKey>) {
      && p <= |files|
      && forall i :: 0 <= i < p ==> asked.Some? && ValidFile(files[i]) && Largest(files[i]).ukey < asked.value
    }

    constructor (levels: seq<seq<File>>, level: nat)
      requires SearchableLevels(levels)
      ensures Valid() && this.levels == levels && this.level == level && asked == None
    {
      this.levels, this.level := levels, level;
      levelPtrs := seq(|levels|, _ => 0);
      asked := None;
    }

    /** IsBaseLevelForKey agrees with a full scan as long as keys are asked in order. */
    method IsBaseLevelForKey(k: UserKey) returns (base: bool)
      requires Valid() && (asked.Some? ==> asked.value <= k)
      modifies this
      ensures Valid() && asked == Some(k)
      ensures base <==> IsBase(levels, level, k)
    {
      asked := Some(k);
      var lvl := level + 2;
      while lvl < |levels|
        invariant level + 2 <= lvl && Valid() && asked == Some(k)
        invariant forall l :: level + 2 <= l < lvl && l < |levels| ==>
                    forall i :: 0 <= i < |levels[l]| ==> !Covers(levels[l][i], k)
      {
        var files := levels[lvl];
        while levelPtrs[lvl] < |files| && k > Largest(files[levelPtrs[lvl]]).ukey
          invariant Valid() && asked == Some(k)
          decreases |files| - levelPtrs[lvl]
        {
          levelPtrs := levelPtrs[lvl := levelPtrs[lvl] + 1];
        }
        var p := levelPtrs[lvl];
        if p < |files| && k >= Smallest(files[p]).ukey {
          return false;
        }
        forall i | 0 <= i < |files| ensures !Covers(files[i], k) {
          if p < i {
            LevelOrder(files, p, i);
            FileBounds(files[p], Smallest(files[p]));
          }
        }
        lvl := lvl + 1;
      }
      return true;
    }
  }

  // ---- ShouldStopBefore ----

  ghost predicate FilesValid(gs: seq<File>) { forall i :: 0 <= i < |gs| ==> ValidFile(gs[i]) }

  /** Bytes of the files that end at or behind `from`. */
  ghost function EndingFrom(gs: seq<File>, from: Entry): nat
    requires FilesValid(gs)
  {
    if gs == [] then 0 else
      var last := gs[|gs| - 1];
      EndingFrom(gs[..|gs| - 1], from) + if AtOrBefore(from, Largest(last)) then last.size else 0
  }

  /** Bytes of the files that end at or behind `from` and before `to`. */
  ghost function BytesEnding(gs: seq<File>, from: Entry, to: Entry): nat
    requires FilesValid(gs)
  {
    if gs == [] then 0 else
      var last := gs[|gs| - 1];
      BytesEnding(gs[..|gs| - 1], from, to)
      + if AtOrBefore(from, Largest(last)) && Before(Largest(last), to) then last.size else 0
  }

  lemma {:induction false} EndingPrefix(gs: seq<File>, n: nat, from: Entry, to: Entry)
    requires FilesValid(gs) && n <= |gs|
    requires forall i :: 0 <= i < |gs| ==> (Before(Largest(gs[i]), to) <==> i < n)
    ensures BytesEnding(gs, from, to) == EndingFrom(gs[..n], from)
    decreases |gs|
  {
    if gs != [] {
      var m := |gs| - 1;
      EndingPrefix(gs[..m], if n <= m then n else m, from, to);
      if n <= m { assert gs[..m][..n] == gs[..n]; } else { assert gs[..n] == gs && gs[..m][..m] == gs[..m]; }
    }
  }

  lemma {:induction false} NoneEnding(gs: seq<File>, from: Entry)
    requires FilesValid(gs) && forall i :: 0 <= i < |gs| ==> Before(Largest(gs[i]), from)
    ensures EndingFrom(gs, from) == 0
  {
    if gs != [] { NoneEnding(gs[..|gs| - 1], from); }
  }

  lemma {:induction false} EndingLess(gs: seq<File>, from: Entry, later: Entry, to: Entry)
    requires FilesValid(gs) && AtOrBefore(from, later)
    ensures BytesEnding(gs, later, to) <= BytesEnding(gs, from, to)
  {
    if gs != [] { EndingLess(gs[..|gs| - 1], from, later, to); }
  }

  /** The first n files end before k. */
  ghost predicate Ended(gs: seq<File>, n: nat, k: Entry)
    requires FilesValid(gs)
  { n <= |gs| && forall i :: 0 <= i < n ==> Before(Largest(gs[i]), k) }

  /** The others do not end before the key asked about last. */
  ghost predicate Behind(gs: seq<File>, n: nat, asked: Option<Entry>)
    requires FilesValid(gs)
  { asked.Some? ==> forall i :: n <= i < |gs| ==> !Before(Largest(gs[i]), asked.value) }

  ghost predicate Passed(gs: seq<File>, n: nat, k: Entry)
    requires FilesValid(gs)
  { forall i :: 0 <= i < |gs| ==> (Before(Largest(gs[i]), k) <==> i < n) }

  lemma SortedAreValid(gs: seq<File>)
    requires SortedFiles(gs)
    ensures FilesValid(gs)
  {
  }

  lemma KeysInOrder(a: Entry, b: Entry, c: Entry)
    ensures AtOrBefore(a, a) && (AtOrBefore(a, b) && AtOrBefore(b, c) ==> AtOrBefore(a, c))
  {
  }

  lemma FirstFiles(gs: seq<File>, n: nat, asked: Option<Entry>, k: Entry)
    requires FilesValid(gs) && n <= |gs| && (asked.None? ==> n == 0)
    requires asked.Some? ==> Passed(gs, n, asked.value) && AtOrBefore(asked.value, k)
    ensures Ended(gs, n, k) && Behind(gs, n, asked)
  {
  }

  lemma FilePassed(gs: seq<File>, n: nat, from: Entry, asked: Option<Entry>, k: Entry)
    requires FilesValid(gs) && n < |gs| && Ended(gs, n, k) && Behind(gs, n, asked) && Before(Largest(gs[n]), k)
    ensures Ended(gs, n + 1, k) && Behind(gs, n + 1, asked)
    ensures asked.Some? && AtOrBefore(from, asked.value) ==>
              EndingFrom(gs[..n + 1], from) == EndingFrom(gs[..n], from) + gs[n].size
  {
    assert gs[..n + 1][..n] == gs[..n];
  }

  lemma AllPassed(gs: seq<File>, n: nat, from: Entry, k: Entry)
    requires SortedFiles(gs) && Disjoint(Files(gs)) && Ended(gs, n, k)
             && (n < |gs| ==> !Before(Largest(gs[n]), k))
    ensures Passed(gs, n, k) && BytesEnding(gs, from, k) == EndingFrom(gs[..n], from) && EndingFrom(gs[..n], k) == 0
  {
    hide EndingFrom;
    hide BytesEnding;
    forall i | n < i < |gs| ensures !Before(Largest(gs[i]), k) {
      LevelOrder(gs, n, i);
      FileBounds(gs[i], Smallest(gs[i]));
    }
    EndingPrefix(gs, n, from, k);
    NoneEnding(gs[..n], k);
  }

  /** grandparents_, grandparent_index_, seen_key_ and overlapped_bytes_. */
  class GrandparentScan {
    const grandparents: seq<File>
    const limit: nat           // MaxGrandParentOverlapBytes
    var index: nat
    var seenKey: bool
    var overlappedBytes: nat
    ghost var asked: Option<Entry>  // the last key asked about
    ghost var since: Option<Entry>  // the last key before which to stop, or the first one asked about

    ghost predicate Valid()
      reads this
    {
      && SortedFiles(grandparents) && Disjoint(Files(grandparents)) && index <= |grandparents|
      && (seenKey <==> since.Some?) && (since.Some? <==> asked.Some?)
      && (asked.None? ==> index == 0 && overlappedBytes == 0)
      && (asked.Some? ==> Passed(grandparents, index, asked.value) && AtOrBefore(since.value, asked.value)
                          && overlappedBytes == EndingFrom(grandparents[..index], since.value))
    }

    constructor (grandparents: seq<File>, limit: nat)
      requires SortedFiles(grandparents) && Disjoint(Files(grandparents))
      ensures Valid() && this.grandparents == grandparents && this.limit == limit && asked == None
    {
      this.grandparents, this.limit := grandparents, limit;
      index, seenKey, overlappedBytes, asked, since := 0, false, 0, None, None;
    }

    /** ShouldStopBefore: the grandparents that end behind the last such place and before
        this key are too many bytes. */
    method ShouldStopBefore(k: Entry) returns (stop: bool)
      requires Valid() && (asked.Some? ==> AtOrBefore(asked.value, k))
      modifies this
      ensures Valid() && asked == Some(k)
      ensures stop <==> old(since).Some? && BytesEnding(grandparents, old(since).value, k) > limit
      ensures since == if stop || old(since).None? then Some(k) else old(since)
    {
      hide Before;
      hide AtOrBefore;
      hide SortedFiles;
      hide Disjoint;
      hide EndingFrom;
      hide BytesEnding;
      hide Passed;
      hide Behind;
      ghost var from := if since.Some? then since.value else k;
      SortedAreValid(grandparents);
      FirstFiles(grandparents, index, asked, k);
      if asked.Some? { KeysInOrder(since.value, asked.value, k); }
      KeysInOrder(k, k, k);
      while index < |grandparents| && Before(Largest(grandparents[index]), k)
        invariant index <= |grandparents| && Ended(grandparents, index, k) && Behind(grandparents, index, asked)
        invariant asked == old(asked) && since == old(since) && seenKey == old(seenKey)
        invariant overlappedBytes == if since.Some? then EndingFrom(grandparents[..index], from) else 0
        decreases |grandparents| - index
      {
        FilePassed(grandparents, index, from, asked, k);
        if seenKey { overlappedBytes := overlappedBytes + grandparents[index].size; }
        index := index + 1;
      }
      AllPassed(grandparents, index, from, k);
      seenKey := true;
      asked := Some(k);
      if since.None? { since := Some(k); }
      stop := overlappedBytes > limit;
      if stop {
        overlappedBytes := 0;
        since := Some(k);
      }
    }
  }

  /** The last place before i where to stop, or the first key. */
  function SinceAt(stops: seq<bool>, i: nat): (s: nat)
    requires i <= |stops|
    ensures s <= i && (s == i ==> i == 0) && (s > 0 ==> stops[s]) && forall j :: s < j < i ==> !stops[j]
  {
    if i == 0 then 0 else if stops[i - 1] then i - 1 else SinceAt(stops, i - 1)
  }

  /** Before which of the first n keys the loop is to start a new file. */
  ghost function Stops(input: seq<Entry>, gs: seq<File>, limit: nat, n: nat): (stops: seq<bool>)
    requires n <= |input| && FilesValid(gs)
    ensures |stops| == n
  {
    if n == 0 then [] else
      var before := Stops(input, gs, limit, n - 1);
      before + [BytesEnding(gs, input[SinceAt(before, n - 1)], input[n - 1]) > limit]
  }

  lemma {:induction false} StopsPrefix(input: seq<Entry>, gs: seq<File>, limit: nat, n: nat, i: nat)
    requires i <= n <= |input| && FilesValid(gs)
    ensures Stops(input, gs, limit, n)[..i] == Stops(input, gs, limit, i)
    decreases n - i
  {
    if i < n { StopsPrefix(input, gs, limit, n - 1, i); }
  }

  /** With s the last place before i where to stop, or the first key: the loop stops before i
      if and only if the grandparents that end from there to before key i exceed the limit. */
  lemma StopIff(input: seq<Entry>, gs: seq<File>, limit: nat, s: nat, i: nat)
    requires s < i < |input| && FilesValid(gs)
    requires var stops := Stops(input, gs, limit, |input|); (s == 0 || stops[s]) && forall j :: s < j < i ==> !stops[j]
    ensures Stops(input, gs, limit, |input|)[i] <==> BytesEnding(gs, input[s], input[i]) > limit
  {
    var stops := Stops(input, gs, limit, |input|);
    StopsPrefix(input, gs, limit, |input|, i);
    StopsPrefix(input, gs, limit, |input|, i + 1);
    var before := Stops(input, gs, limit, i);
    assert stops[..i + 1][i] == stops[i];
    assert forall j :: 0 <= j < i ==> before[j] == stops[j];
    assert SinceAt(before, i) == s;
  }

  lemma {:induction false} NeverAtFirst(input: seq<Entry>, gs: seq<File>, limit: nat)
    requires FilesValid(gs) && input != []
    ensures !Stops(input, gs, limit, |input|)[0]
  {
    StopsPrefix(input, gs, limit, |input|, 1);
    assert Stops(input, gs, limit, |input|)[..1][0] == Stops(input, gs, limit, 1)[0];
    NothingBetween(gs, input[0]);
  }

  lemma {:induction false} NothingBetween(gs: seq<File>, k: Entry)
    requires FilesValid(gs)
    ensures BytesEnding(gs, k, k) == 0
  {
    if gs != [] { NothingBetween(gs[..|gs| - 1], k); }
  }

  /** FinishCompactionOutputFile: close the open output, if there is one. */
  function CloseOutput(outs: seq<seq<Entry>>, builder: seq<Entry>): (r: seq<seq<Entry>>)
    requires forall o :: o in outs ==> o != []
    ensures Concat(r) == Concat(outs) + builder
    ensures forall o :: o in r ==> o != []
  {
    if builder == [] then outs else
      assert (outs + [builder])[..|outs|] == outs;
      outs + [builder]
  }

  /** Entries of input[..i] that survive the rules applied to the whole input. */
  ghost function KeptUpto(input: seq<Entry>, i: nat, floor: nat, base: UserKey -> bool): set<Entry>
    requires i <= |input|
  {
    set e | e in input[..i] && Survives(Elements(input), e, floor, base)
  }

  /** The loop's test `last_sequence_for_key <= smallest_snapshot` looks at the
      previous entry only, yet decides whether any newer input hides this one. */
  lemma PreviousDecides(input: seq<Entry>, i: nat, floor: nat)
    requires Sorted(input) && DistinctSequences(Elements(input)) && i < |input|
    ensures HiddenByNewer(Elements(input), input[i], floor)
            <==> i > 0 && input[i - 1].ukey == input[i].ukey && input[i - 1].sequence <= floor
  {
    var e := input[i];
    if i > 0 {
      var p := input[i - 1];
      assert p in Elements(input) && e in Elements(input);
      assert Before(p, e);
      assert p.sequence == e.sequence ==> p == e;
    }
    forall d | d in Elements(input) && d.ukey == e.ukey && e.sequence < d.sequence <= floor
      ensures i > 0 && input[i - 1].ukey == e.ukey && input[i - 1].sequence <= floor
    {
      var j :| 0 <= j < |input| && input[j] == d;
      assert j < i by { assert i < j ==> Before(e, d); }
      assert j < i - 1 ==> Before(d, input[i - 1]) && Before(input[i - 1], e);
    }
  }

  /** `flat` is what the loop has written after reading input[..i]. */
  ghost predicate WrittenUpto(flat: seq<Entry>, input: seq<Entry>, i: nat, floor: nat, base: UserKey -> bool)
    requires i <= |input|
  {
    Sorted(flat) && Elements(flat) == KeptUpto(input, i, floor, base)
  }

  lemma NothingWritten(input: seq<Entry>, floor: nat, base: UserKey -> bool)
    ensures WrittenUpto([], input, 0, floor, base) && Outputs([], [], [])
  {
  }

  lemma AllWritten(flat: seq<Entry>, input: seq<Entry>, floor: nat, base: UserKey -> bool)
    requires WrittenUpto(flat, input, |input|, floor, base)
    ensures Sorted(flat) && Elements(flat) == Survivors(Elements(input), floor, base)
  {
    assert input[..|input|] == input;
  }

  lemma WriteOne(flat: seq<Entry>, input: seq<Entry>, i: nat, floor: nat, base: UserKey -> bool)
    requires Sorted(input) && i < |input| && WrittenUpto(flat, input, i, floor, base)
    ensures WrittenUpto(if Survives(Elements(input), input[i], floor, base) then flat + [input[i]] else flat,
                        input, i + 1, floor, base)
  {
    var e := input[i];
    assert input[..i + 1] == input[..i] + [e];
    assert Elements(flat + [e]) == Elements(flat) + {e};
    forall j | 0 <= j < |flat| ensures Before(flat[j], e) {
      assert flat[j] in Elements(flat);
      var m :| 0 <= m < i && input[m] == flat[j];
    }
  }

  /** current_user_key and last_sequence_for_key after reading input[..i]. */
  predicate KeyState(input: seq<Entry>, i: nat, current: Option<UserKey>, last: nat)
    requires i <= |input|
  {
    if i == 0 then current == None else current == Some(input[i - 1].ukey) && last == input[i - 1].sequence
  }

  /** No key after those of input[..i] has been asked about. */
  predicate AskedUpto(asked: Option<UserKey>, input: seq<Entry>, i: nat)
    requires i <= |input|
  {
    asked.Some? ==> i > 0 && asked.value <= input[i - 1].ukey
  }

  /** The drop decision for one key: rule (A) from the previous entry, else the
      tombstone rule with the advancing level pointers. */
  method JudgeKey(scan: BaseLevelScan, input: seq<Entry>, i: nat, floor: nat, current: Option<UserKey>, last: nat)
    returns (drop: bool)
    requires Sorted(input) && DistinctSequences(Elements(input)) && i < |input| && floor < MAX_SEQUENCE
    requires KeyState(input, i, current, last)
    requires scan.Valid() && AskedUpto(scan.asked, input, i)
    modifies scan
    ensures scan.Valid() && AskedUpto(scan.asked, input, i + 1)
    ensures drop <==> !Survives(Elements(input), input[i], floor, Base(scan.levels, scan.level))
  {
    var e := input[i];
    assert e in Elements(input);
    PreviousDecides(input, i, floor);
    assert i > 0 ==> Before(input[i - 1], e);
    var lastForKey := last;
    if current == None || e.ukey != current.value {
      lastForKey := MAX_SEQUENCE;  // first occurrence of this user key
    }
    drop := false;
    if lastForKey <= floor {
      drop := true;  // (A)
    } else if e.op.Delete? && e.sequence <= floor {
      drop := scan.IsBaseLevelForKey(e.ukey);
    }
  }

  // ---- where outputs are cut ----

  ghost predicate Written(outputs: seq<seq<Entry>>, e: Entry) { exists a :: 0 <= a < |outputs| && e in outputs[a] }

  ghost predicate Together(outputs: seq<seq<Entry>>, e: Entry, d: Entry) {
    exists a :: 0 <= a < |outputs| && e in outputs[a] && d in outputs[a]
  }

  /** From input p to input q nothing asks for a new file: no entry written at p or behind it
      has filled its file, and none behind p was to start one. */
  ghost predicate Uncut(input: seq<Entry>, outputs: seq<seq<Entry>>, stopBefore: seq<bool>, fileFull: seq<bool>,
                        p: nat, q: nat)
    requires p < q < |input| == |stopBefore| == |fileFull|
  {
    && (forall r :: p <= r < q && fileFull[r] ==> !Written(outputs, input[r]))
    && forall j :: p < j <= q ==> !stopBefore[j]
  }

  /** Two written entries share an output exactly if there is no cut between them. */
  ghost predicate CutAsTold(input: seq<Entry>, outputs: seq<seq<Entry>>, stopBefore: seq<bool>, fileFull: seq<bool>)
    requires |input| == |stopBefore| == |fileFull|
  {
    forall p, q :: 0 <= p < q < |input| && Written(outputs, input[p]) && Written(outputs, input[q]) ==>
      (Together(outputs, input[p], input[q]) <==> Uncut(input, outputs, stopBefore, fileFull, p, q))
  }

  /** The output that got an input, if it was written; the open one is behind the closed. */
  type Places = seq<Option<nat>>

  ghost predicate Placed(at: Places, input: seq<Entry>, outputs: seq<seq<Entry>>, builder: seq<Entry>) {
    && |at| <= |input|
    && (forall p :: 0 <= p < |at| && at[p].Some? ==>
          at[p].value <= |outputs| && input[p] in (outputs + [builder])[at[p].value])
    && forall a, e :: 0 <= a <= |outputs| && e in (outputs + [builder])[a] ==>
         exists p :: 0 <= p < |at| && at[p] == Some(a) && input[p] == e
  }

  ghost predicate UncutIn(at: Places, stopBefore: seq<bool>, fileFull: seq<bool>, p: nat, q: nat)
    requires p < q <= |at| <= |stopBefore| == |fileFull|
  {
    && (forall r :: p <= r < q && at[r].Some? ==> !fileFull[r])
    && forall j :: p < j < q ==> !stopBefore[j]
  }

  /** Where the inputs that have been read are, and which of them the open output has. */
  ghost predicate CutUpto(at: Places, stopBefore: seq<bool>, fileFull: seq<bool>, open: nat)
    requires |at| <= |stopBefore| == |fileFull|
  {
    && CutBetween(at, stopBefore, fileFull)
    && forall p :: 0 <= p < |at| && at[p].Some? ==>
         (at[p].value == open <==> UncutIn(at, stopBefore, fileFull, p, |at|))
  }

  ghost predicate CutBetween(at: Places, stopBefore: seq<bool>, fileFull: seq<bool>)
    requires |at| <= |stopBefore| == |fileFull|
  {
    forall p, q :: 0 <= p < q < |at| && at[p].Some? && at[q].Some? ==>
      (at[p] == at[q] <==> UncutIn(at, stopBefore, fileFull, p, q) && !stopBefore[q])
  }

  lemma CloseKeeps(at: Places, input: seq<Entry>, outputs: seq<seq<Entry>>, builder: seq<Entry>)
    requires Placed(at, input, outputs, builder) && forall o :: o in outputs ==> o != []
    ensures var closed := CloseOutput(outputs, builder);
            Placed(at, input, closed, []) && AllBelow(at, |closed|)
  {
    hide Concat;
    var closed := CloseOutput(outputs, builder);
    forall p | 0 <= p < |at| && at[p].Some?
      ensures at[p].value < |closed| && input[p] in (closed + [[]])[at[p].value]
    {
      assert input[p] in (outputs + [builder])[at[p].value];
    }
    forall a, e | 0 <= a <= |closed| && e in (closed + [[]])[a]
      ensures exists p :: 0 <= p < |at| && at[p] == Some(a) && input[p] == e
    {
      assert e in (outputs + [builder])[a];
    }
  }

  lemma AddKeeps(at: Places, input: seq<Entry>, outputs: seq<seq<Entry>>, builder: seq<Entry>)
    requires Placed(at, input, outputs, builder) && |at| < |input|
    ensures Placed(at + [Some(|outputs|)], input, outputs, builder + [input[|at|]])
  {
    var at', builder' := at + [Some(|outputs|)], builder + [input[|at|]];
    forall a, e | 0 <= a <= |outputs| && e in (outputs + [builder'])[a]
      ensures exists p :: 0 <= p < |at'| && at'[p] == Some(a) && input[p] == e
    {
      if e in (outputs + [builder])[a] {
        var p :| 0 <= p < |at| && at[p] == Some(a) && input[p] == e;
        assert at'[p] == Some(a);
      } else {
        assert at'[|at|] == Some(a) && input[|at|] == e;
      }
    }
  }

  lemma SkipKeeps(at: Places, input: seq<Entry>, outputs: seq<seq<Entry>>, builder: seq<Entry>)
    requires Placed(at, input, outputs, builder) && |at| < |input|
    ensures Placed(at + [None], input, outputs, builder)
  {
    var at' := at + [None];
    forall a, e | 0 <= a <= |outputs| && e in (outputs + [builder])[a]
      ensures exists p :: 0 <= p < |at'| && at'[p] == Some(a) && input[p] == e
    {
      var p :| 0 <= p < |at| && at[p] == Some(a) && input[p] == e;
      assert at'[p] == Some(a);
    }
  }

  ghost predicate AllBelow(at: Places, n: nat) { forall p :: 0 <= p < |at| && at[p].Some? ==> at[p].value < n }

  lemma CutStep(at: Places, stopBefore: seq<bool>, fileFull: seq<bool>, open: nat, next: nat, drop: bool, after: nat)
    requires |at| < |stopBefore| == |fileFull| && CutUpto(at, stopBefore, fileFull, open)
    requires if stopBefore[|at|] then AllBelow(at, next) else next == open
    requires var at' := at + [if drop then None else Some(next)];
             if !drop && fileFull[|at|] then AllBelow(at', after) else after == next
    ensures CutUpto(at + [if drop then None else Some(next)], stopBefore, fileFull, after)
  {
    var i, at' := |at|, at + [if drop then None else Some(next)];
    forall p, q | 0 <= p < q <= i
      ensures UncutIn(at', stopBefore, fileFull, p, q) == UncutIn(at, stopBefore, fileFull, p, q)
    {
      assert forall r :: p <= r < q ==> at'[r] == at[r];
    }
    forall p | 0 <= p < i && at[p].Some?
      ensures UncutIn(at', stopBefore, fileFull, p, i + 1)
              <==> UncutIn(at, stopBefore, fileFull, p, i) && !stopBefore[i] && (drop || !fileFull[i])
    {
      assert forall r :: p <= r < i ==> at'[r] == at[r];
    }
  }

  lemma PlaceIs(at: Places, input: seq<Entry>, outputs: seq<seq<Entry>>, p: nat, a: nat)
    requires Sorted(input) && Placed(at, input, outputs, []) && p < |at| && a < |outputs|
    ensures input[p] in outputs[a] <==> at[p] == Some(a)
  {
    assert (outputs + [[]])[a] == outputs[a];
    if input[p] in outputs[a] {
      var q :| 0 <= q < |at| && at[q] == Some(a) && input[q] == input[p];
      OnlyOnce(input, p, q);
    }
  }

  lemma OnlyOnce(input: seq<Entry>, p: nat, q: nat)
    requires Sorted(input) && p < |input| && q < |input| && input[p] == input[q]
    ensures p == q
  {
  }

  lemma PlacesTell(at: Places, input: seq<Entry>, outputs: seq<seq<Entry>>, stopBefore: seq<bool>, fileFull: seq<bool>)
    requires Sorted(input) && Placed(at, input, outputs, []) && AllBelow(at, |outputs|)
    requires |at| == |input| == |stopBefore| == |fileFull| && CutBetween(at, stopBefore, fileFull)
    ensures CutAsTold(input, outputs, stopBefore, fileFull)
  {
    hide Sorted;
    hide Placed;
    forall p | 0 <= p < |input| ensures Written(outputs, input[p]) <==> at[p].Some? {
      forall a | 0 <= a < |outputs| ensures input[p] in outputs[a] <==> at[p] == Some(a) {
        PlaceIs(at, input, outputs, p, a);
      }
    }
    forall p, q | 0 <= p < q < |input| && Written(outputs, input[p]) && Written(outputs, input[q])
      ensures Together(outputs, input[p], input[q]) <==> Uncut(input, outputs, stopBefore, fileFull, p, q)
    {
      forall a | 0 <= a < |outputs|
        ensures (input[p] in outputs[a] <==> at[p] == Some(a)) && (input[q] in outputs[a] <==> at[q] == Some(a))
      {
        PlaceIs(at, input, outputs, p, a);
        PlaceIs(at, input, outputs, q, a);
      }
      assert Uncut(input, outputs, stopBefore, fileFull, p, q)
             <==> UncutIn(at, stopBefore, fileFull, p, q) && !stopBefore[q];
    }
  }

  /** The open output and the closed ones hold `flat`; none is empty. */
  ghost predicate Outputs(outputs: seq<seq<Entry>>, builder: seq<Entry>, flat: seq<Entry>) {
    (forall o :: o in outputs ==> o != []) && flat == Concat(outputs) + builder
  }

  /** One turn of the loop's output handling: perhaps start a new file, write the
      entry unless dropped, perhaps close the file. */
  method WriteKey(outputs: seq<seq<Entry>>, builder: seq<Entry>, ghost flat: seq<Entry>, e: Entry, drop: bool,
                  stopBefore: bool, fileFull: bool, ghost at: Places, ghost input: seq<Entry>)
    returns (outputs': seq<seq<Entry>>, builder': seq<Entry>, ghost next: nat)
    requires Outputs(outputs, builder, flat) && |at| < |input| && input[|at|] == e
    requires Placed(at, input, outputs, builder)
    ensures Outputs(outputs', builder', if drop then flat else flat + [e])
    ensures Placed(at + [if drop then None else Some(next)], input, outputs', builder')
    ensures if stopBefore then AllBelow(at, next) else next == |outputs|
    ensures if !drop && fileFull then AllBelow(at + [Some(next)], |outputs'|) else |outputs'| == next
  {
    hide Concat;
    hide Placed;
    outputs', builder' := outputs, builder;
    if stopBefore {
      CloseKeeps(at, input, outputs', builder');
      outputs', builder' := CloseOutput(outputs', builder'), [];
    }
    next := |outputs'|;
    if drop {
      SkipKeeps(at, input, outputs', builder');
    } else {
      AddKeeps(at, input, outputs', builder');
      builder' := builder' + [e];
      if fileFull {
        CloseKeeps(at + [Some(next)], input, outputs', builder');
        outputs', builder' := CloseOutput(outputs', builder'), [];
      }
    }
  }

  /** DoCompactionWork: drop, split into output files wherever ShouldStopBefore or
      the size limit says so and nowhere else, and keep exactly the survivors, in order. */
  method DoCompactionWork(input: seq<Entry>, levels: seq<seq<File>>, level: nat, floor: nat,
                          grandparents: seq<File>, limit: nat, fileFull: seq<bool>)
    returns (outputs: seq<seq<Entry>>)
    requires Sorted(input) && DistinctSequences(Elements(input)) && SearchableLevels(levels)
    requires SortedFiles(grandparents) && Disjoint(Files(grandparents))
    requires floor < MAX_SEQUENCE && |fileFull| == |input|
    ensures forall o :: o in outputs ==> o != []
    ensures Sorted(Concat(outputs))
    ensures Elements(Concat(outputs)) == Survivors(Elements(input), floor, Base(levels, level))
    ensures CutAsTold(input, outputs, Stops(input, grandparents, limit, |input|), fileFull)
  {
    hide Sorted;
    hide DistinctSequences;
    hide Survives;
    hide Base;
    hide SearchableLevels;
    hide Concat;
    hide WrittenUpto;
    hide Placed;
    hide CutUpto;
    hide CutAsTold;
    hide AllBelow;
    hide Stops;
    hide StopState;
    hide BytesEnding;
    hide GrandparentScan.Valid;
    hide BaseLevelScan.Valid;
    ghost var base := Base(levels, level);
    ghost var stopBefore := Stops(input, grandparents, limit, |input|);
    var scan := new BaseLevelScan(levels, level);
    var parents := new GrandparentScan(grandparents, limit);
    outputs := [];
    var builder: seq<Entry> := [];  // empty: no output file is open
    var currentUserKey: Option<UserKey> := None;
    var lastSequenceForKey := MAX_SEQUENCE;
    ghost var flat: seq<Entry> := [];
    ghost var at: Places := [];
    NothingWritten(input, floor, base);
    NothingPlaced(input, stopBefore, fileFull);
    NothingAsked(input, stopBefore);
    var i := 0;
    while i < |input|
      invariant i <= |input| && fresh(scan) && scan.Valid() && scan.levels == levels && scan.level == level
      invariant AskedUpto(scan.asked, input, i)
      invariant KeyState(input, i, currentUserKey, lastSequenceForKey)
      invariant fresh(parents) && parents.Valid() && parents.grandparents == grandparents && parents.limit == limit
      invariant StopState(input, stopBefore, i, parents.asked, parents.since)
      invariant Outputs(outputs, builder, flat) && WrittenUpto(flat, input, i, floor, base)
      invariant |at| == i && Placed(at, input, outputs, builder) && CutUpto(at, stopBefore, fileFull, |outputs|)
    {
      var e := input[i];
      NextStop(input, grandparents, limit, i, parents.asked, parents.since);
      var stop := parents.ShouldStopBefore(e);
      var drop := JudgeKey(scan, input, i, floor, currentUserKey, lastSequenceForKey);
      WriteOne(flat, input, i, floor, base);
      ghost var open, next := |outputs|, 0;
      outputs, builder, next := WriteKey(outputs, builder, flat, e, drop, stop, fileFull[i], at, input);
      CutStep(at, stopBefore, fileFull, open, next, drop, |outputs|);
      flat := if drop then flat else flat + [e];
      at := at + [if drop then None else Some(next)];
      currentUserKey, lastSequenceForKey := Some(e.ukey), e.sequence;
      i := i + 1;
    }
    CloseKeeps(at, input, outputs, builder);
    BetweenOnly(at, stopBefore, fileFull, |outputs|);
    outputs := CloseOutput(outputs, builder);
    PlacesTell(at, input, outputs, stopBefore, fileFull);
    AllWritten(flat, input, floor, base);
  }

  /** What ShouldStopBefore has been asked before key i. */
  ghost predicate StopState(input: seq<Entry>, stops: seq<bool>, i: nat, asked: Option<Entry>, since: Option<Entry>)
    requires i <= |input| == |stops|
  {
    if i == 0 then asked == None && since == None
    else asked == Some(input[i - 1]) && since == Some(input[SinceAt(stops, i)])
  }

  lemma NothingAsked(input: seq<Entry>, stops: seq<bool>)
    requires |stops| == |input|
    ensures StopState(input, stops, 0, None, None)
  {
  }

  lemma NextStop(input: seq<Entry>, gs: seq<File>, limit: nat, i: nat, asked: Option<Entry>, since: Option<Entry>)
    requires Sorted(input) && FilesValid(gs) && i < |input|
             && StopState(input, Stops(input, gs, limit, |input|), i, asked, since)
    ensures asked.Some? ==> AtOrBefore(asked.value, input[i])
    ensures var stops := Stops(input, gs, limit, |input|);
            && (stops[i] <==> since.Some? && BytesEnding(gs, since.value, input[i]) > limit)
            && StopState(input, stops, i + 1, Some(input[i]),
                         if stops[i] || since.None? then Some(input[i]) else since)
  {
    hide Stops;
    var stops := Stops(input, gs, limit, |input|);
    if i == 0 {
      NeverAtFirst(input, gs, limit);
    } else {
      StopIff(input, gs, limit, SinceAt(stops, i), i);
    }
  }

  /** The grandparents that end between two keys of one output are not too many bytes. */
  lemma OutputOverlap(input: seq<Entry>, outputs: seq<seq<Entry>>, gs: seq<File>, limit: nat, fileFull: seq<bool>,
                      p: nat, q: nat)
    requires Sorted(input) && FilesValid(gs) && |fileFull| == |input| && p < q < |input|
    requires CutAsTold(input, outputs, Stops(input, gs, limit, |input|), fileFull)
    requires Together(outputs, input[p], input[q])
    ensures BytesEnding(gs, input[p], input[q]) <= limit
  {
    hide Stops;
    hide BytesEnding;
    var stops := Stops(input, gs, limit, |input|);
    assert Uncut(input, outputs, stops, fileFull, p, q);
    var s := SinceAt(stops, q);
    StopIff(input, gs, limit, s, q);
    EndingLess(gs, input[s], input[p], input[q]);
  }

  lemma NothingPlaced(input: seq<Entry>, stopBefore: seq<bool>, fileFull: seq<bool>)
    requires |stopBefore| == |fileFull|
    ensures Placed([], input, [], []) && CutUpto([], stopBefore, fileFull, 0)
  {
  }

  lemma BetweenOnly(at: Places, stopBefore: seq<bool>, fileFull: seq<bool>, open: nat)
    requires |at| <= |stopBefore| == |fileFull| && CutUpto(at, stopBefore, fileFull, open)
    ensures CutBetween(at, stopBefore, fileFull)
  {
  }

  /** Nothing behind an entry that fills a file shares its output. */
  lemma FilledIsLatest(input: seq<Entry>, outputs: seq<seq<Entry>>, stopBefore: seq<bool>, fileFull: seq<bool>,
                       p: nat, q: nat)
    requires |input| == |stopBefore| == |fileFull| && CutAsTold(input, outputs, stopBefore, fileFull)
    requires p < |input| && q < |input| && fileFull[p] && Together(outputs, input[p], input[q])
    ensures q <= p
  {
  }

  lemma InOrder(input: seq<Entry>, o: seq<Entry>, k: nat, p: nat, q: nat)
    requires Sorted(input) && Sorted(o) && k < |o| && p < |input| && q <= p
    requires o[k] == input[p] && o[|o| - 1] == input[q]
    ensures o[k] == o[|o| - 1]
  {
  }

  /** It is the last one there. */
  lemma FilledIsLast(input: seq<Entry>, outputs: seq<seq<Entry>>, stopBefore: seq<bool>, fileFull: seq<bool>,
                     p: nat, a: nat)
    requires |input| == |stopBefore| == |fileFull| && CutAsTold(input, outputs, stopBefore, fileFull)
    requires Sorted(input) && a < |outputs| && Sorted(outputs[a]) && Elements(outputs[a]) <= Elements(input)
    requires p < |input| && fileFull[p] && input[p] in outputs[a]
    ensures outputs[a][|outputs[a]| - 1] == input[p]
  {
    hide CutAsTold;
    hide Sorted;
    var o := outputs[a];
    var k :| 0 <= k < |o| && o[k] == input[p];
    assert o[|o| - 1] in Elements(o);
    var q :| 0 <= q < |input| && input[q] == o[|o| - 1];
    FilledIsLatest(input, outputs, stopBefore, fileFull, p, q);
    InOrder(input, o, k, p, q);
  }
}
