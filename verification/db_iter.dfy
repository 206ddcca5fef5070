/** DBIter (db/db_iter.cc): a cursor on the live (key, value) pairs at one sequence
    number, over an iterator on all internal entries. */
module DbIterator {
  import opened InternalKeys
  import opened SnapshotReads
  import opened Versions

  // ---- the list the cursor moves on ----

  predicate Seen(e: Entry, s: nat) { e.sequence <= s }

  /** Entry i is the newest visible version of its user key, and a value. */
  ghost predicate IsLive(es: seq<Entry>, s: nat, i: nat)
    requires i < |es|
  {
    && Seen(es[i], s) && es[i].op.Put?
    && forall j :: 0 <= j < i && es[j].ukey == es[i].ukey ==> !Seen(es[j], s)
  }

  ghost function LiveUpto(es: seq<Entry>, s: nat, n: nat): seq<(UserKey, Value)>
    requires n <= |es|
  {
    if n == 0 then []
    else LiveUpto(es, s, n - 1) + if IsLive(es, s, n - 1) then [(es[n - 1].ukey, es[n - 1].op.value)] else []
  }

  /** All live pairs, in key order. */
  ghost function LivePairs(es: seq<Entry>, s: nat): seq<(UserKey, Value)> { LiveUpto(es, s, |es|) }

  ghost function Rank(es: seq<Entry>, s: nat, i: nat): nat
    requires i <= |es|
  { |LiveUpto(es, s, i)| }

  lemma {:induction false} LivePrefix(es: seq<Entry>, s: nat, m: nat, n: nat)
    requires m <= n <= |es|
    ensures LiveUpto(es, s, m) <= LiveUpto(es, s, n)
    ensures (forall i :: m <= i < n ==> !IsLive(es, s, i)) ==> LiveUpto(es, s, m) == LiveUpto(es, s, n)
  {
    if m < n { LivePrefix(es, s, m, n - 1); }
  }

  /** The pair of a live entry sits at its rank. */
  lemma LiveAtRank(es: seq<Entry>, s: nat, i: nat)
    requires i < |es| && IsLive(es, s, i)
    ensures Rank(es, s, i) < |LivePairs(es, s)|
    ensures LivePairs(es, s)[Rank(es, s, i)] == (es[i].ukey, es[i].op.value)
    ensures Rank(es, s, i + 1) == Rank(es, s, i) + 1
  {
    LivePrefix(es, s, i + 1, |es|);
    assert LiveUpto(es, s, i + 1)[Rank(es, s, i)] == (es[i].ukey, es[i].op.value);
  }

  /** Position in the list of an optional live entry; past the end when there is none. */
  ghost function Position(es: seq<Entry>, s: nat, at: Option<nat>): nat
    requires at.Some? ==> at.value <= |es|
  {
    if at.Some? then Rank(es, s, at.value) else |LivePairs(es, s)|
  }

  ghost predicate FirstLiveFrom(es: seq<Entry>, s: nat, from: nat, at: Option<nat>)
    requires from <= |es|
  {
    if at.Some? then from <= at.value < |es| && IsLive(es, s, at.value) && forall i :: from <= i < at.value ==>
          !IsLive(es, s, i)
    else forall i :: from <= i < |es| ==> !IsLive(es, s, i)
  }

  ghost predicate LastLiveBelow(es: seq<Entry>, s: nat, below: nat, at: Option<nat>)
    requires below <= |es|
  {
    if at.Some? then at.value < below && IsLive(es, s, at.value) && forall i :: at.value < i < below ==>
          !IsLive(es, s, i)
    else forall i :: 0 <= i < below ==> !IsLive(es, s, i)
  }

  lemma FirstLivePosition(es: seq<Entry>, s: nat, from: nat, at: Option<nat>)
    requires from <= |es| && FirstLiveFrom(es, s, from, at)
    ensures Position(es, s, at) == Rank(es, s, from)
  {
    LivePrefix(es, s, from, if at.Some? then at.value else |es|);
  }

  lemma LastLivePosition(es: seq<Entry>, s: nat, below: nat, at: Option<nat>)
    requires below <= |es| && LastLiveBelow(es, s, below, at)
    ensures at.Some? ==> Position(es, s, at) + 1 == Rank(es, s, below)
    ensures at.None? ==> Rank(es, s, below) == 0
  {
    if at.Some? {
      LiveAtRank(es, s, at.value);
      LivePrefix(es, s, at.value + 1, below);
    } else {
      LivePrefix(es, s, 0, below);
    }
  }

  /** The list is what reads say: k is paired with v exactly when reading k gives v,
      and keys strictly ascend. */
  lemma LivePairsAreReads(es: seq<Entry>, s: nat, k: UserKey, v: Value)
    requires Sorted(es) && DistinctSequences(Elements(es))
    ensures (k, v) in LivePairs(es, s) <==> ReadAt(Elements(es), k, s) == Some(v)
  {
    if (k, v) in LivePairs(es, s) {
      var i := LiveSource(es, s, |es|, (k, v));
      LiveIsNewest(es, s, i);
      ReadNewest(Elements(es), k, s, es[i]);
    }
    var n := ReadCases(Elements(es), k, s);
    if n.Some? && n.value.op == Put(v) {
      var i :| 0 <= i < |es| && es[i] == n.value;
      forall j | 0 <= j < i && es[j].ukey == k ensures !Seen(es[j], s) {
        assert Before(es[j], es[i]);
        assert es[j] in Elements(es) && es[j] != es[i];
      }
      LiveAtRank(es, s, i);
    }
  }

  lemma LiveIsNewest(es: seq<Entry>, s: nat, i: nat)
    requires Sorted(es) && i < |es| && IsLive(es, s, i)
    ensures Newest(Elements(es), es[i].ukey, s, es[i])
  {
    forall d | d in Elements(es) && Visible(d, es[i].ukey, s) ensures d.sequence <= es[i].sequence {
      var j :| 0 <= j < |es| && es[j] == d;
      assert j > i ==> Before(es[i], es[j]);
    }
  }

  lemma {:induction false} LiveSource(es: seq<Entry>, s: nat, n: nat, p: (UserKey, Value)) returns (i: nat)
    requires n <= |es| && p in LiveUpto(es, s, n)
    ensures i < n && IsLive(es, s, i) && p == (es[i].ukey, es[i].op.value)
  {
    if IsLive(es, s, n - 1) && p == (es[n - 1].ukey, es[n - 1].op.value) {
      i := n - 1;
    } else {
      i := LiveSource(es, s, n - 1, p);
    }
  }

  lemma {:induction false} LivePairsAscend(es: seq<Entry>, s: nat, n: nat)
    requires Sorted(es) && n <= |es|
    ensures forall a, b :: 0 <= a < b < |LiveUpto(es, s, n)| ==> LiveUpto(es, s, n)[a].0 < LiveUpto(es, s, n)[b].0
  {
    if n > 0 {
      LivePairsAscend(es, s, n - 1);
      if IsLive(es, s, n - 1) {
        var front := LiveUpto(es, s, n - 1);
        forall a | 0 <= a < |front| ensures front[a].0 < es[n - 1].ukey {
          var i := LiveSource(es, s, n - 1, front[a]);
          assert Before(es[i], es[n - 1]);
        }
      }
    }
  }

  /** Pairs from rank(m) on come from entries at m or later. */
  lemma {:induction false} LateSource(es: seq<Entry>, s: nat, m: nat, n: nat, a: nat) returns (i: nat)
    requires m <= n <= |es| && Rank(es, s, m) <= a < Rank(es, s, n)
    ensures m <= i < n && IsLive(es, s, i) && LiveUpto(es, s, n)[a] == (es[i].ukey, es[i].op.value)
  {
    if a < Rank(es, s, n - 1) {
      i := LateSource(es, s, m, n - 1, a);
    } else {
      LivePrefix(es, s, m, n - 1);
      i := n - 1;
    }
  }

  /** The seek position splits the list at the target. */
  lemma SeekSplits(es: seq<Entry>, s: nat, target: UserKey)
    requires Sorted(es)
    ensures var start := SeekIndex(es, SeekKey(target, s));
            forall a :: 0 <= a < |LivePairs(es, s)| ==> (LivePairs(es, s)[a].0 < target <==> a < Rank(es, s, start))
  {
    var start := SeekIndex(es, SeekKey(target, s));
    LivePrefix(es, s, start, |es|);
    forall a | 0 <= a < |LivePairs(es, s)| ensures LivePairs(es, s)[a].0 < target <==> a < Rank(es, s, start) {
      if a < Rank(es, s, start) {
        assert LiveUpto(es, s, start)[a] == LivePairs(es, s)[a];
        var i := LateSource(es, s, 0, start, a);
      } else {
        var i := LateSource(es, s, start, |es|, a);
        assert i > start ==> Before(es[start], es[i]);
      }
    }
  }

  // ---- the iterator ----

  datatype Direction = Forward | Reverse

  class DBIter {
    const entries: seq<Entry>
    const sequence: nat
    var pos: nat                      // the internal iterator; |entries| is invalid
    var direction: Direction
    var valid: bool
    var savedKey: Option<UserKey>     // None: cleared
    var savedValue: Value
    ghost var at: Option<nat>         // the live entry the cursor shows

    ghost predicate Valid()
      reads this
    {
      && Sorted(entries) && pos <= |entries| && valid == at.Some?
      && (at.Some? ==> at.value < |entries| && IsLive(entries, sequence, at.value))
      && (valid && direction == Forward ==> at == Some(pos))
      && (valid && direction == Reverse ==> Behind(entries, sequence, pos, at.value))
      && (valid && direction == Reverse ==>
           savedKey == Some(entries[at.value].ukey)
           && savedValue == entries[at.value].op.value)
    }

    /** Moving backward: nothing visible lies between the internal iterator and the
        entry shown, and the iterator is on an earlier user key. */
    static ghost predicate Behind(es: seq<Entry>, s: nat, p: nat, shown: nat)
      requires p <= |es| && shown < |es|
    {
      && (p < |es| ==> p < shown && es[p].ukey < es[shown].ukey)
      && forall j :: Count(es, p) <= j < shown ==> !Seen(es[j], s)
    }

    /** How many entries are at or before the internal iterator. */
    static ghost function Count(es: seq<Entry>, p: nat): nat { if p < |es| then p + 1 else 0 }

    /** The cursor's index in the list of live pairs; its length when not valid. */
    ghost function Cursor(): nat
      reads this
      requires Valid()
    { Position(entries, sequence, at) }

    constructor (entries: seq<Entry>, sequence: nat)
      requires Sorted(entries)
      ensures Valid() && !valid && this.entries == entries && this.sequence == sequence
    {
      this.entries, this.sequence := entries, sequence;
      pos, direction, valid, savedKey, savedValue := |entries|, Forward, false, None, "";
      at := None;
    }

    /** key() and value() show the pair at the cursor. */
    method Current() returns (key: UserKey, value: Value)
      requires Valid() && valid
      ensures Cursor() < |LivePairs(entries, sequence)| && (key, value) == LivePairs(entries, sequence)[Cursor()]
    {
      LiveAtRank(entries, sequence, at.value);
      if direction == Forward {
        key, value := entries[pos].ukey, entries[pos].op.value;
      } else {
        key, value := savedKey.value, savedValue;
      }
    }

    /** Nothing already passed is visible under a key still to come. */
    static ghost predicate Passed(es: seq<Entry>, s: nat, p: nat, skipping: bool, skip: Option<UserKey>)
      requires p <= |es|
    {
      if skipping then
        && skip.Some?
        && (forall j :: 0 <= j < p && Seen(es[j], s) ==> es[j].ukey <= skip.value)
        && (forall j :: p <= j < |es| && Seen(es[j], s) ==> skip.value <= es[j].ukey)
      else forall j, i :: 0 <= j < p && Seen(es[j], s) && p <= i < |es| ==> es[j].ukey < es[i].ukey
    }

    /** Entry i is under a key to be skipped. */
    static predicate Skipped(e: Entry, skipping: bool, skip: Option<UserKey>) {
      skipping && skip.Some? && e.ukey <= skip.value
    }

    /** The first live entry from the internal iterator on that is not skipped. */
    method FindNextUserEntry(skipping0: bool)
      requires Sorted(entries) && pos < |entries| && direction == Forward
      requires Passed(entries, sequence, pos, skipping0, savedKey)
      modifies this
      ensures Valid() && direction == Forward
      ensures at.Some? ==> old(pos) <= at.value && !Skipped(entries[at.value], skipping0, old(savedKey))
      ensures forall i :: old(pos) <= i < (if at.Some? then at.value else |entries|) && IsLive(entries, sequence, i) ==>
                Skipped(entries[i], skipping0, old(savedKey))
    {
      var skipping := skipping0;
      var skip := savedKey;
      ghost var tomb: Option<nat> := None;  // the deletion that set `skip`
      while pos < |entries|
        invariant pos <= |entries| && direction == Forward && savedKey == old(savedKey)
        invariant Scanned(entries, sequence, old(pos), pos, skipping0, savedKey, skipping, skip, tomb)
        decreases |entries| - pos
      {
        var e := entries[pos];
        ScanOne(entries, sequence, old(pos), pos, skipping0, savedKey, skipping, skip, tomb);
        if Seen(e, sequence) {
          match e.op
          case Delete =>
            skip := Some(e.ukey);
            skipping := true;
            tomb := Some(pos);
          case Put(_) =>
            if skipping && e.ukey <= skip.value {
              // hidden
            } else {
              valid := true;
              savedKey := None;
              at := Some(pos);
              return;
            }
        }
        pos := pos + 1;
      }
      savedKey := None;
      valid := false;
      at := None;
    }

    /** Scanning from `start` has reached p; `skip` is the key given, or that of deletion `tomb`. */
    static ghost predicate Scanned(es: seq<Entry>, s: nat, start: nat, p: nat, skipping0: bool, key: Option<UserKey>,
                                   skipping: bool, skip: Option<UserKey>, tomb: Option<nat>)
      requires p <= |es|
    {
      && start <= p && Passed(es, s, p, skipping, skip)
      && (tomb.None? ==> skipping == skipping0 && skip == key)
      && (tomb.Some? ==> skipping && tomb.value < p && Seen(es[tomb.value], s) && skip == Some(es[tomb.value].ukey))
      && (skipping0 ==> skipping && key.Some? && key.value <= skip.value)
      && forall i :: start <= i < p && IsLive(es, s, i) ==> Skipped(es[i], skipping0, key)
    }

    static lemma ScanOne(es: seq<Entry>, s: nat, start: nat, p: nat, skipping0: bool, key: Option<UserKey>,
                         skipping: bool, skip: Option<UserKey>, tomb: Option<nat>)
      requires Sorted(es) && p < |es| && Scanned(es, s, start, p, skipping0, key, skipping, skip, tomb)
      ensures !Seen(es[p], s) ==> Scanned(es, s, start, p + 1, skipping0, key, skipping, skip, tomb)
      ensures Seen(es[p], s) && es[p].op.Delete? ==>
                Scanned(es, s, start, p + 1, skipping0, key, true, Some(es[p].ukey), Some(p))
      ensures Seen(es[p], s) && es[p].op.Put? && skipping && es[p].ukey <= skip.value ==>
                Scanned(es, s, start, p + 1, skipping0, key, skipping, skip, tomb)
      ensures Seen(es[p], s) && es[p].op.Put? && !(skipping && es[p].ukey <= skip.value) ==>
                IsLive(es, s, p) && !Skipped(es[p], skipping0, key)
    {
      assert forall i :: p < i < |es| ==> Before(es[p], es[i]);
      assert forall i :: 0 <= i < p ==> Before(es[i], es[p]);
    }

    method SeekToFirst()
      requires Valid()
      modifies this
      ensures Valid() && Cursor() == 0
    {
      direction := Forward;
      savedValue := "";
      pos := 0;
      if pos < |entries| {
        FindNextUserEntry(false);
      } else {
        valid, at := false, None;
      }
      FirstLivePosition(entries, sequence, 0, at);
    }

    method Seek(target: UserKey)
      requires Valid()
      modifies this
      ensures Valid()
      ensures forall i :: 0 <= i < |LivePairs(entries, sequence)| ==>
                (LivePairs(entries, sequence)[i].0 < target <==> i < Cursor())
    {
      direction := Forward;
      savedValue := "";
      savedKey := Some(target);  // holds the lookup key, used as scratch space
      pos := SeekIndex(entries, SeekKey(target, sequence));
      ghost var start := pos;
      if pos < |entries| {
        FindNextUserEntry(false);
      } else {
        valid, at := false, None;
      }
      FirstLivePosition(entries, sequence, start, at);
      SeekSplits(entries, sequence, target);
    }

    method Next()
      requires Valid() && valid
      modifies this
      ensures Valid() && Cursor() == old(Cursor()) + 1
    {
      ghost var shown := at.value;
      if direction == Reverse {
        direction := Forward;
        // step back into the entries of the current key; there is one, so the iterator stays valid
        pos := if pos < |entries| then pos + 1 else 0;
      } else {
        savedKey := Some(entries[pos].ukey);
      }
      FindNextUserEntry(true);
      LaterKeys(entries, sequence, shown);
      FirstLivePosition(entries, sequence, shown + 1, at);
      LiveAtRank(entries, sequence, shown);
    }

    /** Scan backwards to the last value not hidden by a deletion. */
    method FindPrevUserEntry()
      requires Sorted(entries) && pos <= |entries| && direction == Reverse
      modifies this
      ensures Valid() && LastLiveBelow(entries, sequence, old(Count(entries, pos)), at)
    {
      ghost var hi := Count(entries, pos);
      ghost var cand: nat := 0;
      var deletion := true;  // value_type == kTypeDeletion
      while pos < |entries|
        invariant pos <= |entries| && Count(entries, pos) <= hi && direction == Reverse
        invariant deletion ==> forall j :: Count(entries, pos) <= j < hi ==> !IsLive(entries, sequence, j)
        invariant !deletion ==> Candidate(entries, sequence, Count(entries, pos), cand, hi)
        invariant !deletion ==> savedKey == Some(entries[cand].ukey) && savedValue == entries[cand].op.value
        decreases Count(entries, pos)
      {
        var e := entries[pos];
        if Seen(e, sequence) {
          if !deletion && e.ukey < savedKey.value {
            // a value in the entries of a later key, and now an earlier key
            break;
          }
          match e.op
          case Delete =>
            deletion := true;
            savedKey, savedValue := None, "";
          case Put(v) =>
            deletion := false;
            savedKey, savedValue := Some(e.ukey), v;
            cand := pos;
        }
        pos := PrevPos(pos);
      }
      if deletion {
        valid, at, savedKey, savedValue, direction := false, None, None, "", Forward;
      } else {
        valid, at := true, Some(cand);
      }
    }

    function PrevPos(p: nat): nat { if p == 0 then |entries| else p - 1 }

    /** Scanning down to `low`, entry m is the only one in sight that may be live. */
    static ghost predicate Candidate(es: seq<Entry>, s: nat, low: nat, m: nat, hi: nat)
      requires hi <= |es|
    {
      && low <= m < hi && Seen(es[m], s) && es[m].op.Put?
      && (forall j :: low <= j < m ==> !Seen(es[j], s))
      && forall j :: m < j < hi ==> !IsLive(es, s, j)
    }

    method Prev()
      requires Valid() && valid
      modifies this
      ensures Valid() && Cursor() == if old(Cursor()) == 0 then |LivePairs(entries, sequence)| else old(Cursor()) - 1
    {
      ghost var shown := at.value;
      if direction == Forward {
        savedKey := Some(entries[pos].ukey);
        pos := PrevPos(pos);
        while pos < |entries| && entries[pos].ukey >= savedKey.value
          invariant pos <= |entries| && (pos < |entries| ==> pos < shown)
          invariant forall j :: Count(entries, pos) <= j < shown ==> entries[j].ukey == entries[shown].ukey
          invariant direction == Forward && savedKey == Some(entries[shown].ukey)
          decreases Count(entries, pos)
        {
          pos := PrevPos(pos);
        }
        if pos == |entries| {
          valid, at, savedKey, savedValue := false, None, None, "";
          LastLivePosition(entries, sequence, shown, None);
          return;
        }
        direction := Reverse;
      }
      FindPrevUserEntry();
      LastLivePosition(entries, sequence, shown, at);
    }

    method SeekToLast()
      requires Valid()
      modifies this
      ensures Valid() && Cursor() == if |LivePairs(entries, sequence)| == 0 then 0
                                     else |LivePairs(entries, sequence)| - 1
    {
      direction := Reverse;
      savedValue := "";
      pos := if |entries| == 0 then 0 else |entries| - 1;
      FindPrevUserEntry();
      LastLivePosition(entries, sequence, |entries|, at);
    }
  }

  /** A live entry after the one shown has a later user key, and one at or before it does not. */
  lemma LaterKeys(es: seq<Entry>, s: nat, shown: nat)
    requires Sorted(es) && shown < |es| && IsLive(es, s, shown)
    ensures forall i :: 0 <= i < |es| && IsLive(es, s, i) ==> (i > shown <==> es[i].ukey > es[shown].ukey)
  {
    forall i | 0 <= i < |es| && IsLive(es, s, i) ensures i > shown <==> es[i].ukey > es[shown].ukey {
      assert i < shown ==> Before(es[i], es[shown]);
      assert i > shown ==> Before(es[shown], es[i]);
    }
  }
}
