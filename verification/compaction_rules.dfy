/** The two drop rules of DBImpl::DoCompactionWork on flat sets of entries:
    `inputs` are the entries being compacted, `rest` is everything else in the
    database, `floor` is smallest_snapshot. */
module CompactionRules {
  import opened InternalKeys
  import opened SnapshotReads

  /** Rule (A): a newer input for the same user key is visible to every snapshot. */
  ghost predicate HiddenByNewer(inputs: set<Entry>, e: Entry, floor: nat) {
    exists d :: d in inputs && d.ukey == e.ukey && e.sequence < d.sequence <= floor
  }

  /** The second rule: a tombstone old enough, with no data below the output level. */
  predicate ObsoleteTombstone(e: Entry, floor: nat, base: UserKey -> bool) {
    e.op.Delete? && e.sequence <= floor && base(e.ukey)
  }

  ghost predicate Survives(inputs: set<Entry>, e: Entry, floor: nat, base: UserKey -> bool) {
    e in inputs && !HiddenByNewer(inputs, e, floor) && !ObsoleteTombstone(e, floor, base)
  }

  ghost function Survivors(inputs: set<Entry>, floor: nat, base: UserKey -> bool): set<Entry> {
    set e | e in inputs && Survives(inputs, e, floor, base)
  }

  /** Dropping tombstone t uncovers the older value p. */
  ghost predicate Resurrects(rest: set<Entry>, inputs: set<Entry>, floor: nat,
                             base: UserKey -> bool, t: Entry, p: Entry) {
    && Newest(inputs, t.ukey, floor, t) && t.op.Delete? && base(t.ukey)
    && Newest(rest, t.ukey, floor, p) && p.op.Put? && p.sequence < t.sequence
  }

  ghost predicate ResurrectFree(rest: set<Entry>, inputs: set<Entry>, floor: nat, base: UserKey -> bool) {
    forall t, p :: !Resurrects(rest, inputs, floor, base, t, p)
  }

  ghost predicate SameReads(before: set<Entry>, after: set<Entry>, floor: nat) {
    forall k, s: nat :: s >= floor ==> ReadAt(after, k, s) == ReadAt(before, k, s)
  }

  /** The survivor at the floor is the newest input visible there, if it is kept at all. */
  lemma FloorSurvivor(inputs: set<Entry>, floor: nat, base: UserKey -> bool, k: UserKey, e: Entry)
    requires DistinctSequences(inputs)
    requires e in Survivors(inputs, floor, base) && Visible(e, k, floor)
    ensures Newest(inputs, k, floor, e)
  {
    forall d | d in inputs && Visible(d, k, floor) ensures d.sequence <= e.sequence {
      if d.sequence > e.sequence { assert HiddenByNewer(inputs, e, floor); }
    }
  }

  lemma NewestKept(inputs: set<Entry>, floor: nat, base: UserKey -> bool, k: UserKey, s: nat, e: Entry)
    requires s >= floor && Newest(inputs, k, s, e)
    ensures e in Survivors(inputs, floor, base) <==> !ObsoleteTombstone(e, floor, base)
  {
    assert forall d :: d in inputs && d.ukey == e.ukey && d.sequence <= floor ==> Visible(d, k, s);
  }

  /** One read, when no dropped tombstone covers an older value. */
  lemma ReadKept(rest: set<Entry>, inputs: set<Entry>, floor: nat, base: UserKey -> bool, k: UserKey, s: nat)
    requires rest !! inputs && DistinctSequences(rest + inputs) && s >= floor
    requires ResurrectFree(rest, inputs, floor, base)
    ensures ReadAt(rest + Survivors(inputs, floor, base), k, s) == ReadAt(rest + inputs, k, s)
  {
    var before, after := rest + inputs, rest + Survivors(inputs, floor, base);
    var n := ReadCases(before, k, s);
    if n.Some? {
      var e := n.value;
      if e in after {
        assert Newest(after, k, s, e);
        ReadNewest(after, k, s, e);
      } else {
        assert Newest(inputs, k, s, e);
        NewestKept(inputs, floor, base, k, s, e);
        assert ObsoleteTombstone(e, floor, base);
        UncoveredRead(rest, inputs, floor, base, k, s, e);
      }
    } else {
      var m := ReadCases(after, k, s);
    }
  }

  /** The newest entry is a dropped tombstone: nothing but tombstones remains visible. */
  lemma UncoveredRead(rest: set<Entry>, inputs: set<Entry>, floor: nat, base: UserKey -> bool,
                      k: UserKey, s: nat, e: Entry)
    requires rest !! inputs && DistinctSequences(rest + inputs) && s >= floor
    requires ResurrectFree(rest, inputs, floor, base)
    requires Newest(rest + inputs, k, s, e) && e in inputs && ObsoleteTombstone(e, floor, base)
    ensures ReadAt(rest + Survivors(inputs, floor, base), k, s) == None
  {
    var after := rest + Survivors(inputs, floor, base);
    var m := ReadCases(after, k, s);
    if m.Some? {
      var p := m.value;
      assert p in rest by { assert p in inputs ==> HiddenByNewer(inputs, p, floor); }
      assert Newest(rest, k, floor, p);
      assert Newest(inputs, k, floor, e);
      assert !Resurrects(rest, inputs, floor, base, e, p);
    }
  }

  /** Conversely a resurrected value changes the read at the floor itself. */
  lemma ResurrectionChangesRead(rest: set<Entry>, inputs: set<Entry>, floor: nat, base: UserKey -> bool,
                                t: Entry, p: Entry)
    requires rest !! inputs && DistinctSequences(rest + inputs)
    requires Resurrects(rest, inputs, floor, base, t, p)
    ensures ReadAt(rest + inputs, t.ukey, floor) == None
    ensures ReadAt(rest + Survivors(inputs, floor, base), t.ukey, floor) == ValueOf(p)
  {
    var before, after := rest + inputs, rest + Survivors(inputs, floor, base);
    assert Newest(before, t.ukey, floor, t);
    ReadNewest(before, t.ukey, floor, t);
    forall d | d in after && Visible(d, t.ukey, floor) ensures d.sequence <= p.sequence {
      if d !in rest { FloorSurvivor(inputs, floor, base, t.ukey, d); }
    }
    assert Newest(after, t.ukey, floor, p);
    ReadNewest(after, t.ukey, floor, p);
  }

  /** Compaction keeps every read at every snapshot that can still be held exactly
      when no dropped tombstone covers an older value left outside the inputs. */
  lemma CompactionKeepsReadsIff(rest: set<Entry>, inputs: set<Entry>, floor: nat, base: UserKey -> bool)
    requires rest !! inputs && DistinctSequences(rest + inputs)
    ensures SameReads(rest + inputs, rest + Survivors(inputs, floor, base), floor)
            <==> ResurrectFree(rest, inputs, floor, base)
  {
    if ResurrectFree(rest, inputs, floor, base) {
      forall k, s: nat | s >= floor
        ensures ReadAt(rest + Survivors(inputs, floor, base), k, s) == ReadAt(rest + inputs, k, s)
      { ReadKept(rest, inputs, floor, base, k, s); }
    } else {
      var t, p :| Resurrects(rest, inputs, floor, base, t, p);
      ResurrectionChangesRead(rest, inputs, floor, base, t, p);
    }
  }
}
