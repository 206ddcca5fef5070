/** What a read means: over a flat set of entries, reading key k at snapshot s
    returns what the newest entry for k with sequence at most s says. */
module SnapshotReads {
  import opened InternalKeys

  predicate Visible(e: Entry, k: UserKey, s: nat) { e.ukey == k && e.sequence <= s }

  ghost predicate Newest(es: set<Entry>, k: UserKey, s: nat, e: Entry) {
    e in es && Visible(e, k, s)
    && forall d :: d in es && Visible(d, k, s) ==> d.sequence <= e.sequence
  }

  function ValueOf(e: Entry): Option<Value> {
    match e.op case Put(v) => Some(v) case Delete => None
  }

  ghost function ReadAt(es: set<Entry>, k: UserKey, s: nat): Option<Value> {
    if exists e :: Newest(es, k, s, e) then
      var e :| Newest(es, k, s, e); ValueOf(e)
    else None
  }

  lemma {:induction false} NewestExists(es: set<Entry>, k: UserKey, s: nat, e: Entry)
    requires e in es && Visible(e, k, s)
    ensures exists n :: Newest(es, k, s, n)
    decreases |es|
  {
    if d :| d in es && Visible(d, k, s) && d.sequence > e.sequence {
      var rest := es - {e};
      NewestExists(rest, k, s, d);
      var n :| Newest(rest, k, s, n);
      assert d.sequence <= n.sequence;
      assert Newest(es, k, s, n);
    } else {
      assert Newest(es, k, s, e);
    }
  }

  lemma ReadNewest(es: set<Entry>, k: UserKey, s: nat, e: Entry)
    requires DistinctSequences(es) && Newest(es, k, s, e)
    ensures ReadAt(es, k, s) == ValueOf(e)
  {
    forall d | Newest(es, k, s, d) ensures d == e { assert d.sequence == e.sequence; }
  }

  /** A read is decided by the newest entry when there is one, and is empty otherwise. */
  lemma ReadCases(es: set<Entry>, k: UserKey, s: nat) returns (n: Option<Entry>)
    requires DistinctSequences(es)
    ensures n.Some? ==> Newest(es, k, s, n.value) && ReadAt(es, k, s) == ValueOf(n.value)
    ensures n.None? ==> ReadAt(es, k, s) == None && forall e :: e in es ==> !Visible(e, k, s)
  {
    if e :| e in es && Visible(e, k, s) {
      NewestExists(es, k, s, e);
      var m :| Newest(es, k, s, m);
      ReadNewest(es, k, s, m);
      n := Some(m);
    } else {
      n := None;
    }
  }
}
