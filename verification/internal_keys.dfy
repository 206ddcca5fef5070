/** Internal keys of LevelDB (db/dbformat.h, db/dbformat.cc): a user key, the
    sequence number of the write, and whether the write stored or deleted.

    User keys are reals.  The code only ever compares user keys, the user
    comparator is a total order on byte strings, byte strings are countable, and
    every countable total order embeds in the reals; so a statement about every
    real key is a statement about every comparator. */
module InternalKeys {

  type UserKey = real
  type Value = string

  datatype Option<+T> = None | Some(value: T)

  /** kTypeDeletion and kTypeValue with the value that comes with the latter. */
  datatype Op = Delete | Put(value: Value)

  datatype Entry = Entry(ukey: UserKey, sequence: nat, op: Op)

  const MAX_SEQUENCE: nat := 0xFF_FFFF_FFFF_FFFF  // kMaxSequenceNumber == 2^56 - 1

  function TypeTag(op: Op): nat { if op.Put? then 1 else 0 }

  /** PackSequenceAndType. */
  function PackedTag(e: Entry): nat { e.sequence * 256 + TypeTag(e.op) }

  /** InternalKeyComparator::Compare(a, b) < 0: user key ascending, then tag descending. */
  predicate Before(a: Entry, b: Entry) {
    a.ukey < b.ukey || (a.ukey == b.ukey && PackedTag(a) > PackedTag(b))
  }

  predicate AtOrBefore(a: Entry, b: Entry) {
    a.ukey < b.ukey || (a.ukey == b.ukey && PackedTag(a) >= PackedTag(b))
  }

  /** LookupKey(k, s): kValueTypeForSeek is the largest type tag. */
  function SeekKey(k: UserKey, s: nat): Entry { Entry(k, s, Put("")) }

  predicate Sorted(es: seq<Entry>) {
    forall i, j :: 0 <= i < j < |es| ==> Before(es[i], es[j])
  }

  /** Each write gets its own sequence number, so the type tag never decides. */
  ghost predicate DistinctSequences(es: set<Entry>) {
    forall a, b :: a in es && b in es && a.sequence == b.sequence ==> a == b
  }

  ghost function Elements(es: seq<Entry>): set<Entry> { set e | e in es }
}
