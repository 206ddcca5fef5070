/** Sequences in which nothing occurs twice, which stand for intrusive linked lists, whose
    nodes are unlinked without searching for them; and sequences of sequences. */
module Lists {
  /** The parts one after the other. */
  function Concat<T>(parts: seq<seq<T>>): seq<T> {
    if parts == [] then [] else Concat(parts[..|parts| - 1]) + parts[|parts| - 1]
  }

  /** Where part b starts. */
  function StartOf<T>(parts: seq<seq<T>>, b: nat): nat
    requires b <= |parts|
  { |Concat(parts[..b])| }

  lemma StartNext<T>(parts: seq<seq<T>>, b: nat)
    requires b < |parts|
    ensures StartOf(parts, b + 1) == StartOf(parts, b) + |parts[b]|
  {
    assert parts[..b + 1][..b] == parts[..b];
  }

  lemma StartOfEnd<T>(parts: seq<seq<T>>)
    ensures StartOf(parts, 0) == 0 && StartOf(parts, |parts|) == |Concat(parts)|
  {
    assert parts[..|parts|] == parts;
  }

  lemma {:induction false} StartAtMost<T>(parts: seq<seq<T>>, b: nat)
    requires b <= |parts|
    ensures StartOf(parts, b) <= |Concat(parts)|
    decreases |parts| - b
  {
    if b == |parts| {
      StartOfEnd(parts);
    } else {
      StartNext(parts, b);
      StartAtMost(parts, b + 1);
    }
  }

  lemma {:induction false} ItemAt<T>(parts: seq<seq<T>>, b: nat, i: nat)
    requires b < |parts| && i < |parts[b]|
    ensures StartOf(parts, b) + i < |Concat(parts)| && Concat(parts)[StartOf(parts, b) + i] == parts[b][i]
    decreases |parts|
  {
    var front := parts[..|parts| - 1];
    if b < |front| {
      ItemAt(front, b, i);
      assert front[..b] == parts[..b];
    }
  }

  /** Every position of the whole is one of a part. */
  lemma {:induction false} PartOf<T>(parts: seq<seq<T>>, p: nat) returns (b: nat, i: nat)
    requires p < |Concat(parts)|
    ensures b < |parts| && i < |parts[b]| && p == StartOf(parts, b) + i
    decreases |parts|
  {
    var n := |parts| - 1;
    var front := parts[..n];
    if p < |Concat(front)| {
      b, i := PartOf(front, p);
      assert front[..b] == parts[..b];
    } else {
      b, i := n, p - |Concat(front)|;
    }
  }

  lemma {:induction false} StartBefore<T>(parts: seq<seq<T>>, b: nat, c: nat)
    requires b <= c <= |parts|
    ensures StartOf(parts, b) <= StartOf(parts, c)
    decreases c - b
  {
    if b < c {
      StartNext(parts, c - 1);
      StartBefore(parts, b, c - 1);
    }
  }

  ghost predicate Once<T(!new)>(q: seq<T>) { forall i, j :: 0 <= i < j < |q| ==> q[i] != q[j] }

  /** The list after the node of x has been unlinked. */
  function Without<T(==)>(q: seq<T>, x: T): seq<T> {
    if q == [] then [] else if q[0] == x then q[1..] else [q[0]] + Without(q[1..], x)
  }

  lemma TailOnce<T(!new)>(q: seq<T>)
    requires Once(q) && q != []
    ensures Once(q[1..]) && forall x :: x in q[1..] <==> x in q && x != q[0]
  {
  }

  lemma AppendOnce<T(!new)>(q: seq<T>, x: T)
    requires Once(q) && x !in q
    ensures Once(q + [x]) && forall y :: y in q + [x] <==> y in q || y == x
  {
  }

  /** a stands somewhere before b. */
  ghost predicate Ahead<T(!new)>(q: seq<T>, a: T, b: T) { exists i, j :: 0 <= i < j < |q| && q[i] == a && q[j] == b }

  lemma {:induction false} WithoutKeepsOrder<T(!new)>(q: seq<T>, x: T, a: T, b: T)
    requires Ahead(q, a, b) && a != x && b != x
    ensures Ahead(Without(q, x), a, b)
  {
    var i, j :| 0 <= i < j < |q| && q[i] == a && q[j] == b;
    if q[0] == x {
      assert q[1..][i - 1] == a && q[1..][j - 1] == b;
    } else if i == 0 {
      WithoutKeeps(q[1..], x, j - 1);
      var k :| 0 <= k < |Without(q[1..], x)| && Without(q[1..], x)[k] == b;
      assert Without(q, x)[0] == a && Without(q, x)[k + 1] == b;
    } else {
      assert q[1..][i - 1] == a && q[1..][j - 1] == b;
      WithoutKeepsOrder(q[1..], x, a, b);
      var rest := Without(q[1..], x);
      var k, m :| 0 <= k < m < |rest| && rest[k] == a && rest[m] == b;
      assert Without(q, x)[k + 1] == a && Without(q, x)[m + 1] == b;
    }
  }

  lemma {:induction false} WithoutKeeps<T(!new)>(q: seq<T>, x: T, j: nat)
    requires j < |q| && q[j] != x
    ensures q[j] in Without(q, x)
  {
    if q[0] != x && j > 0 { WithoutKeeps(q[1..], x, j - 1); }
    if q[0] == x { assert q[1..][j - 1] == q[j]; }
  }

  lemma {:induction false} WithoutOnce<T(!new)>(q: seq<T>, x: T)
    requires Once(q)
    ensures Once(Without(q, x)) && forall y :: y in Without(q, x) <==> y in q && y != x
    ensures |Without(q, x)| == |q| - if x in q then 1 else 0
  {
    if q != [] {
      TailOnce(q);
      WithoutOnce(q[1..], x);
      var rest := Without(q[1..], x);
      if q[0] != x {
        assert Without(q, x) == [q[0]] + rest;
        forall i, j | 0 <= i < j < |rest| + 1 ensures Without(q, x)[i] != Without(q, x)[j] {
          assert Without(q, x)[j] == rest[j - 1] && rest[j - 1] in rest;
        }
      }
    }
  }

  /** Also for sets: a subset is no larger. */
  lemma SubsetSize<T>(a: set<T>, b: set<T>)
    requires a <= b
    ensures |a| <= |b|
  {
    assert b == a + (b - a);
  }
}
