/** Counting the members of sequences without repeats. */
module Sequences {

  ghost predicate Distinct<T>(q: seq<T>)
  {
    forall i, j :: 0 <= i < j < |q| ==> q[i] != q[j]
  }

  ghost function Members<T>(q: seq<T>): set<T>
  {
    set x | x in q
  }

  /** The numbers below n. */
  ghost function Below(n: nat): (r: set<int>)
    ensures |r| == n && forall x :: x in r <==> 0 <= x < n
  {
    if n == 0 then {} else Below(n - 1) + {n - 1}
  }

  lemma {:induction false} MembersCount<T>(q: seq<T>)
    requires Distinct(q)
    ensures |Members(q)| == |q|
  {
    if q != [] {
      MembersCount(q[1..]);
      assert q == [q[0]] + q[1..];
      assert Members(q) == Members(q[1..]) + {q[0]};
      assert q[0] !in q[1..];
    }
  }

  lemma SubsetCount<T>(a: set<T>, b: set<T>)
    requires a <= b
    ensures |a| <= |b|
    ensures a != b ==> |a| < |b|
  {
    assert b == a + (b - a);
    assert a != b ==> b - a != {};
  }

  /** Without repeats, and with one number missing, there is room for one more. */
  lemma FewerThan(q: seq<int>, n: nat, missing: int)
    requires Distinct(q) && 0 <= missing < n && missing !in q
    requires forall x :: x in q ==> 0 <= x < n
    ensures |q| < n
  {
    MembersCount(q);
    assert missing in Below(n) && missing !in Members(q);
    SubsetCount(Members(q), Below(n));
  }
}
