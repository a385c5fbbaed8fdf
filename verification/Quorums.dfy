/** Majorities of a finite set of nodes numbered 0..n. */
module Quorums {

  function Majority(n: nat): (q: nat)
    ensures 2 * q > n
    ensures n > 0 ==> 0 < q <= n
  {
    n / 2 + 1
  }

  ghost predicate Within(a: set<nat>, n: nat) {
    forall x :: x in a ==> x < n
  }

  lemma {:induction false} BoundedCard(a: set<nat>, n: nat)
    requires Within(a, n)
    ensures |a| <= n
  {
    if n == 0 {
      assert a == {};
    } else {
      BoundedCard(a - {n - 1}, n - 1);
      assert a <= (a - {n - 1}) + {n - 1};
    }
  }

  /** Two majorities of the same n nodes share a node. */
  lemma MajoritiesIntersect(a: set<nat>, b: set<nat>, n: nat) returns (x: nat)
    requires Within(a, n) && Within(b, n)
    requires |a| >= Majority(n) && |b| >= Majority(n)
    ensures x in a && x in b
  {
    BoundedCard(a + b, n);
    assert |a + b| == |a| + |b| - |a * b|;
    assert |a * b| > 0;
    x :| x in a * b;
  }

  /** A set that every majority of the n nodes meets. */
  ghost predicate Meeting(a: set<nat>, n: nat) {
    Within(a, n) && |a| + Majority(n) > n
  }

  lemma {:induction false} MajorityMeets(a: set<nat>, b: set<nat>, n: nat) returns (x: nat)
    requires Meeting(a, n) && Within(b, n) && |b| >= Majority(n)
    ensures x in a && x in b
  {
    BoundedCard(a + b, n);
    assert |a + b| == |a| + |b| - |a * b|;
    x :| x in a * b;
  }

  /** A majority meets every majority, and so does everything around a meeting set. */
  lemma {:induction false} MajorityIsMeeting(a: set<nat>, n: nat)
    requires Within(a, n) && |a| >= Majority(n)
    ensures Meeting(a, n)
  {
  }

  lemma {:induction false} MeetingGrows(a: set<nat>, b: set<nat>, n: nat)
    requires Meeting(a, n) && a <= b && Within(b, n)
    ensures Meeting(b, n)
  {
    SubsetCard(a, b);
  }

  /** Two sets that divide the n nodes between them. */
  lemma {:induction false} ComplementCard(a: set<nat>, b: set<nat>, n: nat)
    requires Within(a, n) && Within(b, n) && forall i :: i in a ==> i !in b
    requires forall i :: 0 <= i < n ==> i in a || i in b
    ensures |a| + |b| == n
  {
    if n == 0 {
      assert a == {} && b == {};
    } else if n - 1 in a {
      ComplementCard(a - {n - 1}, b, n - 1);
    } else {
      ComplementCard(a, b - {n - 1}, n - 1);
    }
  }

  lemma SubsetCard(a: set<nat>, b: set<nat>)
    requires a <= b
    ensures |a| <= |b|
  {
    assert b == a + (b - a);
  }
}
