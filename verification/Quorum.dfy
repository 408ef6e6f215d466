/** The validator quorum of src/core/consensus.cpp and its intersection property. */
module Quorum {
  import opened Sets

  /** ceil(2n / 3). */
  function RequiredQuorum(n: nat): (q: nat)
    ensures q <= n && 3 * q >= 2 * n && (n > 0 ==> 3 * (q - 1) < 2 * n)
  {
    if n == 0 then 0
    else if n == 1 then 1
    else (n * 2 + 2) / 3
  }

  /** Fewer faulty members than any two quorums must share. */
  ghost predicate FaultsBounded<A>(members: set<A>, honest: set<A>) {
    |members - honest| < 2 * RequiredQuorum(|members|) - |members|
  }

  /** Strictly fewer than one third of the members always satisfies the bound. */
  lemma ThirdIsEnough<A>(members: set<A>, honest: set<A>)
    requires 3 * |members - honest| < |members|
    ensures FaultsBounded(members, honest)
  {
  }

  /** Two quorums of the same set have an honest member in common. */
  lemma HonestIntersection<A>(members: set<A>, honest: set<A>, a: set<A>, b: set<A>) returns (x: A)
    requires a <= members && b <= members
    requires |a| >= RequiredQuorum(|members|) && |b| >= RequiredQuorum(|members|)
    requires FaultsBounded(members, honest)
    ensures x in a && x in b && x in honest
  {
    var both := a * b;
    assert |both| + |a + b| == |a| + |b|;
    SubsetSize(a + b, members);
    var good := both * honest;
    if good == {} {
      forall y | y in both
        ensures y in members - honest
      {
        assert y in good || y !in honest;
      }
      SubsetSize(both, members - honest);
      assert false;
    }
    x := Pick(good);
  }

  /** The bound is tight: when it fails, two quorums can meet in faulty members only. */
  lemma QuorumsCanSplit(n: nat, q: nat)
    requires n >= 1 && q == RequiredQuorum(n)
    ensures exists a: set<nat>, b: set<nat>, members: set<nat> ::
              |members| == n && a <= members && b <= members && |a| == q && |b| == q && |a * b| == 2 * q - n
  {
    var members, a, b := Range(0, n), Range(0, q), Range(n - q, n);
    assert a * b == Range(n - q, q);
    assert |members| == n && a <= members && b <= members;
  }

  ghost function Range(low: nat, high: nat): (s: set<nat>)
    ensures forall i: nat :: i in s <==> low <= i < high
    ensures low <= high ==> |s| == high - low
  {
    if low >= high then {} else Range(low, high - 1) + {high - 1}
  }
}
