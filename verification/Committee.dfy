/**
 Rotation of finalization committees and proposers (src/node/sync_server.cpp): fairness of
 the assignment over consecutive rounds.
 */
module Committee {
  import opened Addresses
  import opened Quorum
  import opened Divisibility

  /** Addition modulo n of two residues. */
  function Turn(a: nat, b: nat, n: nat): (c: nat)
    requires a < n && b < n
    ensures c < n
  {
    if a + b < n then a + b else a + b - n
  }

  lemma TurnIsModular(a: nat, b: nat, n: nat)
    requires a < n && b < n
    ensures Turn(a, b, n) == (a + b) % n
  {
    if a + b < n {
      ModUnique(a + b, n, 0, a + b);
    } else {
      ModUnique(a + b, n, 1, a + b - n);
    }
  }

  /** First member of the window of a round; `selector` is derived from the hash of
      (previous hash, integer). */
  function WindowStart(selector: nat, round: nat, n: nat): (s: nat)
    requires round >= 1 && n >= 1
    ensures s < n
  {
    Turn(selector % n, (round - 1) % n, n)
  }

  function ProposerOffset(round: nat, n: nat): (k: nat)
    requires round >= 1 && n >= 1
    ensures k < RequiredQuorum(n)
  {
    ((round - 1) / n) % RequiredQuorum(n)
  }

  /** Position in the validator list of member i of the committee, the proposer being
      member 0. */
  function Seat(selector: nat, round: nat, n: nat, i: nat): (position: nat)
    requires round >= 1 && n >= 1 && i < RequiredQuorum(n)
    ensures position < n
  {
    Turn(WindowStart(selector, round, n), Turn(i, ProposerOffset(round, n), RequiredQuorum(n)), n)
  }

  function CommitteeOf(validators: seq<Address>, selector: nat, round: nat): (c: seq<Address>)
    requires round >= 1
    ensures |c| == RequiredQuorum(|validators|)
  {
    if |validators| == 0 then []
    else
      var n := |validators|;
      seq(RequiredQuorum(n), i requires 0 <= i < RequiredQuorum(n) => validators[Seat(selector, round, n, i)])
  }

  function Proposer(validators: seq<Address>, selector: nat, round: nat): (a: Address)
    requires round >= 1 && |validators| >= 1
  {
    CommitteeOf(validators, selector, round)[0]
  }

  /** The committee as the source builds it: a loop over the window, then a rotation that
      brings the proposer to the front. */
  method FinalizationCommitteeOrdered(validators: seq<Address>, selector: nat, round: nat)
    returns (committee: seq<Address>)
    requires round >= 1
    ensures committee == CommitteeOf(validators, selector, round)
  {
    committee := [];
    if |validators| == 0 {
      return;
    }
    var n := |validators|;
    var quorum := RequiredQuorum(n);
    var start := (selector % n + (round - 1) % n) % n;
    TurnIsModular(selector % n, (round - 1) % n, n);
    var i := 0;
    while i < quorum
      invariant 0 <= i <= quorum && |committee| == i
      invariant forall k :: 0 <= k < i ==> committee[k] == validators[Turn(start, k, n)]
    {
      TurnIsModular(start, i, n);
      committee := committee + [validators[(start + i) % n]];
      i := i + 1;
    }
    var offset := ((round - 1) / n) % quorum;
    committee := committee[offset..] + committee[..offset];
  }

  lemma SeatsDistinct(selector: nat, round: nat, n: nat, i: nat, j: nat)
    requires round >= 1 && n >= 1 && i < j < RequiredQuorum(n)
    ensures Seat(selector, round, n, i) != Seat(selector, round, n, j)
  {
  }

  lemma PositionsDistinct(validators: seq<Address>, a: nat, b: nat)
    requires Ascending(validators) && a < |validators| && b < |validators|
    ensures validators[a] == validators[b] <==> a == b
  {
    if a < b { AscendingOrders(validators, a, b); }
    if b < a { AscendingOrders(validators, b, a); }
  }

  /** Each committee consists of exactly a quorum of distinct validators. */
  lemma CommitteeDistinct(validators: seq<Address>, selector: nat, round: nat, i: nat, j: nat)
    requires round >= 1 && Ascending(validators) && |validators| >= 1
    requires i < j < RequiredQuorum(|validators|)
    ensures |CommitteeOf(validators, selector, round)| == RequiredQuorum(|validators|)
    ensures CommitteeOf(validators, selector, round)[i] != CommitteeOf(validators, selector, round)[j]
  {
    var n := |validators|;
    SeatsDistinct(selector, round, n, i, j);
    PositionsDistinct(validators, Seat(selector, round, n, i), Seat(selector, round, n, j));
  }

  /** The window of a round, as a set of positions in the validator list. */
  ghost predicate InWindow(selector: nat, round: nat, n: nat, position: nat)
    requires round >= 1 && position < n
  {
    Distance(WindowStart(selector, round, n), position, n) < RequiredQuorum(n)
  }

  /** Steps from start to position, going round. */
  ghost function Distance(start: nat, position: nat, n: nat): (d: nat)
    requires start < n && position < n
    ensures d < n && Turn(start, d, n) == position
  {
    if position >= start then position - start else position - start + n
  }

  /** The seat of a position in the window. */
  lemma SeatOf(selector: nat, round: nat, n: nat, position: nat) returns (i: nat)
    requires round >= 1 && position < n && InWindow(selector, round, n, position)
    ensures i < RequiredQuorum(n) && Seat(selector, round, n, i) == position
  {
    var d, offset := Distance(WindowStart(selector, round, n), position, n), ProposerOffset(round, n);
    i := if d >= offset then d - offset else d - offset + RequiredQuorum(n);
  }

  /** The committee is the window: a validator sits on it exactly when its position is in
      the window. */
  lemma CommitteeIsWindow(validators: seq<Address>, selector: nat, round: nat, position: nat)
    requires round >= 1 && Ascending(validators) && position < |validators|
    ensures validators[position] in CommitteeOf(validators, selector, round)
       <==> InWindow(selector, round, |validators|, position)
  {
    var n, c := |validators|, CommitteeOf(validators, selector, round);
    if InWindow(selector, round, n, position) {
      var i := SeatOf(selector, round, n, position);
      assert c[i] == validators[position];
    }
    if validators[position] in c {
      var i :| 0 <= i < |c| && c[i] == validators[position];
      PositionsDistinct(validators, Seat(selector, round, n, i), position);
    }
  }

  /** Number of the rounds from, ..., from + count - 1 whose window holds the position. */
  ghost function Sittings(selector: nat, from: nat, count: nat, n: nat, position: nat): (k: nat)
    requires from >= 1 && position < n
    ensures k <= count
  {
    if count == 0 then 0
    else Sittings(selector, from, count - 1, n, position) + (if InWindow(selector, from + count - 1, n, position) then 1 else 0)
  }

  /** The distance from the window start falls by one each round, modulo n. */
  lemma WindowDistance(selector: nat, from: nat, i: nat, n: nat, position: nat)
    requires from >= 1 && position < n && i < n
    ensures Distance(WindowStart(selector, from + i, n), position, n)
         == Down(Distance(WindowStart(selector, from, n), position, n), i, n)
  {
    var r := (from - 1) % n;
    assert from - 1 == n * ((from - 1) / n) + r;
    if r + i < n {
      ModUnique(from + i - 1, n, (from - 1) / n, r + i);
    } else {
      ModUnique(from + i - 1, n, (from - 1) / n + 1, r + i - n);
    }
  }

  /** r - i modulo n. */
  ghost function Down(r: nat, i: nat, n: nat): (d: nat)
    requires r < n && i < n
  {
    if i <= r then r - i else r - i + n
  }

  /** How many of the distances r, r - 1, ..., r - count + 1 (modulo n) are below q. */
  ghost function CountBelow(r: nat, count: nat, q: nat, n: nat): (k: nat)
    requires r < n && count <= n
  {
    if count == 0 then 0
    else CountBelow(r, count - 1, q, n) + (if Down(r, count - 1, n) < q then 1 else 0)
  }

  lemma {:induction false} SittingsAreDistances(selector: nat, from: nat, count: nat, n: nat, position: nat)
    requires from >= 1 && position < n && count <= n
    ensures Sittings(selector, from, count, n, position)
         == CountBelow(Distance(WindowStart(selector, from, n), position, n), count, RequiredQuorum(n), n)
  {
    hide Distance, WindowStart, RequiredQuorum;
    if count > 0 {
      SittingsAreDistances(selector, from, count - 1, n, position);
      WindowDistance(selector, from, count - 1, n, position);
    }
  }

  /** Going down from r: the values below q are met before 0, or again after wrapping. */
  lemma {:induction false} CountBelowClosed(r: nat, count: nat, q: nat, n: nat)
    requires r < n && q <= n && count <= n
    ensures r >= q ==>
              CountBelow(r, count, q, n)
              == (if count <= r + 1 - q then 0 else if count <= r + 1 then count - (r + 1 - q) else q)
    ensures r < q ==>
              CountBelow(r, count, q, n)
              == (if count <= r + 1 then count else if count <= r + 1 + (n - q) then r + 1 else count - (n - q))
  {
    if count > 0 {
      CountBelowClosed(r, count - 1, q, n);
    }
  }

  /** Any n consecutive rounds put every validator on exactly a quorum of committees. */
  lemma EveryoneSitsEqually(selector: nat, from: nat, n: nat, position: nat)
    requires from >= 1 && n >= 1 && position < n
    ensures Sittings(selector, from, n, n, position) == RequiredQuorum(n)
  {
    SittingsAreDistances(selector, from, n, n, position);
    CountBelowClosed(Distance(WindowStart(selector, from, n), position, n), n, RequiredQuorum(n), n);
  }

  /** Position of the proposer of a round. */
  ghost function ProposerPosition(selector: nat, round: nat, n: nat): (p: nat)
    requires round >= 1 && n >= 1
    ensures p < n
  {
    Turn(WindowStart(selector, round, n), ProposerOffset(round, n), n)
  }

  lemma ProposerIsMember(validators: seq<Address>, selector: nat, round: nat)
    requires round >= 1 && |validators| >= 1
    ensures Proposer(validators, selector, round) == validators[ProposerPosition(selector, round, |validators|)]
    ensures Proposer(validators, selector, round) in CommitteeOf(validators, selector, round)
  {
    assert CommitteeOf(validators, selector, round)[0] == Proposer(validators, selector, round);
  }

  /** The round of aligned block b (rounds b * n + 1, ..., b * n + n) in which a position proposes. */
  ghost function TurnInBlock(selector: nat, block: nat, n: nat, position: nat): (round: nat)
    requires position < n
    ensures block * n + 1 <= round <= block * n + n
  {
    var lead := Turn(selector % n, block % RequiredQuorum(n), n);
    block * n + 1 + Distance(lead, position, n)
  }

  lemma BlockRound(block: nat, k: nat, n: nat)
    requires n >= 1 && k < n
    ensures block * n >= 0 && (block * n + k) % n == k && (block * n + k) / n == block
  {
    assert block * n == n * block;
    ModUnique(block * n + k, n, block, k);
  }

  /** In every aligned block of n rounds every validator proposes in exactly one round. */
  lemma ProposerOncePerBlock(selector: nat, block: nat, n: nat, position: nat, k: nat)
    requires position < n && k < n
    ensures block * n >= 0
    ensures ProposerPosition(selector, block * n + k + 1, n) == position
       <==> block * n + k + 1 == TurnInBlock(selector, block, n, position)
  {
    BlockRound(block, k, n);
    assert WindowStart(selector, block * n + k + 1, n) == Turn(selector % n, k, n);
    assert ProposerOffset(block * n + k + 1, n) == block % RequiredQuorum(n);
  }

  lemma TurnProposes(selector: nat, block: nat, n: nat, position: nat)
    requires position < n
    ensures ProposerPosition(selector, TurnInBlock(selector, block, n, position), n) == position
  {
    ProposerOncePerBlock(selector, block, n, position, TurnInBlock(selector, block, n, position) - block * n - 1);
  }

  /** The three whole blocks after the current round. */
  lemma NextBlocks(current: nat, n: nat) returns (first: nat)
    requires current >= 1 && n >= 1
    ensures current <= first * n && first * n + n == (first + 1) * n && (first + 1) * n + n == (first + 2) * n
    ensures (first + 2) * n + n <= current + 4 * n
  {
    first := (current - 1) / n + 1;
    assert current - 1 == n * ((current - 1) / n) + (current - 1) % n;
    assert first * n == n * ((current - 1) / n) + n;
  }

  /** The retry loop asks for the 4n rounds after the current one; they contain three whole
      aligned blocks, so everybody proposes at least three times. */
  lemma RetryLoopTurns(selector: nat, current: nat, n: nat, position: nat) returns (a: nat, b: nat, c: nat)
    requires current >= 1 && position < n
    ensures current < a < b < c <= current + 4 * n
    ensures ProposerPosition(selector, a, n) == position
    ensures ProposerPosition(selector, b, n) == position
    ensures ProposerPosition(selector, c, n) == position
  {
    var first := NextBlocks(current, n);
    a := TurnInBlock(selector, first, n, position);
    b := TurnInBlock(selector, first + 1, n, position);
    c := TurnInBlock(selector, first + 2, n, position);
    TurnProposes(selector, first, n, position);
    TurnProposes(selector, first + 1, n, position);
    TurnProposes(selector, first + 2, n, position);
  }
}
