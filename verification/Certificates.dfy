/**
 Finalization certificates and round-change certificates (src/protocol/records.cpp) for
 records of version 11 and later, where the vote target, the stored identity and the chain
 link are all the subject hash. SHA3-256 is ideal: a hash is the subject it was computed
 from. A signature verifies exactly when its validator produced it: `net` is the set of
 messages signed so far.
 */
module Certificates {
  import opened Machine
  import opened Sets
  import opened Addresses
  import opened Quorum

  datatype Hash = Zero | Of(subject: Subject)

  /** What a vote commits to. `next` is the validator set the record installs, if any;
      `body` stands for the other serialized fields. */
  datatype Subject = Subject(prev: Hash, integer: nat, next: Option<seq<Address>>, body: seq<nat>)

  datatype Vote = Vote(validator: Address, target: Hash, round: nat)

  datatype RoundChange = RoundChange(
    validator: Address, prev: Hash, integer: nat, newRound: nat,
    lockedRound: nat, locked: Option<Subject>)

  datatype Message =
    | VoteMsg(vote: Vote)
    | ChangeMsg(change: RoundChange)
    | LegacyChangeMsg(signer: Address, prev: Hash, integer: nat, newRound: nat)
  {
    function Signer(): Address {
      match this
      case VoteMsg(v) => v.validator
      case ChangeMsg(c) => c.validator
      case LegacyChangeMsg(s, _, _, _) => s
    }
  }

  datatype Rule = SignedRule | RoundsRule | LockedRoundsRule | DevelopmentRule

  datatype Proof = Proof(rule: Rule, changes: seq<RoundChange>, votes: seq<Vote>)

  /** The validator set in force after the record `tip` identifies. */
  function SetAfter(tip: Hash): seq<Address> {
    match tip
    case Zero => []
    case Of(s) => if s.next.Some? then s.next.value else SetAfter(s.prev)
  }

  predicate QuorumCount(count: nat, n: nat) {
    RequiredQuorum(n) <= count <= n
  }

  predicate ChangeSigned(rule: Rule, c: RoundChange, net: set<Message>) {
    if rule == LockedRoundsRule then ChangeMsg(c) in net
    else LegacyChangeMsg(c.validator, c.prev, c.integer, c.newRound) in net
  }

  /** The lock a round change reports: absent, or an earlier round with a candidate for the
      same position. The legacy rule carries none. */
  predicate LockWellFormed(rule: Rule, c: RoundChange, prev: Hash, integer: nat) {
    if c.lockedRound == 0 then c.locked.None?
    else
      && rule == LockedRoundsRule && c.lockedRound < c.newRound
      && c.locked.Some? && c.locked.value.prev == prev && c.locked.value.integer == integer
  }

  predicate ChangeOk(
    rule: Rule, c: RoundChange, prev: Hash, integer: nat, round: nat,
    validators: seq<Address>, net: set<Message>)
  {
    && c.validator in validators
    && c.prev == prev && c.integer == integer && c.newRound == round
    && LockWellFormed(rule, c, prev, integer)
    && ChangeSigned(rule, c, net)
  }

  /** The round a proof certifies, if it certifies one. */
  function CertifiedRound(
    proof: Proof, prev: Hash, integer: nat, validators: seq<Address>, net: set<Message>): (r: Option<nat>)
  {
    var cs := proof.changes;
    if cs == [] then (if proof.rule == SignedRule then Some(1) else None)
    else if (proof.rule != RoundsRule && proof.rule != LockedRoundsRule) || !QuorumCount(|cs|, |validators|) then None
    else if cs[0].newRound < 2 then None
    else if && (forall i :: 0 < i < |cs| ==> Less(cs[i - 1].validator, cs[i].validator))
            && (forall i :: 0 <= i < |cs| ==> ChangeOk(proof.rule, cs[i], prev, integer, cs[0].newRound, validators, net))
    then Some(cs[0].newRound)
    else None
  }

  method VerifyRoundChangeCertificate(
    proof: Proof, prev: Hash, integer: nat, validators: seq<Address>, net: set<Message>)
    returns (r: Option<nat>)
    ensures r == CertifiedRound(proof, prev, integer, validators, net)
  {
    var cs := proof.changes;
    if cs == [] {
      return if proof.rule == SignedRule then Some(1) else None;
    }
    if (proof.rule != RoundsRule && proof.rule != LockedRoundsRule) || !QuorumCount(|cs|, |validators|) {
      return None;
    }
    var round := cs[0].newRound;
    if round < 2 {
      return None;
    }
    var i := 0;
    while i < |cs|
      invariant 0 <= i <= |cs|
      invariant forall k :: 0 < k < i ==> Less(cs[k - 1].validator, cs[k].validator)
      invariant forall k :: 0 <= k < i ==> ChangeOk(proof.rule, cs[k], prev, integer, round, validators, net)
    {
      if i > 0 && !Less(cs[i - 1].validator, cs[i].validator) {
        return None;
      }
      if !ChangeOk(proof.rule, cs[i], prev, integer, round, validators, net) {
        return None;
      }
      i := i + 1;
    }
    return Some(round);
  }

  /** Outcome of the scan for the highest reported lock. */
  datatype LockScan = NoLock | Highest(round: nat, target: Hash) | Conflict

  /** One change taken into account. The scan stops at the first conflict with the highest
      lock seen so far. */
  function ScanStep(scan: LockScan, c: RoundChange): LockScan {
    if scan.Conflict? || c.lockedRound == 0 || c.locked.None? then scan
    else if scan.NoLock? || c.lockedRound > scan.round then Highest(c.lockedRound, Of(c.locked.value))
    else if c.lockedRound == scan.round && Of(c.locked.value) != scan.target then Conflict
    else scan
  }

  function HighestLock(cs: seq<RoundChange>): (scan: LockScan) {
    if cs == [] then NoLock else ScanStep(HighestLock(cs[..|cs| - 1]), cs[|cs| - 1])
  }

  method ScanHighestLock(cs: seq<RoundChange>) returns (scan: LockScan)
    ensures scan == HighestLock(cs)
  {
    scan := NoLock;
    var i := 0;
    while i < |cs|
      invariant 0 <= i <= |cs|
      invariant scan == HighestLock(cs[..i])
    {
      assert cs[..i + 1][..i] == cs[..i];
      scan := ScanStep(scan, cs[i]);
      i := i + 1;
    }
    assert cs[..i] == cs;
  }

  ghost predicate Reports(c: RoundChange) {
    c.lockedRound != 0 && c.locked.Some?
  }

  /** Without a conflict the scan finds the greatest locked round, and everyone who reports
      that round reports the same candidate. */
  lemma {:induction false} HighestLockIsHighest(cs: seq<RoundChange>)
    ensures HighestLock(cs).NoLock? ==> forall c :: c in cs ==> !Reports(c)
    ensures HighestLock(cs).Highest? ==>
              var h := HighestLock(cs);
              && h.round >= 1
              && (exists c :: c in cs && Reports(c) && c.lockedRound == h.round && Of(c.locked.value) == h.target)
              && forall c :: c in cs && Reports(c) ==>
                   c.lockedRound <= h.round && (c.lockedRound == h.round ==> Of(c.locked.value) == h.target)
  {
    if cs != [] {
      var init, last := cs[..|cs| - 1], cs[|cs| - 1];
      HighestLockIsHighest(init);
      assert cs == init + [last];
      assert forall c :: c in cs <==> c in init || c == last;
      var h := HighestLock(cs);
      if h.Highest? && HighestLock(init) != h {
        assert last in cs && Reports(last) && last.lockedRound == h.round && Of(last.locked.value) == h.target;
      }
    }
  }

  /** Changes that never report different candidates for one round scan without conflict. */
  lemma {:induction false} AgreeingLocksScan(cs: seq<RoundChange>)
    requires forall c, d :: c in cs && d in cs && Reports(c) && Reports(d) && c.lockedRound == d.lockedRound ==>
               c.locked == d.locked
    ensures !HighestLock(cs).Conflict?
  {
    if cs != [] {
      var init, last := cs[..|cs| - 1], cs[|cs| - 1];
      assert cs == init + [last];
      AgreeingLocksScan(init);
      HighestLockIsHighest(init);
    }
  }

  predicate LocksAllow(proof: Proof, target: Hash) {
    proof.rule == LockedRoundsRule ==>
      var h := HighestLock(proof.changes);
      !h.Conflict? && (h.Highest? ==> h.target == target)
  }

  // ---------------------------------------------------------------- what reported locks demand

  /** Change i reports a lock, and no change reports one of a higher round. */
  ghost predicate InHighestRound(cs: seq<RoundChange>, i: int) {
    && 0 <= i < |cs| && Reports(cs[i])
    && forall j :: 0 <= j < |cs| && Reports(cs[j]) ==> cs[j].lockedRound <= cs[i].lockedRound
  }

  /** All locks reported in the highest reported round are on the target. */
  ghost predicate ReportsAreFor(cs: seq<RoundChange>, target: Hash) {
    forall i :: InHighestRound(cs, i) ==> Of(cs[i].locked.value) == target
  }

  /** Change j reports a lock, and no change before it one of a higher round. */
  ghost predicate LeadsSoFar(cs: seq<RoundChange>, j: int) {
    && 0 <= j < |cs| && Reports(cs[j])
    && forall k :: 0 <= k < j && Reports(cs[k]) ==> cs[k].lockedRound <= cs[j].lockedRound
  }

  /** Change j contradicts change i before it: another lock of the same round, which is the
      highest reported so far. */
  ghost predicate Contradicts(cs: seq<RoundChange>, i: int, j: int) {
    0 <= i < j && LeadsSoFar(cs, j) && Reports(cs[i]) && cs[i].lockedRound == cs[j].lockedRound && cs[i].locked != cs[j].locked
  }

  ghost predicate NeverContradicts(cs: seq<RoundChange>) {
    forall i, j :: !Contradicts(cs, i, j)
  }

  lemma SamePrefix(cs: seq<RoundChange>, n: nat, i: int, j: int)
    requires n <= |cs| && j < n
    ensures Contradicts(cs[..n], i, j) <==> Contradicts(cs, i, j)
  {
    if 0 <= j {
      assert forall k :: 0 <= k <= j ==> cs[..n][k] == cs[k];
    }
  }

  lemma NeverContradictsSplit(cs: seq<RoundChange>, n: nat)
    requires n + 1 == |cs|
    ensures NeverContradicts(cs) <==> NeverContradicts(cs[..n]) && forall i :: !Contradicts(cs, i, n)
  {
    forall i, j | j < n
      ensures Contradicts(cs[..n], i, j) <==> Contradicts(cs, i, j)
    {
      SamePrefix(cs, n, i, j);
    }
    assert forall i, j :: Contradicts(cs, i, j) ==> j < n || j == n;
    assert forall i, j :: Contradicts(cs[..n], i, j) ==> j < n;
  }

  /** The last change conflicts with the scan of those before exactly when it contradicts one
      of them. */
  lemma LastConflictIff(cs: seq<RoundChange>, n: nat)
    requires n + 1 == |cs| && !HighestLock(cs[..n]).Conflict?
    ensures ScanStep(HighestLock(cs[..n]), cs[n]).Conflict? <==> exists i :: Contradicts(cs, i, n)
  {
    var init, last, h := cs[..n], cs[n], HighestLock(cs[..n]);
    HighestLockIsHighest(init);
    assert forall i :: 0 <= i < n ==> cs[i] == init[i] && cs[i] in init;
    if h.Highest? && Reports(last) && last.lockedRound == h.round {
      assert LeadsSoFar(cs, n);
      var d :| d in init && Reports(d) && d.lockedRound == h.round && Of(d.locked.value) == h.target;
      var i :| 0 <= i < n && init[i] == d;
      assert Contradicts(cs, i, n) <==> cs[i].locked != last.locked;
    }
  }

  /** The scan ends in a conflict exactly when a change contradicts an earlier one so. */
  lemma {:induction false} ConflictIff(cs: seq<RoundChange>)
    ensures HighestLock(cs).Conflict? <==> !NeverContradicts(cs)
  {
    hide Contradicts, NeverContradicts;
    if cs == [] {
      assert NeverContradicts(cs) by { NothingContradicts(); }
    } else {
      var n := |cs| - 1;
      ConflictIff(cs[..n]);
      NeverContradictsSplit(cs, n);
      if !HighestLock(cs[..n]).Conflict? {
        LastConflictIff(cs, n);
      }
    }
  }

  lemma NothingContradicts()
    ensures NeverContradicts([])
  {
  }

  lemma HighestIsFor(cs: seq<RoundChange>, target: Hash)
    requires !HighestLock(cs).Conflict?
    ensures ReportsAreFor(cs, target) <==> (HighestLock(cs).Highest? ==> HighestLock(cs).target == target)
  {
    HighestLockIsHighest(cs);
    var h := HighestLock(cs);
    if h.Highest? {
      var d :| d in cs && Reports(d) && d.lockedRound == h.round && Of(d.locked.value) == h.target;
      var i :| 0 <= i < |cs| && cs[i] == d;
      assert InHighestRound(cs, i);
      forall j | InHighestRound(cs, j)
        ensures Of(cs[j].locked.value) == h.target
      {
        assert cs[j] in cs;
      }
    } else {
      assert forall j :: 0 <= j < |cs| ==> cs[j] in cs;
    }
  }

  /** What the check of reported locks decides: under the rule with locks, a certificate is
      only for the candidate that all locks of the highest reported round are on, and never one
      whose changes contradict each other on the way. */
  lemma LocksAllowIff(proof: Proof, target: Hash)
    ensures LocksAllow(proof, target)
       <==> (proof.rule == LockedRoundsRule ==> ReportsAreFor(proof.changes, target) && NeverContradicts(proof.changes))
  {
    hide ReportsAreFor, NeverContradicts;
    ConflictIff(proof.changes);
    if !HighestLock(proof.changes).Conflict? {
      HighestIsFor(proof.changes, target);
    }
  }

  /** The order of the changes matters: two that contradict each other in a lower round are
      refused when they come before the highest report, although that is for the candidate,
      and accepted after it. */
  lemma ContradictionsBelow(p: RoundChange, q: RoundChange, r: RoundChange, votes: seq<Vote>)
    requires Reports(p) && Reports(q) && Reports(r) && p.lockedRound == q.lockedRound < r.lockedRound && p.locked != q.locked
    ensures ReportsAreFor([p, q, r], Of(r.locked.value)) && ReportsAreFor([r, p, q], Of(r.locked.value))
    ensures !LocksAllow(Proof(LockedRoundsRule, [p, q, r], votes), Of(r.locked.value))
    ensures LocksAllow(Proof(LockedRoundsRule, [r, p, q], votes), Of(r.locked.value))
  {
    hide HighestLock;
    var cs, ds := [p, q, r], [r, p, q];
    assert LeadsSoFar(cs, 1);
    assert Contradicts(cs, 0, 1);
    assert InHighestRound(cs, 2) && InHighestRound(ds, 0);
    assert forall j :: LeadsSoFar(ds, j) ==> j == 0 by {
      assert Reports(ds[0]);
    }
    LocksAllowIff(Proof(LockedRoundsRule, cs, votes), Of(r.locked.value));
    LocksAllowIff(Proof(LockedRoundsRule, ds, votes), Of(r.locked.value));
  }

  predicate VoteOk(v: Vote, target: Hash, round: nat, validators: seq<Address>, net: set<Message>) {
    v.validator in validators && v.target == target && v.round == round && VoteMsg(v) in net
  }

  /** Acceptance of a finalization certificate by a quorum chain. */
  predicate Finalizes(
    proof: Proof, target: Hash, prev: Hash, integer: nat, validators: seq<Address>, net: set<Message>)
  {
    var vs := proof.votes;
    var certified := CertifiedRound(proof, prev, integer, validators, net);
    && proof.rule != DevelopmentRule
    && CanonicalSet(validators) && QuorumCount(|vs|, |validators|)
    && certified.Some?
    && LocksAllow(proof, target)
    && (forall i :: 0 < i < |vs| ==> Less(vs[i - 1].validator, vs[i].validator))
    && (forall i :: 0 <= i < |vs| ==> VoteOk(vs[i], target, certified.value, validators, net))
  }

  /** A quorum of votes of one certified round for the target. */
  ghost predicate QuorumFor(
    proof: Proof, target: Hash, prev: Hash, integer: nat, validators: seq<Address>, net: set<Message>)
  {
    var vs := proof.votes;
    var certified := CertifiedRound(proof, prev, integer, validators, net);
    && proof.rule != DevelopmentRule && CanonicalSet(validators) && QuorumCount(|vs|, |validators|) && certified.Some?
    && (forall i :: 0 < i < |vs| ==> Less(vs[i - 1].validator, vs[i].validator))
    && (forall i :: 0 <= i < |vs| ==> VoteOk(vs[i], target, certified.value, validators, net))
  }

  /** Which quorums finalize: without reported locks all of them, with locks exactly those for
      the candidate the highest reports are on. */
  lemma FinalizesIff(proof: Proof, target: Hash, prev: Hash, integer: nat, validators: seq<Address>, net: set<Message>)
    ensures Finalizes(proof, target, prev, integer, validators, net)
       <==> && QuorumFor(proof, target, prev, integer, validators, net)
            && (proof.rule == LockedRoundsRule ==> ReportsAreFor(proof.changes, target) && NeverContradicts(proof.changes))
  {
    hide CertifiedRound, LocksAllow, VoteOk, ReportsAreFor, NeverContradicts;
    LocksAllowIff(proof, target);
  }

  method VerifyRecordFinalization(
    proof: Proof, target: Hash, prev: Hash, integer: nat, validators: seq<Address>, net: set<Message>)
    returns (r: bool)
    ensures r <==> Finalizes(proof, target, prev, integer, validators, net)
  {
    if proof.rule == DevelopmentRule {
      return false;
    }
    if !CanonicalSet(validators) || !QuorumCount(|proof.votes|, |validators|) {
      return false;
    }
    var certified := VerifyRoundChangeCertificate(proof, prev, integer, validators, net);
    if certified.None? {
      return false;
    }
    var vs, round := proof.votes, certified.value;
    assert |vs| >= 1;
    if vs[0].round != round {
      assert !VoteOk(vs[0], target, round, validators, net);
      return false;
    }
    if proof.rule == LockedRoundsRule {
      var scan := ScanHighestLock(proof.changes);
      if scan.Conflict? || (scan.Highest? && scan.target != target) {
        return false;
      }
    }
    var i := 0;
    while i < |vs|
      invariant 0 <= i <= |vs|
      invariant forall k :: 0 < k < i ==> Less(vs[k - 1].validator, vs[k].validator)
      invariant forall k :: 0 <= k < i ==> VoteOk(vs[k], target, round, validators, net)
    {
      if i > 0 && !Less(vs[i - 1].validator, vs[i].validator) {
        return false;
      }
      if !VoteOk(vs[i], target, round, validators, net) {
        return false;
      }
      i := i + 1;
    }
    return true;
  }

  /** Members of the set in force that signed a vote for the target, in any round. */
  ghost function Voters(target: Hash, validators: seq<Address>, net: set<Message>): set<Address> {
    set m | m in net && m.VoteMsg? && m.vote.target == target && m.vote.validator in validators :: m.vote.validator
  }

  /** An accepted certificate carries the votes of a quorum of distinct members. */
  lemma FinalizedHasQuorum(
    proof: Proof, target: Hash, prev: Hash, integer: nat, validators: seq<Address>, net: set<Message>)
    requires Finalizes(proof, target, prev, integer, validators, net)
    ensures Voters(target, validators, net) <= Elements(validators)
    ensures |Voters(target, validators, net)| >= RequiredQuorum(|Elements(validators)|)
  {
    var vs := proof.votes;
    var names := seq(|vs|, i requires 0 <= i < |vs| => vs[i].validator);
    assert Ascending(names);
    AscendingSize(names);
    AscendingSize(validators);
    var voters := Voters(target, validators, net);
    forall a | a in names
      ensures a in voters
    {
      var i :| 0 <= i < |names| && names[i] == a;
      assert VoteMsg(vs[i]) in net;
    }
    SubsetSize(Elements(names), voters);
  }

  /** Members of the set whose signed change to this round of this position is in the proof. */
  ghost function Changing(proof: Proof, prev: Hash, integer: nat, round: nat, validators: seq<Address>): set<Address> {
    set c | c in proof.changes && c.prev == prev && c.integer == integer && c.newRound == round && c.validator in validators ::
      c.validator
  }

  /** Behind every certified round after the first stand the changes of a quorum of distinct
      members, all signed, for that round and position. They report locks only under the rule
      with locks, of earlier rounds and for that position. The first round needs no change. */
  lemma CertifiedHasQuorum(proof: Proof, prev: Hash, integer: nat, validators: seq<Address>, net: set<Message>, round: nat)
    requires CertifiedRound(proof, prev, integer, validators, net) == Some(round)
    ensures if round == 1 then proof.changes == [] && proof.rule == SignedRule
            else && (proof.rule == RoundsRule || proof.rule == LockedRoundsRule)
                 && |Changing(proof, prev, integer, round, validators)| == |proof.changes| >= RequiredQuorum(|validators|)
    ensures forall c :: c in proof.changes ==>
              && (c.lockedRound == 0 ==> c.locked == None)
              && (c.lockedRound != 0 ==>
                    && proof.rule == LockedRoundsRule && c.lockedRound < round
                    && c.locked.Some? && c.locked.value.prev == prev && c.locked.value.integer == integer)
              && (if proof.rule == LockedRoundsRule then ChangeMsg(c) in net
                  else LegacyChangeMsg(c.validator, prev, integer, round) in net)
  {
    var cs := proof.changes;
    if cs != [] {
      var names := seq(|cs|, i requires 0 <= i < |cs| => cs[i].validator);
      assert Ascending(names);
      AscendingSize(names);
      var changing := Changing(proof, prev, integer, round, validators);
      forall i | 0 <= i < |cs|
        ensures ChangeOk(proof.rule, cs[i], prev, integer, round, validators, net) && names[i] in changing
      {
        assert cs[i] in cs;
      }
      assert changing == Elements(names);
    }
  }
}
