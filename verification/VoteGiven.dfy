/**
 When an honest validator votes (src/node/sync_server.cpp, makeLocalFinalizationVote): the
 exact condition, in every reachable state, and what asking again gives.
 */
module VoteGiven {
  import opened Machine
  import opened Sets
  import opened Addresses
  import opened Quorum
  import opened Certificates
  import opened Committee
  import opened VoteRules
  import opened LockDurability
  import opened VoterSafety
  import opened Agreement

  // ---------------------------------------------------------------- importing round changes

  /** What is recorded for the validator and round of this change reports the same lock. */
  ghost predicate Agrees(changes: Changes, c: RoundChange) {
    var k := (c.integer, c.newRound, c.validator);
    k in changes ==> changes[k].lockedRound == c.lockedRound && changes[k].locked == c.locked
  }

  ghost predicate AllAgree(changes: Changes, cs: seq<RoundChange>) {
    forall c :: c in cs ==> Agrees(changes, c)
  }

  /** All these changes are recorded already. */
  ghost predicate Recorded(changes: Changes, cs: seq<RoundChange>) {
    forall c :: c in cs ==> ChangeKey(c) in changes
  }

  ghost predicate KeysDiffer(cs: seq<RoundChange>) {
    forall i, j :: 0 <= i < j < |cs| ==> ChangeKey(cs[i]) != ChangeKey(cs[j])
  }

  lemma KeysDifferTail(cs: seq<RoundChange>)
    requires KeysDiffer(cs) && cs != []
    ensures KeysDiffer(cs[1..]) && forall c :: c in cs[1..] ==> ChangeKey(c) != ChangeKey(cs[0])
    ensures forall c :: c in cs <==> c == cs[0] || c in cs[1..]
  {
    assert cs == [cs[0]] + cs[1..];
    forall c | c in cs[1..]
      ensures ChangeKey(c) != ChangeKey(cs[0])
    {
      var j :| 0 <= j < |cs[1..]| && cs[1..][j] == c;
      assert cs[j + 1] == c;
    }
    forall i, j | 0 <= i < j < |cs[1..]|
      ensures ChangeKey(cs[1..][i]) != ChangeKey(cs[1..][j])
    {
      assert cs[1..][i] == cs[i + 1] && cs[1..][j] == cs[j + 1];
    }
  }

  /** An import succeeds exactly when it contradicts nothing recorded, and then everything is
      recorded. */
  lemma {:induction false} ImportExact(changes: Changes, cs: seq<RoundChange>)
    requires KeysDiffer(cs)
    ensures ImportChanges(changes, cs).ok <==> AllAgree(changes, cs)
    ensures var next := ImportChanges(changes, cs).changes;
            && (forall k :: k in next ==> k in changes || exists c :: c in cs && ChangeKey(c) == k)
            && (ImportChanges(changes, cs).ok ==> Recorded(next, cs) && AllAgree(next, cs))
            && (forall k :: k in changes ==> k in next && next[k] == changes[k])
    decreases |cs|
  {
    if cs != [] {
      KeysDifferTail(cs);
      var k := ChangeKey(cs[0]);
      var more := if k in changes then changes else changes[k := cs[0]];
      ImportExact(more, cs[1..]);
      assert AllAgree(more, cs[1..]) <==> AllAgree(changes, cs[1..]);
    }
  }

  lemma PersistedExact(changes: Changes, cs: seq<RoundChange>, persisted: bool)
    requires KeysDiffer(cs)
    ensures ImportPersisted(changes, cs, persisted).ok
       <==> AllAgree(changes, cs) && (persisted || Recorded(changes, cs))
    ensures Recorded(changes, cs) && AllAgree(changes, cs) ==> ImportPersisted(changes, cs, persisted) == Import(changes, true)
  {
    ImportExact(changes, cs);
    var next := ImportChanges(changes, cs).changes;
    if Recorded(changes, cs) {
      assert forall k :: k in next ==> k in changes;
      assert next == changes;
    } else if AllAgree(changes, cs) {
      var c :| c in cs && ChangeKey(c) !in changes;
      assert ChangeKey(c) in next;
    }
  }

  // ---------------------------------------------------------------- the round

  lemma CertifiedChanges(proof: Proof, prev: Hash, integer: nat, vs: seq<Address>, net: set<Message>, round: nat)
    requires CertifiedRound(proof, prev, integer, vs, net) == Some(round)
    ensures KeysDiffer(proof.changes)
    ensures forall c :: c in proof.changes ==> ChangeKey(c) == (integer, round, c.validator)
    ensures round == 1 ==> proof.changes == []
    ensures round > 1 ==> proof.changes != []
  {
    var cs := proof.changes;
    CertifiedHasQuorum(proof, prev, integer, vs, net, round);
    if cs != [] {
      var names := seq(|cs|, i requires 0 <= i < |cs| => cs[i].validator);
      forall i, j | 0 <= i < j < |cs|
        ensures ChangeKey(cs[i]) != ChangeKey(cs[j])
      {
        AscendingOrders(names, i, j);
        LessIrreflexive(names[i]);
      }
      forall c | c in cs
        ensures ChangeKey(c) == (integer, round, c.validator)
      {
        var i :| 0 <= i < |cs| && cs[i] == c;
        assert ChangeOk(proof.rule, cs[i], prev, integer, round, vs, net);
      }
    }
  }

  /** The round a candidate certifies is the active one once its changes are imported, exactly
      when no later round was. */
  lemma ActiveAfterImport(
    changes: Changes, proof: Proof, prev: Hash, integer: nat, vs: seq<Address>, net: set<Message>, round: nat)
    requires CertifiedRound(proof, prev, integer, vs, net) == Some(round) && ImportChanges(changes, proof.changes).ok
    ensures var quorum := RequiredQuorum(|vs|);
            var before := ActiveRound(changes, integer, quorum);
            var after := ActiveRound(ImportChanges(changes, proof.changes).changes, integer, quorum);
            after == if before <= round then round else before
  {
    var quorum, next := RequiredQuorum(|vs|), ImportChanges(changes, proof.changes).changes;
    CertifiedChanges(proof, prev, integer, vs, net, round);
    ImportExact(changes, proof.changes);
    if round > 1 {
      RoundIsOpen(changes, proof, prev, integer, vs, net, round);
    }
    LaterRoundsAsBefore(changes, next, integer, round, quorum);
    ActiveRoundMonotone(changes, next, integer, quorum);
    var after := ActiveRound(next, integer, quorum);
    assert after in OpenRounds(next, integer, quorum);
    if after > round {
      assert after in OpenRounds(changes, integer, quorum);
    }
  }

  lemma RoundIsOpen(
    changes: Changes, proof: Proof, prev: Hash, integer: nat, vs: seq<Address>, net: set<Message>, round: nat)
    requires CertifiedRound(proof, prev, integer, vs, net) == Some(round) && round > 1
    requires ImportChanges(changes, proof.changes).ok
    ensures round in OpenRounds(ImportChanges(changes, proof.changes).changes, integer, RequiredQuorum(|vs|))
  {
    var quorum, next := RequiredQuorum(|vs|), ImportChanges(changes, proof.changes).changes;
    CertifiedChanges(proof, prev, integer, vs, net, round);
    CertifiedHasQuorum(proof, prev, integer, vs, net, round);
    ImportExact(changes, proof.changes);
    var names := Changing(proof, prev, integer, round, vs);
    forall a | a in names
      ensures a in Changers(next, integer, round)
    {
      var c :| c in proof.changes && c.validator == a;
      assert ChangeKey(c) in next;
    }
    SubsetSize(names, Changers(next, integer, round));
    assert ChangeKey(proof.changes[0]) in next;
  }

  lemma LaterRoundsAsBefore(changes: Changes, next: Changes, integer: nat, round: nat, quorum: nat)
    requires forall k :: k in changes ==> k in next
    requires forall k :: k in next && k !in changes ==> k.0 == integer && k.1 == round
    ensures forall r :: r in OpenRounds(next, integer, quorum) && r > round ==> r in OpenRounds(changes, integer, quorum)
  {
    forall r | r in OpenRounds(next, integer, quorum) && r > round
      ensures r in OpenRounds(changes, integer, quorum)
    {
      assert Changers(next, integer, r) == Changers(changes, integer, r);
    }
  }

  // ---------------------------------------------------------------- the condition

  /** The assigned proposer of the round asks, or has voted for the candidate. */
  ghost predicate ProposedBy(
    cfg: Config, self: Address, vs: seq<Address>, s: Subject, round: nat, proposal: Option<Vote>, net: set<Message>)
    requires round >= 1 && |vs| >= 1
  {
    var proposer := Proposer(vs, cfg.selector(s.prev, s.integer), round);
    match proposal
    case None => self == proposer
    case Some(vote) => vote.validator == proposer && vote.target == Of(s) && vote.round == round && VoteMsg(vote) in net
  }

  /** The rules a request for a vote in this round has to meet: a member of the set in force is
      asked about a valid candidate without votes; its round changes certify the round, agree
      with the recorded ones and can be recorded; no later round was recorded; locks are
      respected; and the member sits on the committee that the proposer of the round asks. */
  ghost predicate InOrder(
    cfg: Config, self: Address, node: Node, c: Candidate, proposal: Option<Vote>, net: set<Message>, persisted: bool, round: nat)
  {
    var s, vs, cs := c.subject, SetAfter(Tip(node.chain)), c.proof.changes;
    && self in vs && c.proof.votes == [] && ValidCandidate(cfg, node.chain, s)
    && CertifiedRound(c.proof, s.prev, s.integer, vs, net) == Some(round) && round >= 1
    && AllAgree(node.changes, cs) && (persisted || Recorded(node.changes, cs))
    && Active(node) <= round
    && (c.proof.rule == LockedRoundsRule ==> ReportsAreFor(cs, Of(s)) && NeverContradicts(cs))
    && self in CommitteeOf(vs, cfg.selector(s.prev, s.integer), round)
    && ProposedBy(cfg, self, vs, s, round, proposal, net)
  }

  /** Every vote the validator has sent for the position of the subject was for the subject. */
  ghost predicate VotedOnlyFor(self: Address, s: Subject, net: set<Message>) {
    forall v :: VoteMsg(v) in net && v.validator == self && SamePosition(v.target, Of(s)) ==> v.target == Of(s)
  }

  lemma CertifiedAtLeastOne(proof: Proof, prev: Hash, integer: nat, vs: seq<Address>, net: set<Message>)
    ensures CertifiedRound(proof, prev, integer, vs, net).Some? ==> CertifiedRound(proof, prev, integer, vs, net).value >= 1
  {
  }

  lemma ProposerIff(cfg: Config, self: Address, vs: seq<Address>, s: Subject, round: nat, proposal: Option<Vote>, net: set<Message>)
    requires round >= 1 && |vs| >= 1
    ensures ProposerOk(cfg, self, vs, s, round, proposal, net) <==> ProposedBy(cfg, self, vs, s, round, proposal, net)
  {
    ProposerIsMember(vs, cfg.selector(s.prev, s.integer), round);
  }

  /** The rules, once the changes are imported. */
  lemma InOrderIff(
    cfg: Config, self: Address, node: Node, c: Candidate, proposal: Option<Vote>, net: set<Message>, persisted: bool, round: nat)
    requires self in SetAfter(Tip(node.chain)) && c.proof.votes == [] && ValidCandidate(cfg, node.chain, c.subject) && round >= 1
    requires CertifiedRound(c.proof, c.subject.prev, c.subject.integer, SetAfter(Tip(node.chain)), net) == Some(round)
    ensures InOrder(cfg, self, node, c, proposal, net, persisted, round)
       <==> && ImportPersisted(node.changes, c.proof.changes, persisted).ok
            && MayVote(cfg, self, node.chain, Imported(node, c, persisted).changes, c, round, proposal, net)
  {
    hide CertifiedRound, ReportsAreFor, NeverContradicts, CommitteeOf, ProposerOk, ProposedBy, ActiveRound, LocksAllow, ImportChanges,
         AllAgree, Recorded;
    var s, vs, cs := c.subject, SetAfter(Tip(node.chain)), c.proof.changes;
    CertifiedChanges(c.proof, s.prev, s.integer, vs, net, round);
    PersistedExact(node.changes, cs, persisted);
    LocksAllowIff(c.proof, Of(s));
    ProposerIff(cfg, self, vs, s, round, proposal, net);
    if ImportPersisted(node.changes, cs, persisted).ok {
      ActiveAfterImport(node.changes, c.proof, s.prev, s.integer, vs, net, round);
    }
  }

  // ---------------------------------------------------------------- what was voted before

  /** The lock of a position is a vote that was sent for it. */
  lemma LockWasSent(self: Address, n: Node, k: Position, net: set<Message>)
    requires LocksFormed(n.locks, self, net) && k in n.locks
    ensures var lock := n.locks[k];
            && lock.candidate.Some? && lock.vote.target == Of(lock.candidate.value.subject) && PositionOf(lock) == k
            && lock.vote.validator == self && VoteMsg(lock.vote) in net
  {
    assert Authentic(n.locks[k], self, net);
  }

  lemma LockIff(self: Address, n: Node, s: Subject, net: set<Message>)
    requires LocksFormed(n.locks, self, net) && VotesAccounted(self, n, net) && s.integer == Target(n.chain)
    ensures LockPermits(n.locks, s) <==> VotedOnlyFor(self, s, net)
  {
    hide LocksFormed, Placed;
    var k := (s.prev, s.integer);
    if k in n.locks {
      LockWasSent(self, n, k, net);
      assert SamePosition(n.locks[k].vote.target, Of(s));
    }
    if LockPermits(n.locks, s) {
      forall v | VoteMsg(v) in net && v.validator == self && SamePosition(v.target, Of(s))
        ensures v.target == Of(s)
      {
        assert VoteAccounted(n, v);
      }
    }
  }

  /** What is recorded for the integer being decided is a vote sent for the position. */
  lemma SlotIsVote(self: Address, n: Node, s: Subject, round: nat, net: set<Message>)
    requires SignedFormed(n.signed, n.locks, self, net) && LocksPlaced(n.chain, n.locks)
    requires s.integer == Target(n.chain) && s.prev == Tip(n.chain) && VotedOnlyFor(self, s, net) && (s.integer, round) in n.signed
    ensures n.signed[(s.integer, round)].vote == Vote(self, Of(s), round) && VoteMsg(Vote(self, Of(s), round)) in net
  {
    var r := n.signed[(s.integer, round)];
    assert Authentic(r, self, net) && Covered(r, n.locks);
    var j := PositionOf(r);
    assert Placed(n.chain, j) && n.chain[..j.1 - 2] == n.chain;
    assert SamePosition(r.vote.target, Of(s));
  }

  /** A vote sent for it in the active round is recorded. */
  lemma VoteHasSlot(self: Address, n: Node, s: Subject, round: nat, net: set<Message>)
    requires VotesAccounted(self, n, net) && LockIsSigned(n) && RoundsReached(n)
    requires s.integer == Target(n.chain) && round == Active(n) && VoteMsg(Vote(self, Of(s), round)) in net
    ensures (s.integer, round) in n.signed
  {
    hide ActiveRound, SetAfter, Placed;
    var k, vote := (s.prev, s.integer), Vote(self, Of(s), round);
    assert VoteAccounted(n, vote);
    var lock := n.locks[k];
    assert (k.1, lock.vote.round) in n.signed;
    assert round <= lock.vote.round <= Active(n);
  }

  /** A vote for the integer being decided in the active round is recorded, exactly when it was
      sent. */
  lemma SlotIff(self: Address, n: Node, s: Subject, round: nat, net: set<Message>)
    requires VoterOk(self, n, net) && s.integer == Target(n.chain) && s.prev == Tip(n.chain) && round == Active(n)
    requires VotedOnlyFor(self, s, net)
    ensures (s.integer, round) in n.signed <==> VoteMsg(Vote(self, Of(s), round)) in net
    ensures (s.integer, round) in n.signed ==> n.signed[(s.integer, round)].vote == Vote(self, Of(s), round)
  {
    hide SignedFormed, LocksFormed, LocksPlaced, LockIsSigned, RoundsReached, DiskFormed, VotesAccounted, NeverEquivocates, Active,
         VotedOnlyFor;
    if (s.integer, round) in n.signed {
      SlotIsVote(self, n, s, round, net);
    }
    if VoteMsg(Vote(self, Of(s), round)) in net {
      VoteHasSlot(self, n, s, round, net);
    }
  }

  // ---------------------------------------------------------------- the vote

  /** Exactly when a vote is given: for the candidate, in the round it certifies, when the
      request is in order, nothing else was voted for at that position, and the file is written
      or the vote was given before. */
  lemma VoteGivenIff(
    cfg: Config, self: Address, node: Node, c: Candidate, proposal: Option<Vote>, net: set<Message>, persisted: bool,
    file: Option<seq<SignedRecord>>, u: Vote)
    requires VoterOk(self, node, net)
    ensures VoteStep(cfg, self, node, c, proposal, net, persisted, file).vote == Some(u)
       <==> && u == Vote(self, Of(c.subject), u.round)
            && InOrder(cfg, self, node, c, proposal, net, persisted, u.round)
            && VotedOnlyFor(self, c.subject, net)
            && (file.Some? || VoteMsg(u) in net)
  {
    hide InOrder, MayVote, VoterOk, CertifiedRound, LockPermits, VotedOnlyFor, ValidCandidate, ImportPersisted, SetAfter;
    var vs, s := SetAfter(Tip(node.chain)), c.subject;
    var certified := CertifiedRound(c.proof, s.prev, s.integer, vs, net);
    CertifiedAtLeastOne(c.proof, s.prev, s.integer, vs, net);
    if InOrder(cfg, self, node, c, proposal, net, persisted, u.round) {
      InOrderFacts(cfg, self, node, c, proposal, net, persisted, u.round);
    }
    if self in vs && c.proof.votes == [] && ValidCandidate(cfg, node.chain, s) && certified.Some? {
      InOrderIff(cfg, self, node, c, proposal, net, persisted, certified.value);
      DecidedIff(cfg, self, node, c, proposal, net, persisted, file, certified.value, u);
    }
  }

  lemma InOrderFacts(
    cfg: Config, self: Address, node: Node, c: Candidate, proposal: Option<Vote>, net: set<Message>, persisted: bool, round: nat)
    requires InOrder(cfg, self, node, c, proposal, net, persisted, round)
    ensures self in SetAfter(Tip(node.chain)) && c.proof.votes == [] && ValidCandidate(cfg, node.chain, c.subject)
    ensures CertifiedRound(c.proof, c.subject.prev, c.subject.integer, SetAfter(Tip(node.chain)), net) == Some(round)
  {
  }

  lemma DecidedIff(
    cfg: Config, self: Address, node: Node, c: Candidate, proposal: Option<Vote>, net: set<Message>, persisted: bool,
    file: Option<seq<SignedRecord>>, round: nat, u: Vote)
    requires VoterOk(self, node, net) && round >= 1 && ValidCandidate(cfg, node.chain, c.subject)
    ensures var n := Imported(node, c, persisted);
            DecideVote(cfg, self, n, c, round, proposal, net, file).vote == Some(u)
            <==> && u == Vote(self, Of(c.subject), round)
                 && MayVote(cfg, self, n.chain, n.changes, c, round, proposal, net)
                 && VotedOnlyFor(self, c.subject, net) && (file.Some? || VoteMsg(u) in net)
  {
    hide VoterOk, LockPermits, VotedOnlyFor;
    var n, s := Imported(node, c, persisted), c.subject;
    ImportKeeps(self, node, c, persisted, net);
    VoterParts(self, n, net);
    LockIff(self, n, s, net);
    if MayVote(cfg, self, n.chain, n.changes, c, round, proposal, net) && LockPermits(n.locks, s) {
      SlotIff(self, n, s, round, net);
    }
  }

  lemma VoterParts(self: Address, n: Node, net: set<Message>)
    requires VoterOk(self, n, net)
    ensures LocksFormed(n.locks, self, net) && VotesAccounted(self, n, net)
  {
  }

  // ---------------------------------------------------------------- over runs

  /** In every reachable state of every run, an honest validator that is asked in order about a
      candidate it has not voted against gives its vote when the file is written; and it gives
      no other vote. */
  lemma HonestVoteGiven(
    cfg: Config, genesis: Subject, w: World, steps: seq<Step>, end: World, self: Address, c: Candidate, proposal: Option<Vote>,
    persisted: bool, file: Option<seq<SignedRecord>>, u: Vote)
    requires Initial(genesis, w) && end == Run(cfg, w, steps) && self in end.nodes
    ensures VoteStep(cfg, self, end.nodes[self], c, proposal, end.net, persisted, file).vote == Some(u)
       <==> && u == Vote(self, Of(c.subject), u.round)
            && InOrder(cfg, self, end.nodes[self], c, proposal, end.net, persisted, u.round)
            && VotedOnlyFor(self, c.subject, end.net)
            && (file.Some? || VoteMsg(u) in end.net)
  {
    hide Run, VoteStep, InOrder, VotedOnlyFor, VoterOk;
    RunKeeps(cfg, genesis, w, steps);
    HonestNodeOk(cfg, genesis, end, self);
    VoteGivenIff(cfg, self, end.nodes[self], c, proposal, end.net, persisted, file, u);
  }

  /** A vote that was given before is repeated, and nothing changes but the round changes that
      come with the request; nothing at all when they are recorded. */
  lemma RepeatedVote(
    cfg: Config, self: Address, node: Node, c: Candidate, proposal: Option<Vote>, net: set<Message>, persisted: bool,
    file: Option<seq<SignedRecord>>, round: nat)
    requires VoterOk(self, node, net) && VoteMsg(Vote(self, Of(c.subject), round)) in net
    requires InOrder(cfg, self, node, c, proposal, net, persisted, round)
    ensures var out := VoteStep(cfg, self, node, c, proposal, net, persisted, file);
            && out.vote == Some(Vote(self, Of(c.subject), round))
            && out.node == node.(changes := out.node.changes)
            && (Recorded(node.changes, c.proof.changes) ==> out.node == node)
  {
    hide InOrder, MayVote, VoterOk, CertifiedRound, LockPermits, VotedOnlyFor, ImportChanges, SetAfter, Recorded, AllAgree;
    var s, n := c.subject, Imported(node, c, persisted);
    InOrderFacts(cfg, self, node, c, proposal, net, persisted, round);
    OrderedIsPositive(cfg, self, node, c, proposal, net, persisted, round);
    InOrderIff(cfg, self, node, c, proposal, net, persisted, round);
    ImportKeeps(self, node, c, persisted, net);
    VoterParts(self, n, net);
    NeverVotedAgainst(self, n, s, round, net);
    LockIff(self, n, s, net);
    MayVoteRound(cfg, self, n, c, round, proposal, net);
    SlotIff(self, n, s, round, net);
    CertifiedChanges(c.proof, s.prev, s.integer, SetAfter(Tip(node.chain)), net, round);
    PersistedExact(node.changes, c.proof.changes, persisted);
  }

  lemma OrderedIsPositive(
    cfg: Config, self: Address, node: Node, c: Candidate, proposal: Option<Vote>, net: set<Message>, persisted: bool, round: nat)
    requires InOrder(cfg, self, node, c, proposal, net, persisted, round)
    ensures round >= 1 && AllAgree(node.changes, c.proof.changes)
  {
  }

  lemma NeverVotedAgainst(self: Address, n: Node, s: Subject, round: nat, net: set<Message>)
    requires VoterOk(self, n, net) && VoteMsg(Vote(self, Of(s), round)) in net
    ensures VotedOnlyFor(self, s, net)
  {
  }

  lemma MayVoteRound(cfg: Config, self: Address, n: Node, c: Candidate, round: nat, proposal: Option<Vote>, net: set<Message>)
    requires round >= 1 && MayVote(cfg, self, n.chain, n.changes, c, round, proposal, net)
    requires ValidCandidate(cfg, n.chain, c.subject)
    ensures round == Active(n) && c.subject.integer == Target(n.chain) && c.subject.prev == Tip(n.chain)
  {
  }

  // ---------------------------------------------------------------- asking again

  lemma CertifiedWithMore(proof: Proof, prev: Hash, integer: nat, vs: seq<Address>, net: set<Message>, more: set<Message>)
    requires CertifiedRound(proof, prev, integer, vs, net).Some? && net <= more
    ensures CertifiedRound(proof, prev, integer, vs, more) == CertifiedRound(proof, prev, integer, vs, net)
  {
    var cs := proof.changes;
    forall i | 0 <= i < |cs|
      ensures ChangeOk(proof.rule, cs[i], prev, integer, cs[0].newRound, vs, more)
    {
      assert ChangeOk(proof.rule, cs[i], prev, integer, cs[0].newRound, vs, net);
    }
  }

  lemma StepKeepsChain(
    cfg: Config, self: Address, node: Node, c: Candidate, proposal: Option<Vote>, net: set<Message>, persisted: bool,
    file: Option<seq<SignedRecord>>)
    ensures var out := VoteStep(cfg, self, node, c, proposal, net, persisted, file);
            out.node.chain == node.chain && (out.vote.Some? ==> out.node.changes == Imported(node, c, persisted).changes)
  {
    hide MayVote, LockPermits, CertifiedRound, ValidCandidate, ImportPersisted;
  }

  /** A request that was in order is still in order once it was answered, and its round changes
      are recorded. */
  lemma StillInOrder(
    cfg: Config, self: Address, node: Node, c: Candidate, proposal: Option<Vote>, net: set<Message>, persisted: bool, round: nat,
    next: Node, more: set<Message>, again: bool)
    requires InOrder(cfg, self, node, c, proposal, net, persisted, round) && net <= more
    requires next.chain == node.chain && next.changes == Imported(node, c, persisted).changes
    ensures InOrder(cfg, self, next, c, proposal, more, again, round) && Recorded(next.changes, c.proof.changes)
  {
    hide CertifiedRound, ReportsAreFor, NeverContradicts, CommitteeOf, ActiveRound, ImportChanges, AllAgree, Recorded, ValidCandidate;
    var s, vs, cs := c.subject, SetAfter(Tip(node.chain)), c.proof.changes;
    CertifiedWithMore(c.proof, s.prev, s.integer, vs, net, more);
    CertifiedChanges(c.proof, s.prev, s.integer, vs, net, round);
    PersistedExact(node.changes, cs, persisted);
    ImportExact(node.changes, cs);
    ActiveAfterImport(node.changes, c.proof, s.prev, s.integer, vs, net, round);
    CandidateTarget(cfg, node.chain, s);
  }

  lemma CandidateTarget(cfg: Config, chain: seq<Subject>, s: Subject)
    requires ValidCandidate(cfg, chain, s)
    ensures s.integer == Target(chain) && s.prev == Tip(chain)
  {
  }

  /** Asking again: once a validator has voted, the same request gives the same vote, whether or
      not anything can be written, and changes nothing. */
  lemma AskAgain(
    cfg: Config, genesis: Subject, w: World, step: Step, next: World, u: Vote, again: bool, file: Option<seq<SignedRecord>>)
    requires WorldOk(cfg, genesis, w) && step.CastVote? && step.who in w.nodes && next == CastVoteStep(cfg, w, step)
    requires var out := VoteStep(cfg, step.who, w.nodes[step.who], step.candidate, step.proposal, w.net, step.roundsPersisted,
                                 step.file);
             out.vote == Some(u) && Writes(step.file, out.node)
    ensures step.who in next.nodes
    ensures VoteStep(cfg, step.who, next.nodes[step.who], step.candidate, step.proposal, next.net, again, file)
         == VoteOutcome(next.nodes[step.who], Some(u))
  {
    hide VoteStep, InOrder, VotedOnlyFor, VoterOk, Writes, WorldOk, Recorded;
    var self, node, c := step.who, w.nodes[step.who], step.candidate;
    HonestNodeOk(cfg, genesis, w, self);
    VoteGivenIff(cfg, self, node, c, step.proposal, w.net, step.roundsPersisted, step.file, u);
    StepKeepsChain(cfg, self, node, c, step.proposal, w.net, step.roundsPersisted, step.file);
    CastVoteKeeps(cfg, genesis, w, step);
    HonestNodeOk(cfg, genesis, next, self);
    StillInOrder(cfg, self, node, c, step.proposal, w.net, step.roundsPersisted, u.round, next.nodes[self], next.net, again);
    RepeatedVote(cfg, self, next.nodes[self], c, step.proposal, next.net, again, file, u.round);
  }
}
