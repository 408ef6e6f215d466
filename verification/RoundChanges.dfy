/**
 Moving to the next round (src/node/sync_server.cpp, makeLocalRoundChangeVote and
 acceptRoundChangeVote): what a validator reports, whose changes are accepted, how far the
 active round moves, and that every integer starts in round 1 with nothing signed.
 */
module RoundChanges {
  import opened Machine
  import opened Sets
  import opened Quorum
  import opened Addresses
  import opened Certificates
  import opened VoteRules
  import opened LockDurability
  import opened VoterSafety
  import opened Agreement
  import opened VoteGiven

  // ---------------------------------------------------------------- reports

  ghost predicate VotedAt(self: Address, v: Vote, prev: Hash, integer: nat, net: set<Message>) {
    && VoteMsg(v) in net && v.validator == self
    && v.target.Of? && v.target.subject.prev == prev && v.target.subject.integer == integer
  }

  /** The validator voted for s in this round, and at this position in no later one. */
  ghost predicate LastVote(self: Address, s: Subject, round: nat, net: set<Message>) {
    && VoteMsg(Vote(self, Of(s), round)) in net
    && forall v :: VotedAt(self, v, s.prev, s.integer, net) ==> v.round <= round
  }

  /** The lock of a position is the last vote there. */
  lemma LockIsLastVote(self: Address, node: Node, prev: Hash, integer: nat, net: set<Message>, s: Subject, round: nat)
    requires VoterOk(self, node, net) && !Expired(integer, Target(node.chain)) && s.prev == prev && s.integer == integer
    ensures LastVote(self, s, round, net)
       <==> (prev, integer) in node.locks && node.locks[(prev, integer)].vote == Vote(self, Of(s), round)
  {
    hide Formed, LockIsSigned, RoundsReached, DiskFormed, Placed;
    LocksAreFormed(self, node, net);
    var k := (prev, integer);
    if LastVote(self, s, round, net) {
      assert VoteAccounted(node, Vote(self, Of(s), round));
      assert VotedAt(self, node.locks[k].vote, prev, integer, net);
    }
    if k in node.locks && node.locks[k].vote == Vote(self, Of(s), round) {
      forall v | VotedAt(self, v, prev, integer, net)
        ensures v.round <= round
      {
        assert VoteAccounted(node, v);
      }
    }
  }

  lemma LocksAreFormed(self: Address, node: Node, net: set<Message>)
    requires VoterOk(self, node, net)
    ensures LocksFormed(node.locks, self, net)
  {
  }

  /** In every reachable state, the round change an honest validator signs for a position
      reports exactly its last vote there, when that was cast in an earlier round. */
  lemma ReportsLastVote(
    cfg: Config, genesis: Subject, w: World, steps: seq<Step>, end: World, self: Address, prev: Hash, integer: nat, newRound: nat)
    requires Initial(genesis, w) && end == Run(cfg, w, steps) && self in end.nodes
    requires !Expired(integer, Target(end.nodes[self].chain))
    ensures var c := LocalRoundChange(self, end.nodes[self], prev, integer, newRound);
            && c == RoundChange(self, prev, integer, newRound, c.lockedRound, c.locked)
            && (c.lockedRound == 0 <==> c.locked.None?)
            && forall s: Subject, round: nat :: s.prev == prev && s.integer == integer ==>
                 (c.locked == Some(s) && c.lockedRound == round <==> LastVote(self, s, round, end.net) && round < newRound)
  {
    hide Run, VoterOk, LastVote, Expired;
    RunKeeps(cfg, genesis, w, steps);
    HonestNodeOk(cfg, genesis, end, self);
    var node := end.nodes[self];
    var c := LocalRoundChange(self, node, prev, integer, newRound);
    LocksAreFormed(self, node, end.net);
    forall s: Subject, round: nat | s.prev == prev && s.integer == integer
      ensures c.locked == Some(s) && c.lockedRound == round <==> LastVote(self, s, round, end.net) && round < newRound
    {
      LockIsLastVote(self, node, prev, integer, end.net, s, round);
    }
  }

  // ---------------------------------------------------------------- acceptance

  /** A change signed by an honest validator for the round after the active one, or for the
      active one, is recorded by every validator with the same chain that has none of it. */
  lemma HonestChangeAccepted(
    cfg: Config, genesis: Subject, w: World, self: Address, node: Node, newRound: nat)
    requires WorldOk(cfg, genesis, w) && self in w.nodes && node.chain == w.nodes[self].chain
    requires self in SetAfter(Tip(node.chain)) && newRound >= 2 && Active(node) <= newRound <= Active(node) + 1
    requires (Target(node.chain), newRound, self) !in node.changes
    ensures var c := LocalRoundChange(self, w.nodes[self], Tip(node.chain), Target(node.chain), newRound);
            AcceptChange(node, c, w.net + {ChangeMsg(c)}, true)
            == Import(node.changes[(Target(node.chain), newRound, self) := c], true)
  {
    hide VoterOk, WorldOk;
    HonestNodeOk(cfg, genesis, w, self);
    LocksAreFormed(self, w.nodes[self], w.net);
  }

  /** Recording a change leaves every other round as it was. */
  lemma OtherRounds(changes: Changes, c: RoundChange, integer: nat, round: nat)
    requires ChangeKey(c) !in changes && (c.integer != integer || c.newRound != round)
    ensures Changers(changes[ChangeKey(c) := c], integer, round) == Changers(changes, integer, round)
  {
    var next := changes[ChangeKey(c) := c];
    forall a | a in Changers(next, integer, round)
      ensures a in Changers(changes, integer, round)
    {
      var k :| k in next && k.0 == integer && k.1 == round && k.2 == a;
      assert k in changes;
    }
    forall a | a in Changers(changes, integer, round)
      ensures a in Changers(next, integer, round)
    {
      var k :| k in changes && k.0 == integer && k.1 == round && k.2 == a;
      assert k in next;
    }
  }

  lemma OpenAfter(changes: Changes, c: RoundChange, quorum: nat, round: nat)
    requires ChangeKey(c) !in changes
    ensures round in OpenRounds(changes[ChangeKey(c) := c], c.integer, quorum)
       <==> || round in OpenRounds(changes, c.integer, quorum)
            || (round == c.newRound && RoundCertified(changes[ChangeKey(c) := c], c.integer, round, quorum))
  {
    var next := changes[ChangeKey(c) := c];
    assert ChangeKey(c) in next;
    if round != c.newRound {
      OtherRounds(changes, c, c.integer, round);
    } else if round in OpenRounds(changes, c.integer, quorum) && round != 1 {
      var k :| k in changes && k.0 == c.integer && k.1 == round && RoundCertified(changes, c.integer, k.1, quorum);
      SubsetSize(Changers(changes, c.integer, round), Changers(next, c.integer, round));
    }
  }

  lemma ActiveIs(changes: Changes, integer: nat, quorum: nat, round: nat)
    requires round in OpenRounds(changes, integer, quorum) && forall r :: r in OpenRounds(changes, integer, quorum) ==> r <= round
    ensures ActiveRound(changes, integer, quorum) == round
  {
  }

  lemma CertifiedIsOpen(changes: Changes, integer: nat, round: nat, quorum: nat)
    requires RoundCertified(changes, integer, round, quorum) && quorum > 0
    ensures round in OpenRounds(changes, integer, quorum) && round <= ActiveRound(changes, integer, quorum)
  {
    var a :| a in Changers(changes, integer, round);
    var k :| k in changes && k.0 == integer && k.1 == round && k.2 == a;
    assert RoundCertified(changes, integer, k.1, quorum);
  }

  lemma ActiveAfter(changes: Changes, c: RoundChange, quorum: nat)
    requires ChangeKey(c) !in changes && quorum > 0
    requires var active := ActiveRound(changes, c.integer, quorum); active <= c.newRound <= active + 1
    ensures var active, next := ActiveRound(changes, c.integer, quorum), changes[ChangeKey(c) := c];
            ActiveRound(next, c.integer, quorum) == if RoundCertified(next, c.integer, active + 1, quorum) then active + 1 else active
  {
    hide OpenRounds, RoundCertified, ActiveRound;
    var active, next := ActiveRound(changes, c.integer, quorum), changes[ChangeKey(c) := c];
    OpenBelowActive(changes, c.integer, quorum);
    forall round: nat
      ensures round in OpenRounds(next, c.integer, quorum)
         <==> round in OpenRounds(changes, c.integer, quorum) || (round == c.newRound && RoundCertified(next, c.integer, round, quorum))
    {
      OpenAfter(changes, c, quorum, round);
    }
    if RoundCertified(next, c.integer, active + 1, quorum) {
      CertifiedIsOpen(next, c.integer, active + 1, quorum);
      ActiveIs(next, c.integer, quorum, active + 1);
    } else {
      ActiveIs(next, c.integer, quorum, active);
    }
  }

  lemma OpenBelowActive(changes: Changes, integer: nat, quorum: nat)
    ensures ActiveRound(changes, integer, quorum) in OpenRounds(changes, integer, quorum)
    ensures forall r :: r in OpenRounds(changes, integer, quorum) ==> r <= ActiveRound(changes, integer, quorum)
  {
    assert 1 in OpenRounds(changes, integer, quorum);
  }

  /** Rounds open one at a time: accepting a change leaves the active round, or raises it by
      one when that completes a quorum for the next round. */
  lemma OneRoundAtATime(node: Node, c: RoundChange, net: set<Message>, persisted: bool)
    ensures var after := AcceptChange(node, c, net, persisted).changes;
            var target, quorum := Target(node.chain), RequiredQuorum(|SetAfter(Tip(node.chain))|);
            ActiveRound(after, target, quorum)
            == if after != node.changes && |Changers(after, target, Active(node) + 1)| >= quorum then Active(node) + 1 else Active(node)
  {
    hide ActiveRound;
    if AcceptChange(node, c, net, persisted).changes != node.changes {
      ActiveAfter(node.changes, c, RequiredQuorum(|SetAfter(Tip(node.chain))|));
    }
  }

  // ---------------------------------------------------------------- a fresh start

  /** Everything recorded is for the integer being decided. */
  ghost predicate Tidy(node: Node) {
    && (forall k :: k in node.signed ==> k.0 == Target(node.chain))
    && (forall k :: k in node.changes ==> k.0 == Target(node.chain))
  }

  lemma VoteKeepsTidy(
    cfg: Config, self: Address, node: Node, c: Candidate, proposal: Option<Vote>, net: set<Message>, persisted: bool,
    file: Option<seq<SignedRecord>>)
    requires Tidy(node)
    ensures Tidy(VoteStep(cfg, self, node, c, proposal, net, persisted, file).node)
  {
    hide MayVote, LockPermits, CertifiedRound, RaisedLock;
    var s, vs := c.subject, SetAfter(Tip(node.chain));
    var certified := CertifiedRound(c.proof, s.prev, s.integer, vs, net);
    if certified.Some? && ValidCandidate(cfg, node.chain, s) {
      CertifiedChanges(c.proof, s.prev, s.integer, vs, net, certified.value);
      ImportOnlyAdds(node.changes, c.proof.changes);
      ImportKeys(node.changes, c.proof.changes);
    }
  }

  lemma {:induction false} ImportKeys(changes: Changes, cs: seq<RoundChange>)
    ensures forall k :: k in ImportChanges(changes, cs).changes && k !in changes ==> exists c :: c in cs && k == ChangeKey(c)
    decreases |cs|
  {
    if cs != [] {
      var k := ChangeKey(cs[0]);
      assert forall c :: c in cs[1..] ==> c in cs;
      if k !in changes {
        ImportKeys(changes[k := cs[0]], cs[1..]);
      } else if SameLock(changes[k], cs[0]) {
        ImportKeys(changes, cs[1..]);
      }
    }
  }

  lemma AcceptKeepsTidy(node: Node, c: RoundChange, net: set<Message>, persisted: bool)
    requires Tidy(node)
    ensures Tidy(node.(changes := AcceptChange(node, c, net, persisted).changes))
  {
  }

  lemma RestartTidies(self: Address, node: Node, changes: Changes, file: Option<seq<SignedRecord>>, net: set<Message>)
    requires Restarted(self, node, changes, file, net).Some? && forall k :: k in changes ==> k.0 == Target(node.chain)
    ensures Tidy(Restarted(self, node, changes, file, net).value)
  {
    hide Loadable, LocksOf, LoadVotes, ActiveRound;
    LoaderExact(node.disk, self, Target(node.chain), net);
  }

  /** Once the record of an integer is appended and its votes are cleared, the next integer
      starts in round 1 with nothing signed, and the locks are kept. */
  lemma NextStartsFresh(node: Node, s: Subject)
    requires Tidy(node)
    ensures var next := ClearSigned(node.(chain := node.chain + [s]), Target(node.chain));
            && next.signed == map[] && next.changes == map[] && Active(next) == 1
            && next.locks == node.locks && Tidy(next)
  {
    var next := ClearSigned(node.(chain := node.chain + [s]), Target(node.chain));
    assert next.changes == map[];
    assert OpenRounds(next.changes, Target(next.chain), RequiredQuorum(|SetAfter(Tip(next.chain))|)) == {1};
  }
}
