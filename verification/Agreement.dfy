/**
 Finalization as a system: validators, some of them faulty, taking steps in any order. The
 theorems are about every run from one genesis.
 */
module Agreement {
  import opened Machine
  import opened Sets
  import opened Addresses
  import opened Quorum
  import opened Certificates
  import opened Committee
  import opened VoteRules
  import opened LockDurability
  import opened VoterSafety

  // ---------------------------------------------------------------- the system

  /** The honest nodes, and everything signed so far. Faulty validators are all the
      others. */
  datatype World = World(nodes: map<Address, Node>, net: set<Message>)

  datatype Step =
    | Forge(message: Message)
    | CastVote(who: Address, candidate: Candidate, proposal: Option<Vote>, roundsPersisted: bool,
               file: Option<seq<SignedRecord>>)
    | SignChange(who: Address, prev: Hash, integer: nat, newRound: nat)
    | ReceiveChange(who: Address, change: RoundChange, persisted: bool)
    | Append(who: Address, subject: Subject, proof: Proof)
    | Clear(who: Address, integer: nat, file: Option<seq<SignedRecord>>)
    | Restart(who: Address, changes: Changes, file: Option<seq<SignedRecord>>)

  /** What was written is a snapshot of the node's votes. */
  ghost predicate Writes(file: Option<seq<SignedRecord>>, node: Node) {
    file.Some? ==> SnapshotOf(file.value, node.signed, node.locks)
  }

  ghost function Emitted(out: VoteOutcome): set<Message> {
    if out.vote.Some? then {VoteMsg(out.vote.value)} else {}
  }

  /** A faulty validator signs anything. */
  ghost function ForgeStep(w: World, step: Step): World
    requires step.Forge?
  {
    if step.message.Signer() in w.nodes then w else w.(net := w.net + {step.message})
  }

  ghost function CastVoteStep(cfg: Config, w: World, step: Step): World
    requires step.CastVote?
  {
    if step.who !in w.nodes then w
    else
      var out := VoteStep(cfg, step.who, w.nodes[step.who], step.candidate, step.proposal, w.net,
                          step.roundsPersisted, step.file);
      if !Writes(step.file, out.node) then w
      else World(w.nodes[step.who := out.node], w.net + Emitted(out))
  }

  ghost function SignChangeStep(w: World, step: Step): World
    requires step.SignChange?
  {
    if step.who !in w.nodes || step.who !in SetAfter(Tip(w.nodes[step.who].chain)) then w
    else
      var c := LocalRoundChange(step.who, w.nodes[step.who], step.prev, step.integer, step.newRound);
      w.(net := w.net + {ChangeMsg(c)})
  }

  ghost function ReceiveChangeStep(w: World, step: Step): World
    requires step.ReceiveChange?
  {
    if step.who !in w.nodes then w
    else
      var node := w.nodes[step.who];
      w.(nodes := w.nodes[step.who := node.(changes := AcceptChange(node, step.change, w.net, step.persisted).changes)])
  }

  ghost predicate Appends(cfg: Config, node: Node, s: Subject, proof: Proof, net: set<Message>) {
    ValidCandidate(cfg, node.chain, s) && Finalizes(proof, Of(s), s.prev, s.integer, SetAfter(Tip(node.chain)), net)
  }

  ghost function AppendStep(cfg: Config, w: World, step: Step): World
    requires step.Append?
  {
    if step.who !in w.nodes || !Appends(cfg, w.nodes[step.who], step.subject, step.proof, w.net) then w
    else
      var node := w.nodes[step.who];
      w.(nodes := w.nodes[step.who := node.(chain := node.chain + [step.subject])])
  }

  ghost function ClearStep(w: World, step: Step): World
    requires step.Clear?
  {
    if step.who !in w.nodes then w
    else
      var node := w.nodes[step.who];
      var next := ClearSigned(node, step.integer);
      if step.integer >= Target(node.chain) || !Writes(step.file, next) then w
      else w.(nodes := w.nodes[step.who := if step.file.Some? then next.(disk := step.file.value) else next])
  }

  ghost function RestartStep(w: World, step: Step): World
    requires step.Restart?
  {
    if step.who !in w.nodes then w
    else
      var next := Restarted(step.who, w.nodes[step.who], step.changes, step.file, w.net);
      if next.None? || !Writes(step.file, next.value) then w
      else w.(nodes := w.nodes[step.who := next.value])
  }

  /** One step. A step that is not possible leaves the world as it is. */
  ghost function Apply(cfg: Config, w: World, step: Step): World {
    match step
    case Forge(_) => ForgeStep(w, step)
    case CastVote(_, _, _, _, _) => CastVoteStep(cfg, w, step)
    case SignChange(_, _, _, _) => SignChangeStep(w, step)
    case ReceiveChange(_, _, _) => ReceiveChangeStep(w, step)
    case Append(_, _, _) => AppendStep(cfg, w, step)
    case Clear(_, _, _) => ClearStep(w, step)
    case Restart(_, _, _) => RestartStep(w, step)
  }

  ghost function Run(cfg: Config, w: World, steps: seq<Step>): World {
    if steps == [] then w else Apply(cfg, Run(cfg, w, steps[..|steps| - 1]), steps[|steps| - 1])
  }

  ghost predicate IsGenesis(g: Subject) {
    g.prev == Zero && g.integer == 2 && g.next.Some? && CanonicalSet(g.next.value)
  }

  ghost predicate Initial(genesis: Subject, w: World) {
    && IsGenesis(genesis) && w.net == {}
    && forall a :: a in w.nodes ==> w.nodes[a] == Node([genesis], map[], map[], map[], [])
  }

  // ---------------------------------------------------------------- the invariant

  /** A subject on a chain was voted for by a quorum of the set in force. */
  ghost predicate QuorumVoted(s: Subject, net: set<Message>) {
    var vs := SetAfter(s.prev);
    |Voters(Of(s), vs, net)| >= RequiredQuorum(|Elements(vs)|)
  }

  ghost predicate ChainOk(genesis: Subject, chain: seq<Subject>, net: set<Message>) {
    && |chain| >= 1 && chain[0] == genesis
    && forall k :: 1 <= k < |chain| ==>
         chain[k].prev == Of(chain[k - 1]) && chain[k].integer == k + 2 && QuorumVoted(chain[k], net)
  }

  /** The assigned proposer of the vote's round signed for the same subject. */
  ghost predicate ProposerSigned(cfg: Config, v: Vote, net: set<Message>) {
    && v.target.Of? && v.round >= 1
    && var s := v.target.subject;
       && |SetAfter(s.prev)| >= 1
       && VoteMsg(Vote(AssignedProposer(cfg, s, v.round), v.target, v.round)) in net
  }

  function AssignedProposer(cfg: Config, s: Subject, round: nat): Address
    requires round >= 1 && |SetAfter(s.prev)| >= 1
  {
    Proposer(SetAfter(s.prev), cfg.selector(s.prev, s.integer), round)
  }

  ghost predicate ProposersSigned(cfg: Config, w: World) {
    forall v :: VoteMsg(v) in w.net && v.validator in w.nodes ==> ProposerSigned(cfg, v, w.net)
  }

  /** A lock reported in a round change was voted for in the reported round. */
  ghost predicate LockVoted(c: RoundChange, net: set<Message>) {
    c.lockedRound != 0 ==>
      && c.locked.Some? && c.locked.value.prev == c.prev && c.locked.value.integer == c.integer
      && c.lockedRound < c.newRound
      && VoteMsg(Vote(c.validator, Of(c.locked.value), c.lockedRound)) in net
  }

  ghost predicate ReportsVoted(w: World) {
    forall c :: ChangeMsg(c) in w.net && c.validator in w.nodes ==> LockVoted(c, w.net)
  }

  ghost predicate NodeOk(genesis: Subject, a: Address, node: Node, net: set<Message>) {
    VoterOk(a, node, net) && ChainOk(genesis, node.chain, net)
  }

  ghost predicate WorldOk(cfg: Config, genesis: Subject, w: World) {
    && (forall a :: a in w.nodes ==> NodeOk(genesis, a, w.nodes[a], w.net))
    && ProposersSigned(cfg, w) && ReportsVoted(w)
  }

  // ---------------------------------------------------------------- preservation

  lemma VotersGrow(s: Subject, net: set<Message>, more: set<Message>)
    requires net <= more && QuorumVoted(s, net)
    ensures QuorumVoted(s, more)
  {
    var vs := SetAfter(s.prev);
    SubsetSize(Voters(Of(s), vs, net), Voters(Of(s), vs, more));
  }

  lemma NodeSeesMore(genesis: Subject, a: Address, node: Node, net: set<Message>, more: set<Message>)
    requires NodeOk(genesis, a, node, net) && net <= more
    requires forall v :: VoteMsg(v) in more && VoteMsg(v) !in net ==> v.validator != a
    ensures NodeOk(genesis, a, node, more)
  {
    NetGrows(a, node, net, more);
    ChainSeesMore(genesis, node.chain, net, more);
  }

  lemma ChainSeesMore(genesis: Subject, chain: seq<Subject>, net: set<Message>, more: set<Message>)
    requires ChainOk(genesis, chain, net) && net <= more
    ensures ChainOk(genesis, chain, more)
  {
    forall k | 1 <= k < |chain|
      ensures QuorumVoted(chain[k], more)
    {
      VotersGrow(chain[k], net, more);
    }
  }

  /** One node changes its state, nothing is signed. */
  lemma OneNodeMoves(cfg: Config, genesis: Subject, w: World, who: Address, node: Node)
    requires WorldOk(cfg, genesis, w) && who in w.nodes && NodeOk(genesis, who, node, w.net)
    ensures WorldOk(cfg, genesis, w.(nodes := w.nodes[who := node]))
  {
  }

  /** A message is signed that is no vote of an honest validator. */
  lemma MessageJoins(cfg: Config, genesis: Subject, w: World, m: Message)
    requires WorldOk(cfg, genesis, w)
    requires m.VoteMsg? ==> m.vote.validator !in w.nodes
    requires m.ChangeMsg? && m.change.validator in w.nodes ==> LockVoted(m.change, w.net)
    ensures WorldOk(cfg, genesis, w.(net := w.net + {m}))
  {
    var more := w.net + {m};
    forall a | a in w.nodes
      ensures NodeOk(genesis, a, w.nodes[a], more)
    {
      NodeSeesMore(genesis, a, w.nodes[a], w.net, more);
    }
    assert ProposersSigned(cfg, w.(net := more));
    forall d | ChangeMsg(d) in more && d.validator in w.nodes
      ensures LockVoted(d, more)
    {
      assert LockVoted(d, w.net);
    }
  }

  lemma ForgeKeeps(cfg: Config, genesis: Subject, w: World, step: Step)
    requires WorldOk(cfg, genesis, w) && step.Forge?
    ensures WorldOk(cfg, genesis, ForgeStep(w, step))
  {
    if step.message.Signer() !in w.nodes {
      MessageJoins(cfg, genesis, w, step.message);
    }
  }

  lemma SignChangeKeeps(cfg: Config, genesis: Subject, w: World, step: Step)
    requires WorldOk(cfg, genesis, w) && step.SignChange?
    ensures WorldOk(cfg, genesis, SignChangeStep(w, step))
  {
    if step.who in w.nodes && step.who in SetAfter(Tip(w.nodes[step.who].chain)) {
      LocalChangeVoted(genesis, step.who, w.nodes[step.who], step.prev, step.integer, step.newRound, w.net);
      var c := LocalRoundChange(step.who, w.nodes[step.who], step.prev, step.integer, step.newRound);
      MessageJoins(cfg, genesis, w, ChangeMsg(c));
    }
  }

  lemma LocalChangeVoted(
    genesis: Subject, who: Address, node: Node, prev: Hash, integer: nat, newRound: nat, net: set<Message>)
    requires NodeOk(genesis, who, node, net)
    ensures LockVoted(LocalRoundChange(who, node, prev, integer, newRound), net)
  {
    var k := (prev, integer);
    if k in node.locks {
      assert Authentic(node.locks[k], who, net) && PositionOf(node.locks[k]) == k;
    }
  }

  lemma AppendKeeps(cfg: Config, genesis: Subject, w: World, step: Step)
    requires WorldOk(cfg, genesis, w) && step.Append?
    ensures WorldOk(cfg, genesis, AppendStep(cfg, w, step))
  {
    if step.who in w.nodes && Appends(cfg, w.nodes[step.who], step.subject, step.proof, w.net) {
      var node := w.nodes[step.who];
      ChainGrows(step.who, node, step.subject, w.net);
      ChainOkAppend(cfg, genesis, node, step.subject, step.proof, w.net);
      OneNodeMoves(cfg, genesis, w, step.who, node.(chain := node.chain + [step.subject]));
    }
  }

  lemma ChainOkAppend(cfg: Config, genesis: Subject, node: Node, s: Subject, proof: Proof, net: set<Message>)
    requires ChainOk(genesis, node.chain, net) && Appends(cfg, node, s, proof, net)
    ensures ChainOk(genesis, node.chain + [s], net)
  {
    FinalizedHasQuorum(proof, Of(s), s.prev, s.integer, SetAfter(Tip(node.chain)), net);
    assert QuorumVoted(s, net);
  }

  // ---------------------------------------------------------------- voting

  /** The state of the validator once the candidate's round changes are imported. */
  ghost function Imported(node: Node, c: Candidate, roundsPersisted: bool): Node {
    node.(changes := ImportPersisted(node.changes, c.proof.changes, roundsPersisted).changes)
  }

  /** The new vote a step signs, if it signs one: the state, subject and round allow it, and
      the assigned proposer is the validator itself or has signed already. */
  ghost predicate SignsNew(cfg: Config, self: Address, n: Node, c: Candidate, round: nat, proposal: Option<Vote>, net: set<Message>) {
    && round >= 1 && |SetAfter(c.subject.prev)| >= 1
    && ReadyToSign(n, c.subject, round)
    && (self == AssignedProposer(cfg, c.subject, round)
        || VoteMsg(Vote(AssignedProposer(cfg, c.subject, round), Of(c.subject), round)) in net)
  }

  lemma ImportKeeps(self: Address, node: Node, c: Candidate, roundsPersisted: bool, net: set<Message>)
    requires VoterOk(self, node, net)
    ensures VoterOk(self, Imported(node, c, roundsPersisted), net)
    ensures Active(node) <= Active(Imported(node, c, roundsPersisted))
  {
    ImportOnlyAdds(node.changes, c.proof.changes);
    ChangesGrow(self, node, Imported(node, c, roundsPersisted).changes, net);
  }

  /** A vote request changes nothing but the recorded round changes, or repeats a vote, or
      signs a new one. */
  ghost predicate Outcome(
    cfg: Config, self: Address, n: Node, c: Candidate, round: nat, proposal: Option<Vote>, net: set<Message>,
    file: Option<seq<SignedRecord>>, out: VoteOutcome)
  {
    || out == VoteOutcome(n, None)
    || (out == VoteOutcome(n, Some(Vote(self, Of(c.subject), round))) && Repeats(self, n, c.subject, round, net))
    || (file.Some? && SignsNew(cfg, self, n, c, round, proposal, net) && out == SignAndPersist(self, n, c, round, file))
  }

  lemma DecideOutcome(
    cfg: Config, self: Address, n: Node, c: Candidate, round: nat, proposal: Option<Vote>, net: set<Message>,
    file: Option<seq<SignedRecord>>)
    requires LocksFormed(n.locks, self, net) && SignedFormed(n.signed, n.locks, self, net)
    requires ValidCandidate(cfg, n.chain, c.subject) && round >= 1
    ensures Outcome(cfg, self, n, c, round, proposal, net, file,
                    DecideVote(cfg, self, n, c, round, proposal, net, file))
  {
    var s := c.subject;
    if MayVote(cfg, self, n.chain, n.changes, c, round, proposal, net) && LockPermits(n.locks, s) {
      if (s.integer, round) !in n.signed {
        AllowedIsReady(cfg, self, n, c, round, proposal, net);
      } else if n.signed[(s.integer, round)].vote.target == Of(s) {
        SignedSlotRepeats(self, n, c.subject, round, net);
      }
    }
  }

  lemma VoteOutcomes(
    cfg: Config, self: Address, node: Node, c: Candidate, proposal: Option<Vote>, net: set<Message>,
    roundsPersisted: bool, file: Option<seq<SignedRecord>>)
    returns (n: Node, round: nat)
    requires LocksFormed(node.locks, self, net) && SignedFormed(node.signed, node.locks, self, net)
    ensures n == node || n == Imported(node, c, roundsPersisted)
    ensures Outcome(cfg, self, n, c, round, proposal, net, file,
                    VoteStep(cfg, self, node, c, proposal, net, roundsPersisted, file))
  {
    var vs, s := SetAfter(Tip(node.chain)), c.subject;
    var certified := CertifiedRound(c.proof, s.prev, s.integer, vs, net);
    n, round := node, 0;
    if self in vs && c.proof.votes == [] && ValidCandidate(cfg, node.chain, s) && certified.Some? {
      n, round := Imported(node, c, roundsPersisted), certified.value;
      DecideOutcome(cfg, self, n, c, round, proposal, net, file);
    }
  }

  ghost predicate Repeats(self: Address, n: Node, s: Subject, round: nat, net: set<Message>) {
    && VoteMsg(Vote(self, Of(s), round)) in net
    && s.integer == Target(n.chain) && round == Active(n)
  }

  lemma SignedSlotRepeats(self: Address, n: Node, s: Subject, round: nat, net: set<Message>)
    requires SignedFormed(n.signed, n.locks, self, net) && (s.integer, round) in n.signed
    requires s.integer == Target(n.chain) && round == Active(n)
    requires n.signed[(s.integer, round)].vote.target == Of(s)
    ensures n.signed[(s.integer, round)].vote == Vote(self, Of(s), round) && Repeats(self, n, s, round, net)
  {
  }

  lemma AllowedIsReady(cfg: Config, self: Address, n: Node, c: Candidate, round: nat, proposal: Option<Vote>, net: set<Message>)
    requires LocksFormed(n.locks, self, net) && round >= 1
    requires ValidCandidate(cfg, n.chain, c.subject)
    requires MayVote(cfg, self, n.chain, n.changes, c, round, proposal, net)
    requires (c.subject.integer, round) !in n.signed && LockPermits(n.locks, c.subject)
    ensures SignsNew(cfg, self, n, c, round, proposal, net)
  {
    assert n.chain[..c.subject.integer - 2] == n.chain;
  }

  /** Whatever the outcome, the validator's invariant holds with its vote in the network, and
      the vote is for the integer being decided, in the active round. */
  lemma OutcomeKeeps(
    cfg: Config, genesis: Subject, self: Address, n: Node, c: Candidate, round: nat, proposal: Option<Vote>,
    net: set<Message>, file: Option<seq<SignedRecord>>, out: VoteOutcome)
    requires NodeOk(genesis, self, n, net) && Outcome(cfg, self, n, c, round, proposal, net, file, out)
    requires Writes(file, out.node)
    ensures NodeOk(genesis, self, out.node, net + Emitted(out))
  {
    if file.Some? && out == SignAndPersist(self, n, c, round, file) && SignsNew(cfg, self, n, c, round, proposal, net) {
      SignOutcomeKeeps(cfg, genesis, self, n, c, round, proposal, net, file.value);
    } else {
      NothingNew(self, n, c, round, net, out);
    }
  }

  lemma NothingNew(self: Address, n: Node, c: Candidate, round: nat, net: set<Message>, out: VoteOutcome)
    requires || out == VoteOutcome(n, None)
             || (out == VoteOutcome(n, Some(Vote(self, Of(c.subject), round))) && Repeats(self, n, c.subject, round, net))
    ensures out.node == n && net + Emitted(out) == net
  {
  }

  lemma SignOutcomeKeeps(
    cfg: Config, genesis: Subject, self: Address, n: Node, c: Candidate, round: nat, proposal: Option<Vote>,
    net: set<Message>, file: seq<SignedRecord>)
    requires NodeOk(genesis, self, n, net) && SignsNew(cfg, self, n, c, round, proposal, net)
    requires Writes(Some(file), SignAndPersist(self, n, c, round, Some(file)).node)
    ensures var out := SignAndPersist(self, n, c, round, Some(file)); NodeOk(genesis, self, out.node, net + Emitted(out))
  {
    SignKeeps(self, n, c, round, file, net);
    ChainSeesMore(genesis, n.chain, net, net + {VoteMsg(Vote(self, Of(c.subject), round))});
  }

  lemma OutcomeVote(
    cfg: Config, self: Address, n: Node, c: Candidate, round: nat, proposal: Option<Vote>,
    net: set<Message>, file: Option<seq<SignedRecord>>, out: VoteOutcome)
    requires Outcome(cfg, self, n, c, round, proposal, net, file, out) && out.vote.Some?
    ensures out.vote.value == Vote(self, Of(c.subject), round)
    ensures c.subject.integer == Target(n.chain) && round == Active(n)
    ensures VoteMsg(out.vote.value) in net || ProposerSigned(cfg, out.vote.value, net + Emitted(out))
  {
  }

  lemma CastVoteNode(cfg: Config, genesis: Subject, w: World, step: Step)
    requires step.CastVote? && step.who in w.nodes && NodeOk(genesis, step.who, w.nodes[step.who], w.net)
    ensures var out := VoteStep(cfg, step.who, w.nodes[step.who], step.candidate, step.proposal, w.net,
                                step.roundsPersisted, step.file);
            Writes(step.file, out.node) ==> NodeOk(genesis, step.who, out.node, w.net + Emitted(out))
  {
    var self, node, c := step.who, w.nodes[step.who], step.candidate;
    var n, round := VoteOutcomes(cfg, self, node, c, step.proposal, w.net, step.roundsPersisted, step.file);
    ImportKeeps(self, node, c, step.roundsPersisted, w.net);
    var out := VoteStep(cfg, self, node, c, step.proposal, w.net, step.roundsPersisted, step.file);
    if Writes(step.file, out.node) {
      OutcomeKeeps(cfg, genesis, self, n, c, round, step.proposal, w.net, step.file, out);
    }
  }

  lemma CastVoteProposed(cfg: Config, w: World, step: Step)
    requires step.CastVote? && step.who in w.nodes && VoterOk(step.who, w.nodes[step.who], w.net)
    ensures var out := VoteStep(cfg, step.who, w.nodes[step.who], step.candidate, step.proposal, w.net,
                                step.roundsPersisted, step.file);
            out.vote.Some? ==>
              && out.vote.value.validator == step.who
              && (VoteMsg(out.vote.value) in w.net || ProposerSigned(cfg, out.vote.value, w.net + Emitted(out)))
  {
    var self, node, c := step.who, w.nodes[step.who], step.candidate;
    var n, round := VoteOutcomes(cfg, self, node, c, step.proposal, w.net, step.roundsPersisted, step.file);
    var out := VoteStep(cfg, self, node, c, step.proposal, w.net, step.roundsPersisted, step.file);
    if out.vote.Some? {
      OutcomeVote(cfg, self, n, c, round, step.proposal, w.net, step.file, out);
    }
  }

  lemma CastVoteKeeps(cfg: Config, genesis: Subject, w: World, step: Step)
    requires WorldOk(cfg, genesis, w) && step.CastVote?
    ensures WorldOk(cfg, genesis, CastVoteStep(cfg, w, step))
  {
    if step.who in w.nodes {
      var out := VoteStep(cfg, step.who, w.nodes[step.who], step.candidate, step.proposal, w.net,
                          step.roundsPersisted, step.file);
      if Writes(step.file, out.node) {
        assert NodeOk(genesis, step.who, w.nodes[step.who], w.net);
        CastVoteNode(cfg, genesis, w, step);
        CastVoteProposed(cfg, w, step);
        VoteJoins(cfg, genesis, w, step.who, out);
      }
    }
  }

  /** The rest of the world is not affected by a vote of one validator. */
  lemma VoteJoins(cfg: Config, genesis: Subject, w: World, who: Address, out: VoteOutcome)
    requires WorldOk(cfg, genesis, w) && who in w.nodes
    requires NodeOk(genesis, who, out.node, w.net + Emitted(out))
    requires out.vote.Some? ==>
               && out.vote.value.validator == who
               && (VoteMsg(out.vote.value) in w.net || ProposerSigned(cfg, out.vote.value, w.net + Emitted(out)))
    ensures WorldOk(cfg, genesis, World(w.nodes[who := out.node], w.net + Emitted(out)))
  {
    var more := w.net + Emitted(out);
    var next := World(w.nodes[who := out.node], more);
    forall a | a in next.nodes
      ensures NodeOk(genesis, a, next.nodes[a], more)
    {
      if a != who {
        NodeSeesMore(genesis, a, w.nodes[a], w.net, more);
      }
    }
    assert ProposersSigned(cfg, next);
    assert ReportsVoted(next);
  }

  lemma ReceiveChangeKeeps(cfg: Config, genesis: Subject, w: World, step: Step)
    requires WorldOk(cfg, genesis, w) && step.ReceiveChange?
    ensures WorldOk(cfg, genesis, ReceiveChangeStep(w, step))
  {
    if step.who in w.nodes {
      var node := w.nodes[step.who];
      var changes := AcceptChange(node, step.change, w.net, step.persisted).changes;
      ChangesGrow(step.who, node, changes, w.net);
      OneNodeMoves(cfg, genesis, w, step.who, node.(changes := changes));
    }
  }

  lemma ClearStepKeeps(cfg: Config, genesis: Subject, w: World, step: Step)
    requires WorldOk(cfg, genesis, w) && step.Clear?
    ensures WorldOk(cfg, genesis, ClearStep(w, step))
  {
    if step.who in w.nodes {
      var node := w.nodes[step.who];
      var cleared := ClearSigned(node, step.integer);
      if step.integer < Target(node.chain) && Writes(step.file, cleared) {
        ClearKeeps(step.who, node, step.integer, w.net);
        if step.file.Some? {
          DiskRewritten(step.who, cleared, step.file.value, w.net);
          OneNodeMoves(cfg, genesis, w, step.who, cleared.(disk := step.file.value));
        } else {
          OneNodeMoves(cfg, genesis, w, step.who, cleared);
        }
      }
    }
  }

  lemma RestartStepKeeps(cfg: Config, genesis: Subject, w: World, step: Step)
    requires WorldOk(cfg, genesis, w) && step.Restart?
    ensures WorldOk(cfg, genesis, RestartStep(w, step))
  {
    if step.who in w.nodes {
      var next := Restarted(step.who, w.nodes[step.who], step.changes, step.file, w.net);
      if next.Some? && Writes(step.file, next.value) {
        RestartKeeps(step.who, w.nodes[step.who], step.changes, step.file, w.net);
        OneNodeMoves(cfg, genesis, w, step.who, next.value);
      }
    }
  }

  lemma StepKeeps(cfg: Config, genesis: Subject, w: World, step: Step)
    requires WorldOk(cfg, genesis, w)
    ensures WorldOk(cfg, genesis, Apply(cfg, w, step))
  {
    match step
    case Forge(_) => ForgeKeeps(cfg, genesis, w, step);
    case CastVote(_, _, _, _, _) => CastVoteKeeps(cfg, genesis, w, step);
    case SignChange(_, _, _, _) => SignChangeKeeps(cfg, genesis, w, step);
    case ReceiveChange(_, _, _) => ReceiveChangeKeeps(cfg, genesis, w, step);
    case Append(_, _, _) => AppendKeeps(cfg, genesis, w, step);
    case Clear(_, _, _) => ClearStepKeeps(cfg, genesis, w, step);
    case Restart(_, _, _) => RestartStepKeeps(cfg, genesis, w, step);
  }

  lemma NodesStay(cfg: Config, w: World, step: Step)
    ensures Apply(cfg, w, step).nodes.Keys == w.nodes.Keys && w.net <= Apply(cfg, w, step).net
  {
  }

  lemma InitialOk(cfg: Config, genesis: Subject, w: World)
    requires Initial(genesis, w)
    ensures WorldOk(cfg, genesis, w)
  {
  }

  /** The invariant holds after every run. */
  lemma {:induction false} RunKeeps(cfg: Config, genesis: Subject, w: World, steps: seq<Step>)
    requires Initial(genesis, w)
    ensures WorldOk(cfg, genesis, Run(cfg, w, steps)) && Run(cfg, w, steps).nodes.Keys == w.nodes.Keys
  {
    if steps == [] {
      InitialOk(cfg, genesis, w);
    } else {
      RunKeeps(cfg, genesis, w, steps[..|steps| - 1]);
      StepKeeps(cfg, genesis, Run(cfg, w, steps[..|steps| - 1]), steps[|steps| - 1]);
      NodesStay(cfg, Run(cfg, w, steps[..|steps| - 1]), steps[|steps| - 1]);
    }
  }

  // ---------------------------------------------------------------- theorems

  /** In no run does an honest validator sign two subjects for one previous hash and
      integer. */
  lemma NoEquivocation(cfg: Config, genesis: Subject, w: World, steps: seq<Step>, u: Vote, v: Vote)
    requires Initial(genesis, w)
    requires VoteMsg(u) in Run(cfg, w, steps).net && VoteMsg(v) in Run(cfg, w, steps).net
    requires u.validator == v.validator && u.validator in w.nodes
    ensures u.target.Of? && v.target.Of?
    ensures SamePosition(u.target, v.target) ==> u.target == v.target
  {
    RunKeeps(cfg, genesis, w, steps);
    var end := Run(cfg, w, steps);
    assert NodeOk(genesis, u.validator, end.nodes[u.validator], end.net);
    assert VoteAccounted(end.nodes[u.validator], u) && VoteAccounted(end.nodes[u.validator], v);
  }

  /** Every validator set the honest chains have put in force has few enough faulty
      members. */
  ghost predicate FaultsTolerated(w: World) {
    forall a, k :: a in w.nodes && 0 <= k < |w.nodes[a].chain| ==>
      FaultsBounded(Elements(SetAfter(Of(w.nodes[a].chain[k]))), w.nodes.Keys)
  }

  /** Two subjects with the votes of quorums of the same set are the same subject. */
  lemma QuorumsAgree(cfg: Config, genesis: Subject, w: World, x: Subject, y: Subject)
    requires WorldOk(cfg, genesis, w)
    requires x.prev == y.prev && x.integer == y.integer && QuorumVoted(x, w.net) && QuorumVoted(y, w.net)
    requires FaultsBounded(Elements(SetAfter(x.prev)), w.nodes.Keys)
    ensures x == y
  {
    var vs := SetAfter(x.prev);
    var a, b := Voters(Of(x), vs, w.net), Voters(Of(y), vs, w.net);
    var both := HonestIntersection(Elements(vs), w.nodes.Keys, a, b);
    var m :| m in w.net && m.VoteMsg? && m.vote.target == Of(x) && m.vote.validator == both;
    var n :| n in w.net && n.VoteMsg? && n.vote.target == Of(y) && n.vote.validator == both;
    assert NodeOk(genesis, both, w.nodes[both], w.net);
    assert VoteMsg(m.vote) in w.net && VoteMsg(n.vote) in w.net && SamePosition(m.vote.target, n.vote.target);
  }

  lemma {:induction false} ChainsAgree(cfg: Config, genesis: Subject, w: World, a: Address, b: Address, k: nat)
    requires WorldOk(cfg, genesis, w) && FaultsTolerated(w)
    requires a in w.nodes && b in w.nodes && k < |w.nodes[a].chain| && k < |w.nodes[b].chain|
    ensures w.nodes[a].chain[k] == w.nodes[b].chain[k]
    decreases k
  {
    var p, q := w.nodes[a].chain, w.nodes[b].chain;
    assert NodeOk(genesis, a, w.nodes[a], w.net) && NodeOk(genesis, b, w.nodes[b], w.net);
    if k > 0 {
      ChainsAgree(cfg, genesis, w, a, b, k - 1);
      QuorumsAgree(cfg, genesis, w, p[k], q[k]);
    }
  }

  /** Chain agreement: after every run, of two honest chains one is a prefix of the other. */
  lemma ChainAgreement(cfg: Config, genesis: Subject, w: World, steps: seq<Step>, a: Address, b: Address)
    requires Initial(genesis, w) && a in w.nodes && b in w.nodes
    requires FaultsTolerated(Run(cfg, w, steps))
    ensures Run(cfg, w, steps).nodes.Keys == w.nodes.Keys
    ensures var p, q := Run(cfg, w, steps).nodes[a].chain, Run(cfg, w, steps).nodes[b].chain; p <= q || q <= p
  {
    RunKeeps(cfg, genesis, w, steps);
    var end := Run(cfg, w, steps);
    var p, q := end.nodes[a].chain, end.nodes[b].chain;
    forall k: nat | k < |p| && k < |q|
      ensures p[k] == q[k]
    {
      ChainsAgree(cfg, genesis, end, a, b, k);
    }
    PointwisePrefix(p, q);
  }

  lemma PointwisePrefix<T>(p: seq<T>, q: seq<T>)
    requires forall k: nat :: k < |p| && k < |q| ==> p[k] == q[k]
    ensures p <= q || q <= p
  {
  }

  /** When the assigned proposer of a round is honest, all honest votes of that round for
      that position are for one subject. */
  lemma OneSubjectPerRound(cfg: Config, genesis: Subject, w: World, steps: seq<Step>, u: Vote, v: Vote)
    requires Initial(genesis, w)
    requires VoteMsg(u) in Run(cfg, w, steps).net && VoteMsg(v) in Run(cfg, w, steps).net
    requires u.validator in w.nodes && v.validator in w.nodes
    requires SamePosition(u.target, v.target) && u.round == v.round
    requires u.round >= 1 && |SetAfter(u.target.subject.prev)| >= 1
    requires AssignedProposer(cfg, u.target.subject, u.round) in w.nodes
    ensures u.target == v.target
  {
    RunKeeps(cfg, genesis, w, steps);
    var end := Run(cfg, w, steps);
    assert ProposerSigned(cfg, u, end.net) && ProposerSigned(cfg, v, end.net);
    var p := AssignedProposer(cfg, u.target.subject, u.round);
    NoEquivocation(cfg, genesis, w, steps, Vote(p, u.target, u.round), Vote(p, v.target, u.round));
  }

  /** Locks that honest validators report for one honestly proposed round never conflict. */
  lemma HonestReportsAgree(cfg: Config, genesis: Subject, w: World, steps: seq<Step>, c: RoundChange, d: RoundChange)
    requires Initial(genesis, w)
    requires ChangeMsg(c) in Run(cfg, w, steps).net && ChangeMsg(d) in Run(cfg, w, steps).net
    requires c.validator in w.nodes && d.validator in w.nodes
    requires c.prev == d.prev && c.integer == d.integer && c.lockedRound == d.lockedRound && c.lockedRound >= 1
    requires |SetAfter(c.prev)| >= 1
    requires Proposer(SetAfter(c.prev), cfg.selector(c.prev, c.integer), c.lockedRound) in w.nodes
    ensures c.locked == d.locked
  {
    RunKeeps(cfg, genesis, w, steps);
    var end := Run(cfg, w, steps);
    assert LockVoted(c, end.net) && LockVoted(d, end.net);
    OneSubjectPerRound(cfg, genesis, w, steps,
                       Vote(c.validator, Of(c.locked.value), c.lockedRound),
                       Vote(d.validator, Of(d.locked.value), d.lockedRound));
  }

  /** The rounds of an honest validator's votes for an integer never decrease. */
  lemma RoundsNeverDecrease(
    cfg: Config, genesis: Subject, w: World, steps: seq<Step>, step: Step, earlier: Vote, later: Vote)
    requires Initial(genesis, w) && step.CastVote? && step.who in w.nodes
    requires Run(cfg, w, steps).nodes.Keys == w.nodes.Keys
    requires var end := Run(cfg, w, steps);
             && VoteMsg(earlier) in end.net && earlier.validator == step.who
             && VoteStep(cfg, step.who, end.nodes[step.who], step.candidate, step.proposal, end.net,
                         step.roundsPersisted, step.file).vote == Some(later)
    requires earlier.target.Of? && earlier.target.subject.integer == step.candidate.subject.integer
    ensures later.validator == step.who && later.target == Of(step.candidate.subject)
    ensures earlier.round <= later.round
  {
    RunKeeps(cfg, genesis, w, steps);
    var end := Run(cfg, w, steps);
    var self, node := step.who, end.nodes[step.who];
    assert NodeOk(genesis, self, node, end.net);
    var n, round := VoteOutcomes(cfg, self, node, step.candidate, step.proposal, end.net, step.roundsPersisted, step.file);
    ImportKeeps(self, node, step.candidate, step.roundsPersisted, end.net);
    OutcomeVote(cfg, self, n, step.candidate, round, step.proposal, end.net, step.file,
                VoteStep(cfg, self, node, step.candidate, step.proposal, end.net, step.roundsPersisted, step.file));
    EarlierVotesBelowActive(self, n, earlier, end.net);
  }

  lemma EarlierVotesBelowActive(self: Address, n: Node, v: Vote, net: set<Message>)
    requires VoterOk(self, n, net) && VoteMsg(v) in net && v.validator == self
    requires v.target.Of? && v.target.subject.integer == Target(n.chain)
    ensures v.round <= Active(n)
  {
    assert VoteAccounted(n, v);
    var k := (v.target.subject.prev, v.target.subject.integer);
    assert (k.1, n.locks[k].vote.round) in n.signed;
  }

  /** A vote not too far behind holds a lock on its position. */
  ghost predicate StillLocked(locks: Locks, v: Vote, target: nat)
    requires v.target.Of?
  {
    var k: Position := (v.target.subject.prev, v.target.subject.integer);
    k.1 + 10_000 >= target ==> k in locks && locks[k].vote.target == v.target && v.round <= locks[k].vote.round
  }

  /** After every run a restart finds its file readable and rebuilds every lock no more than
      10000 integers behind, with the highest round it was signed in, and every vote for the
      integer being decided. The position of every vote sent that recently is locked, on the
      subject of the vote and in no earlier round. */
  lemma LocksSurviveRestart(cfg: Config, genesis: Subject, w: World, steps: seq<Step>, a: Address)
    requires Initial(genesis, w) && a in w.nodes
    ensures Run(cfg, w, steps).nodes.Keys == w.nodes.Keys
    ensures var end := Run(cfg, w, steps);
            var node := end.nodes[a];
            var r := LoadVotes(node.disk, a, Target(node.chain), end.net);
            && r.Loaded?
            && r.locks == (map k | k in node.locks && k.1 + 10_000 >= Target(node.chain) :: node.locks[k])
            && r.signed == (map k | k in node.signed && k.0 == Target(node.chain) :: node.signed[k])
            && (forall v :: VoteMsg(v) in end.net && v.validator == a ==>
                  v.target.Of? && StillLocked(r.locks, v, Target(node.chain)))
  {
    hide Run, LoadVotes, StillLocked, VoterOk, DiskFormed, Formed, WorldOk, NodeOk, Recent;
    RunKeeps(cfg, genesis, w, steps);
    var end := Run(cfg, w, steps);
    HonestNodeOk(cfg, genesis, end, a);
    var node := end.nodes[a];
    ReloadRestores(a, node, end.net);
    RecentLocks(node.locks, Target(node.chain));
    forall v | VoteMsg(v) in end.net && v.validator == a
      ensures v.target.Of? && StillLocked(Recent(node.locks, Target(node.chain)), v, Target(node.chain))
    {
      VoteStillLocked(a, node, end.net, v);
    }
  }

  /** Kept are the locks of the last 10,000 integers. */
  lemma RecentLocks(locks: Locks, target: nat)
    ensures Recent(locks, target) == map k | k in locks && k.1 + 10_000 >= target :: locks[k]
  {
  }

  lemma HonestNodeOk(cfg: Config, genesis: Subject, w: World, a: Address)
    requires WorldOk(cfg, genesis, w) && a in w.nodes
    ensures VoterOk(a, w.nodes[a], w.net)
    ensures Formed(a, w.nodes[a], w.net) && DiskFormed(a, w.nodes[a], w.net)
  {
    assert NodeOk(genesis, a, w.nodes[a], w.net);
  }

  lemma VoteStillLocked(a: Address, node: Node, net: set<Message>, v: Vote)
    requires VoterOk(a, node, net) && VoteMsg(v) in net && v.validator == a
    ensures v.target.Of? && StillLocked(Recent(node.locks, Target(node.chain)), v, Target(node.chain))
  {
    assert VoteAccounted(node, v);
  }
}
