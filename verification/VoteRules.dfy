/**
 The voting state of one validator and the rules by which it votes, reports locks, imports
 round changes and reloads its persisted votes (src/node/sync_server.cpp).
 */
module VoteRules {
  import opened Machine
  import opened Sets
  import opened Addresses
  import opened Quorum
  import opened Certificates
  import opened Committee

  /** A record proposed for signing, with the certificate of its round. */
  datatype Candidate = Candidate(subject: Subject, proof: Proof)

  /** A persisted vote; older files hold votes without their candidate. */
  datatype SignedRecord = SignedRecord(integer: nat, candidate: Option<Candidate>, vote: Vote)

  type Position = (Hash, nat)
  type Locks = map<Position, SignedRecord>
  type SignedCandidates = map<(nat, nat), SignedRecord>
  type Changes = map<(nat, nat, Address), RoundChange>

  /** What the validator does not decide itself: the committee selector derived from
      SHA3-256, and the ledger's verdict on a candidate for a given chain. */
  datatype Config = Config(selector: (Hash, nat) -> nat, accepts: (seq<Subject>, Subject) -> bool)

  datatype Node = Node(
    chain: seq<Subject>,
    signed: SignedCandidates,
    locks: Locks,
    changes: Changes,
    disk: seq<SignedRecord>)

  const LOCK_RETENTION := 10000

  function Tip(chain: seq<Subject>): Hash {
    if chain == [] then Zero else Of(chain[|chain| - 1])
  }

  /** The integer after the frontier: the chain starts at 2 and has no gaps. */
  function Target(chain: seq<Subject>): nat {
    |chain| + 2
  }

  /** What candidate validation requires of a subject. */
  predicate ValidCandidate(cfg: Config, chain: seq<Subject>, s: Subject) {
    && chain != []
    && s.prev == Tip(chain) && s.integer == Target(chain)
    && (s.next.Some? ==> CanonicalSet(s.next.value))
    && cfg.accepts(chain, s)
  }

  // ---------------------------------------------------------------- round changes

  /** Validators recorded as changing to a round of an integer. */
  ghost function Changers(changes: Changes, integer: nat, round: nat): set<Address> {
    set k | k in changes && k.0 == integer && k.1 == round :: k.2
  }

  ghost predicate RoundCertified(changes: Changes, integer: nat, round: nat, quorum: nat) {
    |Changers(changes, integer, round)| >= quorum
  }

  /** Round 1 and the rounds recorded and certified for the integer. */
  ghost function OpenRounds(changes: Changes, integer: nat, quorum: nat): (rounds: set<nat>) {
    {1} + set k | k in changes && k.0 == integer && RoundCertified(changes, integer, k.1, quorum) :: k.1
  }

  /** The highest certified round, 1 when there is none. */
  ghost function ActiveRound(changes: Changes, integer: nat, quorum: nat): (r: nat)
    ensures r >= 1
  {
    assert 1 in OpenRounds(changes, integer, quorum);
    Max(OpenRounds(changes, integer, quorum))
  }

  /** Recording more changes never lowers the active round. */
  lemma ActiveRoundMonotone(small: Changes, large: Changes, integer: nat, quorum: nat)
    requires forall k :: k in small ==> k in large
    ensures ActiveRound(small, integer, quorum) <= ActiveRound(large, integer, quorum)
  {
    var r := ActiveRound(small, integer, quorum);
    if r != 1 {
      var k :| k in small && k.0 == integer && k.1 == r && RoundCertified(small, integer, k.1, quorum);
      SubsetSize(Changers(small, integer, r), Changers(large, integer, r));
      assert k in large;
      assert r in OpenRounds(large, integer, quorum);
    } else {
      assert 1 in OpenRounds(large, integer, quorum);
    }
  }

  function ChangeKey(c: RoundChange): (nat, nat, Address) {
    (c.integer, c.newRound, c.validator)
  }

  /** Two changes under one key report the same lock. */
  predicate SameLock(a: RoundChange, b: RoundChange) {
    a.lockedRound == b.lockedRound && a.locked == b.locked
  }

  datatype Import = Import(changes: Changes, ok: bool)

  /** Certified changes are recorded one by one. A conflict stops the import and leaves the
      changes recorded before it. */
  function ImportChanges(changes: Changes, cs: seq<RoundChange>): (r: Import)
    decreases |cs|
  {
    if cs == [] then Import(changes, true)
    else
      var k := ChangeKey(cs[0]);
      if k !in changes then ImportChanges(changes[k := cs[0]], cs[1..])
      else if SameLock(changes[k], cs[0]) then ImportChanges(changes, cs[1..])
      else Import(changes, false)
  }

  /** The import with its write to disk: when that fails the new changes are forgotten. */
  function ImportPersisted(changes: Changes, cs: seq<RoundChange>, persisted: bool): (r: Import) {
    var i := ImportChanges(changes, cs);
    if i.ok && i.changes != changes && !persisted then Import(changes, false) else i
  }

  lemma {:induction false} ImportOnlyAdds(changes: Changes, cs: seq<RoundChange>)
    ensures var i := ImportChanges(changes, cs);
            && (forall k :: k in changes ==> k in i.changes && i.changes[k] == changes[k])
            && (forall k :: k in i.changes && k !in changes ==> i.changes[k] in cs)
    decreases |cs|
  {
    if cs != [] {
      var k := ChangeKey(cs[0]);
      if k !in changes {
        ImportOnlyAdds(changes[k := cs[0]], cs[1..]);
      } else if SameLock(changes[k], cs[0]) {
        ImportOnlyAdds(changes, cs[1..]);
      }
    }
  }

  // ---------------------------------------------------------------- persisted votes

  /** Records of the same integer and round. */
  ghost predicate SameSlot(a: SignedRecord, b: SignedRecord) {
    a.integer == b.integer && a.vote.round == b.vote.round
  }

  ghost predicate IsSigned(r: SignedRecord, signed: SignedCandidates) {
    exists k :: k in signed && signed[k] == r
  }

  ghost predicate IsLock(r: SignedRecord, locks: Locks) {
    exists k :: k in locks && locks[k] == r
  }

  /** A file written from the two maps: every signed candidate, and every lock whose integer
      and round are not there already. The order of the records is immaterial. */
  ghost predicate SnapshotOf(file: seq<SignedRecord>, signed: SignedCandidates, locks: Locks) {
    && (forall r :: r in file ==> IsSigned(r, signed) || IsLock(r, locks))
    && (forall k :: k in signed ==> signed[k] in file)
    && (forall k :: k in locks ==> exists i :: 0 <= i < |file| && SameSlot(file[i], locks[k]))
    && SlotsDistinct(file)
  }

  ghost predicate SlotsDistinct(file: seq<SignedRecord>) {
    forall i, j :: 0 <= i < j < |file| ==> !SameSlot(file[i], file[j])
  }

  datatype Loaded = Loaded(signed: SignedCandidates, locks: Locks) | LoadError

  predicate Expired(integer: nat, target: nat) {
    integer < target && target - integer > LOCK_RETENTION
  }

  function KeepIfTarget(acc: Loaded, locks: Locks, r: SignedRecord, target: nat): (next: Loaded)
    requires acc.Loaded?
  {
    if r.integer != target then Loaded(acc.signed, locks)
    else if (r.integer, r.vote.round) in acc.signed then LoadError
    else Loaded(acc.signed[(r.integer, r.vote.round) := r], locks)
  }

  /** One persisted record taken into account on reload. */
  function LoadStep(acc: Loaded, r: SignedRecord, self: Address, target: nat, net: set<Message>): (next: Loaded) {
    if acc.LoadError? || Expired(r.integer, target) then acc
    else if r.vote.round == 0 || r.vote.validator != self || VoteMsg(r.vote) !in net then LoadError
    else if r.candidate.None? then KeepIfTarget(acc, acc.locks, r, target)
    else
      var s := r.candidate.value.subject;
      if s.integer != r.integer || r.vote.target != Of(s) then LoadError
      else
        var key := (s.prev, s.integer);
        if key in acc.locks then
          if acc.locks[key].vote.target != Of(s) then LoadError
          else if r.vote.round > acc.locks[key].vote.round then KeepIfTarget(acc, acc.locks[key := r], r, target)
          else KeepIfTarget(acc, acc.locks, r, target)
        else KeepIfTarget(acc, acc.locks[key := r], r, target)
  }

  /** The locks once a record has been tried: its own is raised before its vote can turn out
      to be a duplicate. */
  function LocksTried(locks: Locks, r: SignedRecord, self: Address, net: set<Message>): (next: Locks) {
    if r.vote.round == 0 || r.vote.validator != self || VoteMsg(r.vote) !in net || r.candidate.None? then locks
    else
      var s := r.candidate.value.subject;
      var key := (s.prev, s.integer);
      if s.integer != r.integer || r.vote.target != Of(s) || (key in locks && locks[key].vote.target != Of(s)) then locks
      else RaisedLock(locks, key, r)
  }

  /** Reload of a whole file. */
  function LoadVotes(file: seq<SignedRecord>, self: Address, target: nat, net: set<Message>): (r: Loaded) {
    if file == [] then Loaded(map[], map[])
    else LoadStep(LoadVotes(file[..|file| - 1], self, target, net), file[|file| - 1], self, target, net)
  }

  // ---------------------------------------------------------------- voting

  datatype VoteOutcome = VoteOutcome(node: Node, vote: Option<Vote>)

  /** The checks on who proposes: the validator itself, or a signed vote of the proposer. */
  predicate ProposerOk(
    cfg: Config, self: Address, validators: seq<Address>, s: Subject, round: nat,
    proposal: Option<Vote>, net: set<Message>)
    requires round >= 1 && |validators| >= 1
  {
    var proposer := Proposer(validators, cfg.selector(s.prev, s.integer), round);
    if proposal.None? then self == proposer
    else
      && proposal.value == Vote(proposer, Of(s), round)
      && proposer in validators && VoteMsg(proposal.value) in net
  }

  /** Everything makeLocalFinalizationVote requires of a candidate before it looks at what
      the validator has signed already; the changes are those after the import. */
  ghost predicate MayVote(
    cfg: Config, self: Address, chain: seq<Subject>, changes: Changes, c: Candidate, round: nat,
    proposal: Option<Vote>, net: set<Message>)
    requires round >= 1
  {
    var vs := SetAfter(Tip(chain));
    && |vs| >= 1
    && LocksAllow(c.proof, Of(c.subject))
    && round == ActiveRound(changes, c.subject.integer, RequiredQuorum(|vs|))
    && self in CommitteeOf(vs, cfg.selector(c.subject.prev, c.subject.integer), round)
    && ProposerOk(cfg, self, vs, c.subject, round, proposal, net)
  }

  /** Signing: records the vote, raises the lock, and undoes both when the file cannot be
      written. `file` is what was written, None when writing failed. */
  function SignAndPersist(self: Address, node: Node, c: Candidate, round: nat, file: Option<seq<SignedRecord>>): VoteOutcome {
    var s := c.subject;
    var vote := Vote(self, Of(s), round);
    var record := SignedRecord(s.integer, Some(c), vote);
    if file.None? then VoteOutcome(node, None)
    else VoteOutcome(node.(signed := node.signed[(s.integer, round) := record],
                           locks := RaisedLock(node.locks, (s.prev, s.integer), record),
                           disk := file.value),
                     Some(vote))
  }

  function RaisedLock(locks: Locks, key: Position, record: SignedRecord): Locks {
    if key !in locks || record.vote.round > locks[key].vote.round then locks[key := record] else locks
  }

  /** The second half of the vote rule, with the certified round changes imported: the
      permanent lock of the position, then the votes signed before. */
  ghost function DecideVote(
    cfg: Config, self: Address, node: Node, c: Candidate, round: nat, proposal: Option<Vote>, net: set<Message>,
    file: Option<seq<SignedRecord>>): (r: VoteOutcome)
    requires round >= 1
  {
    var s := c.subject;
    if !MayVote(cfg, self, node.chain, node.changes, c, round, proposal, net) || !LockPermits(node.locks, s) then
      VoteOutcome(node, None)
    else if (s.integer, round) in node.signed then
      var vote := node.signed[(s.integer, round)].vote;
      VoteOutcome(node, if vote.target == Of(s) then Some(vote) else None)
    else SignAndPersist(self, node, c, round, file)
  }

  /** The position is not locked, or locked on this subject. */
  predicate LockPermits(locks: Locks, s: Subject) {
    (s.prev, s.integer) in locks ==>
      var lock := locks[(s.prev, s.integer)];
      lock.candidate.Some? && Of(lock.candidate.value.subject) == Of(s)
  }

  /** The vote rule as a whole. */
  ghost function VoteStep(
    cfg: Config, self: Address, node: Node, c: Candidate, proposal: Option<Vote>, net: set<Message>,
    roundsPersisted: bool, file: Option<seq<SignedRecord>>): (r: VoteOutcome)
  {
    var vs, s := SetAfter(Tip(node.chain)), c.subject;
    var certified := CertifiedRound(c.proof, s.prev, s.integer, vs, net);
    if self !in vs || c.proof.votes != [] || !ValidCandidate(cfg, node.chain, s) || certified.None? then
      VoteOutcome(node, None)
    else
      var imported := ImportPersisted(node.changes, c.proof.changes, roundsPersisted);
      if !imported.ok then VoteOutcome(node.(changes := imported.changes), None)
      else DecideVote(cfg, self, node.(changes := imported.changes), c, certified.value, proposal, net, file)
  }

  /** The round change a validator signs, reporting its lock from an earlier round. */
  function LocalRoundChange(self: Address, node: Node, prev: Hash, integer: nat, newRound: nat): RoundChange {
    var key := (prev, integer);
    if key in node.locks && node.locks[key].candidate.Some?
       && 0 < node.locks[key].vote.round < newRound then
      RoundChange(self, prev, integer, newRound, node.locks[key].vote.round, Some(node.locks[key].candidate.value.subject))
    else RoundChange(self, prev, integer, newRound, 0, None)
  }

  /** Acceptance of a single round-change vote for the next integer. */
  ghost predicate AcceptableChange(node: Node, c: RoundChange, net: set<Message>) {
    var vs := SetAfter(Tip(node.chain));
    var active := ActiveRound(node.changes, Target(node.chain), RequiredQuorum(|vs|));
    && c.integer == Target(node.chain) && c.prev == Tip(node.chain)
    && c.newRound >= (if active > 2 then active else 2) && c.newRound <= active + 1
    && c.validator in vs
    && (if c.lockedRound == 0 then c.locked.None? else c.lockedRound < c.newRound && c.locked.Some?)
    && ChangeMsg(c) in net
  }

  ghost function AcceptChange(node: Node, c: RoundChange, net: set<Message>, persisted: bool): (r: Import) {
    if !AcceptableChange(node, c, net) then Import(node.changes, false)
    else if ChangeKey(c) in node.changes then Import(node.changes, SameLock(node.changes[ChangeKey(c)], c))
    else if persisted then Import(node.changes[ChangeKey(c) := c], true)
    else Import(node.changes, false)
  }

  /** Once an integer is finalized its signed candidates and round changes are dropped; the
      locks stay. */
  function ClearSigned(node: Node, integer: nat): (r: Node) {
    node.(signed := map k | k in node.signed && k.0 != integer :: node.signed[k],
          changes := map k | k in node.changes && k.0 != integer :: node.changes[k])
  }

  ghost predicate NeedsPruning(file: seq<SignedRecord>, target: nat) {
    exists i :: 0 <= i < |file| && Expired(file[i].integer, target)
  }

  /** Restart of a validator: votes and locks come back from the file, `changes` from the
      round-change file. Expired records are pruned from the file, `file` being what was
      written then. The validator does not start with a vote beyond its active round. */
  ghost function Restarted(
    self: Address, node: Node, changes: Changes, file: Option<seq<SignedRecord>>, net: set<Message>): (r: Option<Node>)
  {
    var target := Target(node.chain);
    var loaded := LoadVotes(node.disk, self, target, net);
    if loaded.LoadError? || (NeedsPruning(node.disk, target) && file.None?) then None
    else if exists k :: k in loaded.signed
                        && k.1 > ActiveRound(changes, k.0, RequiredQuorum(|SetAfter(Tip(node.chain))|)) then None
    else Some(Node(node.chain, loaded.signed, loaded.locks, changes,
                   if NeedsPruning(node.disk, target) then file.value else node.disk))
  }
}
