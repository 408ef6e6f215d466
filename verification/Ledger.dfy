/**
 The replayed state of a node (src/node/sequential_node.cpp): which records extend it and
 what they change. Signature checks and hashes come from a verifier.
 */
module Ledger {
  import opened Machine
  import opened Addresses
  import opened Quorum
  import opened ProtocolAddresses
  import opened Records
  import opened Money
  import opened Transactions
  import opened Formats
  import opened FieldFormats
  import opened RecordForm
  import opened SubjectIdentity
  import opened WrittenForm
  import opened BatchRoots
  import Factorization
  import NumberTheory

  /** The formats and the hash, and the checks that rest on signatures or on parts the ledger
      does not interpret. Each check sees what the source passes to it. */
  datatype Verifier = Verifier(
    schema: Schema,
    hash: Bytes -> Hash256,
    signatures: Signatures,
    divisionSigned: Division -> bool,
    prattSigned: (Pratt, Hash256) -> bool,
    commitPhase: (u64, CommitPhase, Division) -> bool,
    lottery: (Header, Lottery, Hash256, seq<Address>) -> bool,
    certificate: (Finalization, Hash256, Hash256, u64, seq<Address>) -> bool,
    developmentVotes: (seq<FinalizationVote>, Hash256) -> bool,
    legacyFinalization: (Record, seq<Address>) -> bool,
    epochBallot: (Hash256, u64, u64, u64, seq<Address>, Ballot) -> bool,
    policyBallot: (PolicyUpdate, Hash256, u64, Ballot) -> bool,
    endpoints: (seq<EndpointUpdate>, seq<Address>, Hash256, u64) -> bool,
    applications: (seq<Application>, Hash256, u64) -> bool,
    bindings: (seq<WorkBinding>, Hash256, u64) -> bool)

  datatype State = State(
    started: bool,
    height: nat,
    frontier: nat,
    tip: Hash256,
    accounts: Accounts,
    pending: seq<Address>,
    validators: seq<Address>,
    epochs: map<nat, seq<Address>>,
    epoch: nat,
    fee: nat,
    reserve: nat,
    feeParticipants: seq<Address>,
    rewardParticipants: seq<Address>)

  const DEFAULT_FEE := 1
  const DEFAULT_RESERVE := 5_000_000

  /** A node before genesis. */
  const EMPTY := State(false, 0, 0, NULL_HASH, Accounts(Money(map[], map[]), map[]), [], [], map[], 0,
                       DEFAULT_FEE, DEFAULT_RESERVE, [], [])

  function SubjectHash(v: Verifier, r: Record): Hash256 {
    v.hash(SubjectBytes(v.schema, r))
  }

  /** The stored identity of a record: from version 11 on it covers the subject only. */
  function RecordHash(v: Verifier, r: Record): Hash256 {
    if r.header.version >= SUBJECT_IDENTITY then SubjectHash(v, r) else v.hash(Serialize(v.schema, r, true))
  }

  function WithoutVotes(r: Record): Record {
    var f := Finalization(r.finalization.rule, r.finalization.roundChanges, []);
    if r.Composite? then Composite(r.header, r.division, r.body, r.commitPhase, r.metadata, r.lottery, f)
    else PrimeRecord(r.header, r.pratt, r.body, r.genesis, r.metadata, f)
  }

  /** What the votes of the certificate are for. */
  function TargetHash(v: Verifier, r: Record): Hash256 {
    if r.header.version >= SUBJECT_IDENTITY then SubjectHash(v, r)
    else if r.finalization.rule == LOCKED_ROUNDS_RULE then v.hash(Serialize(v.schema, r, false))
    else v.hash(Serialize(v.schema, WithoutVotes(r), true))
  }

  // ---------------------------------------------------------------- metadata checks

  predicate HasTransition(t: EpochTransition) {
    t.epoch != 0 || t.activation != 0 || t.next != [] || t.votes != []
  }

  predicate HasPolicy(p: PolicyUpdate) {
    p != NO_POLICY
  }

  predicate VersionOk(version: u64, m: Metadata) {
    && (HasTransition(m.epoch) ==> version >= 2) && (version == 2 ==> HasTransition(m.epoch))
    && (m.endpoints != [] ==> version >= 3) && (version == 3 ==> m.endpoints != [])
    && (HasPolicy(m.policy) ==> version >= 4) && (version == 4 || version == 7 ==> HasPolicy(m.policy))
    && (m.policy.reserve != 0 ==> version >= 7) && (version == 7 ==> m.policy.reserve != 0)
    && (m.applications != [] ==> version >= 5) && (version == 5 ==> m.applications != [])
    && (m.bindings != [] ==> version >= 6) && (version == 6 ==> m.bindings != [])
  }

  predicate QuorumOf(votes: seq<Ballot>, validators: seq<Address>) {
    && RequiredQuorum(|validators|) <= |votes| <= |validators|
    && (forall i :: 0 < i < |votes| ==> Less(votes[i - 1].validator, votes[i].validator))
    && (forall i :: 0 <= i < |votes| ==> votes[i].validator in validators)
  }

  /** The votes on the transition, each signed for this predecessor and integer. */
  predicate BallotsSigned(v: Verifier, t: EpochTransition, previous: Hash256, integer: u64) {
    forall i :: 0 <= i < |t.votes| ==> v.epochBallot(previous, integer, t.epoch, t.activation, t.next, t.votes[i])
  }

  predicate TransitionOk(v: Verifier, t: EpochTransition, validators: seq<Address>, epoch: nat, previous: Hash256, integer: u64) {
    t == NO_TRANSITION ||
    (var anchored := t.anchorInteger != 0 || t.anchorHash != NULL_HASH;
     var anchorHash: Hash256 := if anchored then t.anchorHash else previous;
     && CanonicalSet(validators) && t.epoch == epoch + 1
     && (anchored ==> t.anchorInteger == integer)
     && t.activation == integer + 1 && CanonicalSet(t.next)
     && QuorumOf(t.votes, validators)
     && BallotsSigned(v, t, anchorHash, integer))
  }

  predicate PolicyOk(v: Verifier, p: PolicyUpdate, validators: seq<Address>, previous: Hash256, integer: u64) {
    p == NO_POLICY ||
    (&& CanonicalSet(validators) && p.fee != 0 && p.reserve != 0 && p.effective == integer + 1
     && QuorumOf(p.votes, validators)
     && forall i :: 0 <= i < |p.votes| ==> v.policyBallot(p, previous, integer, p.votes[i]))
  }

  predicate MetadataOk(v: Verifier, s: State, r: Record) {
    var h, m := r.header, r.metadata;
    && VersionOk(h.version, m)
    && TransitionOk(v, m.epoch, s.validators, s.epoch, h.previous, h.integer)
    && v.endpoints(m.endpoints, s.validators, h.previous, h.integer)
    && PolicyOk(v, m.policy, s.validators, h.previous, h.integer)
    && v.applications(m.applications, h.previous, h.integer)
    && v.bindings(m.bindings, h.previous, h.integer)
  }

  // ---------------------------------------------------------------- proof checks

  function TransactionDigester(v: Verifier): Digester {
    Digester(v.schema.parts.transaction.render, v.hash)
  }

  predicate BatchOk(v: Verifier, r: Record) {
    && r.body.batch.count == |r.body.transactions|
    && r.body.batch.root == BatchRoot(TransactionDigester(v), r.body.transactions, r.header.version)
  }

  predicate DivisionOk(v: Verifier, r: Record)
    requires r.Composite?
  {
    var d := r.division;
    && d.g == r.header.integer && IsProtocolAddress(d.provider)
    && NumberTheory.VerifyCompositeProof(NumberTheory.CompositeProof(d.g, d.d, d.e))
    && (IsDevelopmentAddress(d.provider) || (IsSignatureAddress(d.provider) && v.divisionSigned(d)))
  }

  /** Commit-phase certificates belong to versions 1 to 8. */
  predicate CommitPhaseOk(v: Verifier, r: Record)
    requires r.Composite?
  {
    1 <= r.header.version < DIRECT_COMPOSITE ==>
      CanonicalSet(r.commitPhase.validators) && v.commitPhase(r.header.integer, r.commitPhase, r.division)
  }

  /** Lottery evidence belongs to versions 10 and later. */
  predicate LotteryOk(v: Verifier, r: Record, validators: seq<Address>)
    requires r.Composite?
  {
    r.header.version >= COMPOSITE_LOTTERY ==> v.lottery(r.header, r.lottery, SubjectHash(v, r), validators)
  }

  predicate CertificateSetOk(s: State, r: Record)
    requires r.Composite?
  {
    if s.validators == [] then r.header.version == 0
    else r.header.version >= 1 && (r.header.version <= 8 ==> r.commitPhase.validators == s.validators)
  }

  function PrattProofOf(p: Pratt): NumberTheory.PrattProof {
    NumberTheory.PrattProof(
      p.p, p.base,
      seq(|p.factors|, i requires 0 <= i < |p.factors| =>
        Factorization.PrimePower(p.factors[i].prime, p.factors[i].exponent)))
  }

  predicate PrattSignatureOk(v: Verifier, p: Pratt, previous: Hash256, development: bool) {
    || (development && p.signature == [] && IsProtocolAddress(p.provider))
    || (IsSignatureAddress(p.provider) && v.prattSigned(p, previous))
  }

  ghost predicate PrattOk(r: Record)
    requires r.PrimeRecord?
  {
    r.pratt.p == r.header.integer && IsProtocolAddress(r.pratt.provider) && NumberTheory.PrattAccepts(PrattProofOf(r.pratt))
  }

  predicate GenesisOk(r: Record)
    requires r.PrimeRecord?
  {
    if r.header.height != 0 || r.header.version == 0 then r.genesis.validators == []
    else
      && (r.header.version == 1 || r.header.version >= SUBJECT_IDENTITY)
      && (r.header.version == 1 ==> r.genesis.message == "")
      && (r.header.version >= SUBJECT_IDENTITY ==> r.genesis.message != "")
      && CanonicalSet(r.genesis.validators)
  }

  // ---------------------------------------------------------------- certificates

  predicate DistinctDevelopers(votes: seq<FinalizationVote>) {
    && (forall i :: 0 <= i < |votes| ==> IsDevelopmentAddress(votes[i].validator))
    && (forall i, j :: 0 <= i < j < |votes| ==> votes[i].validator != votes[j].validator)
  }

  predicate QuorumVotes(votes: seq<FinalizationVote>, validators: seq<Address>) {
    && RequiredQuorum(|validators|) <= |votes| <= |validators|
    && (forall i :: 0 < i < |votes| ==> Less(votes[i - 1].validator, votes[i].validator))
    && (forall i :: 0 <= i < |votes| ==> votes[i].validator in validators)
  }

  /** Round changes only under a rule that carries them, locks only under the last one. */
  predicate ChangesCarried(f: Finalization) {
    && (f.roundChanges != [] ==> CarriesRoundChanges(f.rule))
    && (f.rule == ROUNDS_RULE ==> f.roundChanges == WithoutLocks(f.roundChanges))
  }

  /** verifyRecordFinalization: on a chain without validators two or three development votes,
      otherwise a quorum of the set in force. Rounds, targets and signatures are for the
      verifier. */
  predicate CertificateOk(
    v: Verifier, f: Finalization, target: Hash256, previous: Hash256, integer: u64, validators: seq<Address>)
  {
    if validators == [] then
      && f.rule == DEVELOPMENT_RULE && 2 <= |f.votes| <= 3
      && DistinctDevelopers(f.votes) && v.developmentVotes(f.votes, target)
    else
      && (f.rule == SIGNED_RULE || CarriesRoundChanges(f.rule)) && ChangesCarried(f)
      && CanonicalSet(validators) && QuorumVotes(f.votes, validators)
      && v.certificate(f, target, previous, integer, validators)
  }

  predicate FinalizationOk(v: Verifier, r: Record, validators: seq<Address>) {
    CertificateOk(v, r.finalization, TargetHash(v, r), r.header.previous, r.header.integer, validators)
  }

  // ---------------------------------------------------------------- minting

  const ASSET := 1_000_000
  const PRIME_REWARD := 450_000
  const COMPOSITE_REWARD := 450_000
  const VALIDATOR_REWARD := 100_000

  function CreditEach(m: Money, owners: seq<Address>, p: nat, amount: nat): Option<Money> {
    if owners == [] then Some(m)
    else
      var before := CreditEach(m, owners[..|owners| - 1], p, amount);
      if before.None? then None else Credit(before.value, Asset(owners[|owners| - 1], p), amount)
  }

  /** A total for the finder and the composite providers: the finder's part, the remainder of
      the division, and equal parts for the providers. */
  function Reward(m: Money, finder: Address, pending: seq<Address>, p: nat, finderPart: nat, compositePart: nat): Option<Money> {
    if pending == [] then Credit(m, Asset(finder, p), finderPart + compositePart)
    else
      var found := Credit(m, Asset(finder, p), finderPart + compositePart % |pending|);
      if found.None? then None else CreditEach(found.value, pending, p, compositePart / |pending|)
  }

  /** A new prime asset: refused when it exists, and unless exactly one asset was created. */
  function Mint(s: State, m: Money, finder: Address, height: nat, p: nat): (r: Option<Money>) {
    if SupplyOf(m.supply, p) != 0 then None
    else
      var minted :=
        if s.validators == [] || height == 0 then Reward(m, finder, s.pending, p, ASSET / 2, ASSET / 2)
        else
          var pool := Credit(m, Asset(RewardPoolAddress(s.epoch), p), VALIDATOR_REWARD);
          if pool.None? then None else Reward(pool.value, finder, s.pending, p, PRIME_REWARD, COMPOSITE_REWARD);
      if minted.Some? && SupplyOf(minted.value.supply, p) == ASSET then minted else None
  }

  // ---------------------------------------------------------------- participants

  /** Insertion into a sorted list without duplicates. */
  function AddSorted(names: seq<Address>, a: Address): seq<Address> {
    if names == [] then [a]
    else if Less(a, names[0]) then [a] + names
    else if a == names[0] then names
    else [names[0]] + AddSorted(names[1..], a)
  }

  function AddSigners(names: seq<Address>, signers: seq<Address>): seq<Address>
    decreases |signers|
  {
    if signers == [] then names
    else
      var a := signers[0];
      AddSigners(if IsSignatureAddress(a) then AddSorted(names, a) else names, signers[1..])
  }

  function BallotNames(votes: seq<Ballot>): seq<Address> {
    seq(|votes|, i requires 0 <= i < |votes| => votes[i].validator)
  }

  function VoteNames(votes: seq<FinalizationVote>): seq<Address> {
    seq(|votes|, i requires 0 <= i < |votes| => votes[i].validator)
  }

  function ChangeNames(changes: seq<RoundChangeVote>): seq<Address> {
    seq(|changes|, i requires 0 <= i < |changes| => changes[i].validator)
  }

  /** Validators a record shows at work, in the order they are noted. */
  function Signers(r: Record): seq<Address> {
    var f := r.finalization;
    (if r.Composite? then BallotNames(r.commitPhase.votes) else [])
    + VoteNames(f.votes) + ChangeNames(f.roundChanges)
  }

  predicate DistributesFees(s: State, r: Record) {
    exists i :: 0 <= i < |r.body.transactions| && IsFeeDistribution(r.body.transactions[i], TxContext(s, r.header.integer))
  }

  predicate DistributesRewards(r: Record) {
    exists i :: 0 <= i < |r.body.transactions| && IsRewardDistribution(r.body.transactions[i])
  }

  /** A distribution or a new epoch empties the list, otherwise the signers are added. */
  function Noted(names: seq<Address>, reset: bool, r: Record): seq<Address> {
    if reset then [] else AddSigners(names, Signers(r))
  }

  // ---------------------------------------------------------------- effects

  function TxContext(s: State, integer: nat): Context {
    Context(s.validators, s.epochs, s.epoch, s.fee, integer)
  }

  /** Transactions, then the provider or the new asset. */
  function Execute(v: Verifier, s: State, r: Record): (x: Option<State>) {
    var accounts := ApplyTransactions(v.signatures, TxContext(s, r.header.integer), s.accounts, r.body.transactions,
                                      FeePoolAddress(s.epoch));
    if accounts.None? then None
    else if r.Composite? then Some(s.(accounts := accounts.value, pending := s.pending + [r.division.provider]))
    else
      var money := Mint(s, accounts.value.money, r.pratt.provider, r.header.height, r.header.integer);
      if money.None? then None
      else Some(s.(accounts := accounts.value.(money := money.value), pending := []))
  }

  /** The record becomes the tip and its signers are noted. `before` is the state the record
      was executed in. */
  function MoveTip(v: Verifier, before: State, s: State, r: Record): State {
    var renewed := HasTransition(r.metadata.epoch);
    s.(started := true, height := r.header.height, frontier := r.header.integer, tip := RecordHash(v, r),
       feeParticipants := Noted(s.feeParticipants, DistributesFees(before, r) || renewed, r),
       rewardParticipants := Noted(s.rewardParticipants, DistributesRewards(r) || renewed, r))
  }

  /** Validator set and policy change with the record. */
  function Enact(s: State, t: EpochTransition, p: PolicyUpdate): State {
    var elected := if HasTransition(t) then s.(epochs := s.epochs[t.epoch := t.next], validators := t.next, epoch := t.epoch)
                   else s;
    if HasPolicy(p) then elected.(fee := p.fee, reserve := p.reserve) else elected
  }

  function Advance(v: Verifier, before: State, s: State, r: Record): State {
    Enact(MoveTip(v, before, s, r), r.metadata.epoch, r.metadata.policy)
  }

  /** The last check of a policy update, made when it is applied. */
  predicate PolicyApplies(p: PolicyUpdate, integer: u64) {
    HasPolicy(p) ==> p.fee != 0 && p.reserve != 0 && p.effective == integer + 1
  }

  // ---------------------------------------------------------------- append

  predicate Follows(s: State, r: Record) {
    s.started && r.header.height == s.height + 1 && r.header.integer == s.frontier + 1 && r.header.previous == s.tip
  }

  /** The candidate checks before the ledger is tried. */
  ghost predicate CandidateOk(v: Verifier, s: State, r: Record) {
    && Follows(s, r) && BatchOk(v, r) && MetadataOk(v, s, r)
    && (if r.Composite? then
          DivisionOk(v, r) && CommitPhaseOk(v, r) && LotteryOk(v, r, s.validators) && CertificateSetOk(s, r)
        else
          && PrattOk(r) && PrattSignatureOk(v, r.pratt, r.header.previous, s.validators == [])
          && GenesisOk(r) && SupplyOf(s.accounts.money.supply, r.header.integer) == 0)
  }

  /** validateCompositeCandidate and validatePrimeCandidate. */
  ghost predicate ValidCandidate(v: Verifier, s: State, r: Record) {
    CandidateOk(v, s, r) && Execute(v, s, r).Some?
  }

  /** appendComposite and appendPrime, with a store that takes the record. */
  ghost function Append(v: Verifier, s: State, r: Record): (x: Option<State>) {
    if !ValidCandidate(v, s, r) || !FinalizationOk(v, r, s.validators) || !PolicyApplies(r.metadata.policy, r.header.integer)
    then None
    else Some(Advance(v, s, Execute(v, s, r).value, r))
  }

  // ---------------------------------------------------------------- replay

  predicate Expected(s: State, r: Record) {
    if s.started then Follows(s, r)
    else r.PrimeRecord? && r.header.height == 0 && r.header.integer == 2 && r.header.previous == NULL_HASH
  }

  /** The payload checks of a stored record. */
  ghost predicate PayloadOk(v: Verifier, s: State, r: Record) {
    && BatchOk(v, r)
    && (if r.Composite? then
          && DivisionOk(v, r) && CommitPhaseOk(v, r) && LotteryOk(v, r, s.validators)
          && (r.header.version == 1 ==> r.commitPhase.validators != [])
          && CertificateSetOk(s, r)
        else
          && PrattOk(r)
          && ((r.header.height == 0 && r.header.integer == 2)
              || PrattSignatureOk(v, r.pratt, r.header.previous, s.validators == []))
          && GenesisOk(r))
    && (FinalizationOk(v, r, s.validators) || v.legacyFinalization(r, s.validators))
  }

  /** The genesis record installs its validator set before anything else is checked. */
  function Install(s: State, r: Record): State {
    if r.PrimeRecord? && r.header.height == 0 then
      s.(validators := r.genesis.validators, epochs := s.epochs[0 := r.genesis.validators])
    else s
  }

  /** One stored record taken up by load. */
  ghost function Replay1(v: Verifier, s: State, r: Record): (x: Option<State>) {
    var installed := Install(s, r);
    if !Expected(s, r) || !PayloadOk(v, s, r) || !MetadataOk(v, installed, r) then None
    else
      var done := Execute(v, installed, r);
      if done.None? || !PolicyApplies(r.metadata.policy, r.header.integer) then None
      else Some(Advance(v, installed, done.value, r))
  }

  /** load, from the first record on. */
  ghost function Replay(v: Verifier, records: seq<Record>): (x: Option<State>) {
    if records == [] then Some(EMPTY)
    else
      var before := Replay(v, records[..|records| - 1]);
      if before.None? then None else Replay1(v, before.value, records[|records| - 1])
  }
}
