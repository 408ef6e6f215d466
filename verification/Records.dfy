/**
 The record and transaction types of the protocol
 (include/primechain/protocol/records.hpp). Defaults are the values a freshly constructed
 record has.
 */
module Records {
  import opened Machine
  import opened Addresses

  type Byte = b: int | 0 <= b < 256
  type Bytes = seq<Byte>

  function Zeros(n: nat): (b: Bytes)
    ensures |b| == n
  {
    if n == 0 then [] else [0] + Zeros(n - 1)
  }

  const ZERO_HASH: Bytes := Zeros(32)

  type Hash256 = h: Bytes | |h| == 32 witness ZERO_HASH

  const NULL_HASH: Hash256 := ZERO_HASH

  // Record versions at which the format changes.
  const DIRECT_COMPOSITE: u64 := 9
  const COMPOSITE_LOTTERY: u64 := 10
  const SUBJECT_IDENTITY: u64 := 11
  const BINARY_MERKLE: u64 := 12
  const EPOCH_VOTE_ANCHOR: u64 := 14

  datatype Amount = Amount(numerator: u64, denominator: u64)

  datatype TxInput = TxInput(prime: u64, amount: Amount)
  datatype TxOutput = TxOutput(prime: u64, amount: Amount, receiver: Address)
  datatype FeeSpec = FeeSpec(prime: u64, amount: Amount)

  datatype Transaction = Transaction(
    version: u64,
    inputs: seq<TxInput>,
    outputs: seq<TxOutput>,
    fee: FeeSpec,
    nonce: u64,
    sender: Address,
    publicKey: Bytes,
    signature: Bytes)

  datatype TransactionBatch = TransactionBatch(count: u64, root: Hash256)

  datatype Division = Division(g: u64, d: u64, e: u64, provider: Address, signature: Bytes)

  datatype Factor = Factor(prime: u64, exponent: u64)

  datatype Pratt = Pratt(p: u64, base: u64, factors: seq<Factor>, provider: Address, signature: Bytes)

  /** A signed statement of one validator: epoch votes, policy votes, commit-phase votes. */
  datatype Ballot = Ballot(validator: Address, publicKey: Bytes, signature: Bytes)

  datatype FinalizationVote = FinalizationVote(
    validator: Address, publicKey: Bytes, target: Hash256, round: u64, signature: Bytes)

  datatype RoundChangeVote = RoundChangeVote(
    validator: Address,
    publicKey: Bytes,
    previous: Hash256,
    integer: u64,
    newRound: u64,
    lockedRound: u64,
    lockedKind: string,
    lockedHash: Hash256,
    lockedPayload: Bytes,
    signature: Bytes)

  datatype Finalization = Finalization(
    rule: string, roundChanges: seq<RoundChangeVote>, votes: seq<FinalizationVote>)

  datatype CommitEntry = CommitEntry(digest: Hash256, provider: Address, publicKey: Bytes, signature: Bytes)

  datatype CommitPhase = CommitPhase(
    integer: u64,
    snapshot: Hash256,
    validators: seq<Address>,
    commitments: seq<CommitEntry>,
    votes: seq<Ballot>)

  datatype Lottery = Lottery(
    round: u64, winBps: u64, subject: Hash256, drawn: Address, publicKey: Bytes, signature: Bytes)

  datatype GenesisConfig = GenesisConfig(validators: seq<Address>, message: string)

  datatype EpochTransition = EpochTransition(
    epoch: u64,
    anchorHash: Hash256,
    anchorInteger: u64,
    activation: u64,
    next: seq<Address>,
    votes: seq<Ballot>)

  datatype EndpointUpdate = EndpointUpdate(
    validator: Address,
    host: string,
    port: u64,
    effective: u64,
    sequence: u64,
    publicKey: Bytes,
    signature: Bytes)

  datatype Application = Application(
    candidate: Address,
    host: string,
    port: u64,
    integer: u64,
    sequence: u64,
    successful: u64,
    total: u64,
    publicKey: Bytes,
    signature: Bytes)

  datatype WorkBinding = WorkBinding(
    candidate: Address,
    miner: Address,
    integer: u64,
    sequence: u64,
    publicKey: Bytes,
    signature: Bytes)

  datatype PolicyUpdate = PolicyUpdate(
    fee: u64, reserve: u64, effective: u64, sequence: u64, votes: seq<Ballot>)

  /** The validator metadata both kinds of record carry. */
  datatype Metadata = Metadata(
    epoch: EpochTransition,
    endpoints: seq<EndpointUpdate>,
    policy: PolicyUpdate,
    applications: seq<Application>,
    bindings: seq<WorkBinding>)

  /** The fields both kinds of record have. */
  datatype Header = Header(version: u64, height: u64, previous: Hash256, integer: u64)

  datatype Body = Body(batch: TransactionBatch, transactions: seq<Transaction>, stateRoot: Hash256)

  datatype Record =
    | Composite(header: Header, division: Division, body: Body, commitPhase: CommitPhase,
                metadata: Metadata, lottery: Lottery, finalization: Finalization)
    | PrimeRecord(header: Header, pratt: Pratt, body: Body, genesis: GenesisConfig,
                  metadata: Metadata, finalization: Finalization)

  // ---------------------------------------------------------------- defaults

  const DEVELOPMENT_RULE := "fixed-2-of-3-dev"
  const SIGNED_RULE := "fixed-2-of-3-mldsa65-v2"
  const ROUNDS_RULE := "fixed-2-of-3-mldsa65-rounds-v3"
  const LOCKED_ROUNDS_RULE := "fixed-2-of-3-mldsa65-rounds-locks-v4"

  const NO_COMMIT_PHASE := CommitPhase(0, NULL_HASH, [], [], [])
  const NO_LOTTERY := Lottery(0, 0, NULL_HASH, "", [], [])
  const NO_GENESIS := GenesisConfig([], "")
  const NO_TRANSITION := EpochTransition(0, NULL_HASH, 0, 0, [], [])
  const NO_POLICY := PolicyUpdate(0, 0, 0, 0, [])
  const NO_FINALIZATION := Finalization(DEVELOPMENT_RULE, [], [])
}
