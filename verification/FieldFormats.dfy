/**
 The binary form of transactions and of the parts of a record (src/protocol/records.cpp).
 Each type is parsed as nested pairs of its fields in the order they are written.
 */
module FieldFormats {
  import opened Machine
  import opened Addresses
  import opened Records
  import opened Formats

  type AmountParts = (u64, u64)

  function AmountFormat(): (f: Format<Amount>)
    ensures Lawful(f)
  {
    Map(Pair(Word(), Word()),
        (p: AmountParts) => Amount(p.0, p.1),
        (x: Amount) => (x.numerator, x.denominator))
  }

  type InputParts = (u64, Amount)

  function InputFormat(): (f: Format<TxInput>)
    ensures Lawful(f)
  {
    Map(Pair(Word(), AmountFormat()),
        (p: InputParts) => TxInput(p.0, p.1),
        (x: TxInput) => (x.prime, x.amount))
  }

  type OutputParts = (u64, (Amount, Address))

  function OutputFormat(): (f: Format<TxOutput>)
    ensures Lawful(f)
  {
    Map(Pair(Word(), Pair(AmountFormat(), Text())),
        (p: OutputParts) => TxOutput(p.0, p.1.0, p.1.1),
        (x: TxOutput) => (x.prime, (x.amount, x.receiver)))
  }

  type FeeParts = (u64, Amount)

  function FeeFormat(): (f: Format<FeeSpec>)
    ensures Lawful(f)
  {
    Map(Pair(Word(), AmountFormat()),
        (p: FeeParts) => FeeSpec(p.0, p.1),
        (x: FeeSpec) => (x.prime, x.amount))
  }

  type TransactionParts = (u64, (seq<TxInput>, (seq<TxOutput>, (FeeSpec, (u64, (Address, (Bytes, Bytes)))))))

  function TransactionFormat(): (f: Format<Transaction>)
    ensures Lawful(f)
  {
    Map(Pair(Word(), Pair(ListOf(InputFormat(), 1024), Pair(ListOf(OutputFormat(), 1024),
             Pair(FeeFormat(), Pair(Word(), Pair(Text(), Pair(Blob(), Blob()))))))),
        (p: TransactionParts) =>
          Transaction(p.0, p.1.0, p.1.1.0, p.1.1.1.0, p.1.1.1.1.0, p.1.1.1.1.1.0, p.1.1.1.1.1.1.0, p.1.1.1.1.1.1.1),
        (x: Transaction) =>
          (x.version, (x.inputs, (x.outputs, (x.fee, (x.nonce, (x.sender, (x.publicKey, x.signature))))))))
  }

  type BatchParts = (u64, Hash256)

  function BatchFormat(): (f: Format<TransactionBatch>)
    ensures Lawful(f)
  {
    Map(Pair(Word(), Digest()),
        (p: BatchParts) => TransactionBatch(p.0, p.1),
        (x: TransactionBatch) => (x.count, x.root))
  }

  type BodyParts = (TransactionBatch, (seq<Transaction>, Hash256))

  function BodyFormat(): (f: Format<Body>)
    ensures Lawful(f)
  {
    Map(Pair(BatchFormat(), Pair(ListOf(Nested(TransactionFormat()), 10000), Digest())),
        (p: BodyParts) => Body(p.0, p.1.0, p.1.1),
        (x: Body) => (x.batch, (x.transactions, x.stateRoot)))
  }

  type DivisionParts = (u64, (u64, (u64, (Address, Bytes))))

  function DivisionFormat(): (f: Format<Division>)
    ensures Lawful(f)
  {
    Map(Pair(Word(), Pair(Word(), Pair(Word(), Pair(Text(), Blob())))),
        (p: DivisionParts) => Division(p.0, p.1.0, p.1.1.0, p.1.1.1.0, p.1.1.1.1),
        (x: Division) => (x.g, (x.d, (x.e, (x.provider, x.signature)))))
  }

  type FactorParts = (u64, u64)

  function FactorFormat(): (f: Format<Factor>)
    ensures Lawful(f)
  {
    Map(Pair(Word(), Word()),
        (p: FactorParts) => Factor(p.0, p.1),
        (x: Factor) => (x.prime, x.exponent))
  }

  type PrattParts = (u64, (u64, (seq<Factor>, (Address, Bytes))))

  function PrattFormat(): (f: Format<Pratt>)
    ensures Lawful(f)
  {
    Map(Pair(Word(), Pair(Word(), Pair(ListOf(FactorFormat(), 1024), Pair(Text(), Blob())))),
        (p: PrattParts) => Pratt(p.0, p.1.0, p.1.1.0, p.1.1.1.0, p.1.1.1.1),
        (x: Pratt) => (x.p, (x.base, (x.factors, (x.provider, x.signature)))))
  }

  type BallotParts = (Address, (Bytes, Bytes))

  function BallotFormat(): (f: Format<Ballot>)
    ensures Lawful(f)
  {
    Map(Pair(Text(), Pair(Blob(), Blob())),
        (p: BallotParts) => Ballot(p.0, p.1.0, p.1.1),
        (x: Ballot) => (x.validator, (x.publicKey, x.signature)))
  }

  type VoteParts = (Address, (Bytes, (Hash256, (u64, Bytes))))

  function VoteFormat(): (f: Format<FinalizationVote>)
    ensures Lawful(f)
  {
    Map(Pair(Text(), Pair(Blob(), Pair(Digest(), Pair(Word(), Blob())))),
        (p: VoteParts) => FinalizationVote(p.0, p.1.0, p.1.1.0, p.1.1.1.0, p.1.1.1.1),
        (x: FinalizationVote) => (x.validator, (x.publicKey, (x.target, (x.round, x.signature)))))
  }

  type CommitEntryParts = (Hash256, (Address, (Bytes, Bytes)))

  function CommitEntryFormat(): (f: Format<CommitEntry>)
    ensures Lawful(f)
  {
    Map(Pair(Digest(), Pair(Text(), Pair(Blob(), Blob()))),
        (p: CommitEntryParts) => CommitEntry(p.0, p.1.0, p.1.1.0, p.1.1.1),
        (x: CommitEntry) => (x.digest, (x.provider, (x.publicKey, x.signature))))
  }

  type CommitPhaseParts = (u64, (Hash256, (seq<Address>, (seq<CommitEntry>, seq<Ballot>))))

  function CommitPhaseFormat(): (f: Format<CommitPhase>)
    ensures Lawful(f)
  {
    Map(Pair(Word(), Pair(Digest(), Pair(ListOf(Text(), 16), Pair(ListOf(CommitEntryFormat(), 1024), ListOf(BallotFormat(), 16))))),
        (p: CommitPhaseParts) => CommitPhase(p.0, p.1.0, p.1.1.0, p.1.1.1.0, p.1.1.1.1),
        (x: CommitPhase) => (x.integer, (x.snapshot, (x.validators, (x.commitments, x.votes)))))
  }

  type LotteryParts = (u64, (u64, (Hash256, (Address, (Bytes, Bytes)))))

  function LotteryFormat(): (f: Format<Lottery>)
    ensures Lawful(f)
  {
    Map(Pair(Word(), Pair(Word(), Pair(Digest(), Pair(Text(), Pair(Blob(), Blob()))))),
        (p: LotteryParts) => Lottery(p.0, p.1.0, p.1.1.0, p.1.1.1.0, p.1.1.1.1.0, p.1.1.1.1.1),
        (x: Lottery) => (x.round, (x.winBps, (x.subject, (x.drawn, (x.publicKey, x.signature))))))
  }

  type EndpointParts = (Address, (string, (u64, (u64, (u64, (Bytes, Bytes))))))

  function EndpointFormat(): (f: Format<EndpointUpdate>)
    ensures Lawful(f)
  {
    Map(Pair(Text(), Pair(Text(), Pair(Word(), Pair(Word(), Pair(Word(), Pair(Blob(), Blob())))))),
        (p: EndpointParts) => EndpointUpdate(p.0, p.1.0, p.1.1.0, p.1.1.1.0, p.1.1.1.1.0, p.1.1.1.1.1.0, p.1.1.1.1.1.1),
        (x: EndpointUpdate) => (x.validator, (x.host, (x.port, (x.effective, (x.sequence, (x.publicKey, x.signature)))))))
  }

  type ApplicationParts = (Address, (string, (u64, (u64, (u64, (u64, (u64, (Bytes, Bytes))))))))

  function ApplicationFormat(): (f: Format<Application>)
    ensures Lawful(f)
  {
    Map(Pair(Text(), Pair(Text(), Pair(Word(), Pair(Word(), Pair(Word(), Pair(Word(), Pair(Word(), Pair(Blob(), Blob())))))))),
        (p: ApplicationParts) => Application(p.0, p.1.0, p.1.1.0, p.1.1.1.0, p.1.1.1.1.0, p.1.1.1.1.1.0, p.1.1.1.1.1.1.0, p.1.1.1.1.1.1.1.0, p.1.1.1.1.1.1.1.1),
        (x: Application) => (x.candidate, (x.host, (x.port, (x.integer, (x.sequence, (x.successful, (x.total, (x.publicKey, x.signature)))))))))
  }

  type BindingParts = (Address, (Address, (u64, (u64, (Bytes, Bytes)))))

  function BindingFormat(): (f: Format<WorkBinding>)
    ensures Lawful(f)
  {
    Map(Pair(Text(), Pair(Text(), Pair(Word(), Pair(Word(), Pair(Blob(), Blob()))))),
        (p: BindingParts) => WorkBinding(p.0, p.1.0, p.1.1.0, p.1.1.1.0, p.1.1.1.1.0, p.1.1.1.1.1),
        (x: WorkBinding) => (x.candidate, (x.miner, (x.integer, (x.sequence, (x.publicKey, x.signature))))))
  }

  // ---------------------------------------------------------------- versioned parts

  type RoundChangeParts =
    (Address, (Bytes, (Hash256, (u64, (u64, (u64, (string, (Hash256, (Bytes, Bytes)))))))))

  /** A round-change vote; without locks the lock fields are not written. */
  function RoundChangeFormat(locks: bool): (f: Format<RoundChangeVote>)
    ensures Lawful(f)
  {
    Map(Pair(Text(), Pair(Blob(), Pair(Digest(), Pair(Word(), Pair(Word(),
             Pair(When(locks, Word(), 0), Pair(When(locks, Text(), ""), Pair(When<Hash256>(locks, Digest(), NULL_HASH),
             Pair(When(locks, Blob(), []), Blob()))))))))),
        (p: RoundChangeParts) =>
          RoundChangeVote(p.0, p.1.0, p.1.1.0, p.1.1.1.0, p.1.1.1.1.0, p.1.1.1.1.1.0, p.1.1.1.1.1.1.0,
                          p.1.1.1.1.1.1.1.0, p.1.1.1.1.1.1.1.1.0, p.1.1.1.1.1.1.1.1.1),
        (x: RoundChangeVote) =>
          (x.validator, (x.publicKey, (x.previous, (x.integer, (x.newRound, (x.lockedRound, (x.lockedKind,
            (x.lockedHash, (x.lockedPayload, x.signature))))))))))
  }

  predicate CarriesRoundChanges(rule: string) {
    rule == ROUNDS_RULE || rule == LOCKED_ROUNDS_RULE
  }

  function CertificateFormat(rule: string): (f: Format<Certificate>)
    ensures Lawful(f)
  {
    Pair(When(CarriesRoundChanges(rule), ListOf(RoundChangeFormat(rule == LOCKED_ROUNDS_RULE), 16), []),
         ListOf(VoteFormat(), 16))
  }

  type Certificate = (seq<RoundChangeVote>, seq<FinalizationVote>)

  /** The rule, then the certificate in the form the rule asks for. */
  function FinalizationOf(certificate: string -> Format<Certificate>): (f: Format<Finalization>)
    requires forall rule: string :: Lawful(certificate(rule))
    ensures Lawful(f)
  {
    Map(Then(Text(), certificate),
        (p: (string, Certificate)) => Finalization(p.0, p.1.0, p.1.1),
        (x: Finalization) => (x.rule, (x.roundChanges, x.votes)))
  }

  function FinalizationFormat(): (f: Format<Finalization>)
    ensures Lawful(f)
  {
    FinalizationOf(CertificateFormat)
  }

  type GenesisParts = (seq<Address>, string)

  function GenesisFormat(version: u64): (f: Format<GenesisConfig>)
    ensures Lawful(f)
  {
    Map(Pair(ListOf(Text(), 16), When(version >= SUBJECT_IDENTITY, Text(), "")),
        (p: GenesisParts) => GenesisConfig(p.0, p.1),
        (x: GenesisConfig) => (x.validators, x.message))
  }

  type TransitionParts = (u64, (Hash256, (u64, (u64, (seq<Address>, seq<Ballot>)))))

  function TransitionFormat(version: u64): (f: Format<EpochTransition>)
    ensures Lawful(f)
  {
    var anchored := version >= EPOCH_VOTE_ANCHOR;
    Map(Pair(Word(), Pair(When<Hash256>(anchored, Digest(), NULL_HASH), Pair(When(anchored, Word(), 0),
             Pair(Word(), Pair(ListOf(Text(), 16), ListOf(BallotFormat(), 16)))))),
        (p: TransitionParts) => EpochTransition(p.0, p.1.0, p.1.1.0, p.1.1.1.0, p.1.1.1.1.0, p.1.1.1.1.1),
        (x: EpochTransition) => (x.epoch, (x.anchorHash, (x.anchorInteger, (x.activation, (x.next, x.votes))))))
  }

  type PolicyParts = (u64, (u64, (u64, (u64, seq<Ballot>))))

  function PolicyFormat(version: u64): (f: Format<PolicyUpdate>)
    ensures Lawful(f)
  {
    Map(Pair(Word(), Pair(When(version >= 7, Word(), 0), Pair(Word(), Pair(Word(), ListOf(BallotFormat(), 64))))),
        (p: PolicyParts) => PolicyUpdate(p.0, p.1.0, p.1.1.0, p.1.1.1.0, p.1.1.1.1),
        (x: PolicyUpdate) => (x.fee, (x.reserve, (x.effective, (x.sequence, x.votes)))))
  }

  /** The formats of the parts of a record. */
  datatype PartFormats = PartFormats(
    transaction: Format<Transaction>,
    division: Format<Division>,
    pratt: Format<Pratt>,
    body: Format<Body>,
    commitPhase: Format<CommitPhase>,
    lottery: Format<Lottery>,
    finalization: Format<Finalization>)

  /** The formats of the validator metadata; some depend on the record version. */
  datatype MetadataFormats = MetadataFormats(
    genesis: u64 -> Format<GenesisConfig>,
    transition: u64 -> Format<EpochTransition>,
    endpoints: Format<seq<EndpointUpdate>>,
    policy: u64 -> Format<PolicyUpdate>,
    applications: Format<seq<Application>>,
    bindings: Format<seq<WorkBinding>>)

  datatype Schema = Schema(parts: PartFormats, metadata: MetadataFormats)

  ghost predicate LawfulParts(p: PartFormats) {
    && Lawful(p.transaction) && Lawful(p.division) && Lawful(p.pratt) && Lawful(p.body) && Lawful(p.commitPhase)
    && Lawful(p.lottery) && Lawful(p.finalization)
  }

  ghost predicate LawfulMetadata(m: MetadataFormats) {
    && Lawful(m.endpoints) && Lawful(m.applications) && Lawful(m.bindings)
    && (forall v: u64 :: Lawful(m.genesis(v)) && Lawful(m.transition(v)) && Lawful(m.policy(v)))
  }

  ghost predicate LawfulSchema(sc: Schema) {
    LawfulParts(sc.parts) && LawfulMetadata(sc.metadata)
  }

  /** The formats of the protocol, with its decode limits. */
  function WireParts(): (p: PartFormats)
    ensures LawfulParts(p)
  {
    PartFormats(TransactionFormat(), DivisionFormat(), PrattFormat(), BodyFormat(), CommitPhaseFormat(), LotteryFormat(),
                FinalizationFormat())
  }

  function EndpointList(): (f: Format<seq<EndpointUpdate>>)
    ensures Lawful(f)
  {
    ListOf(EndpointFormat(), 64)
  }

  function ApplicationList(): (f: Format<seq<Application>>)
    ensures Lawful(f)
  {
    ListOf(ApplicationFormat(), 64)
  }

  function BindingList(): (f: Format<seq<WorkBinding>>)
    ensures Lawful(f)
  {
    ListOf(BindingFormat(), 64)
  }

  function WireMetadata(): (m: MetadataFormats)
    ensures LawfulMetadata(m)
  {
    MetadataFormats(GenesisFormat, TransitionFormat, EndpointList(), PolicyFormat, ApplicationList(), BindingList())
  }

  function Wire(): (sc: Schema)
    ensures LawfulSchema(sc)
  {
    Schema(WireParts(), WireMetadata())
  }

  lemma EmptyListValid<T(!new)>(f: Format<T>, limit: nat)
    requires Lawful(f) && limit < TWO_64
    ensures ListOf(f, limit).valid([])
  {
  }

  lemma AbsentLotteryValid()
    ensures LotteryFormat().valid(NO_LOTTERY)
  {
    assert CharBytes("") == [] && Chars([]) == "";
    assert Text().valid("");
  }

  lemma EmptyEndpointsValid()
    ensures EndpointList().valid([])
  {
    hide EndpointFormat, ListOf, Lawful;
    EmptyListValid(EndpointFormat(), 64);
  }

  /** The protocol's formats admit the empty endpoint list and the absent lottery proof. */
  lemma WireAdmitsAbsent(sc: Schema)
    requires sc == Wire()
    ensures sc.metadata.endpoints.valid([]) && sc.parts.lottery.valid(NO_LOTTERY)
  {
    hide DivisionFormat, PrattFormat, BodyFormat, CommitPhaseFormat, FinalizationFormat, LotteryFormat, TransactionFormat,
      EndpointList, ApplicationList, BindingList, Lawful;
    EmptyEndpointsValid();
    AbsentLotteryValid();
  }
}
