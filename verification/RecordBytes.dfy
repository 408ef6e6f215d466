/**
 The bytes of a record down to words, texts and byte strings, in the order the source appends
 them (src/protocol/records.cpp, the append functions and serializeTransaction). The formats
 render exactly these bytes.
 */
module RecordBytes {
  import opened Machine
  import opened Records
  import opened Formats
  import opened FieldFormats
  import opened FieldLayouts
  import opened RecordForm
  import opened WireFacts

  function U64(value: nat): Bytes {
    LittleEndian(value, 8)
  }

  // ---------------------------------------------------------------- lists

  function Items<T>(bytes: T -> Bytes, ts: seq<T>): Bytes {
    if ts == [] then [] else bytes(ts[0]) + Items(bytes, ts[1..])
  }

  /** A count, then every item. */
  function Listed<T>(bytes: T -> Bytes, ts: seq<T>): Bytes {
    U64(|ts|) + Items(bytes, ts)
  }

  /** A format renders these bytes. */
  ghost predicate Writes<T(!new)>(f: Format<T>, bytes: T -> Bytes) {
    forall t {:trigger f.render(t)} {:trigger bytes(t)} :: f.render(t) == bytes(t)
  }

  lemma {:induction false} ItemsPrinted<T(!new)>(f: Format<T>, bytes: T -> Bytes, ts: seq<T>)
    requires Writes(f, bytes)
    ensures PrintAll(f, ts) == Items(bytes, ts)
  {
    if ts != [] {
      ItemsPrinted(f, bytes, ts[1..]);
      assert f.render(ts[0]) == bytes(ts[0]);
    }
  }

  lemma ListPrinted<T(!new)>(f: Format<T>, bytes: T -> Bytes, ts: seq<T>)
    requires Writes(f, bytes)
    ensures ListBytes(f, ts) == Listed(bytes, ts)
  {
    ItemsPrinted(f, bytes, ts);
  }

  // ---------------------------------------------------------------- transactions

  function AmountBytes(x: Amount): Bytes {
    U64(x.numerator) + U64(x.denominator)
  }

  lemma AmountLayout(x: Amount)
    ensures AmountFormat().render(x) == LittleEndian(x.numerator, 8) + LittleEndian(x.denominator, 8)
  {
  }

  function InputBytes(x: TxInput): Bytes {
    U64(x.prime) + AmountBytes(x.amount)
  }

  lemma InputLayout(x: TxInput)
    ensures InputFormat().render(x)
      == LittleEndian(x.prime, 8) + (LittleEndian(x.amount.numerator, 8) + LittleEndian(x.amount.denominator, 8))
  {
    hide AmountFormat;
    AmountLayout(x.amount);
  }

  function OutputBytes(x: TxOutput): Bytes {
    U64(x.prime) + (AmountBytes(x.amount) + TextBytes(x.receiver))
  }

  lemma OutputLayout(x: TxOutput)
    ensures OutputFormat().render(x)
      == LittleEndian(x.prime, 8)
         + ((LittleEndian(x.amount.numerator, 8) + LittleEndian(x.amount.denominator, 8)) + TextBytes(x.receiver))
  {
    hide AmountFormat;
    AmountLayout(x.amount);
  }

  function FeeBytes(x: FeeSpec): Bytes {
    U64(x.prime) + AmountBytes(x.amount)
  }

  lemma FeeLayout(x: FeeSpec)
    ensures FeeFormat().render(x)
      == LittleEndian(x.prime, 8) + (LittleEndian(x.amount.numerator, 8) + LittleEndian(x.amount.denominator, 8))
  {
    hide AmountFormat;
    AmountLayout(x.amount);
  }

  lemma InputsWritten()
    ensures Writes(InputFormat(), InputBytes) && Writes(OutputFormat(), OutputBytes)
  {
    hide InputFormat, OutputFormat;
    forall x: TxInput
      ensures InputFormat().render(x) == InputBytes(x)
    {
      InputLayout(x);
    }
    forall x: TxOutput
      ensures OutputFormat().render(x) == OutputBytes(x)
    {
      OutputLayout(x);
    }
  }

  function TransactionBytes(x: Transaction): Bytes {
    U64(x.version) + (Listed(InputBytes, x.inputs) + (Listed(OutputBytes, x.outputs) + (FeeBytes(x.fee) + (U64(x.nonce)
      + (TextBytes(x.sender) + (BlobBytes(x.publicKey) + BlobBytes(x.signature)))))))
  }

  /** Version, inputs, outputs, fee, nonce, sender, key and signature. */
  lemma TransactionWritten(x: Transaction)
    ensures TransactionFormat().render(x) == TransactionBytes(x)
  {
    hide TransactionFormat, InputFormat, OutputFormat, FeeFormat, ListBytes, Listed, TextBytes, BlobBytes, LittleEndian;
    TransactionLayout(x);
    InputsWritten();
    ListPrinted(InputFormat(), InputBytes, x.inputs);
    ListPrinted(OutputFormat(), OutputBytes, x.outputs);
    FeeLayout(x.fee);
  }

  // ---------------------------------------------------------------- bodies

  /** A transaction with its length. */
  function NestedBytes(x: Transaction): Bytes {
    BlobBytes(TransactionBytes(x))
  }

  lemma NestedLayout<T(!new)>(f: Format<T>, t: T)
    requires Lawful(f)
    ensures Nested(f).render(t) == BlobBytes(f.render(t))
  {
  }

  function BodyBytes(x: Body): Bytes {
    (U64(x.batch.count) + x.batch.root) + (Listed(NestedBytes, x.transactions) + x.stateRoot)
  }

  lemma BodyWritten(x: Body)
    ensures BodyFormat().render(x) == BodyBytes(x)
  {
    hide BodyFormat, BatchFormat, TransactionFormat, Nested, ListBytes, Listed, TransactionBytes, LittleEndian, BlobBytes;
    BodyLayout(x);
    BatchLayout(x.batch);
    forall tx: Transaction
      ensures Nested(TransactionFormat()).render(tx) == NestedBytes(tx)
    {
      NestedLayout(TransactionFormat(), tx);
      TransactionWritten(tx);
    }
    ListPrinted(Nested(TransactionFormat()), NestedBytes, x.transactions);
  }

  // ---------------------------------------------------------------- proofs

  function DivisionBytes(x: Division): Bytes {
    U64(x.g) + (U64(x.d) + (U64(x.e) + (TextBytes(x.provider) + BlobBytes(x.signature))))
  }

  function FactorBytes(x: Factor): Bytes {
    U64(x.prime) + U64(x.exponent)
  }

  function PrattBytes(x: Pratt): Bytes {
    U64(x.p) + (U64(x.base) + (Listed(FactorBytes, x.factors) + (TextBytes(x.provider) + BlobBytes(x.signature))))
  }

  lemma PrattWritten(x: Pratt)
    ensures PrattFormat().render(x) == PrattBytes(x)
  {
    hide PrattFormat, FactorFormat, ListBytes, Listed, LittleEndian, TextBytes, BlobBytes;
    PrattLayout(x);
    forall f: Factor
      ensures FactorFormat().render(f) == FactorBytes(f)
    {
      FactorLayout(f);
    }
    ListPrinted(FactorFormat(), FactorBytes, x.factors);
  }

  // ---------------------------------------------------------------- certificates

  function BallotBytes(x: Ballot): Bytes {
    TextBytes(x.validator) + (BlobBytes(x.publicKey) + BlobBytes(x.signature))
  }

  function VoteBytes(x: FinalizationVote): Bytes {
    TextBytes(x.validator) + (BlobBytes(x.publicKey) + (x.target + (U64(x.round) + BlobBytes(x.signature))))
  }

  function RoundChangeBytes(x: RoundChangeVote): Bytes {
    TextBytes(x.validator) + (BlobBytes(x.publicKey) + (x.previous + (U64(x.integer) + (U64(x.newRound) + BlobBytes(x.signature)))))
  }

  /** With the lock between the round and the signature. */
  function LockedRoundChangeBytes(x: RoundChangeVote): Bytes {
    TextBytes(x.validator) + (BlobBytes(x.publicKey) + (x.previous + (U64(x.integer) + (U64(x.newRound) + (U64(x.lockedRound)
      + (TextBytes(x.lockedKind) + (x.lockedHash + (BlobBytes(x.lockedPayload) + BlobBytes(x.signature)))))))))
  }

  function ChangesBytes(rule: string, cs: seq<RoundChangeVote>): Bytes {
    if rule == "fixed-2-of-3-mldsa65-rounds-v3" then Listed(RoundChangeBytes, cs)
    else if rule == "fixed-2-of-3-mldsa65-rounds-locks-v4" then Listed(LockedRoundChangeBytes, cs)
    else []
  }

  function FinalizationBytes(x: Finalization): Bytes {
    TextBytes(x.rule) + (ChangesBytes(x.rule, x.roundChanges) + Listed(VoteBytes, x.votes))
  }

  lemma BallotsWritten()
    ensures Writes(BallotFormat(), BallotBytes)
  {
    hide BallotFormat;
    forall x: Ballot
      ensures BallotFormat().render(x) == BallotBytes(x)
    {
      BallotLayout(x);
    }
  }

  lemma VotesWritten()
    ensures Writes(VoteFormat(), VoteBytes)
  {
    hide VoteFormat;
    forall x: FinalizationVote
      ensures VoteFormat().render(x) == VoteBytes(x)
    {
      VoteLayout(x);
    }
  }

  lemma RoundChangeWritten(x: RoundChangeVote)
    ensures RoundChangeFormat(false).render(x) == RoundChangeBytes(x)
    ensures RoundChangeFormat(true).render(x) == LockedRoundChangeBytes(x)
  {
    hide RoundChangeFormat, LittleEndian, TextBytes, BlobBytes;
    RoundChangeLayout(x, false);
    RoundChangeLayout(x, true);
    var end := BlobBytes(x.signature);
    assert [] + ([] + ([] + ([] + end))) == end;
  }

  lemma RoundChangesWritten()
    ensures Writes(RoundChangeFormat(false), RoundChangeBytes) && Writes(RoundChangeFormat(true), LockedRoundChangeBytes)
  {
    hide RoundChangeFormat, RoundChangeBytes, LockedRoundChangeBytes;
    forall x: RoundChangeVote
      ensures RoundChangeFormat(false).render(x) == RoundChangeBytes(x)
      ensures RoundChangeFormat(true).render(x) == LockedRoundChangeBytes(x)
    {
      RoundChangeWritten(x);
    }
  }

  lemma FinalizationWritten(x: Finalization)
    ensures FinalizationFormat().render(x) == FinalizationBytes(x)
  {
    hide FinalizationFormat, RoundChangeFormat, VoteFormat, ListBytes, Listed, TextBytes;
    FinalizationLayout(x);
    RoundChangesWritten();
    VotesWritten();
    assert |ROUNDS_RULE| != |LOCKED_ROUNDS_RULE|;
    ListPrinted(RoundChangeFormat(false), RoundChangeBytes, x.roundChanges);
    ListPrinted(RoundChangeFormat(true), LockedRoundChangeBytes, x.roundChanges);
    ListPrinted(VoteFormat(), VoteBytes, x.votes);
  }

  function CommitEntryBytes(x: CommitEntry): Bytes {
    x.digest + (TextBytes(x.provider) + (BlobBytes(x.publicKey) + BlobBytes(x.signature)))
  }

  lemma CommitEntryLayout(x: CommitEntry)
    ensures CommitEntryFormat().render(x) == x.digest + (TextBytes(x.provider) + (BlobBytes(x.publicKey) + BlobBytes(x.signature)))
  {
  }

  function CommitPhaseBytes(x: CommitPhase): Bytes {
    U64(x.integer) + (x.snapshot + (Listed(TextBytes, x.validators) + (Listed(CommitEntryBytes, x.commitments)
      + Listed(BallotBytes, x.votes))))
  }

  lemma CommitPhaseLayout(x: CommitPhase)
    ensures CommitPhaseFormat().render(x)
      == LittleEndian(x.integer, 8) + (x.snapshot + (ListBytes(Text(), x.validators) + (ListBytes(CommitEntryFormat(), x.commitments)
         + ListBytes(BallotFormat(), x.votes))))
  {
    hide Text, CommitEntryFormat, BallotFormat;
  }

  lemma TextsWritten()
    ensures Writes(Text(), TextBytes)
  {
    hide Text;
    forall t: string
      ensures Text().render(t) == TextBytes(t)
    {
      TextLayout(t);
    }
  }

  lemma CommitPhaseWritten(x: CommitPhase)
    ensures CommitPhaseFormat().render(x) == CommitPhaseBytes(x)
  {
    hide CommitPhaseFormat, CommitEntryFormat, BallotFormat, Text, ListBytes, Listed, LittleEndian;
    CommitPhaseLayout(x);
    TextsWritten();
    BallotsWritten();
    forall e: CommitEntry
      ensures CommitEntryFormat().render(e) == CommitEntryBytes(e)
    {
      CommitEntryLayout(e);
    }
    ListPrinted(Text(), TextBytes, x.validators);
    ListPrinted(CommitEntryFormat(), CommitEntryBytes, x.commitments);
    ListPrinted(BallotFormat(), BallotBytes, x.votes);
  }

  function LotteryBytes(x: Lottery): Bytes {
    U64(x.round) + (U64(x.winBps) + (x.subject + (TextBytes(x.drawn) + (BlobBytes(x.publicKey) + BlobBytes(x.signature)))))
  }

  // ---------------------------------------------------------------- metadata

  function GenesisBytes(x: GenesisConfig, version: u64): Bytes {
    Listed(TextBytes, x.validators) + if version >= 11 then TextBytes(x.message) else []
  }

  lemma GenesisWritten(x: GenesisConfig, version: u64)
    ensures GenesisFormat(version).render(x) == GenesisBytes(x, version)
  {
    hide GenesisFormat, Text, ListBytes, Listed, TextBytes;
    GenesisLayout(x, version);
    TextsWritten();
    ListPrinted(Text(), TextBytes, x.validators);
  }

  function TransitionBytes(x: EpochTransition, version: u64): Bytes {
    U64(x.epoch) + ((if version >= 14 then x.anchorHash else []) + ((if version >= 14 then U64(x.anchorInteger) else [])
      + (U64(x.activation) + (Listed(TextBytes, x.next) + Listed(BallotBytes, x.votes)))))
  }

  lemma TransitionWritten(x: EpochTransition, version: u64)
    ensures TransitionFormat(version).render(x) == TransitionBytes(x, version)
  {
    hide TransitionFormat, Text, BallotFormat, ListBytes, Listed, LittleEndian;
    TransitionLayout(x, version);
    TextsWritten();
    BallotsWritten();
    ListPrinted(Text(), TextBytes, x.next);
    ListPrinted(BallotFormat(), BallotBytes, x.votes);
  }

  function PolicyBytes(x: PolicyUpdate, version: u64): Bytes {
    U64(x.fee) + ((if version >= 7 then U64(x.reserve) else []) + (U64(x.effective) + (U64(x.sequence) + Listed(BallotBytes, x.votes))))
  }

  lemma PolicyWritten(x: PolicyUpdate, version: u64)
    ensures PolicyFormat(version).render(x) == PolicyBytes(x, version)
  {
    hide PolicyFormat, BallotFormat, ListBytes, Listed, LittleEndian;
    PolicyLayout(x, version);
    BallotsWritten();
    ListPrinted(BallotFormat(), BallotBytes, x.votes);
  }

  function EndpointBytes(x: EndpointUpdate): Bytes {
    TextBytes(x.validator) + (TextBytes(x.host) + (U64(x.port) + (U64(x.effective) + (U64(x.sequence)
      + (BlobBytes(x.publicKey) + BlobBytes(x.signature))))))
  }

  lemma EndpointLayout(x: EndpointUpdate)
    ensures EndpointFormat().render(x)
      == TextBytes(x.validator) + (TextBytes(x.host) + (LittleEndian(x.port, 8) + (LittleEndian(x.effective, 8)
         + (LittleEndian(x.sequence, 8) + (BlobBytes(x.publicKey) + BlobBytes(x.signature))))))
  {
  }

  function ApplicationBytes(x: Application): Bytes {
    TextBytes(x.candidate) + (TextBytes(x.host) + (U64(x.port) + (U64(x.integer) + (U64(x.sequence) + (U64(x.successful)
      + (U64(x.total) + (BlobBytes(x.publicKey) + BlobBytes(x.signature))))))))
  }

  lemma ApplicationLayout(x: Application)
    ensures ApplicationFormat().render(x)
      == TextBytes(x.candidate) + (TextBytes(x.host) + (LittleEndian(x.port, 8) + (LittleEndian(x.integer, 8)
         + (LittleEndian(x.sequence, 8) + (LittleEndian(x.successful, 8) + (LittleEndian(x.total, 8)
         + (BlobBytes(x.publicKey) + BlobBytes(x.signature))))))))
  {
  }

  function BindingBytes(x: WorkBinding): Bytes {
    TextBytes(x.candidate) + (TextBytes(x.miner) + (U64(x.integer) + (U64(x.sequence)
      + (BlobBytes(x.publicKey) + BlobBytes(x.signature)))))
  }

  lemma BindingLayout(x: WorkBinding)
    ensures BindingFormat().render(x)
      == TextBytes(x.candidate) + (TextBytes(x.miner) + (LittleEndian(x.integer, 8) + (LittleEndian(x.sequence, 8)
         + (BlobBytes(x.publicKey) + BlobBytes(x.signature)))))
  {
  }

  lemma ListsWritten(m: Metadata)
    ensures EndpointList().render(m.endpoints) == Listed(EndpointBytes, m.endpoints)
    ensures ApplicationList().render(m.applications) == Listed(ApplicationBytes, m.applications)
    ensures BindingList().render(m.bindings) == Listed(BindingBytes, m.bindings)
  {
    hide EndpointFormat, ApplicationFormat, BindingFormat, ListOf, Lawful, ListBytes, Listed;
    forall x: EndpointUpdate
      ensures EndpointFormat().render(x) == EndpointBytes(x)
    {
      EndpointLayout(x);
    }
    forall x: Application
      ensures ApplicationFormat().render(x) == ApplicationBytes(x)
    {
      ApplicationLayout(x);
    }
    forall x: WorkBinding
      ensures BindingFormat().render(x) == BindingBytes(x)
    {
      BindingLayout(x);
    }
    ListLayout(EndpointFormat(), 64, m.endpoints);
    ListLayout(ApplicationFormat(), 64, m.applications);
    ListLayout(BindingFormat(), 64, m.bindings);
    ListPrinted(EndpointFormat(), EndpointBytes, m.endpoints);
    ListPrinted(ApplicationFormat(), ApplicationBytes, m.applications);
    ListPrinted(BindingFormat(), BindingBytes, m.bindings);
  }

  function MetadataBytes(m: Metadata, version: u64): Bytes {
    (if version >= 2 then TransitionBytes(m.epoch, version) else [])
    + ((if version >= 3 then Listed(EndpointBytes, m.endpoints) else [])
    + ((if version >= 4 then PolicyBytes(m.policy, version) else [])
    + ((if version >= 5 then Listed(ApplicationBytes, m.applications) else [])
    + (if version >= 6 then Listed(BindingBytes, m.bindings) else []))))
  }

  // ---------------------------------------------------------------- records

  function HeaderBytes(tag: nat, h: Header): Bytes {
    U64(tag) + (U64(h.version) + (U64(h.height) + (h.previous + U64(h.integer))))
  }

  /** The bytes of a record; a subject leaves out the certificate. */
  function BytesOf(r: Record, certified: bool): Bytes {
    var v := r.header.version;
    if r.Composite? then
      HeaderBytes(1, r.header)
      + (DivisionBytes(r.division) + (BodyBytes(r.body)
      + ((if 1 <= v < 9 then CommitPhaseBytes(r.commitPhase) else [])
      + (MetadataBytes(r.metadata, v)
      + ((if v >= 10 then LotteryBytes(r.lottery) else [])
      + (if certified then FinalizationBytes(r.finalization) else []))))))
    else
      HeaderBytes(2, r.header)
      + (PrattBytes(r.pratt) + (BodyBytes(r.body)
      + ((if r.header.height == 0 then GenesisBytes(r.genesis, v) else [])
      + (MetadataBytes(r.metadata, v)
      + (if certified then FinalizationBytes(r.finalization) else [])))))
  }

  /** The formats of a schema render these bytes. */
  ghost predicate PartsRender(p: PartFormats) {
    && Writes(p.transaction, TransactionBytes) && Writes(p.division, DivisionBytes) && Writes(p.body, BodyBytes)
    && Writes(p.commitPhase, CommitPhaseBytes)
    && Writes(p.pratt, PrattBytes) && Writes(p.lottery, LotteryBytes) && Writes(p.finalization, FinalizationBytes)
  }

  ghost predicate MetadataRenders(m: MetadataFormats) {
    && (forall x, v: u64 :: m.transition(v).render(x) == TransitionBytes(x, v))
    && (forall x, v: u64 :: m.policy(v).render(x) == PolicyBytes(x, v))
    && (forall x, v: u64 :: m.genesis(v).render(x) == GenesisBytes(x, v))
    && (forall xs :: m.endpoints.render(xs) == Listed(EndpointBytes, xs))
    && (forall xs :: m.applications.render(xs) == Listed(ApplicationBytes, xs))
    && (forall xs :: m.bindings.render(xs) == Listed(BindingBytes, xs))
  }

  lemma PartsWritten(p: PartFormats)
    requires p.transaction == TransactionFormat() && p.division == DivisionFormat() && p.body == BodyFormat()
    requires p.commitPhase == CommitPhaseFormat()
    requires p.pratt == PrattFormat() && p.lottery == LotteryFormat() && p.finalization == FinalizationFormat()
    ensures PartsRender(p)
  {
    hide TransactionFormat, DivisionFormat, BodyFormat, CommitPhaseFormat, PrattFormat, LotteryFormat, FinalizationFormat,
         TransactionBytes, BodyBytes, CommitPhaseBytes, PrattBytes, FinalizationBytes, LittleEndian, TextBytes, BlobBytes;
    forall x: Transaction
      ensures TransactionFormat().render(x) == TransactionBytes(x)
    {
      TransactionWritten(x);
    }
    forall x: Division
      ensures DivisionFormat().render(x) == DivisionBytes(x)
    {
      DivisionLayout(x);
    }
    forall x: Body
      ensures BodyFormat().render(x) == BodyBytes(x)
    {
      BodyWritten(x);
    }
    forall x: CommitPhase
      ensures CommitPhaseFormat().render(x) == CommitPhaseBytes(x)
    {
      CommitPhaseWritten(x);
    }
    forall x: Pratt
      ensures PrattFormat().render(x) == PrattBytes(x)
    {
      PrattWritten(x);
    }
    forall x: Lottery
      ensures LotteryFormat().render(x) == LotteryBytes(x)
    {
      LotteryLayout(x);
    }
    forall x: Finalization
      ensures FinalizationFormat().render(x) == FinalizationBytes(x)
    {
      FinalizationWritten(x);
    }
  }

  lemma MetadataIsWritten(m: MetadataFormats)
    requires m.transition == TransitionFormat && m.policy == PolicyFormat && m.genesis == GenesisFormat
    requires m.endpoints == EndpointList() && m.applications == ApplicationList() && m.bindings == BindingList()
    ensures MetadataRenders(m)
  {
    hide TransitionFormat, PolicyFormat, GenesisFormat, EndpointList, ApplicationList, BindingList, TransitionBytes, PolicyBytes,
         GenesisBytes, Listed, Lawful;
    forall x: EpochTransition, v: u64
      ensures m.transition(v).render(x) == TransitionBytes(x, v)
    {
      TransitionWritten(x, v);
    }
    forall x: PolicyUpdate, v: u64
      ensures m.policy(v).render(x) == PolicyBytes(x, v)
    {
      PolicyWritten(x, v);
    }
    forall x: GenesisConfig, v: u64
      ensures m.genesis(v).render(x) == GenesisBytes(x, v)
    {
      GenesisWritten(x, v);
    }
    forall xs: seq<EndpointUpdate>
      ensures m.endpoints.render(xs) == Listed(EndpointBytes, xs)
    {
      ListsWritten(Metadata(NO_TRANSITION, xs, NO_POLICY, [], []));
    }
    forall xs: seq<Application>
      ensures m.applications.render(xs) == Listed(ApplicationBytes, xs)
    {
      ListsWritten(Metadata(NO_TRANSITION, [], NO_POLICY, xs, []));
    }
    forall xs: seq<WorkBinding>
      ensures m.bindings.render(xs) == Listed(BindingBytes, xs)
    {
      ListsWritten(Metadata(NO_TRANSITION, [], NO_POLICY, [], xs));
    }
  }

  /** The formats of the protocol render these bytes. */
  lemma WireRenders(sc: Schema)
    requires sc == Wire()
    ensures PartsRender(sc.parts) && MetadataRenders(sc.metadata)
  {
    hide *;
    PartFields(sc);
    MetadataFields(sc);
    EndpointField(sc);
    PartsWritten(sc.parts);
    MetadataIsWritten(sc.metadata);
  }

  lemma MetadataSerialized(sc: Schema, m: Metadata, version: u64)
    requires MetadataRenders(sc.metadata)
    ensures SerializeMetadata(sc, m, version) == MetadataBytes(m, version)
  {
    hide TransitionBytes, PolicyBytes, GenesisBytes, Listed;
  }

  lemma PartsSerialized(p: PartFormats, r: Record)
    requires PartsRender(p)
    ensures p.body.render(r.body) == BodyBytes(r.body) && p.finalization.render(r.finalization) == FinalizationBytes(r.finalization)
    ensures r.PrimeRecord? ==> p.pratt.render(r.pratt) == PrattBytes(r.pratt)
    ensures r.Composite? ==>
              && p.division.render(r.division) == DivisionBytes(r.division)
              && p.commitPhase.render(r.commitPhase) == CommitPhaseBytes(r.commitPhase)
              && p.lottery.render(r.lottery) == LotteryBytes(r.lottery)
  {
    hide DivisionBytes, BodyBytes, CommitPhaseBytes, PrattBytes, FinalizationBytes, LotteryBytes;
  }

  lemma GenesisSerialized(m: MetadataFormats, g: GenesisConfig, version: u64)
    requires MetadataRenders(m)
    ensures m.genesis(version).render(g) == GenesisBytes(g, version)
  {
    hide TransitionBytes, PolicyBytes, GenesisBytes, Listed;
  }

  /** Every record, of every version, is serialized to these bytes. */
  lemma RecordWritten(sc: Schema, r: Record, certified: bool)
    requires PartsRender(sc.parts) && MetadataRenders(sc.metadata)
    ensures Serialize(sc, r, certified) == BytesOf(r, certified)
  {
    hide PartsRender, MetadataRenders, DivisionBytes, BodyBytes, CommitPhaseBytes, PrattBytes, FinalizationBytes, LotteryBytes,
         GenesisBytes, MetadataBytes, SerializeMetadata, LittleEndian;
    PartsSerialized(sc.parts, r);
    MetadataSerialized(sc, r.metadata, r.header.version);
    if r.PrimeRecord? {
      GenesisSerialized(sc.metadata, r.genesis, r.header.version);
    }
  }
}
