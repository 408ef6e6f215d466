/**
 Exactly which records the decoders of the protocol can return (src/protocol/records.cpp, the
 read functions): the limits of every list, and the fields a version or rule does not carry at
 their defaults.
 */
module DecodeLimits {
  import opened Machine
  import opened Records
  import opened Formats
  import opened FieldFormats
  import opened RecordForm
  import opened WrittenForm
  import opened WireFacts
  import opened RecordBytes

  // ---------------------------------------------------------------- texts and lists

  /** One byte per character, of a size that fits a word. */
  predicate TextOk(t: string) {
    |t| < TWO_64 && forall i :: 0 <= i < |t| ==> t[i] < 256 as char
  }

  predicate BlobOk(b: Bytes) {
    |b| < TWO_64
  }

  lemma TextIff(t: string)
    ensures Text().valid(t) <==> TextOk(t)
  {
    assert |CharBytes(t)| == |t|;
    if TextOk(t) {
      assert Chars(CharBytes(t)) == t;
    }
    if Text().valid(t) {
      var u := Chars(CharBytes(t));
      assert forall i :: 0 <= i < |t| ==> u[i] < 256 as char;
    }
  }

  predicate AllOk<T>(ok: T -> bool, ts: seq<T>, limit: nat) {
    |ts| <= limit && forall i :: 0 <= i < |ts| ==> ok(ts[i])
  }

  /** A format can return exactly these values. */
  ghost predicate Returns<T(!new)>(f: Format<T>, ok: T -> bool) {
    forall t {:trigger f.valid(t)} {:trigger ok(t)} :: f.valid(t) <==> ok(t)
  }

  lemma ListIff<T(!new)>(f: Format<T>, ok: T -> bool, limit: nat, ts: seq<T>)
    requires Lawful(f) && Returns(f, ok) && limit < TWO_64
    ensures ListOf(f, limit).valid(ts) <==> AllOk(ok, ts, limit)
  {
    hide Lawful;
  }

  lemma TextsIff()
    ensures Returns(Text(), TextOk)
  {
    hide Text;
    forall t: string
      ensures Text().valid(t) <==> TextOk(t)
    {
      TextIff(t);
    }
  }

  // ---------------------------------------------------------------- transactions

  predicate OutputOk(x: TxOutput) {
    TextOk(x.receiver)
  }

  predicate TransactionOk(x: Transaction) {
    && |x.inputs| <= 1024 && AllOk(OutputOk, x.outputs, 1024)
    && TextOk(x.sender) && BlobOk(x.publicKey) && BlobOk(x.signature)
  }

  lemma InputIff(x: TxInput)
    ensures InputFormat().valid(x)
  {
  }

  lemma OutputIff(x: TxOutput)
    ensures OutputFormat().valid(x) <==> OutputOk(x)
  {
    hide Text;
    TextIff(x.receiver);
  }

  lemma FeeIff(x: FeeSpec)
    ensures FeeFormat().valid(x)
  {
  }

  lemma TransactionFields(x: Transaction)
    ensures TransactionFormat().valid(x)
       <==> && ListOf(InputFormat(), 1024).valid(x.inputs) && ListOf(OutputFormat(), 1024).valid(x.outputs)
            && FeeFormat().valid(x.fee) && Text().valid(x.sender) && BlobOk(x.publicKey) && BlobOk(x.signature)
  {
    hide InputFormat, OutputFormat, FeeFormat, Text, ListOf, Lawful;
  }

  /** At most 1024 inputs and outputs. */
  lemma TransactionIff(x: Transaction)
    ensures TransactionFormat().valid(x) <==> TransactionOk(x)
  {
    hide TransactionFormat, InputFormat, OutputFormat, FeeFormat, Text, ListOf, Lawful;
    TransactionFields(x);
    forall i: TxInput
      ensures InputFormat().valid(i)
    {
      InputIff(i);
    }
    forall o: TxOutput
      ensures OutputFormat().valid(o) <==> OutputOk(o)
    {
      OutputIff(o);
    }
    ListIff(InputFormat(), (i: TxInput) => true, 1024, x.inputs);
    ListIff(OutputFormat(), OutputOk, 1024, x.outputs);
    FeeIff(x.fee);
    TextIff(x.sender);
  }

  // ---------------------------------------------------------------- bodies and proofs

  predicate NestedOk(x: Transaction) {
    TransactionOk(x) && |TransactionBytes(x)| < TWO_64
  }

  predicate BodyOk(x: Body) {
    AllOk(NestedOk, x.transactions, 10000)
  }

  lemma NestedIff(x: Transaction)
    ensures Nested(TransactionFormat()).valid(x) <==> NestedOk(x)
  {
    hide TransactionFormat, TransactionOk, TransactionBytes, Lawful;
    TransactionIff(x);
    TransactionWritten(x);
  }

  lemma BodyFields(x: Body)
    ensures BodyFormat().valid(x) <==> ListOf(Nested(TransactionFormat()), 10000).valid(x.transactions)
  {
    hide TransactionFormat, Nested, ListOf, Lawful;
  }

  /** At most 10,000 transactions. */
  lemma BodyIff(x: Body)
    ensures BodyFormat().valid(x) <==> BodyOk(x)
  {
    hide BodyFormat, TransactionFormat, Nested, ListOf, Lawful, NestedOk;
    BodyFields(x);
    forall tx: Transaction
      ensures Nested(TransactionFormat()).valid(tx) <==> NestedOk(tx)
    {
      NestedIff(tx);
    }
    ListIff(Nested(TransactionFormat()), NestedOk, 10000, x.transactions);
  }

  predicate DivisionOk(x: Division) {
    TextOk(x.provider) && BlobOk(x.signature)
  }

  lemma DivisionIff(x: Division)
    ensures DivisionFormat().valid(x) <==> DivisionOk(x)
  {
    hide Text;
    TextIff(x.provider);
  }

  predicate PrattOk(x: Pratt) {
    |x.factors| <= 1024 && TextOk(x.provider) && BlobOk(x.signature)
  }

  lemma FactorIff(x: Factor)
    ensures FactorFormat().valid(x)
  {
  }

  lemma PrattFields(x: Pratt)
    ensures PrattFormat().valid(x)
       <==> ListOf(FactorFormat(), 1024).valid(x.factors) && Text().valid(x.provider) && BlobOk(x.signature)
  {
    hide FactorFormat, Text, ListOf, Lawful;
  }

  /** At most 1024 factors. */
  lemma PrattIff(x: Pratt)
    ensures PrattFormat().valid(x) <==> PrattOk(x)
  {
    hide PrattFormat, FactorFormat, Text, ListOf, Lawful;
    PrattFields(x);
    forall f: Factor
      ensures FactorFormat().valid(f)
    {
      FactorIff(f);
    }
    ListIff(FactorFormat(), (f: Factor) => true, 1024, x.factors);
    TextIff(x.provider);
  }

  // ---------------------------------------------------------------- certificates

  predicate BallotOk(x: Ballot) {
    TextOk(x.validator) && BlobOk(x.publicKey) && BlobOk(x.signature)
  }

  lemma BallotsIff()
    ensures Returns(BallotFormat(), BallotOk)
  {
    forall x: Ballot
      ensures BallotFormat().valid(x) <==> BallotOk(x)
    {
      hide Text;
      TextIff(x.validator);
    }
  }

  predicate VoteOk(x: FinalizationVote) {
    TextOk(x.validator) && BlobOk(x.publicKey) && BlobOk(x.signature)
  }

  lemma VotesIff()
    ensures Returns(VoteFormat(), VoteOk)
  {
    forall x: FinalizationVote
      ensures VoteFormat().valid(x) <==> VoteOk(x)
    {
      hide Text, Lawful;
      TextIff(x.validator);
    }
  }

  /** Without locks their fields are at the defaults. */
  predicate RoundChangeOk(x: RoundChangeVote) {
    && TextOk(x.validator) && BlobOk(x.publicKey) && BlobOk(x.signature)
    && x.lockedRound == 0 && x.lockedKind == "" && x.lockedHash == NULL_HASH && x.lockedPayload == []
  }

  predicate LockedRoundChangeOk(x: RoundChangeVote) {
    TextOk(x.validator) && BlobOk(x.publicKey) && BlobOk(x.signature) && TextOk(x.lockedKind) && BlobOk(x.lockedPayload)
  }

  lemma PlainIff(x: RoundChangeVote)
    ensures RoundChangeFormat(false).valid(x) <==> RoundChangeOk(x)
  {
    hide Text, Lawful;
    TextIff(x.validator);
  }

  lemma LockedIff(x: RoundChangeVote)
    ensures RoundChangeFormat(true).valid(x) <==> LockedRoundChangeOk(x)
  {
    hide Text, Lawful;
    TextIff(x.validator);
    TextIff(x.lockedKind);
  }

  lemma RoundChangesIff()
    ensures Returns(RoundChangeFormat(false), RoundChangeOk) && Returns(RoundChangeFormat(true), LockedRoundChangeOk)
  {
    hide RoundChangeFormat, RoundChangeOk, LockedRoundChangeOk, Lawful;
    forall x: RoundChangeVote
      ensures RoundChangeFormat(false).valid(x) <==> RoundChangeOk(x)
    {
      PlainIff(x);
    }
    forall x: RoundChangeVote
      ensures RoundChangeFormat(true).valid(x) <==> LockedRoundChangeOk(x)
    {
      LockedIff(x);
    }
  }

  predicate ChangesOk(rule: string, cs: seq<RoundChangeVote>) {
    if rule == "fixed-2-of-3-mldsa65-rounds-v3" then AllOk(RoundChangeOk, cs, 16)
    else if rule == "fixed-2-of-3-mldsa65-rounds-locks-v4" then AllOk(LockedRoundChangeOk, cs, 16)
    else cs == []
  }

  predicate FinalizationOk(x: Finalization) {
    TextOk(x.rule) && ChangesOk(x.rule, x.roundChanges) && AllOk(VoteOk, x.votes, 16)
  }

  lemma CertificateFields(rule: string, c: Certificate)
    ensures CertificateFormat(rule).valid(c)
       <==> && (if CarriesRoundChanges(rule) then ListOf(RoundChangeFormat(rule == LOCKED_ROUNDS_RULE), 16).valid(c.0) else c.0 == [])
            && ListOf(VoteFormat(), 16).valid(c.1)
  {
    hide RoundChangeFormat, VoteFormat, ListOf, Lawful, CarriesRoundChanges;
  }

  lemma FinalizationFields(x: Finalization)
    ensures FinalizationFormat().valid(x) <==> Text().valid(x.rule) && CertificateFormat(x.rule).valid((x.roundChanges, x.votes))
  {
    hide CertificateFormat, Text, Lawful;
  }

  /** At most 16 round changes and votes. */
  lemma FinalizationIff(x: Finalization)
    ensures FinalizationFormat().valid(x) <==> FinalizationOk(x)
  {
    hide FinalizationFormat, CertificateFormat, RoundChangeFormat, VoteFormat, Text, ListOf, Lawful, RoundChangeOk,
         LockedRoundChangeOk, VoteOk;
    FinalizationFields(x);
    CertificateFields(x.rule, (x.roundChanges, x.votes));
    TextIff(x.rule);
    RoundChangesIff();
    VotesIff();
    assert |ROUNDS_RULE| != |LOCKED_ROUNDS_RULE|;
    ListIff(RoundChangeFormat(false), RoundChangeOk, 16, x.roundChanges);
    ListIff(RoundChangeFormat(true), LockedRoundChangeOk, 16, x.roundChanges);
    ListIff(VoteFormat(), VoteOk, 16, x.votes);
  }

  predicate CommitEntryOk(x: CommitEntry) {
    TextOk(x.provider) && BlobOk(x.publicKey) && BlobOk(x.signature)
  }

  lemma CommitEntryIff(x: CommitEntry)
    ensures CommitEntryFormat().valid(x) <==> CommitEntryOk(x)
  {
    hide Text;
    TextIff(x.provider);
  }

  predicate CommitPhaseOk(x: CommitPhase) {
    AllOk(TextOk, x.validators, 16) && AllOk(CommitEntryOk, x.commitments, 1024) && AllOk(BallotOk, x.votes, 16)
  }

  lemma CommitPhaseFields(x: CommitPhase)
    ensures CommitPhaseFormat().valid(x)
       <==> && ListOf(Text(), 16).valid(x.validators) && ListOf(CommitEntryFormat(), 1024).valid(x.commitments)
            && ListOf(BallotFormat(), 16).valid(x.votes)
  {
    hide Text, CommitEntryFormat, BallotFormat, ListOf, Lawful;
  }

  /** At most 16 validators and votes, and 1024 commitments. */
  lemma CommitPhaseIff(x: CommitPhase)
    ensures CommitPhaseFormat().valid(x) <==> CommitPhaseOk(x)
  {
    hide CommitPhaseFormat, Text, CommitEntryFormat, BallotFormat, ListOf, Lawful, TextOk, CommitEntryOk, BallotOk;
    CommitPhaseFields(x);
    TextsIff();
    BallotsIff();
    forall e: CommitEntry
      ensures CommitEntryFormat().valid(e) <==> CommitEntryOk(e)
    {
      CommitEntryIff(e);
    }
    ListIff(Text(), TextOk, 16, x.validators);
    ListIff(CommitEntryFormat(), CommitEntryOk, 1024, x.commitments);
    ListIff(BallotFormat(), BallotOk, 16, x.votes);
  }

  predicate LotteryOk(x: Lottery) {
    TextOk(x.drawn) && BlobOk(x.publicKey) && BlobOk(x.signature)
  }

  lemma LotteryIff(x: Lottery)
    ensures LotteryFormat().valid(x) <==> LotteryOk(x)
  {
    hide Text;
    TextIff(x.drawn);
  }

  // ---------------------------------------------------------------- metadata

  predicate GenesisOk(x: GenesisConfig, version: u64) {
    AllOk(TextOk, x.validators, 16) && if version >= 11 then TextOk(x.message) else x.message == ""
  }

  lemma GenesisIff(x: GenesisConfig, version: u64)
    ensures GenesisFormat(version).valid(x) <==> GenesisOk(x, version)
  {
    hide Text, ListOf, Lawful, TextOk;
    TextsIff();
    ListIff(Text(), TextOk, 16, x.validators);
    TextIff(x.message);
  }

  predicate TransitionOk(x: EpochTransition, version: u64) {
    && (version < 14 ==> x.anchorHash == NULL_HASH && x.anchorInteger == 0)
    && AllOk(TextOk, x.next, 16) && AllOk(BallotOk, x.votes, 16)
  }

  lemma TransitionFields(x: EpochTransition, version: u64)
    ensures TransitionFormat(version).valid(x)
       <==> && (version < 14 ==> x.anchorHash == NULL_HASH && x.anchorInteger == 0)
            && ListOf(Text(), 16).valid(x.next) && ListOf(BallotFormat(), 16).valid(x.votes)
  {
    hide Text, BallotFormat, ListOf, Lawful;
  }

  /** At most 16 validators and votes; the anchor from version 14 on. */
  lemma TransitionIff(x: EpochTransition, version: u64)
    ensures TransitionFormat(version).valid(x) <==> TransitionOk(x, version)
  {
    hide TransitionFormat, Text, BallotFormat, ListOf, Lawful, TextOk, BallotOk;
    TransitionFields(x, version);
    TextsIff();
    BallotsIff();
    ListIff(Text(), TextOk, 16, x.next);
    ListIff(BallotFormat(), BallotOk, 16, x.votes);
  }

  predicate PolicyOk(x: PolicyUpdate, version: u64) {
    (version < 7 ==> x.reserve == 0) && AllOk(BallotOk, x.votes, 64)
  }

  lemma PolicyFields(x: PolicyUpdate, version: u64)
    ensures PolicyFormat(version).valid(x) <==> (version < 7 ==> x.reserve == 0) && ListOf(BallotFormat(), 64).valid(x.votes)
  {
    hide BallotFormat, ListOf, Lawful;
  }

  /** At most 64 votes; the reserve from version 7 on. */
  lemma PolicyIff(x: PolicyUpdate, version: u64)
    ensures PolicyFormat(version).valid(x) <==> PolicyOk(x, version)
  {
    hide PolicyFormat, BallotFormat, ListOf, Lawful, BallotOk;
    PolicyFields(x, version);
    BallotsIff();
    ListIff(BallotFormat(), BallotOk, 64, x.votes);
  }

  predicate EndpointOk(x: EndpointUpdate) {
    TextOk(x.validator) && TextOk(x.host) && BlobOk(x.publicKey) && BlobOk(x.signature)
  }

  predicate ApplicationOk(x: Application) {
    TextOk(x.candidate) && TextOk(x.host) && BlobOk(x.publicKey) && BlobOk(x.signature)
  }

  predicate BindingOk(x: WorkBinding) {
    TextOk(x.candidate) && TextOk(x.miner) && BlobOk(x.publicKey) && BlobOk(x.signature)
  }

  lemma EndpointIff(x: EndpointUpdate)
    ensures EndpointFormat().valid(x) <==> EndpointOk(x)
  {
    hide Text;
    TextIff(x.validator);
    TextIff(x.host);
  }

  lemma ApplicationIff(x: Application)
    ensures ApplicationFormat().valid(x) <==> ApplicationOk(x)
  {
    hide Text;
    TextIff(x.candidate);
    TextIff(x.host);
  }

  lemma BindingIff(x: WorkBinding)
    ensures BindingFormat().valid(x) <==> BindingOk(x)
  {
    hide Text;
    TextIff(x.candidate);
    TextIff(x.miner);
  }

  /** At most 64 of each. */
  lemma ListsIff(es: seq<EndpointUpdate>, xs: seq<Application>, bs: seq<WorkBinding>)
    ensures EndpointList().valid(es) <==> AllOk(EndpointOk, es, 64)
    ensures ApplicationList().valid(xs) <==> AllOk(ApplicationOk, xs, 64)
    ensures BindingList().valid(bs) <==> AllOk(BindingOk, bs, 64)
  {
    hide EndpointFormat, ApplicationFormat, BindingFormat, ListOf, Lawful, EndpointOk, ApplicationOk, BindingOk;
    forall x: EndpointUpdate
      ensures EndpointFormat().valid(x) <==> EndpointOk(x)
    {
      EndpointIff(x);
    }
    forall x: Application
      ensures ApplicationFormat().valid(x) <==> ApplicationOk(x)
    {
      ApplicationIff(x);
    }
    forall x: WorkBinding
      ensures BindingFormat().valid(x) <==> BindingOk(x)
    {
      BindingIff(x);
    }
    ListIff(EndpointFormat(), EndpointOk, 64, es);
    ListIff(ApplicationFormat(), ApplicationOk, 64, xs);
    ListIff(BindingFormat(), BindingOk, 64, bs);
  }

  predicate MetadataOk(m: Metadata, version: u64) {
    && (if version >= 2 then TransitionOk(m.epoch, version) else m.epoch == NO_TRANSITION)
    && (if version >= 3 then AllOk(EndpointOk, m.endpoints, 64) else m.endpoints == [])
    && (if version >= 4 then PolicyOk(m.policy, version) else m.policy == NO_POLICY)
    && (if version >= 5 then AllOk(ApplicationOk, m.applications, 64) else m.applications == [])
    && (if version >= 6 then AllOk(BindingOk, m.bindings, 64) else m.bindings == [])
  }

  // ---------------------------------------------------------------- records

  /** The records that read back. */
  predicate Readable(r: Record) {
    var v := r.header.version;
    && BodyOk(r.body) && MetadataOk(r.metadata, v) && FinalizationOk(r.finalization)
    && (r.Composite? ==>
          && DivisionOk(r.division)
          && (if 1 <= v < 9 then CommitPhaseOk(r.commitPhase) else r.commitPhase == NO_COMMIT_PHASE)
          && (if v >= 10 then LotteryOk(r.lottery) else r.lottery == NO_LOTTERY))
    && (r.PrimeRecord? ==> PrattOk(r.pratt) && if r.header.height == 0 then GenesisOk(r.genesis, v) else r.genesis == NO_GENESIS)
  }

  /** The formats of a schema can return exactly these parts. */
  ghost predicate PartsReturn(p: PartFormats) {
    && Returns(p.division, DivisionOk) && Returns(p.body, BodyOk) && Returns(p.commitPhase, CommitPhaseOk)
    && Returns(p.pratt, PrattOk) && Returns(p.lottery, LotteryOk) && Returns(p.finalization, FinalizationOk)
  }

  ghost predicate MetadataReturns(m: MetadataFormats) {
    && (forall x, v: u64 :: m.transition(v).valid(x) <==> TransitionOk(x, v))
    && (forall x, v: u64 :: m.policy(v).valid(x) <==> PolicyOk(x, v))
    && (forall x, v: u64 :: m.genesis(v).valid(x) <==> GenesisOk(x, v))
    && (forall xs :: m.endpoints.valid(xs) <==> AllOk(EndpointOk, xs, 64))
    && (forall xs :: m.applications.valid(xs) <==> AllOk(ApplicationOk, xs, 64))
    && (forall xs :: m.bindings.valid(xs) <==> AllOk(BindingOk, xs, 64))
  }

  lemma PartsReturned(p: PartFormats)
    requires p.division == DivisionFormat() && p.body == BodyFormat() && p.commitPhase == CommitPhaseFormat()
    requires p.pratt == PrattFormat() && p.lottery == LotteryFormat() && p.finalization == FinalizationFormat()
    ensures PartsReturn(p)
  {
    hide DivisionFormat, BodyFormat, CommitPhaseFormat, PrattFormat, LotteryFormat, FinalizationFormat, DivisionOk, BodyOk,
         CommitPhaseOk, PrattOk, LotteryOk, FinalizationOk;
    forall x: Division
      ensures DivisionFormat().valid(x) <==> DivisionOk(x)
    {
      DivisionIff(x);
    }
    forall x: Body
      ensures BodyFormat().valid(x) <==> BodyOk(x)
    {
      BodyIff(x);
    }
    forall x: CommitPhase
      ensures CommitPhaseFormat().valid(x) <==> CommitPhaseOk(x)
    {
      CommitPhaseIff(x);
    }
    forall x: Pratt
      ensures PrattFormat().valid(x) <==> PrattOk(x)
    {
      PrattIff(x);
    }
    forall x: Lottery
      ensures LotteryFormat().valid(x) <==> LotteryOk(x)
    {
      LotteryIff(x);
    }
    forall x: Finalization
      ensures FinalizationFormat().valid(x) <==> FinalizationOk(x)
    {
      FinalizationIff(x);
    }
  }

  lemma MetadataReturned(m: MetadataFormats)
    requires m.transition == TransitionFormat && m.policy == PolicyFormat && m.genesis == GenesisFormat
    requires m.endpoints == EndpointList() && m.applications == ApplicationList() && m.bindings == BindingList()
    ensures MetadataReturns(m)
  {
    hide TransitionFormat, PolicyFormat, GenesisFormat, EndpointList, ApplicationList, BindingList, TransitionOk, PolicyOk, GenesisOk,
         AllOk, Lawful;
    forall x: EpochTransition, v: u64
      ensures m.transition(v).valid(x) <==> TransitionOk(x, v)
    {
      TransitionIff(x, v);
    }
    forall x: PolicyUpdate, v: u64
      ensures m.policy(v).valid(x) <==> PolicyOk(x, v)
    {
      PolicyIff(x, v);
    }
    forall x: GenesisConfig, v: u64
      ensures m.genesis(v).valid(x) <==> GenesisOk(x, v)
    {
      GenesisIff(x, v);
    }
    forall es: seq<EndpointUpdate>
      ensures m.endpoints.valid(es) <==> AllOk(EndpointOk, es, 64)
    {
      ListsIff(es, [], []);
    }
    forall xs: seq<Application>
      ensures m.applications.valid(xs) <==> AllOk(ApplicationOk, xs, 64)
    {
      ListsIff([], xs, []);
    }
    forall bs: seq<WorkBinding>
      ensures m.bindings.valid(bs) <==> AllOk(BindingOk, bs, 64)
    {
      ListsIff([], [], bs);
    }
  }

  /** The formats of the protocol can return exactly these parts. */
  lemma WireReturns(sc: Schema)
    requires sc == Wire()
    ensures PartsReturn(sc.parts) && MetadataReturns(sc.metadata)
  {
    hide *;
    PartFields(sc);
    MetadataFields(sc);
    EndpointField(sc);
    PartsReturned(sc.parts);
    MetadataReturned(sc.metadata);
  }

  lemma MetadataIff(sc: Schema, m: Metadata, version: u64)
    requires MetadataReturns(sc.metadata)
    ensures MetadataValid(sc, version, true, m) <==> MetadataOk(m, version)
  {
    hide TransitionOk, PolicyOk, GenesisOk, AllOk;
  }

  lemma PartsIff(p: PartFormats, r: Record)
    requires PartsReturn(p)
    ensures (p.body.valid(r.body) <==> BodyOk(r.body)) && (p.finalization.valid(r.finalization) <==> FinalizationOk(r.finalization))
    ensures r.PrimeRecord? ==> (p.pratt.valid(r.pratt) <==> PrattOk(r.pratt))
    ensures r.Composite? ==>
              && (p.division.valid(r.division) <==> DivisionOk(r.division))
              && (p.commitPhase.valid(r.commitPhase) <==> CommitPhaseOk(r.commitPhase))
              && (p.lottery.valid(r.lottery) <==> LotteryOk(r.lottery))
  {
    hide DivisionOk, BodyOk, CommitPhaseOk, PrattOk, LotteryOk, FinalizationOk;
  }

  lemma GenesisReturned(m: MetadataFormats, g: GenesisConfig, version: u64)
    requires MetadataReturns(m)
    ensures m.genesis(version).valid(g) <==> GenesisOk(g, version)
  {
    hide TransitionOk, PolicyOk, GenesisOk, AllOk;
  }

  /** Exactly which records read back from their own bytes. */
  lemma ReadableIff(sc: Schema, r: Record)
    requires LawfulSchema(sc) && sc.metadata.endpoints.valid([]) && PartsReturn(sc.parts) && MetadataReturns(sc.metadata)
    ensures Storable(sc, r) <==> Readable(r)
    ensures Readable(r) <==> Deserialize(sc, r.Composite?, Serialize(sc, r, true)) == Some(r)
  {
    hide LawfulSchema, PartsReturn, MetadataReturns, Serialize, Deserialize, CompositeFormat, PrimeFormat, DivisionOk, BodyOk,
         CommitPhaseOk, PrattOk, LotteryOk, FinalizationOk, GenesisOk, MetadataOk, MetadataValid;
    PartsIff(sc.parts, r);
    MetadataIff(sc, r.metadata, r.header.version);
    if r.Composite? {
      CompositeValidIff(sc, true, r);
    } else {
      GenesisReturned(sc.metadata, r.genesis, r.header.version);
      PrimeValidIff(sc, true, r);
    }
    StorableIff(sc, r);
  }

  /** The same, at the formats of the protocol. */
  lemma ReadsBackIff(sc: Schema, r: Record)
    requires sc == Wire()
    ensures Deserialize(sc, r.Composite?, Serialize(sc, r, true)) == Some(r) <==> Readable(r)
  {
    hide *;
    WireReturns(sc);
    WireAdmitsAbsent(sc);
    ReadableIff(sc, r);
  }
}
