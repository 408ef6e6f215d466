/**
 The first two records of a chain with four validators: the genesis record, made as the node
 makes it (src/node/sequential_node.cpp, makeGenesisPrimeRecordV0), and the record of integer 3
 certified by three of the four. They are stored and loaded.
 */
module FirstRecords {
  import opened Machine
  import opened Addresses
  import opened ProtocolAddresses
  import opened Divisibility
  import opened Records
  import opened Formats
  import opened FieldFormats
  import opened RecordForm
  import opened SubjectIdentity
  import opened WrittenForm
  import opened WireFacts
  import opened Witnesses
  import opened StoreFile
  import opened Ledger
  import opened LedgerInvariant
  import opened LedgerReplay
  import opened LedgerStore
  import Factorization
  import NumberTheory

  /** The version the node gives its genesis record. */
  const VERSION: u64 := BINARY_MERKLE

  // ---------------------------------------------------------------- the formats

  /** The formats write plain records in little space. */
  ghost predicate SmallPlain(sc: Schema) {
    && |sc.parts.division.render(PLAIN_DIVISION)| < 1000 && |sc.parts.body.render(PLAIN_BODY)| < 1000
    && |sc.parts.lottery.render(NO_LOTTERY)| < 1000 && |sc.metadata.policy(VERSION).render(NO_POLICY)| < 1000
    && |sc.metadata.endpoints.render([])| < 1000 && |sc.metadata.applications.render([])| < 1000
    && |sc.metadata.bindings.render([])| < 1000
  }

  lemma WireSmallPlain(sc: Schema)
    requires sc == Wire()
    ensures SmallPlain(sc)
  {
    hide Wire, DivisionFormat, BodyFormat, LotteryFormat, PolicyFormat, EndpointList, ApplicationList, BindingList, PrattFormat,
         CommitPhaseFormat, FinalizationFormat, TransactionFormat;
    PartFields(sc);
    MetadataFields(sc);
    EndpointField(sc);
    PartSizes();
    MetadataSizes(VERSION);
  }

  ghost predicate CertificateAdmitted(sc: Schema, f: Finalization) {
    sc.parts.finalization.valid(f) && |sc.parts.finalization.render(f)| < 2000
  }

  ghost predicate TransitionAdmitted(sc: Schema, t: EpochTransition) {
    sc.metadata.transition(VERSION).valid(t) && |sc.metadata.transition(VERSION).render(t)| < 3000
  }

  ghost predicate PrattAdmitted(sc: Schema, p: Pratt) {
    sc.parts.pratt.valid(p) && |sc.parts.pratt.render(p)| < 1000
  }

  /** The formats admit the certificates, transitions, proofs and configuration used here. */
  ghost predicate AdmitsVotes(sc: Schema) {
    && (forall target: Hash256 :: CertificateAdmitted(sc, SignedCertificate(Validators(3), target)))
    && (forall target: Hash256 :: CertificateAdmitted(sc, VotedCertificate(DEVELOPMENT_RULE, DEVELOPERS, target)))
    && TransitionAdmitted(sc, NO_TRANSITION)
    && TransitionAdmitted(sc, PlainTransition(1, NULL_HASH, 0, 5, Validators(4), Validators(3)))
    && PrattAdmitted(sc, GENESIS_PRATT) && PrattAdmitted(sc, ThreePratt())
    && sc.metadata.genesis(VERSION).valid(GenesisConfiguration())
    && |sc.metadata.genesis(VERSION).render(GenesisConfiguration())| < 3000
  }

  /** All that is needed of the formats. */
  ghost predicate Ready(sc: Schema) {
    SchemaOk(sc) && AdmitsPlain(sc) && SmallPlain(sc) && AdmitsVotes(sc)
  }

  lemma CertificateByFormat(sc: Schema, target: Hash256)
    requires sc.parts.finalization == FinalizationFormat()
    ensures CertificateAdmitted(sc, SignedCertificate(Validators(3), target))
    ensures CertificateAdmitted(sc, VotedCertificate(DEVELOPMENT_RULE, DEVELOPERS, target))
  {
    hide FinalizationFormat, Text, Validator, BareVotes, CarriesRoundChanges;
    RulesWithoutChanges();
    ValidatorTexts(3);
    DeveloperTexts();
    CertificateFits(SIGNED_RULE, Validators(3), target);
    CertificateSmall(SIGNED_RULE, Validators(3), target);
    CertificateFits(DEVELOPMENT_RULE, DEVELOPERS, target);
    CertificateSmall(DEVELOPMENT_RULE, DEVELOPERS, target);
  }

  lemma TransitionByFormat(sc: Schema, t: EpochTransition, names: seq<Address>)
    requires sc.metadata.transition == TransitionFormat && t.votes == BareBallots(names) && |t.next| <= 16 && |names| <= 16
    requires forall i :: 0 <= i < |t.next| ==> |t.next[i]| == 46 && Text().valid(t.next[i])
    requires forall i :: 0 <= i < |names| ==> |names[i]| == 46 && Text().valid(names[i])
    requires t.anchorHash == NULL_HASH && t.anchorInteger == 0
    ensures TransitionAdmitted(sc, t)
  {
    hide TransitionFormat, Text, BallotFormat, ListOf, BareBallots;
    NamesValid(t.next);
    BareBallotsValid(names);
    TransitionValid(t, VERSION);
    TransitionSize(t, VERSION, names);
  }

  lemma TransitionsByFormat(sc: Schema)
    requires sc.metadata.transition == TransitionFormat
    ensures TransitionAdmitted(sc, NO_TRANSITION)
    ensures TransitionAdmitted(sc, PlainTransition(1, NULL_HASH, 0, 5, Validators(4), Validators(3)))
  {
    hide Text, Validator, TransitionAdmitted, TransitionFormat;
    ValidatorTexts(3);
    ValidatorTexts(4);
    assert NO_TRANSITION.votes == BareBallots([]);
    TransitionByFormat(sc, NO_TRANSITION, []);
    TransitionByFormat(sc, PlainTransition(1, NULL_HASH, 0, 5, Validators(4), Validators(3)), Validators(3));
  }

  lemma ProofsByFormat(sc: Schema)
    requires sc.parts.pratt == PrattFormat() && sc.metadata.genesis == GenesisFormat
    ensures PrattAdmitted(sc, GENESIS_PRATT) && PrattAdmitted(sc, ThreePratt())
    ensures sc.metadata.genesis(VERSION).valid(GenesisConfiguration())
    ensures |sc.metadata.genesis(VERSION).render(GenesisConfiguration())| < 3000
  {
    hide PrattFormat, GenesisFormat, Text, Validator;
    PlainText(GENESIS_OWNER);
    PlainText(GENESIS_MESSAGE);
    ValidatorTexts(4);
    ValidatorText(0);
    PrattFits(GENESIS_PRATT);
    PrattFits(ThreePratt());
    GenesisFits(GenesisConfiguration(), VERSION);
  }

  lemma VotesAdmitted(sc: Schema)
    requires sc.parts.finalization == FinalizationFormat() && sc.metadata.transition == TransitionFormat
    requires sc.parts.pratt == PrattFormat() && sc.metadata.genesis == GenesisFormat
    ensures AdmitsVotes(sc)
  {
    hide FinalizationFormat, TransitionFormat, PrattFormat, GenesisFormat, CertificateAdmitted, TransitionAdmitted, PrattAdmitted,
         Validators, BareVotes, BareBallots, ThreePratt, GenesisConfiguration;
    TransitionsByFormat(sc);
    ProofsByFormat(sc);
    forall target: Hash256
      ensures CertificateAdmitted(sc, SignedCertificate(Validators(3), target))
      ensures CertificateAdmitted(sc, VotedCertificate(DEVELOPMENT_RULE, DEVELOPERS, target))
    {
      CertificateByFormat(sc, target);
    }
  }

  lemma WireAdmitsVotes(sc: Schema)
    requires sc == Wire()
    ensures AdmitsVotes(sc)
  {
    hide *;
    PartFields(sc);
    MetadataFields(sc);
    VotesAdmitted(sc);
  }

  /** The formats of the protocol are ready. */
  lemma WireReady(sc: Schema)
    requires sc == Wire()
    ensures Ready(sc)
  {
    hide Wire, OmitsUnwritten, AdmitsPlain, SmallPlain, AdmitsVotes, LawfulSchema;
    WireOmitsUnwritten(sc);
    WireAdmitsAbsent(sc);
    WireAdmitsPlain(sc);
    WireSmallPlain(sc);
    WireAdmitsVotes(sc);
  }

  // ---------------------------------------------------------------- the records

  const GENESIS_OWNER := "pcdev1_genesis"
  const GENESIS_MESSAGE := "genesis"
  const DEVELOPERS: seq<Address> := ["pcdev1_validator_a", "pcdev1_validator_b"]
  const GENESIS_PRATT := Pratt(2, 0, [], GENESIS_OWNER, [])

  function GenesisConfiguration(): GenesisConfig {
    GenesisConfig(Validators(4), GENESIS_MESSAGE)
  }

  /** 2 is a primitive root modulo 3. */
  function ThreePratt(): Pratt {
    Pratt(3, 2, [Factor(2, 1)], Validator(0), [])
  }

  /** A verifier to whom every signature is good; epoch votes only for this predecessor. */
  function Trusting(base: Verifier, anchor: Hash256): Verifier {
    base.(certificate := (f: Finalization, t: Hash256, p: Hash256, n: u64, vs: seq<Address>) => true,
          developmentVotes := (votes: seq<FinalizationVote>, t: Hash256) => true,
          legacyFinalization := (r: Record, vs: seq<Address>) => false,
          prattSigned := (p: Pratt, previous: Hash256) => true,
          lottery := (h: Header, l: Lottery, t: Hash256, vs: seq<Address>) => true,
          endpoints := (us: seq<EndpointUpdate>, vs: seq<Address>, p: Hash256, n: u64) => true,
          applications := (xs: seq<Application>, p: Hash256, n: u64) => true,
          bindings := (bs: seq<WorkBinding>, p: Hash256, n: u64) => true,
          epochBallot := (p: Hash256, n: u64, e: u64, a: u64, next: seq<Address>, b: Ballot) => p == anchor)
  }

  /** Every signature but those of certificates is good to this verifier, and it knows no legacy
      certificates. */
  ghost predicate Believes(v: Verifier) {
    && (forall votes, t: Hash256 :: v.developmentVotes(votes, t)) && (forall p, previous: Hash256 :: v.prattSigned(p, previous))
    && (forall r, vs :: !v.legacyFinalization(r, vs))
    && (forall us, vs, p: Hash256, n: u64 :: v.endpoints(us, vs, p, n))
    && (forall xs, p: Hash256, n: u64 :: v.applications(xs, p, n)) && (forall bs, p: Hash256, n: u64 :: v.bindings(bs, p, n))
  }

  lemma TrustingBelieves(base: Verifier, anchor: Hash256)
    ensures Believes(Trusting(base, anchor))
  {
  }

  /** A prime record certified under its own subject hash. */
  function CertifiedPrime(v: Verifier, h: Header, p: Pratt, g: GenesisConfig, rule: string, names: seq<Address>): Record {
    PlainPrime(h, p, g, VotedCertificate(rule, names, SubjectHash(v, PlainPrime(h, p, g, NO_FINALIZATION))))
  }

  function Genesis(v: Verifier): Record {
    CertifiedPrime(v, Header(VERSION, 0, NULL_HASH, 2), GENESIS_PRATT, GenesisConfiguration(), DEVELOPMENT_RULE, DEVELOPERS)
  }

  /** Integer 3, certified by three of the four validators. */
  function Three(v: Verifier): Record {
    CertifiedPrime(v, Header(VERSION, 1, RecordHash(v, Genesis(v)), 3), ThreePratt(), NO_GENESIS, SIGNED_RULE, Validators(3))
  }

  function FirstStore(v: Verifier): seq<Entry> {
    [EntryOf(v, Genesis(v)), EntryOf(v, Three(v))]
  }

  /** The records depend on the hash and the formats only. */
  lemma SameFirstRecords(base: Verifier, a: Hash256, b: Hash256)
    ensures Genesis(Trusting(base, a)) == Genesis(Trusting(base, b)) && Three(Trusting(base, a)) == Three(Trusting(base, b))
    ensures RecordHash(Trusting(base, a), Three(Trusting(base, a))) == RecordHash(Trusting(base, b), Three(Trusting(base, b)))
  {
    hide SubjectBytes, Serialize, PlainPrime, VotedCertificate, Validators, GenesisConfiguration, ThreePratt;
  }

  lemma DeveloperTexts()
    ensures Text().valid(DEVELOPERS[0]) && Text().valid(DEVELOPERS[1])
  {
    hide Text;
    PlainText(DEVELOPERS[0]);
    PlainText(DEVELOPERS[1]);
  }

  // ---------------------------------------------------------------- stored

  lemma PrimeSize(sc: Schema, h: Header, p: Pratt, g: GenesisConfig, f: Finalization)
    requires SmallPlain(sc) && h.version == VERSION && |sc.parts.pratt.render(p)| < 1000
    requires h.height == 0 ==> |sc.metadata.genesis(VERSION).render(g)| < 3000
    requires |sc.metadata.transition(VERSION).render(NO_TRANSITION)| < 3000 && |sc.parts.finalization.render(f)| < 2000
    ensures 1 <= |Serialize(sc, PlainPrime(h, p, g, f), true)| <= MAX_PAYLOAD
  {
    HeaderSize(PRIME_TAG, h);
    hide SerializeHeader;
  }

  lemma WrittenPrime(h: Header, p: Pratt, g: GenesisConfig, rule: string, votes: seq<FinalizationVote>)
    requires h.version == VERSION && (h.height != 0 ==> g == NO_GENESIS) && !CarriesRoundChanges(rule)
    ensures Written(PlainPrime(h, p, g, Finalization(rule, [], votes))) == PlainPrime(h, p, g, Finalization(rule, [], votes))
  {
  }

  lemma PrimeIsTaken(v: Verifier, r: Record, h: Header, p: Pratt, g: GenesisConfig, f: Finalization)
    requires SchemaOk(v.schema) && AdmitsPlain(v.schema) && SmallPlain(v.schema) && h.version == VERSION
    requires r == PlainPrime(h, p, g, f) && Written(r) == r
    requires PrattAdmitted(v.schema, p) && CertificateAdmitted(v.schema, f) && TransitionAdmitted(v.schema, NO_TRANSITION)
    requires if h.height == 0 then v.schema.metadata.genesis(VERSION).valid(g) && |v.schema.metadata.genesis(VERSION).render(g)| < 3000
             else g == NO_GENESIS
    ensures Real(v, r) && StoreTakes(v, r)
  {
    hide AdmitsPlain, SmallPlain, Serialize, OmitsUnwritten, LawfulSchema, PrimePartsValid, StoreTakes, PrimeFormat, Written, Decoded;
    var sc := v.schema;
    PlainPrimeValid(sc, true, h, p, g, f);
    PrimeValidIff(sc, true, r);
    ValidHolds(PrimeFormat(sc, true, true), r);
    PrimeSize(sc, h, p, g, f);
    StoreTakesIff(v, r);
  }

  lemma FirstAreTaken(v: Verifier)
    requires Ready(v.schema)
    ensures Real(v, Genesis(v)) && StoreTakes(v, Genesis(v)) && Written(Genesis(v)) == Genesis(v)
    ensures Real(v, Three(v)) && StoreTakes(v, Three(v)) && Written(Three(v)) == Three(v)
  {
    hide SchemaOk, AdmitsPlain, SmallPlain, Real, StoreTakes, Validators, SubjectHash, RecordHash, Written, PlainPrime, BareVotes,
         CertificateAdmitted, TransitionAdmitted, PrattAdmitted, CarriesRoundChanges, ThreePratt, GenesisConfiguration;
    RulesWithoutChanges();
    var h, g := Header(VERSION, 0, NULL_HASH, 2), GenesisConfiguration();
    var t := SubjectHash(v, PlainPrime(h, GENESIS_PRATT, g, NO_FINALIZATION));
    WrittenPrime(h, GENESIS_PRATT, g, DEVELOPMENT_RULE, BareVotes(DEVELOPERS, t));
    PrimeIsTaken(v, Genesis(v), h, GENESIS_PRATT, g, VotedCertificate(DEVELOPMENT_RULE, DEVELOPERS, t));
    var h3 := Header(VERSION, 1, RecordHash(v, Genesis(v)), 3);
    var t3 := SubjectHash(v, PlainPrime(h3, ThreePratt(), NO_GENESIS, NO_FINALIZATION));
    WrittenPrime(h3, ThreePratt(), NO_GENESIS, SIGNED_RULE, BareVotes(Validators(3), t3));
    assert CertificateAdmitted(v.schema, SignedCertificate(Validators(3), t3));
    PrimeIsTaken(v, Three(v), h3, ThreePratt(), NO_GENESIS, VotedCertificate(SIGNED_RULE, Validators(3), t3));
  }

  // ---------------------------------------------------------------- accepted

  lemma Developers()
    ensures IsProtocolAddress(GENESIS_OWNER) && IsDevelopmentAddress(DEVELOPERS[0]) && IsDevelopmentAddress(DEVELOPERS[1])
    ensures !IsSignatureAddress(DEVELOPERS[0]) && !IsSignatureAddress(DEVELOPERS[1]) && DEVELOPERS[0] != DEVELOPERS[1]
  {
    assert DEVELOPERS[0][17] != DEVELOPERS[1][17];
  }

  lemma QuorumOfThree(target: Hash256)
    ensures QuorumVotes(BareVotes(Validators(3), target), Validators(4)) && CanonicalSet(Validators(4))
    ensures ChangesCarried(SignedCertificate(Validators(3), target))
  {
    hide Validator, IsSignatureAddress, Less;
    ValidatorsCanonical(4);
    var votes, all := BareVotes(Validators(3), target), Validators(4);
    forall i | 0 <= i < |votes|
      ensures votes[i].validator == all[i] && votes[i].validator in all
    {
    }
    assert |SIGNED_RULE| != |ROUNDS_RULE|;
  }

  lemma TwoIsProved()
    ensures NumberTheory.PrattAccepts(PrattProofOf(GENESIS_PRATT))
  {
  }

  lemma ThreeIsProved()
    ensures NumberTheory.PrattAccepts(PrattProofOf(ThreePratt()))
  {
    hide Validator;
    var fs := [Factorization.PrimePower(2, 1)];
    assert PrattProofOf(ThreePratt()).factors == fs;
    assert Prime(2) && Prime(3) by { assert 3 % 2 == 1; }
    assert fs[1..] == [];
    assert Factorization.Value(fs) == 2;
    assert Factorization.Canonical(fs);
    var base := NumberTheory.PrattComplete(3, fs);
  }

  lemma PlainMetadata(v: Verifier, s: State, r: Record)
    requires Believes(v) && r.header.version == VERSION
    requires r.metadata == Metadata(NO_TRANSITION, [], NO_POLICY, [], [])
    ensures MetadataOk(v, s, r) && PolicyApplies(r.metadata.policy, r.header.integer)
  {
  }

  lemma PlainExecutes(v: Verifier, s: State, r: Record, frontier: nat)
    requires AssetsOk(s.accounts.money, frontier) && r.header.integer == frontier + 1 && r.body == PLAIN_BODY
    ensures Execute(v, s, r).Some?
  {
    hide Execute, AssetsOk;
    OnlyTransactionsRefuse(v, s, r, frontier);
  }

  lemma GenesisPayload(v: Verifier)
    requires Believes(v)
    ensures Expected(EMPTY, Genesis(v)) && PayloadOk(v, EMPTY, Genesis(v))
  {
    hide SubjectBytes, CanonicalSet, Validators, IsProtocolAddress, IsDevelopmentAddress, NumberTheory.PrattAccepts;
    TwoIsProved();
    Developers();
    ValidatorsCanonical(4);
  }

  /** The genesis record is accepted. */
  lemma GenesisReplays(v: Verifier) returns (s: State)
    requires Believes(v)
    ensures Replay1(v, EMPTY, Genesis(v)) == Some(s) && StartedOk(s)
    ensures s.height == 0 && s.frontier == 2 && s.tip == RecordHash(v, Genesis(v)) && s.epoch == 0
    ensures s.validators == Validators(4) && s.epochs == map[0 := Validators(4)] && s.feeParticipants == []
  {
    hide PayloadOk, Execute, MetadataOk, AssetsOk, HoldersOk, EpochsOk, NamesOk, RecordHash, SubjectBytes, Validators, Signers,
         Believes;
    var r := Genesis(v);
    GenesisPayload(v);
    var i := Install(EMPTY, r);
    InstalledOk(v, EMPTY, r);
    PlainMetadata(v, i, r);
    PlainExecutes(v, i, r, 1);
    ExecuteFields(v, i, r);
    ReplayStepOk(v, EMPTY, r);
    s := Replay1(v, EMPTY, r).value;
    GenesisNotes(v, r);
  }

  lemma GenesisNotes(v: Verifier, r: Record)
    requires r == Genesis(v)
    ensures AddSigners([], Signers(r)) == []
  {
    hide IsSignatureAddress, SubjectHash;
    Developers();
    var names := Signers(r);
    assert names == DEVELOPERS;
    assert names[1..] == [DEVELOPERS[1]] && names[1..][1..] == [];
  }

  lemma ThreePayload(v: Verifier, s: State)
    requires Believes(v) && FinalizationOk(v, Three(v), Validators(4))
    requires s.started && s.height == 0 && s.frontier == 2 && s.tip == RecordHash(v, Genesis(v))
    requires s.validators == Validators(4)
    ensures Expected(s, Three(v)) && PayloadOk(v, s, Three(v))
  {
    hide SubjectBytes, CanonicalSet, Validators, IsProtocolAddress, IsSignatureAddress, NumberTheory.PrattAccepts,
         FinalizationOk, BareVotes, Validator, Genesis;
    ThreeIsProved();
    ValidatorSigns(0);
    SignerIsProtocol(Validator(0));
  }

  lemma ThreeCertified(v: Verifier, base: Verifier, anchor: Hash256)
    requires v == Trusting(base, anchor)
    ensures FinalizationOk(v, Three(v), Validators(4))
  {
    hide SubjectBytes, CanonicalSet, Validators, QuorumVotes, BareVotes, Genesis, ChangesCarried, ThreePratt;
    var h := Header(VERSION, 1, RecordHash(v, Genesis(v)), 3);
    QuorumOfThree(SubjectHash(v, PlainPrime(h, ThreePratt(), NO_GENESIS, NO_FINALIZATION)));
  }

  lemma SignerIsProtocol(a: Address)
    requires IsSignatureAddress(a)
    ensures IsProtocolAddress(a)
  {
  }

  /** So is the record of 3. */
  lemma ThreeReplays(v: Verifier, t: State) returns (s: State)
    requires Believes(v) && FinalizationOk(v, Three(v), Validators(4))
    requires StartedOk(t) && t.height == 0 && t.frontier == 2 && t.tip == RecordHash(v, Genesis(v))
    requires t.validators == Validators(4) && t.epoch == 0 && t.feeParticipants == []
    ensures Replay1(v, t, Three(v)) == Some(s) && StartedOk(s)
    ensures s.height == 1 && s.frontier == 3 && s.tip == RecordHash(v, Three(v)) && s.epoch == 0 && s.validators == Validators(4)
    ensures forall a :: a in s.feeParticipants ==> a in Validators(3)
  {
    hide PayloadOk, Execute, MetadataOk, AssetsOk, HoldersOk, EpochsOk, NamesOk, RecordHash, SubjectBytes, Validators, Signers,
         Genesis, AddSigners, FinalizationOk, Believes;
    var r := Three(v);
    ThreePayload(v, t);
    PlainMetadata(v, t, r);
    PlainExecutes(v, t, r, 2);
    ExecuteFields(v, t, r);
    StartedIsLedger(t);
    ReplayStepOk(v, t, r);
    s := Replay1(v, t, r).value;
    ThreeNotes(v, r);
  }

  lemma ThreeNotes(v: Verifier, r: Record)
    requires r == Three(v)
    ensures forall a :: a in AddSigners([], Signers(r)) ==> a in Validators(3)
    ensures !DistributesRewards(r) && forall s: State :: !DistributesFees(s, r)
  {
    hide IsSignatureAddress, SubjectHash, Validator, RecordHash, Genesis;
    AddSignersOk([], Signers(r));
    var names := Signers(r);
    assert names == Validators(3);
  }

  /** The two records load. */
  lemma FirstLoads(v: Verifier, base: Verifier, anchor: Hash256) returns (t: State, s: State)
    requires Ready(base.schema) && v == Trusting(base, anchor) && LawfulSchema(v.schema)
    ensures LoadStore(v, FirstStore(v)[..1]) == Some(t) && StartedOk(t)
    ensures t.height == 0 && t.frontier == 2 && t.tip == RecordHash(v, Genesis(v)) && t.epoch == 0
    ensures t.validators == Validators(4) && t.epochs == map[0 := Validators(4)]
    ensures LoadStore(v, FirstStore(v)) == Some(s) && StartedOk(s)
    ensures s.height == 1 && s.frontier == 3 && s.tip == RecordHash(v, Three(v)) && s.epoch == 0 && s.validators == Validators(4)
    ensures forall a :: a in s.feeParticipants ==> a in Validators(3)
  {
    hide SchemaOk, LawfulSchema, AdmitsPlain, SmallPlain, AdmitsVotes, StartedOk, Real, StoreTakes, Validators, RecordHash, LoadEntry,
         Replay1, EntryOf, Genesis, Three, FinalizationOk, Believes;
    FirstAreTaken(v);
    TrustingBelieves(base, anchor);
    ThreeCertified(v, base, anchor);
    t := GenesisReplays(v);
    s := ThreeReplays(v, t);
    LoadTaken(v, EMPTY, Genesis(v));
    LoadTaken(v, t, Three(v));
    assert FirstStore(v)[..1] == [] + [EntryOf(v, Genesis(v))];
    LoadOneMore(v, [], EntryOf(v, Genesis(v)));
    assert FirstStore(v) == FirstStore(v)[..1] + [EntryOf(v, Three(v))];
    LoadOneMore(v, FirstStore(v)[..1], EntryOf(v, Three(v)));
  }
}
