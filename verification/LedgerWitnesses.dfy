/**
 Records that the node appends and its store takes, but that a load from the records reads
 differently: a participant is forgotten, or the record is refused. And a snapshot behind which
 load refuses records that load without it.
 */
module LedgerWitnesses {
  import opened Machine
  import opened Addresses
  import opened ProtocolAddresses
  import opened Records
  import opened Formats
  import opened FieldFormats
  import opened RecordForm
  import opened SubjectIdentity
  import opened WrittenForm
  import opened Witnesses
  import opened StoreFile
  import opened StoreRecovery
  import opened Ledger
  import opened LedgerInvariant
  import opened LedgerReplay
  import opened StoredLedger
  import opened LedgerStore
  import opened Snapshots
  import opened FirstRecords
  import NumberTheory

  /** A state in order on four validators, about to decide 4. */
  ghost predicate BeforeFour(s: State) {
    StartedOk(s) && s.frontier == 3 && s.epoch == 0 && s.validators == Validators(4) && ABSENTEE !in s.feeParticipants
  }

  lemma DeveloperIsProtocol()
    ensures IsProtocolAddress("pcdev1_a") && IsDevelopmentAddress("pcdev1_a")
  {
  }

  // ---------------------------------------------------------------- a record it accepts

  /** A record deciding 4, certified by three of the four validators. */
  function Four(v: Verifier, s: State, c: CommitPhase, t: EpochTransition): Record
    requires s.height + 1 < TWO_64
  {
    var h := Header(VERSION, s.height + 1, s.tip, 4);
    var target := SubjectHash(v, PlainComposite(h, c, t, NO_FINALIZATION));
    PlainComposite(h, c, t, SignedCertificate(Validators(3), target))
  }

  lemma FourIsProved(v: Verifier, r: Record)
    requires r.Composite? && r.division == PLAIN_DIVISION && r.header.integer == 4 && r.body == PLAIN_BODY
    ensures DivisionOk(v, r) && BatchOk(v, r)
  {
    NumberTheory.CompositeProofExact(NumberTheory.CompositeProof(4, 2, 2));
    DeveloperIsProtocol();
  }

  lemma FourExecutes(v: Verifier, s: State, r: Record)
    requires StartedOk(s) && s.frontier == 3 && r.header.integer == 4 && r.body == PLAIN_BODY
    ensures Execute(v, s, r).Some?
  {
    hide Execute, AssetsOk, HoldersOk, EpochsOk, NamesOk;
    OnlyTransactionsRefuse(v, s, r, 3);
  }

  /** The node accepts it whenever it accepts the transition. */
  lemma FourIsAccepted(v: Verifier, s: State, c: CommitPhase, t: EpochTransition, r: Record, base: Verifier, anchor: Hash256)
    requires BeforeFour(s) && s.height + 1 < TWO_64 && v == Trusting(base, anchor) && r == Four(v, s, c, t)
    requires TransitionOk(v, t, s.validators, s.epoch, s.tip, 4)
    ensures Append(v, s, r).Some?
  {
    hide StartedOk, DivisionOk, BatchOk, TransitionOk, Execute, RecordHash, QuorumVotes, CanonicalSet, Validators, BareVotes,
         SubjectBytes, ChangesCarried;
    FourIsProved(v, r);
    FourExecutes(v, s, r);
    QuorumOfThree(SubjectHash(v, PlainComposite(r.header, c, t, NO_FINALIZATION)));
    BeforeFourFields(s);
    assert VersionOk(VERSION, r.metadata);
    assert MetadataOk(v, s, r);
    assert FinalizationOk(v, r, s.validators);
    assert CandidateOk(v, s, r);
    PolicyNeverLate(v, s, r);
  }

  lemma BeforeFourFields(s: State)
    requires BeforeFour(s)
    ensures s.started && s.frontier == s.height + 2 && s.validators != []
  {
  }

  // ---------------------------------------------------------------- and the store takes

  lemma PlainSize(sc: Schema, h: Header, t: EpochTransition, f: Finalization)
    requires SmallPlain(sc) && h.version == VERSION
    requires |sc.metadata.transition(VERSION).render(t)| < 3000 && |sc.parts.finalization.render(f)| < 2000
    ensures 1 <= |Serialize(sc, PlainComposite(h, NO_COMMIT_PHASE, t, f), true)| <= MAX_PAYLOAD
  {
    HeaderSize(COMPOSITE_TAG, h);
    hide SerializeHeader;
  }

  lemma WrittenFour(h: Header, c: CommitPhase, t: EpochTransition, names: seq<Address>, target: Hash256)
    requires h.version == VERSION
    ensures Written(PlainComposite(h, c, t, SignedCertificate(names, target)))
         == PlainComposite(h, NO_COMMIT_PHASE, WrittenTransition(t, VERSION), SignedCertificate(names, target))
  {
    hide BareVotes, WrittenTransition;
    assert |SIGNED_RULE| != |ROUNDS_RULE| && |SIGNED_RULE| != |LOCKED_ROUNDS_RULE|;
  }

  lemma PlainIsTaken(v: Verifier, r: Record, h: Header, t: EpochTransition, f: Finalization)
    requires SchemaOk(v.schema) && AdmitsPlain(v.schema) && SmallPlain(v.schema) && h.version == VERSION
    requires Written(r) == PlainComposite(h, NO_COMMIT_PHASE, t, f) && r.header == h && r.Composite?
    requires v.schema.metadata.transition(VERSION).valid(t) && |v.schema.metadata.transition(VERSION).render(t)| < 3000
    requires v.schema.parts.finalization.valid(f) && |v.schema.parts.finalization.render(f)| < 2000
    ensures Real(v, r) && StoreTakes(v, r)
  {
    hide AdmitsPlain, SmallPlain, Serialize, OmitsUnwritten, LawfulSchema, CompositePartsValid, StoreTakes, CompositeFormat, Written,
         PlainComposite, Decoded;
    var sc, q := v.schema, PlainComposite(h, NO_COMMIT_PHASE, t, f);
    PlainCompositeValid(sc, true, h, t, f);
    CompositeValidIff(sc, true, q);
    ValidHolds(CompositeFormat(sc, true, true), q);
    SerializeWritten(sc, r, true);
    PlainSize(sc, h, t, f);
    StoreTakesIff(v, r);
  }

  /** The record is stored whatever commit phase and anchor it has in memory. */
  lemma FourIsTaken(v: Verifier, s: State, c: CommitPhase, t: EpochTransition, r: Record)
    requires Ready(v.schema) && s.height + 1 < TWO_64 && r == Four(v, s, c, t)
    requires TransitionAdmitted(v.schema, WrittenTransition(t, VERSION))
    ensures Real(v, r) && StoreTakes(v, r)
  {
    hide SchemaOk, AdmitsPlain, SmallPlain, Real, StoreTakes, Validators, SignedCertificate, SubjectHash, WrittenTransition, Written,
         PlainComposite;
    var h := Header(VERSION, s.height + 1, s.tip, 4);
    var target := SubjectHash(v, PlainComposite(h, c, t, NO_FINALIZATION));
    var f := SignedCertificate(Validators(3), target);
    assert CertificateAdmitted(v.schema, f);
    WrittenFour(h, c, t, Validators(3), target);
    PlainKind(h, c, t, f);
    PlainIsTaken(v, r, h, WrittenTransition(t, VERSION), f);
  }

  lemma PlainKind(h: Header, c: CommitPhase, t: EpochTransition, f: Finalization)
    ensures var r := PlainComposite(h, c, t, f);
            r.Composite? && r.header == h && r.metadata.epoch == t && r.commitPhase == c && r.finalization == f
  {
  }

  /** Someone who voted in a commit phase that is not written, and is not among those who
      certified the record. */
  const ABSENTEE: Address := Validator(9)

  lemma AbsenteeUnknown(target: Hash256)
    ensures IsSignatureAddress(ABSENTEE) && ABSENTEE !in VoteNames(BareVotes(Validators(3), target))
  {
    ValidatorSigns(9);
    var names := VoteNames(BareVotes(Validators(3), target));
    forall i | 0 <= i < |names|
      ensures names[i] != ABSENTEE
    {
      assert names[i] == Validator(i) && Validator(i)[7] == HexDigit(i) && ABSENTEE[7] == HexDigit(9);
    }
  }

  /** The state before 4, loaded from the first two records. */
  lemma LoadedBeforeFour(v: Verifier, base: Verifier, anchor: Hash256) returns (s: State)
    requires Ready(base.schema) && v == Trusting(base, anchor) && LawfulSchema(v.schema)
    ensures LoadStore(v, FirstStore(v)) == Some(s) && BeforeFour(s) && s.tip == RecordHash(v, Three(v))
  {
    hide LoadStore, Ready, StartedOk, LawfulSchema, RecordHash, FirstStore, Three, IsSignatureAddress;
    var t;
    t, s := FirstLoads(v, base, anchor);
    AbsenteeUnknown(NULL_HASH);
    assert VoteNames(BareVotes(Validators(3), NULL_HASH)) == Validators(3);
  }

  /** A participant is forgotten: a node with the first two records appends a record certified
      by three of four validators and its store takes it; the records then load to another
      state. */
  lemma ForgottenParticipant(base: Verifier) returns (v: Verifier, store: seq<Entry>, s: State, r: Record)
    requires Ready(base.schema)
    ensures v.schema == base.schema && v.hash == base.hash && |store| == 2 && LawfulSchema(v.schema)
    ensures LoadStore(v, store) == Some(s) && StartedOk(s)
    ensures r.Composite? && r.header.version == VERSION && |r.finalization.votes| == 3
    ensures Append(v, s, r).Some? && Real(v, r) && StoreTakes(v, r)
    ensures LoadStore(v, store + [EntryOf(v, r)]).Some? && LoadStore(v, store + [EntryOf(v, r)]) != Append(v, s, r)
  {
    hide Append, SchemaOk, LawfulSchema, StartedOk, Real, StoreTakes, Validators, BareVotes, SubjectHash, LoadStore, Replay1, EntryOf,
         OmitsUnwritten, AnchorReads, NamesRead, DistributesFees, DistributesRewards, AdmitsPlain, SmallPlain, FirstStore, RecordHash,
         LoadEntry;
    v := Trusting(base, NULL_HASH);
    store := FirstStore(v);
    FirstSchema(v.schema);
    FirstStoreSize(v);
    s := LoadedBeforeFour(v, base, NULL_HASH);
    BeforeFourFields(s);
    var c := CommitPhase(0, NULL_HASH, [], [], [BareBallot(ABSENTEE)]);
    r := Four(v, s, c, NO_TRANSITION);
    FourIsAccepted(v, s, c, NO_TRANSITION, r, base, NULL_HASH);
    assert WrittenTransition(NO_TRANSITION, VERSION) == NO_TRANSITION;
    FourIsTaken(v, s, c, NO_TRANSITION, r);
    PlainAnchor(v, r);
    NobodyDistributes(s, r);
    AbsenteeLost(s, r, c, r.header, SubjectHash(v, PlainComposite(r.header, c, NO_TRANSITION, NO_FINALIZATION)));
    RestartIff(v, store, s, r);
    LoadOneMore(v, store, EntryOf(v, r));
    LoadTaken(v, s, r);
    AppendedIsRead(v, s, s, r);
  }

  lemma FirstSchema(sc: Schema)
    requires Ready(sc)
    ensures SchemaOk(sc) && LawfulSchema(sc) && OmitsUnwritten(sc)
  {
    hide AdmitsPlain, SmallPlain, AdmitsVotes;
  }

  lemma FirstStoreSize(v: Verifier)
    ensures |FirstStore(v)| == 2
  {
    hide EntryOf;
  }

  lemma PlainAnchor(v: Verifier, r: Record)
    requires r.metadata.epoch == NO_TRANSITION
    ensures AnchorReads(v, r)
  {
  }

  lemma NobodyDistributes(s: State, r: Record)
    requires r.body == PLAIN_BODY
    ensures !DistributesFees(s, r) && !DistributesRewards(r)
  {
  }

  lemma AbsenteeLost(s: State, r: Record, c: CommitPhase, h: Header, target: Hash256)
    requires ABSENTEE !in s.feeParticipants && c.votes == [BareBallot(ABSENTEE)] && h.version == VERSION
    requires r == PlainComposite(h, c, NO_TRANSITION, SignedCertificate(Validators(3), target))
    ensures !NamesRead(s.feeParticipants, r)
  {
    hide Validators, BareVotes, IsSignatureAddress;
    AbsenteeUnknown(target);
    WrittenFour(h, c, NO_TRANSITION, Validators(3), target);
    assert BallotNames(c.votes) == [ABSENTEE];
    assert ABSENTEE in UnwrittenSigners(r);
    assert BallotNames([]) == [] && ChangeNames([]) == [];
    assert Signers(Written(r)) == VoteNames(BareVotes(Validators(3), target));
  }

  // ---------------------------------------------------------------- an anchor that is not written

  /** A hash that is neither absent nor the given one. */
  function Elsewhere(tip: Hash256): (h: Hash256)
    ensures h != tip && h != NULL_HASH
  {
    if tip[0] == 1 then
      var h := [2] + Zeros(31);
      assert h[0] != tip[0] && h[0] != NULL_HASH[0];
      h
    else
      var h := [1] + Zeros(31);
      assert h[0] != tip[0] && h[0] != NULL_HASH[0];
      h
  }

  lemma ThreeBallots()
    ensures QuorumOf(BareBallots(Validators(3)), Validators(4))
  {
    hide Validator, IsSignatureAddress, Less;
    ValidatorsCanonical(4);
    var votes, all := BareBallots(Validators(3)), Validators(4);
    forall i | 0 <= i < |votes|
      ensures votes[i].validator == all[i] && votes[i].validator in all
    {
    }
  }

  /** A record is refused: its transition names a predecessor its votes are for, which versions
      before 14 do not write. A node with the first two records appends it and its store takes
      it; the records then do not load. */
  lemma RefusedOnReload(base: Verifier) returns (v: Verifier, store: seq<Entry>, s: State, r: Record)
    requires Ready(base.schema)
    ensures v.schema == base.schema && v.hash == base.hash && |store| == 2 && LawfulSchema(v.schema)
    ensures LoadStore(v, store) == Some(s) && StartedOk(s)
    ensures r.Composite? && r.header.version == VERSION && |r.finalization.votes| == 3
    ensures r.metadata.epoch.anchorHash != NULL_HASH && r.metadata.epoch.anchorHash != s.tip
    ensures Append(v, s, r).Some? && Real(v, r) && StoreTakes(v, r)
    ensures LoadStore(v, store + [EntryOf(v, r)]).None?
  {
    hide Append, SchemaOk, LawfulSchema, StartedOk, Real, StoreTakes, Validators, BareVotes, BareBallots, SubjectHash,
         LoadStore, Replay1, EntryOf, OmitsUnwritten, AnchorReads, AdmitsPlain, SmallPlain, CanonicalSet, QuorumOf, Elsewhere,
         FirstStore, RecordHash, LoadEntry, Three;
    var first := Trusting(base, NULL_HASH);
    var anchor := Elsewhere(RecordHash(first, Three(first)));
    v := Trusting(base, anchor);
    store := FirstStore(v);
    FirstSchema(v.schema);
    FirstStoreSize(v);
    s := LoadedBeforeFour(v, base, anchor);
    SameFirstRecords(base, NULL_HASH, anchor);
    BeforeFourFields(s);
    var t := PlainTransition(1, anchor, 4, 5, Validators(4), Validators(3));
    ThreeBallots();
    ValidatorsCanonical(4);
    r := Four(v, s, NO_COMMIT_PHASE, t);
    FourIsAccepted(v, s, NO_COMMIT_PHASE, t, r, base, anchor);
    assert WrittenTransition(t, VERSION) == PlainTransition(1, NULL_HASH, 0, 5, Validators(4), Validators(3));
    FourIsTaken(v, s, NO_COMMIT_PHASE, t, r);
    AnchorLost(v, r);
    LoadOneMore(v, store, EntryOf(v, r));
    LoadTaken(v, s, r);
    AppendedIsRead(v, s, s, r);
  }

  lemma AnchorLost(v: Verifier, r: Record)
    requires r.header.version == VERSION && |r.metadata.epoch.votes| > 0
    requires forall n: u64, e: u64, a: u64, next: seq<Address>, b: Ballot :: !v.epochBallot(r.header.previous, n, e, a, next, b)
    ensures !AnchorReads(v, r)
  {
    assert !BallotsSigned(v, r.metadata.epoch, r.header.previous, r.header.integer) by {
      var t := r.metadata.epoch;
      assert !v.epochBallot(r.header.previous, r.header.integer, t.epoch, t.activation, t.next, t.votes[0]);
    }
  }

  // ---------------------------------------------------------------- a snapshot that stops load

  lemma ForeignSet(t: State, names: seq<Address>) returns (s: State)
    requires StartedOk(t) && t.epoch == 0 && CanonicalSet(names)
    ensures s == t.(validators := names, epochs := map[0 := names]) && StartedOk(s)
  {
    hide AssetsOk, NamesOk, CanonicalSet;
    s := t.(validators := names, epochs := map[0 := names]);
    CanonicalIsNonEmpty(names);
    assert HoldersOk(s);
  }

  lemma ThreeRefused(v: Verifier, base: Verifier, anchor: Hash256, s: State, name: Address)
    requires v == Trusting(base, anchor) && s.validators == [name]
    ensures Replay1(v, s, Three(v)).None?
  {
    hide MetadataOk, Execute, Expected, RecordHash, SubjectBytes, NumberTheory.PrattAccepts, IsProtocolAddress, Genesis;
    assert |Three(v).finalization.votes| == 3;
  }

  lemma StoppedBehind(v: Verifier, base: Verifier, s: State, store: seq<Entry>, name: Address)
    requires Ready(v.schema) && LawfulSchema(v.schema) && v == Trusting(base, NULL_HASH) && store == FirstStore(v)
    requires StartedOk(s) && AtTip(s, store[..1]) && IntegersAscend(store) && s.validators == [name]
    ensures LoadWith(v, store, Some(Save(s))).None?
  {
    hide LoadWith, LoadEntry, AdmitsPlain, AdmitsVotes, SmallPlain, StartedOk, LawfulSchema, Three, Genesis, EntryOf, Replay1, LoadFrom,
         Save, AtTip, IntegersAscend, SchemaOk, Real, StoreTakes, Written;
    var a, b := store[..1], store[1..];
    assert a + b == store && b == [EntryOf(v, Three(v))];
    SnapshotContinues(v, s, a, b);
    FirstAreTaken(v);
    LoadOnlyOne(v, s, EntryOf(v, Three(v)));
    LoadTaken(v, s, Three(v));
    ThreeRefused(v, base, NULL_HASH, s, name);
  }

  /** A snapshot can stop load where the records alone would load: one that names another
      validator set is anchored and passes every check, the record behind it is refused, and
      load does not start over. */
  lemma SnapshotStopsLoad(base: Verifier) returns (v: Verifier, store: seq<Entry>, p: Snapshot)
    requires Ready(base.schema)
    ensures v.schema == base.schema && v.hash == base.hash && |store| == 2 && LawfulSchema(v.schema)
    ensures Usable(store, Some(p)) && LoadStore(v, store).Some? && LoadWith(v, store, Some(p)).None?
  {
    hide LoadStore, LoadFrom, Ready, StartedOk, LawfulSchema, RecordHash, Three, Genesis, FirstStore, Save, CanonicalSet,
         Validator, SchemaOk, OmitsUnwritten, Usable;
    v := Trusting(base, NULL_HASH);
    store := FirstStore(v);
    FirstSchema(v.schema);
    FirstStoreSize(v);
    var t, loaded := FirstLoads(v, base, NULL_HASH);
    ValidatorsCanonical(1);
    var s := ForeignSet(t, Validators(1));
    p := Save(s);
    FirstEntries(v);
    assert Validators(1) == [Validators(1)[0]];
    StoppedBehind(v, base, s, store, Validators(1)[0]);
  }

  lemma FirstEntries(v: Verifier)
    ensures FirstStore(v)[0].integer == 2 && FirstStore(v)[0].height == 0 && FirstStore(v)[0].hash == RecordHash(v, Genesis(v))
    ensures FirstStore(v)[1].integer == 3
  {
    hide RecordHash, Serialize, SubjectHash, Validators;
  }

  lemma LoadOnlyOne(v: Verifier, s: State, e: Entry)
    requires LawfulSchema(v.schema)
    ensures LoadFrom(v, s, [e]) == LoadEntry(v, s, e)
  {
    hide LoadEntry, LawfulSchema;
    assert [e][..0] == [];
    assert LoadFrom(v, s, []) == Some(s);
  }
}
