/**
 The system of validators with ledgers is not empty: it starts from a genesis record of four
 validators, and its nodes append the record of integer 3 once three of them have voted for it.
 */
module RunWitness {
  import opened Machine
  import opened Addresses
  import opened Records
  import opened FieldFormats
  import opened RecordForm
  import opened SubjectIdentity
  import opened WrittenForm
  import opened WireFacts
  import opened Witnesses
  import opened Ledger
  import opened LedgerReplay
  import opened LedgerStore
  import opened LedgerAgreement
  import opened LedgerCertificates
  import opened LedgerRuns
  import opened FirstRecords
  import VoteRules
  import Certificates
  import Agreement

  /** The protocol's formats are among those the results about runs are for. */
  lemma WireFormatsOk(sc: Schema)
    requires sc == Wire()
    ensures FormatsOk(sc) && Ready(sc)
  {
    hide Wire, OmitsUnwritten, LawfulSchema, Ready;
    WireOmitsUnwritten(sc);
    WireAdmitsAbsent(sc);
    WireReady(sc);
  }

  function AllSealed(): Seals {
    Seals((vote: FinalizationVote) => true, (c: RoundChangeVote, locks: bool) => true)
  }

  /** The genesis subject and a node that has it. */
  function FirstSubject(v: Verifier): Certificates.Subject {
    SubjectOf(v.schema, Certificates.Zero, Genesis(v))
  }

  function FirstNode(v: Verifier): VoteRules.Node {
    VoteRules.Node([FirstSubject(v)], map[], map[], map[], [])
  }

  function FirstWorld(v: Verifier): LedgerWorld {
    LedgerWorld(Agreement.World(map a | a in Validators(4) :: FirstNode(v), {}), map a | a in Validators(4) :: [Genesis(v)])
  }

  lemma GenesisIsGenesis(v: Verifier)
    ensures Agreement.IsGenesis(FirstSubject(v))
  {
    hide SubjectBytes, SubjectHash, Validators, CanonicalSet;
    ValidatorsCanonical(4);
  }

  lemma ReplayGenesis(v: Verifier) returns (s: State)
    requires Believes(v)
    ensures Replay(v, [Genesis(v)]) == Some(s) && StartedOk(s)
    ensures s.height == 0 && s.frontier == 2 && s.tip == RecordHash(v, Genesis(v)) && s.epoch == 0
    ensures s.validators == Validators(4) && s.feeParticipants == []
  {
    hide Believes, Replay1, StartedOk, RecordHash, Validators, Genesis;
    s := GenesisReplays(v);
    assert [Genesis(v)][..0] == [];
    assert Replay(v, []) == Some(EMPTY);
  }

  /** The system starts. */
  lemma SystemStarts(base: Verifier, v: Verifier)
    requires Ready(base.schema) && LawfulSchema(base.schema)
    requires v == Verifying(Trusting(base, NULL_HASH), AllSealed()) && Believes(v)
    ensures Starts(Trusting(base, NULL_HASH), AllSealed(), Genesis(v), FirstWorld(v))
  {
    hide Ready, LawfulSchema, Believes, Verifying, Replay, Storable, Written, Real, StoreTakes, Validators, FirstNode;
    var s := ReplayGenesis(v);
    FirstAreTaken(v);
    FirstSchemaOk(base.schema);
    TakenIsStorable(v, Genesis(v));
    GenesisIsGenesis(v);
    GenesisVersion(v);
    FirstNodeIs(v);
  }

  lemma FirstSchemaOk(sc: Schema)
    requires Ready(sc)
    ensures SchemaOk(sc)
  {
    hide AdmitsPlain, SmallPlain, AdmitsVotes;
  }

  lemma GenesisVersion(v: Verifier)
    ensures Genesis(v).header == Header(VERSION, 0, NULL_HASH, 2) && Three(v).header.version == VERSION
  {
    hide SubjectHash, RecordHash;
  }

  lemma FirstNodeIs(v: Verifier)
    ensures FirstNode(v) == VoteRules.Node([FirstSubject(v)], map[], map[], map[], [])
  {
  }

  // ---------------------------------------------------------------- a record is appended

  /** Three votes for the record of 3. */
  ghost function ThreeVotes(b: Verifier, v: Verifier): set<Certificates.Message> {
    var r := Three(v);
    set i | 0 <= i < |r.finalization.votes| ::
      Certificates.VoteMsg(VoteOf(SubjectOf(b.schema, Certificates.Of(FirstSubject(v)), r), SubjectHash(b, r), r.finalization.votes[i]))
  }

  lemma ThreeFields(v: Verifier)
    ensures var r := Three(v);
            && r.PrimeRecord? && r.finalization == SignedCertificate(Validators(3), SubjectHash(v, r))
            && r.header == Header(VERSION, 1, RecordHash(v, Genesis(v)), 3)
  {
    hide Genesis, RecordHash, Validators, BareVotes, Serialize;
  }

  lemma ThreeGenuine(b: Verifier, v: Verifier)
    requires LawfulSchema(b.schema) && v.schema == b.schema && v.hash == b.hash
    ensures Genuine(b, AllSealed(), ThreeVotes(b, v), Certificates.Of(FirstSubject(v)), Three(v))
  {
    hide LawfulSchema, SubjectHash, SubjectOf, Three, FirstSubject, Validators, BareVotes, LockNamed, LockedRecord, VoteOf;
    ThreeFields(v);
    var r := Three(v);
    assert r.finalization.roundChanges == [];
    assert NamedBytes(b, r) == {SubjectBytes(b.schema, r)};
  }

  lemma ThreeVerified(b: Verifier, v: Verifier)
    requires LawfulSchema(b.schema) && v == Verifying(b, AllSealed())
    ensures FinalizationOk(v, Three(v), Validators(4))
  {
    hide LawfulSchema, SubjectBytes, Three, Validators, BareVotes, Verifying, FinalizationOk, CanonicalSet;
    ThreeFields(v);
    var r := Three(v);
    var target := SubjectHash(v, r);
    QuorumOfThree(target);
    RulesDiffer();
    ThreeRounds(target);
    assert CertificateVerified(b, AllSealed(), r.finalization, target, r.header.previous, r.header.integer, Validators(4));
    VerdictIsCheck(b, AllSealed(), r, Validators(4));
  }

  lemma ThreeRounds(target: Hash256)
    ensures forall i :: 0 <= i < 3 ==> BareVotes(Validators(3), target)[i].target == target
                                       && BareVotes(Validators(3), target)[i].round == 1
    ensures |BareVotes(Validators(3), target)| == 3
  {
  }

  /** With those votes sent, a node of the system appends the record. */
  lemma NodeAppends(base: Verifier, b: Verifier, v: Verifier)
    requires Ready(base.schema) && LawfulSchema(base.schema) && b == Trusting(base, NULL_HASH)
    requires v == Verifying(b, AllSealed()) && Believes(v)
    ensures AppendsRecord(b, AllSealed(), [Genesis(v)], FirstNode(v), ThreeVotes(b, v), Three(v))
  {
    hide Ready, LawfulSchema, Believes, Verifying, Replay, Written, Real, StoreTakes, Validators, Genuine, Append, Replay1, StartedOk,
         RecordHash, Genesis, Three, ThreeVotes, FinalizationOk, FirstSubject;
    var s := ReplayGenesis(v);
    ThreeVerified(b, v);
    var n := ThreeReplays(v, s);
    AppendIsReplay(v, s, Three(v));
    FirstAreTaken(v);
    ThreeGenuine(b, v);
    GenesisVersion(v);
  }

  lemma StillBelieves(base: Verifier, v: Verifier)
    requires LawfulSchema(base.schema) && v == Verifying(Trusting(base, NULL_HASH), AllSealed())
    ensures Believes(v)
  {
    hide LawfulSchema, CertificateVerified;
  }

  /** There is a system of four honest validators that starts, and a record that its nodes
      append once three of them have voted for it. */
  lemma SystemExists(base: Verifier) returns (b: Verifier, g: Record, lw: LedgerWorld, r: Record, net: set<Certificates.Message>)
    requires FormatsOk(base.schema) && Ready(base.schema)
    ensures b.schema == base.schema && b.hash == base.hash && FormatsOk(b.schema)
    ensures Starts(b, AllSealed(), g, lw) && lw.records.Keys == Elements(Validators(4))
    ensures forall a :: a in lw.records ==> AppendsRecord(b, AllSealed(), lw.records[a], lw.world.nodes[a], net, r)
  {
    hide FormatsOk, LawfulSchema, Ready, Starts, AppendsRecord, Genesis, Three, ThreeVotes, Believes, Verifying,
         Validators, FirstNode;
    FormatsLawful(base.schema);
    b := Trusting(base, NULL_HASH);
    var v := Verifying(b, AllSealed());
    StillBelieves(base, v);
    g, lw, r, net := Genesis(v), FirstWorld(v), Three(v), ThreeVotes(b, v);
    SystemStarts(base, v);
    NodeAppends(base, b, v);
  }

  lemma FormatsLawful(sc: Schema)
    requires FormatsOk(sc)
    ensures LawfulSchema(sc)
  {
    hide OmitsUnwritten;
  }
}
