/**
 Validators with ledgers: every honest node holds records, votes for the candidates its ledger
 accepts and appends what its ledger and its store take. Every run is a run of the consensus
 model, so the ledgers agree.
 */
module LedgerRuns {
  import opened Addresses
  import opened Records
  import opened FieldFormats
  import opened RecordForm
  import opened SubjectIdentity
  import opened WrittenForm
  import opened Ledger
  import opened LedgerReplay
  import opened CertificateIndependence
  import opened StoredLedger
  import opened Participants
  import opened LedgerStore
  import opened LedgerAgreement
  import opened LedgerCertificates
  import Agreement
  import VoteRules
  import Certificates

  // ---------------------------------------------------------------- what nodes accept

  /** The subject is that of a record the ledger of this chain takes as a candidate. */
  ghost predicate AcceptedAs(v: Verifier, records: seq<Record>, r: Record, chain: seq<Certificates.Subject>, s: Certificates.Subject)
    requires LawfulSchema(v.schema)
  {
    && Backs(v, records, chain) && s == SubjectOf(v.schema, VoteRules.Tip(chain), r)
    && r.header.version >= SUBJECT_IDENTITY && Storable(v.schema, Written(r))
    && ValidCandidate(v, Replay(v, records).value, r)
  }

  ghost predicate Accepts(v: Verifier, chain: seq<Certificates.Subject>, s: Certificates.Subject)
    requires LawfulSchema(v.schema)
  {
    exists records, r :: AcceptedAs(v, records, r, chain, s)
  }

  /** The consensus model with the ledger's candidate check. */
  ghost function LedgerConfig(v: Verifier, selector: (Certificates.Hash, nat) -> nat): VoteRules.Config
    requires LawfulSchema(v.schema)
  {
    VoteRules.Config(selector, (chain: seq<Certificates.Subject>, s: Certificates.Subject) => Accepts(v, chain, s))
  }

  // ---------------------------------------------------------------- the system

  datatype LedgerWorld = LedgerWorld(world: Agreement.World, records: map<Address, seq<Record>>)

  /** Nodes vote, change rounds and restart as in the consensus model; they append records; and
      they load, keeping what a snapshot has of the first records and reading the others. */
  datatype LedgerStep =
    | Consensus(step: Agreement.Step)
    | AppendRecord(who: Address, record: Record)
    | Reload(who: Address, kept: nat)

  /** The ledger and the store of a node take the record, whose signatures and hashes are what
      they seem. */
  ghost predicate AppendsRecord(
    base: Verifier, seals: Seals, records: seq<Record>, node: VoteRules.Node, net: set<Certificates.Message>, r: Record)
    requires LawfulSchema(base.schema)
  {
    var v := Verifying(base, seals);
    && records != [] && Replay(v, records).Some? && Append(v, Replay(v, records).value, r).Some?
    && Real(v, r) && StoreTakes(v, r) && r.header.version >= SUBJECT_IDENTITY
    && Genuine(base, seals, net, VoteRules.Tip(node.chain), r)
  }

  function Reread(records: seq<Record>, kept: nat): seq<Record> {
    if kept <= |records| then records[..kept] + WrittenAll(records[kept..]) else records
  }

  ghost function ApplyStep(base: Verifier, seals: Seals, cfg: VoteRules.Config, lw: LedgerWorld, step: LedgerStep): LedgerWorld
    requires LawfulSchema(base.schema)
  {
    match step
    case Consensus(s) => if s.Append? then lw else lw.(world := Agreement.Apply(cfg, lw.world, s))
    case AppendRecord(who, r) =>
      if who !in lw.records || who !in lw.world.nodes
         || !AppendsRecord(base, seals, lw.records[who], lw.world.nodes[who], lw.world.net, r)
      then lw
      else
        var node := lw.world.nodes[who];
        var s := SubjectOf(base.schema, VoteRules.Tip(node.chain), r);
        LedgerWorld(lw.world.(nodes := lw.world.nodes[who := node.(chain := node.chain + [s])]),
                    lw.records[who := lw.records[who] + [r]])
    case Reload(who, kept) =>
      if who !in lw.records || Replay(Verifying(base, seals), Reread(lw.records[who], kept)).None? then lw
      else lw.(records := lw.records[who := Reread(lw.records[who], kept)])
  }

  ghost function RunSteps(base: Verifier, seals: Seals, cfg: VoteRules.Config, lw: LedgerWorld, steps: seq<LedgerStep>): LedgerWorld
    requires LawfulSchema(base.schema)
  {
    if steps == [] then lw
    else ApplyStep(base, seals, cfg, RunSteps(base, seals, cfg, lw, steps[..|steps| - 1]), steps[|steps| - 1])
  }

  /** Every honest node starts from one genesis record. */
  ghost predicate Starts(base: Verifier, seals: Seals, g: Record, lw: LedgerWorld)
    requires LawfulSchema(base.schema)
  {
    && Agreement.Initial(SubjectOf(base.schema, Certificates.Zero, g), lw.world)
    && Replay(Verifying(base, seals), [g]).Some? && g.header.version >= SUBJECT_IDENTITY && Storable(base.schema, Written(g))
    && lw.records.Keys == lw.world.nodes.Keys
    && forall a :: a in lw.records ==> lw.records[a] == [g]
  }

  // ---------------------------------------------------------------- the invariant

  /** The chain of every node is that of its records, and its ledger accepts them. */
  ghost predicate RecordsBack(base: Verifier, seals: Seals, lw: LedgerWorld)
    requires LawfulSchema(base.schema)
  {
    && lw.records.Keys == lw.world.nodes.Keys
    && forall a :: a in lw.records ==>
         lw.records[a] != [] && Backs(Verifying(base, seals), lw.records[a], lw.world.nodes[a].chain)
  }

  lemma VotingKeepsChains(cfg: VoteRules.Config, w: Agreement.World, step: Agreement.Step)
    requires !step.Append?
    ensures Agreement.Apply(cfg, w, step).nodes.Keys == w.nodes.Keys
    ensures forall a :: a in w.nodes ==> Agreement.Apply(cfg, w, step).nodes[a].chain == w.nodes[a].chain
  {
  }

  lemma {:induction false} SetNotEmpty(v: Verifier, records: seq<Record>)
    requires Replay(v, records).Some? && records != [] && records[0].header.version >= SUBJECT_IDENTITY
    ensures Replay(v, records).value.validators != []
  {
    hide Replay1, NextSet, StartedOk, LedgerOk;
    var n := |records| - 1;
    var s, r := Replay(v, records[..n]).value, records[n];
    if n == 0 {
      FirstSet(v, s, r);
    } else {
      SetNotEmpty(v, records[..n]);
      ReplayOk(v, records[..n]);
      LaterSet(v, s, r);
    }
    SetAfterRecord(v, s, r);
  }

  lemma FirstSet(v: Verifier, s: State, r: Record)
    requires s == EMPTY && Replay1(v, s, r).Some? && r.header.version >= SUBJECT_IDENTITY
    ensures NextSet(r).Some? && NextSet(r).value != []
  {
    hide Execute, FinalizationOk, PrattOk, BatchOk, PrattSignatureOk, QuorumOf, BallotsSigned;
  }

  lemma LaterSet(v: Verifier, s: State, r: Record)
    requires Replay1(v, s, r).Some? && s.started
    ensures NextSet(r).Some? ==> CanonicalSet(NextSet(r).value) && NextSet(r).value != []
  {
    hide Execute, PayloadOk, QuorumOf, BallotsSigned;
  }

  // ---------------------------------------------------------------- appending

  lemma SubjectsOneMore(sc: Schema, records: seq<Record>, r: Record)
    ensures SubjectsOf(sc, records + [r]) == SubjectsOf(sc, records) + [SubjectOf(sc, VoteRules.Tip(SubjectsOf(sc, records)), r)]
  {
    hide SubjectOf;
    assert (records + [r])[..|records|] == records;
  }

  lemma TakenIsStorable(v: Verifier, r: Record)
    requires SchemaOk(v.schema) && Real(v, r) && StoreTakes(v, r)
    ensures LawfulSchema(v.schema) && Storable(v.schema, Written(r))
  {
    hide LawfulSchema, OmitsUnwritten, Real, StoreTakes, Storable, Written, Serialize, Decoded;
    StoreTakesIff(v, r);
  }

  lemma AppendBacks(v: Verifier, records: seq<Record>, chain: seq<Certificates.Subject>, r: Record)
    requires LawfulSchema(v.schema) && Backs(v, records, chain) && records != []
    requires r.header.version >= SUBJECT_IDENTITY && Storable(v.schema, Written(r))
    requires Append(v, Replay(v, records).value, r).Some?
    ensures Backs(v, records + [r], chain + [SubjectOf(v.schema, VoteRules.Tip(chain), r)])
  {
    hide LawfulSchema, Append, Replay, Storable, Written, SubjectOf, SubjectsOf;
    AppendExtendsReplay(v, records, r);
    SubjectsOneMore(v.schema, records, r);
  }

  lemma AppendIsCandidate(
    v: Verifier, selector: (Certificates.Hash, nat) -> nat, records: seq<Record>, chain: seq<Certificates.Subject>, r: Record)
    requires LawfulSchema(v.schema) && Backs(v, records, chain) && records != []
    requires r.header.version >= SUBJECT_IDENTITY && Storable(v.schema, Written(r))
    requires Append(v, Replay(v, records).value, r).Some?
    ensures VoteRules.ValidCandidate(LedgerConfig(v, selector), chain, SubjectOf(v.schema, VoteRules.Tip(chain), r))
  {
    hide LawfulSchema, Replay, Storable, Written, SubjectsOf, SubjectBytes, CandidateOk, Execute, Advance, FinalizationOk, StartedOk,
         LedgerOk, CanonicalSet, HasTransition;
    var s := Replay(v, records).value;
    ReplayOk(v, records);
    CandidateFollows(v, s, r);
    CandidateSet(v, s, r);
    assert AcceptedAs(v, records, r, chain, SubjectOf(v.schema, VoteRules.Tip(chain), r));
  }

  lemma CandidateSet(v: Verifier, s: State, r: Record)
    requires Follows(s, r) && MetadataOk(v, s, r)
    ensures NextSet(r).Some? ==> CanonicalSet(NextSet(r).value)
  {
    hide QuorumOf, BallotsSigned, CanonicalSet, PolicyOk, VersionOk;
  }

  lemma AppendFinalizes(base: Verifier, seals: Seals, records: seq<Record>, chain: seq<Certificates.Subject>,
                        net: set<Certificates.Message>, r: Record)
    requires FormatsOk(base.schema) && Backs(Verifying(base, seals), records, chain) && records != []
    requires r.header.version >= SUBJECT_IDENTITY && Storable(base.schema, Written(r))
    requires FinalizationOk(Verifying(base, seals), r, Replay(Verifying(base, seals), records).value.validators)
    requires Genuine(base, seals, net, VoteRules.Tip(chain), r)
    ensures var prev := VoteRules.Tip(chain);
            Certificates.Finalizes(ProofOf(base, prev, r), Certificates.Of(SubjectOf(base.schema, prev, r)), prev, r.header.integer,
                                   Certificates.SetAfter(prev), net)
  {
    hide LawfulSchema, OmitsUnwritten, Replay, Storable, Written, SubjectsOf, SubjectOf, FinalizationOk, CertificateVerified,
         Genuine, Sealed, Certificates.Finalizes, ProofOf, Certificates.SetAfter, SubjectBytes;
    var v, prev := Verifying(base, seals), VoteRules.Tip(chain);
    SetInForce(v, records);
    SetNotEmpty(v, records);
    VerdictIsCheck(base, seals, r, Replay(v, records).value.validators);
    VerifiedIffFinalizes(base, seals, net, prev, r, Replay(v, records).value.validators);
  }

  /** What a node appends is, in the consensus model, a valid candidate with a certificate that
      finalizes it. */
  lemma AppendIsStep(
    base: Verifier, seals: Seals, selector: (Certificates.Hash, nat) -> nat, records: seq<Record>, node: VoteRules.Node,
    net: set<Certificates.Message>, r: Record)
    requires FormatsOk(base.schema) && AppendsRecord(base, seals, records, node, net, r)
    requires Backs(Verifying(base, seals), records, node.chain)
    ensures var prev := VoteRules.Tip(node.chain);
            Agreement.Appends(LedgerConfig(Verifying(base, seals), selector), node, SubjectOf(base.schema, prev, r),
                              ProofOf(base, prev, r), net)
    ensures Backs(Verifying(base, seals), records + [r], node.chain + [SubjectOf(base.schema, VoteRules.Tip(node.chain), r)])
  {
    hide LawfulSchema, OmitsUnwritten, Replay, Storable, Written, Backs, Genuine, Real, StoreTakes, Certificates.Finalizes, ProofOf,
         CandidateOk, Execute, FinalizationOk, Advance, VoteRules.ValidCandidate, NextSet, SubjectBytes;
    var v, prev := Verifying(base, seals), VoteRules.Tip(node.chain);
    TakenIsStorable(v, r);
    AppendBacks(v, records, node.chain, r);
    AppendIsCandidate(v, selector, records, node.chain, r);
    AppendFinalizes(base, seals, records, node.chain, net, r);
  }

  // ---------------------------------------------------------------- reloading

  lemma WrittenTwice(r: Record)
    ensures Written(Written(r)) == Written(r)
  {
  }

  lemma {:induction false} SameSubjects(sc: Schema, a: seq<Record>, b: seq<Record>)
    requires |a| == |b|
    requires forall i, prev :: 0 <= i < |a| ==> SubjectOf(sc, prev, a[i]) == SubjectOf(sc, prev, b[i])
    ensures SubjectsOf(sc, a) == SubjectsOf(sc, b)
  {
    hide SubjectOf;
    if a != [] {
      var n := |a| - 1;
      SameSubjects(sc, a[..n], b[..n]);
    }
  }

  lemma RereadBacks(v: Verifier, records: seq<Record>, chain: seq<Certificates.Subject>, kept: nat)
    requires LawfulSchema(v.schema) && OmitsUnwritten(v.schema) && Backs(v, records, chain) && Replay(v, Reread(records, kept)).Some?
    ensures Backs(v, Reread(records, kept), chain)
  {
    hide LawfulSchema, OmitsUnwritten, Replay, Storable, Written, SubjectsOf, SubjectOf;
    var again := Reread(records, kept);
    forall i | 0 <= i < |records|
      ensures again[i].header.version >= SUBJECT_IDENTITY && Storable(v.schema, Written(again[i]))
      ensures forall prev :: SubjectOf(v.schema, prev, records[i]) == SubjectOf(v.schema, prev, again[i])
    {
      assert again[i] == records[i] || again[i] == Written(records[i]);
      WrittenTwice(records[i]);
      forall prev {
        WrittenSubjectOf(v.schema, prev, records[i]);
      }
    }
    SameSubjects(v.schema, records, again);
  }

  // ---------------------------------------------------------------- runs

  /** Only these records and this chain change. */
  lemma OneNodeBacked(base: Verifier, seals: Seals, lw: LedgerWorld, who: Address, records: seq<Record>, node: VoteRules.Node)
    requires LawfulSchema(base.schema) && RecordsBack(base, seals, lw) && who in lw.records
    requires records != [] && Backs(Verifying(base, seals), records, node.chain)
    ensures RecordsBack(base, seals, LedgerWorld(lw.world.(nodes := lw.world.nodes[who := node]), lw.records[who := records]))
  {
    hide LawfulSchema, Backs, Verifying;
  }

  lemma BackedNodes(base: Verifier, seals: Seals, lw: LedgerWorld)
    requires LawfulSchema(base.schema) && RecordsBack(base, seals, lw)
    ensures lw.records.Keys == lw.world.nodes.Keys
    ensures forall a :: a in lw.records ==>
              lw.records[a] != [] && Backs(Verifying(base, seals), lw.records[a], lw.world.nodes[a].chain)
  {
    hide LawfulSchema, Backs, Verifying;
  }

  lemma AppendApplies(cfg: VoteRules.Config, w: Agreement.World, who: Address, s: Certificates.Subject, proof: Certificates.Proof)
    requires who in w.nodes && Agreement.Appends(cfg, w.nodes[who], s, proof, w.net)
    ensures var node := w.nodes[who];
            Agreement.Apply(cfg, w, Agreement.Append(who, s, proof)) == w.(nodes := w.nodes[who := node.(chain := node.chain + [s])])
  {
    hide Agreement.Appends;
  }

  lemma AppendRefines(base: Verifier, seals: Seals, selector: (Certificates.Hash, nat) -> nat, lw: LedgerWorld, who: Address, r: Record)
    returns (taken: seq<Agreement.Step>)
    requires FormatsOk(base.schema) && RecordsBack(base, seals, lw)
    ensures var cfg := LedgerConfig(Verifying(base, seals), selector);
            var next := ApplyStep(base, seals, cfg, lw, AppendRecord(who, r));
            && RecordsBack(base, seals, next) && next.records.Keys == lw.records.Keys
            && |taken| <= 1 && next.world == if taken == [] then lw.world else Agreement.Apply(cfg, lw.world, taken[0])
  {
    hide LawfulSchema, OmitsUnwritten, Backs, AppendsRecord, SubjectOf, ProofOf, Verifying, LedgerConfig, Agreement.Appends,
         Agreement.Apply, RecordsBack, Replay, Reread;
    BackedNodes(base, seals, lw);
    taken := [];
    if who in lw.records && AppendsRecord(base, seals, lw.records[who], lw.world.nodes[who], lw.world.net, r) {
      var node := lw.world.nodes[who];
      var prev := VoteRules.Tip(node.chain);
      AppendIsStep(base, seals, selector, lw.records[who], node, lw.world.net, r);
      taken := [Agreement.Append(who, SubjectOf(base.schema, prev, r), ProofOf(base, prev, r))];
      AppendApplies(LedgerConfig(Verifying(base, seals), selector), lw.world, who, SubjectOf(base.schema, prev, r),
                    ProofOf(base, prev, r));
      OneNodeBacked(base, seals, lw, who, lw.records[who] + [r], node.(chain := node.chain + [SubjectOf(base.schema, prev, r)]));
    }
  }

  lemma ReloadRefines(base: Verifier, seals: Seals, cfg: VoteRules.Config, lw: LedgerWorld, who: Address, kept: nat)
    requires FormatsOk(base.schema) && RecordsBack(base, seals, lw)
    ensures var next := ApplyStep(base, seals, cfg, lw, Reload(who, kept));
            RecordsBack(base, seals, next) && next.records.Keys == lw.records.Keys && next.world == lw.world
  {
    hide LawfulSchema, OmitsUnwritten, Backs, Replay, Reread, Verifying, Agreement.Apply, AppendsRecord, SubjectOf, RecordsBack;
    BackedNodes(base, seals, lw);
    if who in lw.records && Replay(Verifying(base, seals), Reread(lw.records[who], kept)).Some? {
      RereadBacks(Verifying(base, seals), lw.records[who], lw.world.nodes[who].chain, kept);
      RereadSize(lw.records[who], kept);
      OneNodeBacked(base, seals, lw, who, Reread(lw.records[who], kept), lw.world.nodes[who]);
      assert lw.world.nodes[who := lw.world.nodes[who]] == lw.world.nodes;
    }
  }

  lemma VotingRefines(base: Verifier, seals: Seals, cfg: VoteRules.Config, lw: LedgerWorld, s: Agreement.Step)
    requires LawfulSchema(base.schema) && RecordsBack(base, seals, lw) && !s.Append?
    ensures RecordsBack(base, seals, lw.(world := Agreement.Apply(cfg, lw.world, s)))
  {
    hide LawfulSchema, Backs, Verifying, Agreement.Apply;
    VotingKeepsChains(cfg, lw.world, s);
  }

  /** One step keeps the invariant, and is no step or one step of the consensus model. */
  lemma StepRefines(base: Verifier, seals: Seals, selector: (Certificates.Hash, nat) -> nat, lw: LedgerWorld, step: LedgerStep)
    returns (taken: seq<Agreement.Step>)
    requires FormatsOk(base.schema) && RecordsBack(base, seals, lw)
    ensures var cfg := LedgerConfig(Verifying(base, seals), selector);
            var next := ApplyStep(base, seals, cfg, lw, step);
            && RecordsBack(base, seals, next) && next.records.Keys == lw.records.Keys
            && |taken| <= 1 && next.world == if taken == [] then lw.world else Agreement.Apply(cfg, lw.world, taken[0])
  {
    hide LawfulSchema, OmitsUnwritten, RecordsBack, AppendsRecord, SubjectOf, Verifying, LedgerConfig, Reread, Replay, Agreement.Apply;
    var cfg := LedgerConfig(Verifying(base, seals), selector);
    match step
    case Consensus(s) =>
      taken := if s.Append? then [] else [s];
      if !s.Append? {
        VotingRefines(base, seals, cfg, lw, s);
      }
    case AppendRecord(who, r) =>
      taken := AppendRefines(base, seals, selector, lw, who, r);
    case Reload(who, kept) =>
      taken := [];
      ReloadRefines(base, seals, cfg, lw, who, kept);
  }

  lemma RereadSize(records: seq<Record>, kept: nat)
    ensures |Reread(records, kept)| == |records|
  {
  }

  lemma StartsBack(base: Verifier, seals: Seals, g: Record, lw: LedgerWorld)
    requires LawfulSchema(base.schema) && Starts(base, seals, g, lw)
    ensures RecordsBack(base, seals, lw)
  {
    hide LawfulSchema, Replay, Storable, Written, SubjectOf;
    assert [g][..0] == [];
    assert SubjectsOf(base.schema, []) == [];
    assert SubjectsOf(base.schema, [g]) == [SubjectOf(base.schema, Certificates.Zero, g)];
  }

  lemma RunOneMore(cfg: VoteRules.Config, w: Agreement.World, before: seq<Agreement.Step>, taken: seq<Agreement.Step>)
    requires |taken| <= 1
    ensures Agreement.Run(cfg, w, before + taken)
         == if taken == [] then Agreement.Run(cfg, w, before) else Agreement.Apply(cfg, Agreement.Run(cfg, w, before), taken[0])
  {
    hide Agreement.Apply;
    if taken == [] {
      assert before + taken == before;
    } else {
      assert (before + taken)[..|before|] == before;
    }
  }

  /** Every run of validators with ledgers is a run of the consensus model, and after it the
      chain of every honest node is that of records its ledger accepts. */
  lemma {:induction false} RunBacked(
    base: Verifier, seals: Seals, selector: (Certificates.Hash, nat) -> nat, g: Record, lw: LedgerWorld, steps: seq<LedgerStep>)
    returns (taken: seq<Agreement.Step>)
    requires FormatsOk(base.schema) && Starts(base, seals, g, lw)
    ensures var cfg := LedgerConfig(Verifying(base, seals), selector);
            var end := RunSteps(base, seals, cfg, lw, steps);
            && end.world == Agreement.Run(cfg, lw.world, taken)
            && RecordsBack(base, seals, end) && end.records.Keys == lw.records.Keys
  {
    hide LawfulSchema, OmitsUnwritten, Starts, RecordsBack, ApplyStep, Agreement.Run, Verifying, LedgerConfig;
    var cfg := LedgerConfig(Verifying(base, seals), selector);
    if steps == [] {
      StartsBack(base, seals, g, lw);
      taken := [];
      RunOneMoreNone(cfg, lw.world);
    } else {
      var n := |steps| - 1;
      var before := RunBacked(base, seals, selector, g, lw, steps[..n]);
      var last := StepRefines(base, seals, selector, RunSteps(base, seals, cfg, lw, steps[..n]), steps[n]);
      RunOneMore(cfg, lw.world, before, last);
      taken := before + last;
    }
  }

  lemma RunOneMoreNone(cfg: VoteRules.Config, w: Agreement.World)
    ensures Agreement.Run(cfg, w, []) == w
  {
  }

  /** Ledger agreement: after every run in which few enough validators are faulty, at every
      height two honest nodes have both reached their ledgers are the same: balances, supply,
      nonces, providers, validators, epoch, policy and tip. */
  lemma HonestLedgersAgree(base: Verifier, seals: Seals, selector: (Certificates.Hash, nat) -> nat, g: Record, lw: LedgerWorld,
                           steps: seq<LedgerStep>, end: LedgerWorld, a: Address, b: Address, k: nat)
    requires FormatsOk(base.schema) && Starts(base, seals, g, lw) && a in lw.records && b in lw.records
    requires end == RunSteps(base, seals, LedgerConfig(Verifying(base, seals), selector), lw, steps)
    requires Agreement.FaultsTolerated(end.world)
    ensures a in end.records && b in end.records
    ensures k <= |end.records[a]| && k <= |end.records[b]| ==>
              var v := Verifying(base, seals);
              && Replay(v, end.records[a][..k]).Some? && Replay(v, end.records[b][..k]).Some?
              && SameLedger(Replay(v, end.records[a][..k]).value, Replay(v, end.records[b][..k]).value)
  {
    hide LawfulSchema, OmitsUnwritten, RunSteps, Agreement.Run, Agreement.FaultsTolerated, Verifying, LedgerConfig, Replay,
         SameLedger, Backs, SubjectOf, Storable, Written;
    var v, cfg := Verifying(base, seals), LedgerConfig(Verifying(base, seals), selector);
    var taken := RunBacked(base, seals, selector, g, lw, steps);
    Agreement.ChainAgreement(cfg, SubjectOf(base.schema, Certificates.Zero, g), lw.world, taken, a, b);
    if k <= |end.records[a]| && k <= |end.records[b]| {
      AgreedLedgers(v, end.records[a], end.records[b], end.world.nodes[a].chain, end.world.nodes[b].chain, k);
    }
  }
}
