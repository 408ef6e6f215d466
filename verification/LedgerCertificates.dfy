/**
 Finalization certificates on the fields of a record (src/protocol/records.cpp,
 verifyRoundChangeCertificate and verifyRecordFinalization), and the certificates of the
 consensus model they stand for. Only signatures are left to an oracle.
 */
module LedgerCertificates {
  import opened Machine
  import opened Addresses
  import opened Records
  import opened FieldFormats
  import opened RecordForm
  import opened SubjectIdentity
  import opened WrittenForm
  import opened BatchRoots
  import opened Ledger
  import opened LedgerAgreement
  import Certificates

  /** Which votes and round changes carry a key of their validator and a signature that
      verifies. Round changes are signed with or without the lock they report. */
  datatype Seals = Seals(vote: FinalizationVote -> bool, change: (RoundChangeVote, bool) -> bool)

  const PRIME_KIND_NAME := "PRIME"
  const COMPOSITE_KIND_NAME := "COMPOSITE"

  // ---------------------------------------------------------------- locks

  /** The candidate a round change reports. */
  function LockedRecord(sc: Schema, c: RoundChangeVote): Option<Record>
    requires LawfulSchema(sc)
  {
    if c.lockedPayload == [] then None
    else if c.lockedKind == PRIME_KIND_NAME then Deserialize(sc, false, c.lockedPayload)
    else if c.lockedKind == COMPOSITE_KIND_NAME then Deserialize(sc, true, c.lockedPayload)
    else None
  }

  function LockHash(v: Verifier, d: Record): Hash256 {
    if d.header.version >= SUBJECT_IDENTITY then SubjectHash(v, d) else v.hash(Serialize(v.schema, d, false))
  }

  predicate NoLockData(c: RoundChangeVote) {
    c.lockedKind == "" && c.lockedHash == NULL_HASH && c.lockedPayload == []
  }

  /** The reported candidate decodes and has the reported hash. */
  predicate LockNamed(v: Verifier, c: RoundChangeVote)
    requires LawfulSchema(v.schema)
  {
    var d := LockedRecord(v.schema, c);
    d.Some? && (d.value.PrimeRecord? ==> d.value.header.height != 0) && LockHash(v, d.value) == c.lockedHash
  }

  predicate LockVerified(v: Verifier, locks: bool, c: RoundChangeVote, previous: Hash256, integer: u64)
    requires LawfulSchema(v.schema)
  {
    if c.lockedRound == 0 then NoLockData(c)
    else
      && locks && c.lockedRound < c.newRound && LockNamed(v, c)
      && var h := LockedRecord(v.schema, c).value.header; h.previous == previous && h.integer == integer
  }

  // ---------------------------------------------------------------- certificates

  predicate ChangeVerified(
    v: Verifier, seals: Seals, locks: bool, c: RoundChangeVote, previous: Hash256, integer: u64, round: nat, validators: seq<Address>)
    requires LawfulSchema(v.schema)
  {
    && c.validator in validators
    && c.previous == previous && c.integer == integer && c.newRound == round
    && LockVerified(v, locks, c, previous, integer)
    && seals.change(c, locks)
  }

  /** verifyRoundChangeCertificate. */
  function VerifiedRound(
    v: Verifier, seals: Seals, f: Finalization, previous: Hash256, integer: u64, validators: seq<Address>): (r: Option<nat>)
    requires LawfulSchema(v.schema)
  {
    var cs := f.roundChanges;
    if cs == [] then (if f.rule == SIGNED_RULE then Some(1) else None)
    else if !CarriesRoundChanges(f.rule) || !Certificates.QuorumCount(|cs|, |validators|) then None
    else if cs[0].newRound < 2 then None
    else if && (forall i :: 0 < i < |cs| ==> Less(cs[i - 1].validator, cs[i].validator))
            && (forall i :: 0 <= i < |cs| ==>
                  ChangeVerified(v, seals, f.rule == LOCKED_ROUNDS_RULE, cs[i], previous, integer, cs[0].newRound, validators))
    then Some(cs[0].newRound)
    else None
  }

  datatype HashScan = NoHash | HighestHash(round: nat, hash: Hash256) | HashConflict

  function ScanHash(scan: HashScan, c: RoundChangeVote): HashScan {
    if scan.HashConflict? || c.lockedRound == 0 then scan
    else if scan.NoHash? || c.lockedRound > scan.round then HighestHash(c.lockedRound, c.lockedHash)
    else if c.lockedRound == scan.round && c.lockedHash != scan.hash then HashConflict
    else scan
  }

  function HighestLockHash(cs: seq<RoundChangeVote>): HashScan {
    if cs == [] then NoHash else ScanHash(HighestLockHash(cs[..|cs| - 1]), cs[|cs| - 1])
  }

  predicate VoteVerified(seals: Seals, vote: FinalizationVote, target: Hash256, round: nat, validators: seq<Address>) {
    vote.validator in validators && vote.target == target && vote.round == round && seals.vote(vote)
  }

  predicate LockHashAllows(f: Finalization, target: Hash256) {
    f.rule == LOCKED_ROUNDS_RULE ==>
      var h := HighestLockHash(f.roundChanges);
      !h.HashConflict? && (h.HighestHash? ==> h.hash == target)
  }

  /** verifyRecordFinalization for a set of validators. */
  predicate CertificateVerified(
    v: Verifier, seals: Seals, f: Finalization, target: Hash256, previous: Hash256, integer: u64, validators: seq<Address>)
    requires LawfulSchema(v.schema)
  {
    var votes := f.votes;
    var round := VerifiedRound(v, seals, f, previous, integer, validators);
    && (f.rule == SIGNED_RULE || CarriesRoundChanges(f.rule))
    && CanonicalSet(validators) && Certificates.QuorumCount(|votes|, |validators|)
    && round.Some? && LockHashAllows(f, target)
    && (forall i :: 0 < i < |votes| ==> Less(votes[i - 1].validator, votes[i].validator))
    && (forall i :: 0 <= i < |votes| ==> VoteVerified(seals, votes[i], target, round.value, validators))
  }

  /** The verifier whose certificate check is this one. */
  function Verifying(base: Verifier, seals: Seals): (v: Verifier)
    requires LawfulSchema(base.schema)
    ensures v.schema == base.schema && v.hash == base.hash
  {
    base.(certificate := (f: Finalization, target: Hash256, previous: Hash256, integer: u64, validators: seq<Address>) =>
            CertificateVerified(base, seals, f, target, previous, integer, validators))
  }

  lemma ChangesWithoutLocks(
    v: Verifier, seals: Seals, f: Finalization, previous: Hash256, integer: u64, validators: seq<Address>)
    requires LawfulSchema(v.schema) && VerifiedRound(v, seals, f, previous, integer, validators).Some?
    ensures ChangesCarried(f)
  {
    hide LockNamed, LawfulSchema;
    var cs := f.roundChanges;
    assert |ROUNDS_RULE| != |LOCKED_ROUNDS_RULE|;
    if f.rule == ROUNDS_RULE {
      forall i | 0 <= i < |cs|
        ensures cs[i] == WithoutLock(cs[i])
      {
        assert ChangeVerified(v, seals, false, cs[i], previous, integer, cs[0].newRound, validators);
      }
    }
  }

  /** What the ledger checks of a certificate itself is part of the check: with this verifier
      its verdict is the source's. */
  lemma VerdictIsCheck(base: Verifier, seals: Seals, r: Record, validators: seq<Address>)
    requires LawfulSchema(base.schema) && validators != []
    ensures var v := Verifying(base, seals);
            FinalizationOk(v, r, validators)
            <==> CertificateVerified(base, seals, r.finalization, TargetHash(v, r), r.header.previous, r.header.integer, validators)
  {
    hide VerifiedRound, LawfulSchema, LockHashAllows, Serialize, SubjectBytes;
    var v, f := Verifying(base, seals), r.finalization;
    if CertificateVerified(base, seals, f, TargetHash(v, r), r.header.previous, r.header.integer, validators) {
      ChangesWithoutLocks(base, seals, f, r.header.previous, r.header.integer, validators);
      var round := VerifiedRound(base, seals, f, r.header.previous, r.header.integer, validators).value;
      assert forall i :: 0 <= i < |f.votes| ==> VoteVerified(seals, f.votes[i], TargetHash(v, r), round, validators);
    }
  }

  // ---------------------------------------------------------------- what they stand for

  function RuleOf(rule: string): Certificates.Rule {
    if rule == SIGNED_RULE then Certificates.SignedRule
    else if rule == ROUNDS_RULE then Certificates.RoundsRule
    else if rule == LOCKED_ROUNDS_RULE then Certificates.LockedRoundsRule
    else Certificates.DevelopmentRule
  }

  lemma RulesDiffer()
    ensures SIGNED_RULE != ROUNDS_RULE && SIGNED_RULE != LOCKED_ROUNDS_RULE && ROUNDS_RULE != LOCKED_ROUNDS_RULE
  {
    assert |SIGNED_RULE| != |ROUNDS_RULE| && |SIGNED_RULE| != |LOCKED_ROUNDS_RULE| && |ROUNDS_RULE| != |LOCKED_ROUNDS_RULE|;
  }

  /** The predecessor a hash names: that of the record, or none that matters. */
  function PredecessorOf(prev: Certificates.Hash, previous: Hash256, h: Hash256): Certificates.Hash {
    if h == previous then prev else Certificates.Zero
  }

  function LockedSubject(v: Verifier, prev: Certificates.Hash, previous: Hash256, c: RoundChangeVote): Option<Certificates.Subject>
    requires LawfulSchema(v.schema)
  {
    if c.lockedRound == 0 then
      if NoLockData(c) then None else Some(Certificates.Subject(Certificates.Zero, 0, None, []))
    else if LockNamed(v, c) then
      var d := LockedRecord(v.schema, c).value;
      Some(SubjectOf(v.schema, PredecessorOf(prev, previous, d.header.previous), d))
    else None
  }

  function ChangeOf(v: Verifier, prev: Certificates.Hash, previous: Hash256, c: RoundChangeVote): Certificates.RoundChange
    requires LawfulSchema(v.schema)
  {
    Certificates.RoundChange(c.validator, PredecessorOf(prev, previous, c.previous), c.integer, c.newRound, c.lockedRound,
                             LockedSubject(v, prev, previous, c))
  }

  function ChangesOf(
    v: Verifier, prev: Certificates.Hash, previous: Hash256, cs: seq<RoundChangeVote>): (ds: seq<Certificates.RoundChange>)
    requires LawfulSchema(v.schema)
    ensures |ds| == |cs|
  {
    seq(|cs|, i requires 0 <= i < |cs| => ChangeOf(v, prev, previous, cs[i]))
  }

  function VoteOf(subject: Certificates.Subject, target: Hash256, vote: FinalizationVote): Certificates.Vote {
    Certificates.Vote(vote.validator, if vote.target == target then Certificates.Of(subject) else Certificates.Zero, vote.round)
  }

  function VotesOf(subject: Certificates.Subject, target: Hash256, votes: seq<FinalizationVote>): (us: seq<Certificates.Vote>)
    ensures |us| == |votes|
  {
    seq(|votes|, i requires 0 <= i < |votes| => VoteOf(subject, target, votes[i]))
  }

  /** The certificate of a record with this predecessor, as the consensus model has it. */
  function ProofOf(v: Verifier, prev: Certificates.Hash, r: Record): Certificates.Proof
    requires LawfulSchema(v.schema)
  {
    Certificates.Proof(RuleOf(r.finalization.rule), ChangesOf(v, prev, r.header.previous, r.finalization.roundChanges),
                       VotesOf(SubjectOf(v.schema, prev, r), SubjectHash(v, r), r.finalization.votes))
  }

  // ---------------------------------------------------------------- no forgery, no collision

  /** Every signature in the certificate that verifies was made by its validator. */
  ghost predicate Unforged(v: Verifier, seals: Seals, net: set<Certificates.Message>, prev: Certificates.Hash, r: Record)
    requires LawfulSchema(v.schema)
  {
    var f, previous := r.finalization, r.header.previous;
    && (forall i :: 0 <= i < |f.votes| && seals.vote(f.votes[i]) && f.votes[i].target == SubjectHash(v, r) ==>
          Certificates.VoteMsg(VoteOf(SubjectOf(v.schema, prev, r), SubjectHash(v, r), f.votes[i])) in net)
    && (forall i :: 0 <= i < |f.roundChanges| && f.roundChanges[i].previous == previous
                    && seals.change(f.roundChanges[i], f.rule == LOCKED_ROUNDS_RULE) ==>
          Certificates.ChangeSigned(RuleOf(f.rule), ChangeOf(v, prev, previous, f.roundChanges[i]), net))
  }

  /** The bytes hashed for the record and for the candidates its round changes report. */
  ghost function NamedBytes(v: Verifier, r: Record): set<Bytes>
    requires LawfulSchema(v.schema)
  {
    {SubjectBytes(v.schema, r)}
    + set c | c in r.finalization.roundChanges && LockNamed(v, c) :: SubjectBytes(v.schema, LockedRecord(v.schema, c).value)
  }

  /** Those candidates are of versions 11 and later. */
  ghost predicate LocksModern(v: Verifier, f: Finalization)
    requires LawfulSchema(v.schema)
  {
    forall c :: c in f.roundChanges && LockNamed(v, c) ==> LockedRecord(v.schema, c).value.header.version >= SUBJECT_IDENTITY
  }

  /** The signatures and hashes of a certificate are what they seem. */
  ghost predicate Genuine(v: Verifier, seals: Seals, net: set<Certificates.Message>, prev: Certificates.Hash, r: Record)
    requires LawfulSchema(v.schema)
  {
    Unforged(v, seals, net, prev, r) && CollisionFree(v.hash, NamedBytes(v, r)) && LocksModern(v, r.finalization)
  }

  /** All signatures in the certificate verify. */
  ghost predicate Sealed(seals: Seals, f: Finalization) {
    && (forall i :: 0 <= i < |f.votes| ==> seals.vote(f.votes[i]))
    && (forall i :: 0 <= i < |f.roundChanges| ==> seals.change(f.roundChanges[i], f.rule == LOCKED_ROUNDS_RULE))
  }

  // ---------------------------------------------------------------- hashes name subjects

  /** Storable records of one position with the same subject bytes are one subject. */
  lemma BytesNameSubject(sc: Schema, prev: Certificates.Hash, a: Record, b: Record)
    requires LawfulSchema(sc) && sc.parts.lottery.valid(NO_LOTTERY) && Storable(sc, a) && Storable(sc, b)
    ensures SubjectBytes(sc, a) == SubjectBytes(sc, b) <==> SubjectOf(sc, prev, a) == SubjectOf(sc, prev, b)
  {
    hide LawfulSchema, Storable, Encodable, SubjectBytes;
    if SubjectBytes(sc, a) == SubjectBytes(sc, b) {
      StorableSubject(sc, a);
      StorableSubject(sc, b);
      SubjectInjective(sc, a, b);
    }
  }

  lemma WrittenSubjectOf(sc: Schema, prev: Certificates.Hash, r: Record)
    requires OmitsUnwritten(sc) && r.header.version >= SUBJECT_IDENTITY
    ensures SubjectOf(sc, prev, Written(r)) == SubjectOf(sc, prev, r)
  {
    hide SubjectBytes, OmitsUnwritten;
    SubjectWritten(sc, r);
  }

  lemma LockIsStorable(v: Verifier, c: RoundChangeVote)
    requires LawfulSchema(v.schema) && v.schema.metadata.endpoints.valid([]) && LockNamed(v, c)
    requires LockedRecord(v.schema, c).value.header.version >= SUBJECT_IDENTITY
    ensures Storable(v.schema, LockedRecord(v.schema, c).value)
  {
    hide LawfulSchema, Deserialize, RecordFormat, Serialize, LockHash;
    var composite := c.lockedKind == COMPOSITE_KIND_NAME;
    assert |PRIME_KIND_NAME| != |COMPOSITE_KIND_NAME|;
    DecodedIsCanonical(v.schema, composite, c.lockedPayload);
    CanonicalIsStorable(v.schema, composite, c.lockedPayload);
  }

  /** A candidate its round change reports, for the position of the record. */
  ghost predicate Reported(v: Verifier, r: Record, c: RoundChangeVote)
    requires LawfulSchema(v.schema)
  {
    && c in r.finalization.roundChanges && c.lockedRound != 0 && LockNamed(v, c)
    && LockedRecord(v.schema, c).value.header.previous == r.header.previous
  }

  ghost predicate FormatsOk(sc: Schema) {
    LawfulSchema(sc) && OmitsUnwritten(sc) && sc.metadata.endpoints.valid([]) && sc.parts.lottery.valid(NO_LOTTERY)
  }

  /** Two reported candidates have the same hash exactly when they are the same subject. */
  lemma LockHashesName(v: Verifier, prev: Certificates.Hash, r: Record, c: RoundChangeVote, d: RoundChangeVote)
    requires FormatsOk(v.schema) && LocksModern(v, r.finalization) && CollisionFree(v.hash, NamedBytes(v, r))
    requires Reported(v, r, c) && Reported(v, r, d)
    ensures c.lockedHash == d.lockedHash
       <==> LockedSubject(v, prev, r.header.previous, c) == LockedSubject(v, prev, r.header.previous, d)
  {
    hide LawfulSchema, OmitsUnwritten, SubjectBytes, LockedRecord, Storable, SubjectOf;
    var a, b := LockedRecord(v.schema, c).value, LockedRecord(v.schema, d).value;
    LockIsStorable(v, c);
    LockIsStorable(v, d);
    BytesNameSubject(v.schema, prev, a, b);
    assert SubjectBytes(v.schema, a) in NamedBytes(v, r) && SubjectBytes(v.schema, b) in NamedBytes(v, r);
  }

  /** And the hash of the record exactly when they are its subject. */
  lemma TargetHashNames(v: Verifier, prev: Certificates.Hash, r: Record, c: RoundChangeVote)
    requires FormatsOk(v.schema) && LocksModern(v, r.finalization) && CollisionFree(v.hash, NamedBytes(v, r))
    requires Reported(v, r, c) && r.header.version >= SUBJECT_IDENTITY && Storable(v.schema, Written(r))
    ensures c.lockedHash == SubjectHash(v, r)
       <==> LockedSubject(v, prev, r.header.previous, c) == Some(SubjectOf(v.schema, prev, r))
  {
    hide LawfulSchema, OmitsUnwritten, SubjectBytes, LockedRecord, Storable, SubjectOf, Written;
    var a := LockedRecord(v.schema, c).value;
    LockIsStorable(v, c);
    BytesNameSubject(v.schema, prev, a, Written(r));
    WrittenSubjectOf(v.schema, prev, r);
    SubjectWritten(v.schema, r);
    assert SubjectBytes(v.schema, a) in NamedBytes(v, r) && SubjectBytes(v.schema, r) in NamedBytes(v, r);
  }

  // ---------------------------------------------------------------- round changes

  lemma LockIff(v: Verifier, prev: Certificates.Hash, rule: string, c: RoundChangeVote, previous: Hash256, integer: u64)
    requires LawfulSchema(v.schema) && prev != Certificates.Zero && CarriesRoundChanges(rule)
    ensures LockVerified(v, rule == LOCKED_ROUNDS_RULE, c, previous, integer)
       <==> Certificates.LockWellFormed(RuleOf(rule), ChangeOf(v, prev, previous, c), prev, integer)
  {
    hide LawfulSchema, LockNamed, LockedRecord, NextSet, SubjectBytes;
    RulesDiffer();
  }

  lemma ChangeIff(
    v: Verifier, seals: Seals, net: set<Certificates.Message>, prev: Certificates.Hash, r: Record, i: nat, round: nat,
    validators: seq<Address>)
    requires LawfulSchema(v.schema) && prev != Certificates.Zero && CarriesRoundChanges(r.finalization.rule)
    requires Unforged(v, seals, net, prev, r) && i < |r.finalization.roundChanges|
    ensures var f, c := r.finalization, r.finalization.roundChanges[i];
            ChangeVerified(v, seals, f.rule == LOCKED_ROUNDS_RULE, c, r.header.previous, r.header.integer, round, validators)
            <==> && seals.change(c, f.rule == LOCKED_ROUNDS_RULE)
                 && Certificates.ChangeOk(RuleOf(f.rule), ChangeOf(v, prev, r.header.previous, c), prev, r.header.integer, round,
                                          validators, net)
  {
    hide LawfulSchema, LockVerified, Certificates.LockWellFormed, LockedSubject, RuleOf, SubjectOf, SubjectHash, VoteOf;
    var f, c := r.finalization, r.finalization.roundChanges[i];
    LockIff(v, prev, f.rule, c, r.header.previous, r.header.integer);
  }

  lemma RoundIff(
    v: Verifier, seals: Seals, net: set<Certificates.Message>, prev: Certificates.Hash, r: Record, validators: seq<Address>)
    requires LawfulSchema(v.schema) && prev != Certificates.Zero && Unforged(v, seals, net, prev, r)
    requires forall i :: 0 <= i < |r.finalization.roundChanges| ==>
               seals.change(r.finalization.roundChanges[i], r.finalization.rule == LOCKED_ROUNDS_RULE)
    ensures VerifiedRound(v, seals, r.finalization, r.header.previous, r.header.integer, validators)
         == Certificates.CertifiedRound(ProofOf(v, prev, r), prev, r.header.integer, validators, net)
  {
    hide LawfulSchema, ChangeVerified, Certificates.ChangeOk, LockedSubject, SubjectOf, SubjectHash, VotesOf, Unforged;
    RulesDiffer();
    var f := r.finalization;
    var cs := f.roundChanges;
    var ds := ChangesOf(v, prev, r.header.previous, cs);
    if cs != [] && CarriesRoundChanges(f.rule) {
      forall i | 0 <= i < |cs|
        ensures ChangeVerified(v, seals, f.rule == LOCKED_ROUNDS_RULE, cs[i], r.header.previous, r.header.integer, cs[0].newRound,
                               validators)
           <==> Certificates.ChangeOk(RuleOf(f.rule), ds[i], prev, r.header.integer, ds[0].newRound, validators, net)
      {
        ChangeIff(v, seals, net, prev, r, i, cs[0].newRound, validators);
      }
      assert forall i :: 0 <= i < |cs| ==> ds[i].validator == cs[i].validator;
    }
  }

  lemma VerifiedIsSealed(v: Verifier, seals: Seals, f: Finalization, previous: Hash256, integer: u64, validators: seq<Address>)
    requires LawfulSchema(v.schema) && VerifiedRound(v, seals, f, previous, integer, validators).Some?
    ensures forall i :: 0 <= i < |f.roundChanges| ==> seals.change(f.roundChanges[i], f.rule == LOCKED_ROUNDS_RULE)
    ensures f.roundChanges != [] ==>
              forall i :: 0 <= i < |f.roundChanges| ==>
                LockVerified(v, f.rule == LOCKED_ROUNDS_RULE, f.roundChanges[i], previous, integer)
  {
    hide LawfulSchema, LockVerified;
    forall i | 0 <= i < |f.roundChanges|
      ensures ChangeVerified(v, seals, f.rule == LOCKED_ROUNDS_RULE, f.roundChanges[i], previous, integer, f.roundChanges[0].newRound,
                             validators)
    {
    }
  }

  // ---------------------------------------------------------------- the highest lock

  /** The hashes of the reported candidates name them. */
  ghost predicate HashesName(cs: seq<RoundChangeVote>, ds: seq<Certificates.RoundChange>) {
    && |cs| == |ds|
    && (forall i :: 0 <= i < |cs| ==> ds[i].lockedRound == cs[i].lockedRound && (cs[i].lockedRound != 0 ==> ds[i].locked.Some?))
    && (forall i, j :: 0 <= i < |cs| && 0 <= j < |cs| && cs[i].lockedRound != 0 && cs[j].lockedRound != 0 ==>
          (cs[i].lockedHash == cs[j].lockedHash <==> ds[i].locked == ds[j].locked))
  }

  /** The scan over hashes and the scan over subjects are at the same lock. */
  ghost predicate SameScan(
    cs: seq<RoundChangeVote>, ds: seq<Certificates.RoundChange>, scan: HashScan, lock: Certificates.LockScan)
    requires HashesName(cs, ds)
  {
    match scan
    case NoHash => lock.NoLock?
    case HashConflict => lock.Conflict?
    case HighestHash(round, hash) => lock.Highest? && lock.round == round && exists i :: At(cs, ds, hash, lock.target, i)
  }

  ghost predicate At(cs: seq<RoundChangeVote>, ds: seq<Certificates.RoundChange>, hash: Hash256, target: Certificates.Hash, i: int)
    requires HashesName(cs, ds)
  {
    0 <= i < |cs| && cs[i].lockedRound != 0 && cs[i].lockedHash == hash && target == Certificates.Of(ds[i].locked.value)
  }

  lemma {:induction false} ScansAgree(cs: seq<RoundChangeVote>, ds: seq<Certificates.RoundChange>)
    requires HashesName(cs, ds)
    ensures SameScan(cs, ds, HighestLockHash(cs), Certificates.HighestLock(ds))
  {
    if cs != [] {
      var n := |cs| - 1;
      ScansAgree(cs[..n], ds[..n]);
      ScanStepSame(cs, ds, n, HighestLockHash(cs[..n]), Certificates.HighestLock(ds[..n]));
    }
  }

  lemma ScanStepSame(cs: seq<RoundChangeVote>, ds: seq<Certificates.RoundChange>, n: nat, scan: HashScan, lock: Certificates.LockScan)
    requires HashesName(cs, ds) && n + 1 == |cs| && HashesName(cs[..n], ds[..n]) && SameScan(cs[..n], ds[..n], scan, lock)
    ensures SameScan(cs, ds, ScanHash(scan, cs[n]), Certificates.ScanStep(lock, ds[n]))
  {
    if scan.HighestHash? {
      var i :| At(cs[..n], ds[..n], scan.hash, lock.target, i);
      assert At(cs, ds, scan.hash, lock.target, i);
    }
    if cs[n].lockedRound != 0 {
      assert At(cs, ds, cs[n].lockedHash, Certificates.Of(ds[n].locked.value), n);
    }
  }

  lemma ReportsNamed(v: Verifier, prev: Certificates.Hash, r: Record)
    requires FormatsOk(v.schema) && LocksModern(v, r.finalization) && CollisionFree(v.hash, NamedBytes(v, r))
    requires forall c :: c in r.finalization.roundChanges && c.lockedRound != 0 ==> Reported(v, r, c)
    ensures HashesName(r.finalization.roundChanges, ChangesOf(v, prev, r.header.previous, r.finalization.roundChanges))
  {
    hide LawfulSchema, OmitsUnwritten, LocksModern, CollisionFree, LockedSubject, Reported, NamedBytes;
    var cs := r.finalization.roundChanges;
    var ds := ChangesOf(v, prev, r.header.previous, cs);
    forall i | 0 <= i < |cs| && cs[i].lockedRound != 0
      ensures ds[i].locked.Some?
    {
      ReportedSubject(v, prev, r, cs[i]);
    }
    forall i, j | 0 <= i < |cs| && 0 <= j < |cs| && cs[i].lockedRound != 0 && cs[j].lockedRound != 0
      ensures cs[i].lockedHash == cs[j].lockedHash <==> ds[i].locked == ds[j].locked
    {
      LockHashesName(v, prev, r, cs[i], cs[j]);
    }
  }

  lemma ReportedSubject(v: Verifier, prev: Certificates.Hash, r: Record, c: RoundChangeVote)
    requires LawfulSchema(v.schema) && Reported(v, r, c)
    ensures LockedSubject(v, prev, r.header.previous, c).Some?
  {
    hide LawfulSchema, LockNamed, SubjectOf;
  }

  lemma LocksAreReported(v: Verifier, seals: Seals, r: Record, validators: seq<Address>)
    requires LawfulSchema(v.schema)
    requires VerifiedRound(v, seals, r.finalization, r.header.previous, r.header.integer, validators).Some?
    ensures forall c :: c in r.finalization.roundChanges && c.lockedRound != 0 ==> Reported(v, r, c)
  {
    hide LawfulSchema, LockNamed, VerifiedRound, LockedRecord;
    var cs := r.finalization.roundChanges;
    VerifiedIsSealed(v, seals, r.finalization, r.header.previous, r.header.integer, validators);
    forall c | c in cs && c.lockedRound != 0
      ensures Reported(v, r, c)
    {
      var i :| 0 <= i < |cs| && cs[i] == c;
      assert LockVerified(v, r.finalization.rule == LOCKED_ROUNDS_RULE, cs[i], r.header.previous, r.header.integer);
    }
  }

  /** The lock the scans are at is for the record, by hash and by subject alike. */
  lemma HighestNames(v: Verifier, prev: Certificates.Hash, r: Record, c: RoundChangeVote)
    requires FormatsOk(v.schema) && LocksModern(v, r.finalization) && CollisionFree(v.hash, NamedBytes(v, r))
    requires r.header.version >= SUBJECT_IDENTITY && Storable(v.schema, Written(r)) && Reported(v, r, c)
    ensures var d := ChangeOf(v, prev, r.header.previous, c);
            && d.locked.Some?
            && (c.lockedHash == SubjectHash(v, r)
                <==> Certificates.Of(d.locked.value) == Certificates.Of(SubjectOf(v.schema, prev, r)))
  {
    hide OmitsUnwritten, LocksModern, CollisionFree, Storable, Written, SubjectHash, SubjectOf, LockedSubject, LawfulSchema, NamedBytes,
         Reported;
    TargetHashNames(v, prev, r, c);
    ReportedSubject(v, prev, r, c);
  }

  lemma AllowIff(v: Verifier, seals: Seals, prev: Certificates.Hash, r: Record, validators: seq<Address>)
    requires FormatsOk(v.schema) && LocksModern(v, r.finalization) && CollisionFree(v.hash, NamedBytes(v, r))
    requires r.header.version >= SUBJECT_IDENTITY && Storable(v.schema, Written(r))
    requires VerifiedRound(v, seals, r.finalization, r.header.previous, r.header.integer, validators).Some?
    ensures LockHashAllows(r.finalization, SubjectHash(v, r))
       <==> Certificates.LocksAllow(ProofOf(v, prev, r), Certificates.Of(SubjectOf(v.schema, prev, r)))
  {
    hide LocksModern, CollisionFree, HighestLockHash, Certificates.HighestLock, VotesOf, Storable, Written, SubjectHash, SubjectOf,
         ChangeOf, VerifiedRound, OmitsUnwritten, LawfulSchema, HashesName, Reported, NamedBytes;
    RulesDiffer();
    var f := r.finalization;
    if f.rule == LOCKED_ROUNDS_RULE {
      LocksAreReported(v, seals, r, validators);
      ReportsNamed(v, prev, r);
      var cs := f.roundChanges;
      var ds := ChangesOf(v, prev, r.header.previous, cs);
      ScansAgree(cs, ds);
      var scan, lock := HighestLockHash(cs), Certificates.HighestLock(ds);
      if scan.HighestHash? {
        var i :| At(cs, ds, scan.hash, lock.target, i);
        HighestNames(v, prev, r, cs[i]);
      }
    }
  }

  // ---------------------------------------------------------------- votes

  lemma VotesIff(
    v: Verifier, seals: Seals, net: set<Certificates.Message>, prev: Certificates.Hash, r: Record, round: nat, validators: seq<Address>)
    requires LawfulSchema(v.schema) && Unforged(v, seals, net, prev, r)
    ensures var votes, target, s := r.finalization.votes, SubjectHash(v, r), SubjectOf(v.schema, prev, r);
            (forall i :: 0 <= i < |votes| ==> VoteVerified(seals, votes[i], target, round, validators))
            <==> && (forall i :: 0 <= i < |votes| ==> seals.vote(votes[i]))
                 && (forall i :: 0 <= i < |votes| ==>
                       Certificates.VoteOk(VotesOf(s, target, votes)[i], Certificates.Of(s), round, validators, net))
  {
    hide LawfulSchema, SubjectHash, SubjectOf, ChangeOf, Certificates.ChangeSigned, RuleOf;
    var votes, target, s := r.finalization.votes, SubjectHash(v, r), SubjectOf(v.schema, prev, r);
    forall i | 0 <= i < |votes|
      ensures VoteVerified(seals, votes[i], target, round, validators)
         <==> seals.vote(votes[i]) && Certificates.VoteOk(VotesOf(s, target, votes)[i], Certificates.Of(s), round, validators, net)
    {
    }
  }

  /** One check: the certificate of a record verifies if and only if its signatures do and it
      finalizes the record's subject in the consensus model. */
  lemma VerifiedIffFinalizes(
    v: Verifier, seals: Seals, net: set<Certificates.Message>, prev: Certificates.Hash, r: Record, validators: seq<Address>)
    requires FormatsOk(v.schema) && Genuine(v, seals, net, prev, r) && prev != Certificates.Zero
    requires r.header.version >= SUBJECT_IDENTITY && Storable(v.schema, Written(r))
    ensures CertificateVerified(v, seals, r.finalization, SubjectHash(v, r), r.header.previous, r.header.integer, validators)
       <==> && Sealed(seals, r.finalization)
            && Certificates.Finalizes(ProofOf(v, prev, r), Certificates.Of(SubjectOf(v.schema, prev, r)), prev, r.header.integer,
                                      validators, net)
  {
    hide LawfulSchema, OmitsUnwritten, SubjectHash, SubjectOf, VerifiedRound, Certificates.CertifiedRound, LockHashAllows,
         Certificates.LocksAllow, Unforged, LocksModern, CollisionFree, VoteVerified, Certificates.VoteOk, Storable, Written,
         CanonicalSet, ChangesOf;
    RulesDiffer();
    var f, previous, integer := r.finalization, r.header.previous, r.header.integer;
    var round := VerifiedRound(v, seals, f, previous, integer, validators);
    if round.Some? {
      VerifiedIsSealed(v, seals, f, previous, integer, validators);
      AllowIff(v, seals, prev, r, validators);
      VotesIff(v, seals, net, prev, r, round.value, validators);
    }
    if forall i :: 0 <= i < |f.roundChanges| ==> seals.change(f.roundChanges[i], f.rule == LOCKED_ROUNDS_RULE) {
      RoundIff(v, seals, net, prev, r, validators);
    }
    assert forall i :: 0 <= i < |f.votes| ==> ProofOf(v, prev, r).votes[i].validator == f.votes[i].validator;
  }

  // ---------------------------------------------------------------- what reported locks demand

  /** Change i reports a lock, and no change of the certificate one of a higher round. */
  ghost predicate HashInHighestRound(cs: seq<RoundChangeVote>, i: int) {
    0 <= i < |cs| && cs[i].lockedRound != 0 && forall j :: 0 <= j < |cs| ==> cs[j].lockedRound <= cs[i].lockedRound
  }

  /** Change j contradicts change i before it: another hash for the same round, which is the
      highest reported so far. */
  ghost predicate HashContradicts(cs: seq<RoundChangeVote>, i: int, j: int) {
    && 0 <= i < j < |cs| && cs[j].lockedRound != 0 && (forall k :: 0 <= k < j ==> cs[k].lockedRound <= cs[j].lockedRound)
    && cs[i].lockedRound == cs[j].lockedRound && cs[i].lockedHash != cs[j].lockedHash
  }

  /** A change that reports the same round, on a subject that stands for the hash. */
  function Standing(c: RoundChangeVote): Certificates.RoundChange {
    Certificates.RoundChange(c.validator, Certificates.Zero, 0, 0, c.lockedRound, Some(StandIn(c.lockedHash)))
  }

  function StandIn(h: Hash256): Certificates.Subject {
    Certificates.Subject(Certificates.Zero, 0, None, h)
  }

  function StandingAll(cs: seq<RoundChangeVote>): (ds: seq<Certificates.RoundChange>)
    ensures |ds| == |cs|
  {
    seq(|cs|, i requires 0 <= i < |cs| => Standing(cs[i]))
  }

  lemma StandingReports(cs: seq<RoundChangeVote>)
    ensures forall i :: HashInHighestRound(cs, i) <==> Certificates.InHighestRound(StandingAll(cs), i)
    ensures forall i, j :: HashContradicts(cs, i, j) <==> Certificates.Contradicts(StandingAll(cs), i, j)
  {
    var ds := StandingAll(cs);
    assert forall i :: 0 <= i < |cs| ==>
      (Certificates.Reports(ds[i]) <==> cs[i].lockedRound != 0) && ds[i].lockedRound == cs[i].lockedRound;
    forall i
      ensures HashInHighestRound(cs, i) <==> Certificates.InHighestRound(ds, i)
    {
    }
    forall j
      ensures Certificates.LeadsSoFar(ds, j)
         <==> 0 <= j < |cs| && cs[j].lockedRound != 0 && forall k :: 0 <= k < j ==> cs[k].lockedRound <= cs[j].lockedRound
    {
    }
    forall i, j | 0 <= i < |cs| && 0 <= j < |cs|
      ensures ds[i].locked == ds[j].locked <==> cs[i].lockedHash == cs[j].lockedHash
    {
      assert ds[i].locked == Some(StandIn(cs[i].lockedHash)) && ds[j].locked == Some(StandIn(cs[j].lockedHash));
    }
  }

  /** On the fields of a record: under the rule with locks every lock of the highest reported
      round is on the hash that is voted for, and no change contradicts another on the way. */
  lemma LockHashAllowsIff(f: Finalization, target: Hash256)
    ensures LockHashAllows(f, target)
       <==> (f.rule == LOCKED_ROUNDS_RULE ==>
               && (forall i :: HashInHighestRound(f.roundChanges, i) ==> f.roundChanges[i].lockedHash == target)
               && forall i, j :: !HashContradicts(f.roundChanges, i, j))
  {
    hide HighestLockHash, Certificates.HighestLock, HashContradicts, Certificates.Contradicts, HashInHighestRound,
         Certificates.InHighestRound;
    var cs, ds := f.roundChanges, StandingAll(f.roundChanges);
    StandingReports(cs);
    assert HashesName(cs, ds);
    ScansAgree(cs, ds);
    Certificates.ConflictIff(ds);
    if !Certificates.HighestLock(ds).Conflict? {
      Certificates.HighestIsFor(ds, Certificates.Of(StandIn(target)));
      IndexesStand(cs, target);
    }
  }

  lemma IndexesStand(cs: seq<RoundChangeVote>, target: Hash256)
    ensures forall i :: HashInHighestRound(cs, i) ==>
              0 <= i < |cs| && (cs[i].lockedHash == target
                                <==> Certificates.Of(StandingAll(cs)[i].locked.value) == Certificates.Of(StandIn(target)))
  {
  }
}
