/**
 The subjects that validators vote on and the records a node replays are one chain: honest
 nodes that agree on subjects have the same ledger, and the validator set of the consensus is
 the one the ledger has in force.
 */
module LedgerAgreement {
  import opened Machine
  import opened Addresses
  import opened Records
  import opened FieldFormats
  import opened RecordForm
  import opened SubjectIdentity
  import opened WrittenForm
  import opened CertificateIndependence
  import opened Ledger
  import opened LedgerReplay
  import VoteRules
  import Certificates

  /** The validator set a record puts in force. */
  function NextSet(r: Record): Option<seq<Address>> {
    if HasTransition(r.metadata.epoch) then Some(r.metadata.epoch.next)
    else if r.PrimeRecord? && r.header.height == 0 then Some(r.genesis.validators)
    else None
  }

  /** What the validators vote on when they vote for this record. */
  function SubjectOf(sc: Schema, prev: Certificates.Hash, r: Record): Certificates.Subject {
    Certificates.Subject(prev, r.header.integer, NextSet(r), SubjectBytes(sc, r))
  }

  function SubjectsOf(sc: Schema, records: seq<Record>): (chain: seq<Certificates.Subject>)
    ensures |chain| == |records|
  {
    if records == [] then []
    else
      var before := SubjectsOf(sc, records[..|records| - 1]);
      before + [SubjectOf(sc, VoteRules.Tip(before), records[|records| - 1])]
  }

  lemma {:induction false} SubjectsOfPrefix(sc: Schema, records: seq<Record>, k: nat)
    requires k <= |records|
    ensures SubjectsOf(sc, records[..k]) == SubjectsOf(sc, records)[..k]
  {
    hide SubjectOf;
    if k == |records| {
      assert records[..k] == records;
    } else {
      var n := |records| - 1;
      SubjectsOfPrefix(sc, records[..n], k);
      assert records[..n][..k] == records[..k];
    }
  }

  // ---------------------------------------------------------------- the set in force

  lemma SetAfterRecord(v: Verifier, s: State, r: Record)
    requires Replay1(v, s, r).Some?
    ensures Replay1(v, s, r).value.validators == if NextSet(r).Some? then NextSet(r).value else s.validators
  {
    hide PayloadOk, MetadataOk, Execute, HasTransition, Noted, RecordHash, DistributesFees, DistributesRewards;
    ExecuteFields(v, Install(s, r), r);
  }

  /** The consensus counts quorums over the set the ledger has in force, after every chain. */
  lemma {:induction false} SetInForce(v: Verifier, records: seq<Record>)
    requires Replay(v, records).Some?
    ensures Replay(v, records).value.validators == Certificates.SetAfter(VoteRules.Tip(SubjectsOf(v.schema, records)))
  {
    hide Replay1, NextSet, SubjectBytes;
    if records != [] {
      var n := |records| - 1;
      SetInForce(v, records[..n]);
      SetAfterRecord(v, Replay(v, records[..n]).value, records[n]);
    }
  }

  // ---------------------------------------------------------------- agreement

  /** These records are an accepted chain of versions 11 and later, within the decode limits as
      written, and the votes were cast on its subjects. */
  ghost predicate Backs(v: Verifier, records: seq<Record>, chain: seq<Certificates.Subject>)
    requires LawfulSchema(v.schema)
  {
    && Replay(v, records).Some? && SubjectsOf(v.schema, records) == chain
    && forall i :: 0 <= i < |records| ==>
         records[i].header.version >= SUBJECT_IDENTITY && Storable(v.schema, Written(records[i]))
  }

  lemma {:induction false} ReplayPrefix(v: Verifier, records: seq<Record>, k: nat)
    requires Replay(v, records).Some? && k <= |records|
    ensures Replay(v, records[..k]).Some?
  {
    hide Replay1;
    if k == |records| {
      assert records[..k] == records;
    } else {
      var n := |records| - 1;
      ReplayPrefix(v, records[..n], k);
      assert records[..n][..k] == records[..k];
    }
  }

  lemma BacksPrefix(v: Verifier, records: seq<Record>, chain: seq<Certificates.Subject>, k: nat)
    requires LawfulSchema(v.schema) && Backs(v, records, chain) && k <= |records|
    ensures Backs(v, records[..k], chain[..k])
  {
    hide Storable, Replay, SubjectsOf, LawfulSchema, Written;
    ReplayPrefix(v, records, k);
    SubjectsOfPrefix(v.schema, records, k);
  }

  lemma {:induction false} SubjectAt(sc: Schema, records: seq<Record>, i: nat)
    requires i < |records|
    ensures SubjectsOf(sc, records)[i].body == SubjectBytes(sc, records[i])
  {
    hide SubjectBytes, NextSet;
    var n := |records| - 1;
    if i < n {
      SubjectAt(sc, records[..n], i);
    }
  }

  /** Equal subject bytes come from records that are written the same, certificates and lottery
      evidence aside. */
  lemma SameBytesSameSubject(sc: Schema, a: Record, b: Record)
    requires LawfulSchema(sc) && OmitsUnwritten(sc) && sc.parts.lottery.valid(NO_LOTTERY)
    requires Storable(sc, Written(a)) && Storable(sc, Written(b)) && SubjectBytes(sc, a) == SubjectBytes(sc, b)
    ensures Subject(Written(a)) == Subject(Written(b))
  {
    hide LawfulSchema, Storable, Encodable, Subject, SubjectBytes, OmitsUnwritten, Written;
    SubjectWritten(sc, a);
    SubjectWritten(sc, b);
    StorableSubject(sc, Written(a));
    StorableSubject(sc, Written(b));
    SubjectInjective(sc, Written(a), Written(b));
  }

  /** Equal chains of subjects are backed by records that differ at most in what is not written,
      in certificates and in lottery evidence, so the ledgers are the same. */
  lemma SameSubjectsSameLedger(v: Verifier, a: seq<Record>, b: seq<Record>, chain: seq<Certificates.Subject>)
    requires LawfulSchema(v.schema) && OmitsUnwritten(v.schema) && v.schema.parts.lottery.valid(NO_LOTTERY)
    requires Backs(v, a, chain) && Backs(v, b, chain)
    ensures SameLedger(Replay(v, a).value, Replay(v, b).value)
    ensures forall i :: 0 <= i < |chain| ==>
              Subject(Written(a[i])) == Subject(Written(b[i])) && RecordHash(v, a[i]) == RecordHash(v, b[i])
  {
    hide LawfulSchema, Storable, Replay, Subject, SubjectBytes, SubjectsOf, SameLedger, RecordHash, OmitsUnwritten, Written,
         HasTransition;
    forall i | 0 <= i < |chain|
      ensures Subject(Written(a[i])) == Subject(Written(b[i])) && SameEffect(v, a[i], b[i])
    {
      SubjectAt(v.schema, a, i);
      SubjectAt(v.schema, b, i);
      SameBytesSameSubject(v.schema, a[i], b[i]);
      WrittenEffect(v, a[i], b[i]);
    }
    EffectsDecide(v, a, b);
  }

  /** Nodes whose chains of subjects agree have the same ledger at every height both have
      reached: balances, supply, nonces, providers, validators, epoch, policy and tip. */
  lemma AgreedLedgers(v: Verifier, ra: seq<Record>, rb: seq<Record>, p: seq<Certificates.Subject>, q: seq<Certificates.Subject>, k: nat)
    requires LawfulSchema(v.schema) && OmitsUnwritten(v.schema) && v.schema.parts.lottery.valid(NO_LOTTERY)
    requires Backs(v, ra, p) && Backs(v, rb, q) && (p <= q || q <= p) && k <= |ra| && k <= |rb|
    ensures Replay(v, ra[..k]).Some? && Replay(v, rb[..k]).Some?
    ensures SameLedger(Replay(v, ra[..k]).value, Replay(v, rb[..k]).value)
  {
    hide LawfulSchema, Storable, Replay, SameLedger, OmitsUnwritten, Written;
    BacksPrefix(v, ra, p, k);
    BacksPrefix(v, rb, q, k);
    assert p[..k] == q[..k];
    SameSubjectsSameLedger(v, ra[..k], rb[..k], p[..k]);
  }
}
