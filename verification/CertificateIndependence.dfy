/**
 Chains that differ only in certificates and lottery evidence replay to the same ledger.
 */
module CertificateIndependence {
  import opened Addresses
  import opened ProtocolAddresses
  import opened Records
  import opened Money
  import opened Transactions
  import opened RecordForm
  import opened SubjectIdentity
  import opened WrittenForm
  import opened Ledger

  /** Equal but for the lists of participants. */
  ghost predicate SameLedger(s: State, t: State) {
    s == t.(feeParticipants := s.feeParticipants, rewardParticipants := s.rewardParticipants)
  }

  /** The same proof and the same transactions for the same place in the chain. */
  ghost predicate SameWork(a: Record, b: Record) {
    && a.Composite? == b.Composite? && a.header == b.header && a.body == b.body
    && (a.Composite? ==> a.division == b.division)
    && (a.PrimeRecord? ==> a.pratt == b.pratt)
  }

  /** The parts of a record outside its certificate. */
  lemma SubjectParts(a: Record, b: Record)
    requires Subject(a) == Subject(b)
    ensures SameWork(a, b) && a.metadata == b.metadata
    ensures a.PrimeRecord? ==> a.genesis == b.genesis
  {
  }

  lemma SameMint(s: State, t: State, m: Money, finder: Address, height: nat, p: nat)
    requires SameLedger(s, t)
    ensures Mint(s, m, finder, height, p) == Mint(t, m, finder, height, p)
  {
    hide Reward, Credit;
  }

  lemma SameExecution(v: Verifier, s: State, t: State, a: Record, b: Record)
    requires SameLedger(s, t) && SameWork(a, b)
    ensures Execute(v, s, a).Some? <==> Execute(v, t, b).Some?
    ensures Execute(v, s, a).Some? ==> SameLedger(Execute(v, s, a).value, Execute(v, t, b).value)
  {
    hide ApplyTransactions, Mint;
    assert TxContext(s, a.header.integer) == TxContext(t, b.header.integer);
    var accounts := ApplyTransactions(v.signatures, TxContext(s, a.header.integer), s.accounts, a.body.transactions,
                                      FeePoolAddress(s.epoch));
    if a.PrimeRecord? && accounts.Some? {
      SameMint(s, t, accounts.value.money, a.pratt.provider, a.header.height, a.header.integer);
    }
  }

  /** Records with the same identity and the same effects on a ledger. */
  ghost predicate SameEffect(v: Verifier, a: Record, b: Record) {
    && SameWork(a, b) && RecordHash(v, a) == RecordHash(v, b) && a.metadata.policy == b.metadata.policy
    && HasTransition(a.metadata.epoch) == HasTransition(b.metadata.epoch)
    && a.metadata.epoch.epoch == b.metadata.epoch.epoch && a.metadata.epoch.next == b.metadata.epoch.next
    && (a.PrimeRecord? && a.header.height == 0 ==> a.genesis.validators == b.genesis.validators)
  }

  lemma SameAdvance(v: Verifier, s0: State, t0: State, s: State, t: State, a: Record, b: Record)
    requires SameLedger(s, t) && SameEffect(v, a, b)
    ensures SameLedger(Advance(v, s0, s, a), Advance(v, t0, t, b))
  {
    hide Noted, DistributesFees, DistributesRewards, RecordHash;
  }

  lemma SameStep(v: Verifier, s: State, t: State, a: Record, b: Record)
    requires SameLedger(s, t) && SameEffect(v, a, b)
    requires Replay1(v, s, a).Some? && Replay1(v, t, b).Some?
    ensures SameLedger(Replay1(v, s, a).value, Replay1(v, t, b).value)
  {
    hide Execute, Advance, PayloadOk, MetadataOk, RecordHash, HasTransition;
    var i, j := Install(s, a), Install(t, b);
    assert SameLedger(i, j);
    SameExecution(v, i, j, a, b);
    SameAdvance(v, i, j, Execute(v, i, a).value, Execute(v, j, b).value, a, b);
  }

  /** Two accepted chains of records with the same effects have the same balances, supply,
      nonces, providers, validator sets, epoch and policy. */
  lemma {:induction false} EffectsDecide(v: Verifier, a: seq<Record>, b: seq<Record>)
    requires |a| == |b| && Replay(v, a).Some? && Replay(v, b).Some?
    requires forall i :: 0 <= i < |a| ==> SameEffect(v, a[i], b[i])
    ensures SameLedger(Replay(v, a).value, Replay(v, b).value)
  {
    hide Replay1, SameEffect;
    if a != [] {
      var n := |a| - 1;
      EffectsDecide(v, a[..n], b[..n]);
      SameStep(v, Replay(v, a[..n]).value, Replay(v, b[..n]).value, a[n], b[n]);
    }
  }

  /** Two accepted chains of versions 11 and later that differ only in finalization
      certificates and lottery evidence have the same record hashes, balances, supply, nonces,
      providers, validator sets, epoch and policy. Only the participants may differ. */
  lemma CertificatesDoNotMatter(v: Verifier, a: seq<Record>, b: seq<Record>)
    requires |a| == |b| && Replay(v, a).Some? && Replay(v, b).Some?
    requires forall i :: 0 <= i < |a| ==> Subject(a[i]) == Subject(b[i]) && a[i].header.version >= SUBJECT_IDENTITY
    ensures SameLedger(Replay(v, a).value, Replay(v, b).value)
    ensures forall i :: 0 <= i < |a| ==> RecordHash(v, a[i]) == RecordHash(v, b[i])
  {
    hide Replay, Subject, RecordHash, SameLedger;
    forall i | 0 <= i < |a|
      ensures SameEffect(v, a[i], b[i])
    {
      SameHash(v, a[i], b[i]);
      SubjectParts(a[i], b[i]);
    }
    EffectsDecide(v, a, b);
  }

  lemma SameHash(v: Verifier, a: Record, b: Record)
    requires Subject(a) == Subject(b) && a.header.version >= SUBJECT_IDENTITY
    ensures RecordHash(v, a) == RecordHash(v, b)
  {
    hide Subject, Serialize;
    SubjectParts(a, b);
  }

  /** The same record with other votes. */
  function WithVotes(r: Record, votes: seq<FinalizationVote>): Record {
    var f := Finalization(r.finalization.rule, r.finalization.roundChanges, votes);
    if r.Composite? then Composite(r.header, r.division, r.body, r.commitPhase, r.metadata, r.lottery, f)
    else PrimeRecord(r.header, r.pratt, r.body, r.genesis, r.metadata, f)
  }

  /** What is voted for does not depend on the votes, so that they can be collected one after
      the other; under the rule with locks and from version 11 on, not on the certificate at
      all. */
  lemma VotesDoNotMoveTarget(v: Verifier, r: Record, votes: seq<FinalizationVote>, f: Finalization)
    ensures TargetHash(v, WithVotes(r, votes)) == TargetHash(v, r)
    ensures r.header.version >= 11 || (r.finalization.rule == LOCKED_ROUNDS_RULE == f.rule) ==>
              TargetHash(v, if r.Composite? then Composite(r.header, r.division, r.body, r.commitPhase, r.metadata, r.lottery, f)
                            else PrimeRecord(r.header, r.pratt, r.body, r.genesis, r.metadata, f)) == TargetHash(v, r)
  {
    hide SerializeMetadata;
    assert WithoutVotes(WithVotes(r, votes)) == WithoutVotes(r);
  }

  /** More generally, they may differ in all that is not written. */
  lemma WrittenEffect(v: Verifier, a: Record, b: Record)
    requires OmitsUnwritten(v.schema) && a.header.version >= SUBJECT_IDENTITY
    requires Subject(Written(a)) == Subject(Written(b))
    ensures SameEffect(v, a, b)
  {
    hide Serialize, OmitsUnwritten;
    SubjectWritten(v.schema, a);
    SubjectWritten(v.schema, b);
  }

  /** Participants do differ: they are the signers the certificates name. */
  lemma ParticipantsMayDiffer(h: Header, p: Pratt, b: Body, g: GenesisConfig, m: Metadata, a: Address)
    requires IsSignatureAddress(a)
    ensures var vote := FinalizationVote(a, [], NULL_HASH, 1, []);
            var bare := PrimeRecord(h, p, b, g, m, NO_FINALIZATION);
            var signed := PrimeRecord(h, p, b, g, m, Finalization(SIGNED_RULE, [], [vote]));
            Subject(bare) == Subject(signed) && Noted([], false, bare) != Noted([], false, signed)
  {
    var vote := FinalizationVote(a, [], NULL_HASH, 1, []);
    var signed := PrimeRecord(h, p, b, g, m, Finalization(SIGNED_RULE, [], [vote]));
    assert Signers(PrimeRecord(h, p, b, g, m, NO_FINALIZATION)) == [];
    assert Signers(signed) == [a];
    assert AddSigners([], [a]) == AddSigners(AddSorted([], a), [a][1..]);
    assert [a][1..] == [];
  }
}
