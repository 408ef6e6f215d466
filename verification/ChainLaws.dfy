/**
 What every accepted chain looks like, record by record (src/node/sequential_node.cpp): how its
 records are linked, who is owed a share of the next asset, which policy is in force, and who
 voted for its policies and epochs.
 */
module ChainLaws {
  import opened Machine
  import opened Addresses
  import opened Divisibility
  import opened Records
  import opened ProtocolAddresses
  import opened Transactions
  import opened Ledger
  import opened LedgerInvariant
  import opened LedgerReplay
  import opened LedgerHistory
  import NumberTheory

  // ---------------------------------------------------------------- links

  /** Each record of an accepted chain was taken up in the state of those before it. */
  lemma {:induction false} TakenUp(v: Verifier, records: seq<Record>, i: nat)
    requires Replay(v, records).Some? && i < |records|
    ensures Replay(v, records[..i]).Some? && LedgerOk(Replay(v, records[..i]).value)
    ensures Replay1(v, Replay(v, records[..i]).value, records[i]) == Replay(v, records[..i + 1])
    ensures Replay(v, records[..i + 1]).Some?
    decreases |records|
  {
    hide Replay1, LedgerOk;
    var n := |records| - 1;
    if i < n {
      TakenUp(v, records[..n], i);
      assert records[..n][..i] == records[..i] && records[..n][..i + 1] == records[..i + 1];
    } else {
      assert records[..i + 1] == records;
      ReplayOk(v, records[..i]);
    }
  }

  lemma StepIsLinked(v: Verifier, s: State, r: Record)
    requires LedgerOk(s) && Replay1(v, s, r).Some?
    ensures r.header.height == (if s.started then s.height + 1 else 0) && r.header.integer == r.header.height + 2
    ensures r.header.previous == if s.started then s.tip else NULL_HASH
    ensures r.Composite? ==> !Prime(r.header.integer)
    ensures r.PrimeRecord? && r.header.integer <= TWO_63 ==> Prime(r.header.integer)
    ensures var n := Replay1(v, s, r).value; n.height == r.header.height && n.tip == RecordHash(v, r) && n.started
  {
    hide PayloadOk, Execute, MetadataOk, Advance, RecordHash, AssetsOk, HoldersOk, EpochsOk, NamesOk;
    RecordTruthful(v, s, r);
    AdvanceFields(v, Install(s, r), Execute(v, Install(s, r), r).value, r);
  }

  lemma {:induction false} HeightOf(v: Verifier, records: seq<Record>)
    requires Replay(v, records).Some?
    ensures Replay(v, records).value.started <==> records != []
    ensures records != [] ==>
              Replay(v, records).value.height == |records| - 1 && Replay(v, records).value.tip == RecordHash(v, records[|records| - 1])
  {
    hide Replay1, RecordHash, LedgerOk;
    if records != [] {
      var n := |records| - 1;
      HeightOf(v, records[..n]);
      ReplayOk(v, records[..n]);
      StepIsLinked(v, Replay(v, records[..n]).value, records[n]);
    }
  }

  /** The chain is one record per integer from 2 on, each naming the record before it by its
      hash, and prime records stand exactly at the primes. */
  lemma ChainIsLinked(v: Verifier, records: seq<Record>, i: nat)
    requires Replay(v, records).Some? && i < |records|
    ensures records[i].header.height == i && records[i].header.integer == i + 2
    ensures records[i].header.previous == if i == 0 then NULL_HASH else RecordHash(v, records[i - 1])
    ensures i + 2 <= TWO_63 ==> (records[i].PrimeRecord? <==> Prime(i + 2))
  {
    hide Replay, Replay1, RecordHash, LedgerOk;
    TakenUp(v, records, i);
    HeightOf(v, records[..i]);
    StepIsLinked(v, Replay(v, records[..i]).value, records[i]);
  }

  // ---------------------------------------------------------------- providers

  predicate LastPrime(records: seq<Record>, k: int) {
    && 0 <= k < |records| && records[k].PrimeRecord?
    && forall j :: k < j < |records| ==> records[j].Composite?
  }

  lemma StepProviders(v: Verifier, s: State, r: Record)
    requires Replay1(v, s, r).Some?
    ensures Replay1(v, s, r).value.pending == if r.Composite? then s.pending + [r.division.provider] else []
  {
    hide PayloadOk, MetadataOk, ApplyTransactions, Mint, Advance;
    AdvanceFields(v, Install(s, r), Execute(v, Install(s, r), r).value, r);
  }

  /** Owed a share of the next asset are the providers of the composites since the last prime,
      in order and once per composite. */
  lemma {:induction false} ProvidersSinceLastPrime(v: Verifier, records: seq<Record>, k: int)
    requires Replay(v, records).Some? && LastPrime(records, k)
    ensures var pending := Replay(v, records).value.pending;
            && |pending| == |records| - 1 - k
            && forall i :: 0 <= i < |pending| ==> pending[i] == records[k + 1 + i].division.provider
  {
    hide Replay1;
    var n := |records| - 1;
    StepProviders(v, Replay(v, records[..n]).value, records[n]);
    if k < n {
      assert LastPrime(records[..n], k);
      ProvidersSinceLastPrime(v, records[..n], k);
    }
  }

  // ---------------------------------------------------------------- policy

  ghost predicate LastPolicy(records: seq<Record>, k: int) {
    && 0 <= k < |records| && records[k].metadata.policy != NO_POLICY
    && forall j :: k < j < |records| ==> records[j].metadata.policy == NO_POLICY
  }

  lemma StepPolicy(v: Verifier, s: State, r: Record)
    requires Replay1(v, s, r).Some?
    ensures var n, p := Replay1(v, s, r).value, r.metadata.policy;
            n.fee == (if p == NO_POLICY then s.fee else p.fee) && n.reserve == (if p == NO_POLICY then s.reserve else p.reserve)
  {
    hide PayloadOk, MetadataOk, Execute, Advance;
    ExecuteFields(v, Install(s, r), r);
    AdvanceFields(v, Install(s, r), Execute(v, Install(s, r), r).value, r);
  }

  /** Without a policy record the fee is 1 and the reserve 5,000,000. */
  lemma {:induction false} DefaultPolicy(v: Verifier, records: seq<Record>)
    requires Replay(v, records).Some? && forall j :: 0 <= j < |records| ==> records[j].metadata.policy == NO_POLICY
    ensures Replay(v, records).value.fee == 1 && Replay(v, records).value.reserve == 5_000_000
  {
    hide Replay1;
    if records != [] {
      var n := |records| - 1;
      DefaultPolicy(v, records[..n]);
      StepPolicy(v, Replay(v, records[..n]).value, records[n]);
    }
  }

  /** In force are the fee and the reserve of the last policy record. */
  lemma {:induction false} PolicyInForce(v: Verifier, records: seq<Record>, k: int)
    requires Replay(v, records).Some? && LastPolicy(records, k)
    ensures var s, p := Replay(v, records).value, records[k].metadata.policy;
            s.fee == p.fee && s.reserve == p.reserve
  {
    hide Replay1;
    var n := |records| - 1;
    StepPolicy(v, Replay(v, records[..n]).value, records[n]);
    if k < n {
      assert LastPolicy(records[..n], k);
      PolicyInForce(v, records[..n], k);
    }
  }

  // ---------------------------------------------------------------- who voted

  /** The members of the set in force, at least two thirds of them, that sent these ballots. */
  ghost predicate TwoThirds(votes: seq<Ballot>, validators: seq<Address>) {
    var voters := Elements(BallotNames(votes));
    |voters| == |votes| && voters <= Elements(validators) && 3 * |voters| >= 2 * |validators|
  }

  lemma QuorumIsTwoThirds(votes: seq<Ballot>, validators: seq<Address>)
    requires QuorumOf(votes, validators)
    ensures TwoThirds(votes, validators)
  {
    AscendingSize(BallotNames(votes));
  }

  /** The set that decides about record i: the one in force before it; for the genesis record
      its own. */
  ghost function Deciding(v: Verifier, records: seq<Record>, i: nat): seq<Address>
    requires i < |records| && Replay(v, records[..i]).Some?
  {
    if i == 0 && records[0].PrimeRecord? && records[0].header.height == 0 then records[0].genesis.validators
    else Replay(v, records[..i]).value.validators
  }

  lemma DecidingIsInstalled(v: Verifier, records: seq<Record>, i: nat)
    requires Replay(v, records).Some? && i < |records| && Replay(v, records[..i]).Some?
    ensures Install(Replay(v, records[..i]).value, records[i]).validators == Deciding(v, records, i)
  {
    hide Replay;
    ChainIsLinked(v, records, i);
  }

  lemma StepPolicyVoted(v: Verifier, s: State, r: Record)
    requires Replay1(v, s, r).Some? && r.metadata.policy != NO_POLICY
    ensures var p := r.metadata.policy;
            && p.fee != 0 && p.reserve != 0 && p.effective == r.header.integer + 1
            && QuorumOf(p.votes, Install(s, r).validators)
            && forall i :: 0 <= i < |p.votes| ==> v.policyBallot(p, r.header.previous, r.header.integer, p.votes[i])
  {
    hide PayloadOk, Execute, Advance, VersionOk, TransitionOk, QuorumOf;
  }

  /** A policy of an accepted chain takes effect with the next integer, is not zero, and at
      least two thirds of the set in force signed it for this place in the chain. */
  lemma PolicyWasVoted(v: Verifier, records: seq<Record>, i: nat)
    requires Replay(v, records).Some? && i < |records| && records[i].metadata.policy != NO_POLICY
    ensures Replay(v, records[..i]).Some?
    ensures var p, previous := records[i].metadata.policy, if i == 0 then NULL_HASH else RecordHash(v, records[i - 1]);
            && p.fee >= 1 && p.reserve >= 1 && p.effective == i + 3
            && TwoThirds(p.votes, Deciding(v, records, i))
            && forall k :: 0 <= k < |p.votes| ==> v.policyBallot(p, previous, i + 2, p.votes[k])
  {
    hide Replay, Replay1, RecordHash, LedgerOk, TwoThirds, QuorumOf, Deciding;
    TakenUp(v, records, i);
    ChainIsLinked(v, records, i);
    StepPolicyVoted(v, Replay(v, records[..i]).value, records[i]);
    DecidingIsInstalled(v, records, i);
    QuorumIsTwoThirds(records[i].metadata.policy.votes, Deciding(v, records, i));
  }

  /** The votes are for a hash the transition names. */
  predicate Anchored(t: EpochTransition) {
    t.anchorInteger != 0 || t.anchorHash != NULL_HASH
  }

  lemma StepEpochVoted(v: Verifier, s: State, r: Record)
    requires Replay1(v, s, r).Some? && r.metadata.epoch != NO_TRANSITION
    ensures var t, i := r.metadata.epoch, Install(s, r);
            && HasTransition(t) && t.epoch == i.epoch + 1 && t.activation == r.header.integer + 1 && CanonicalSet(t.next)
            && QuorumOf(t.votes, i.validators)
            && (Anchored(t) ==> t.anchorInteger == r.header.integer)
            && BallotsSigned(v, t, if Anchored(t) then t.anchorHash else r.header.previous, r.header.integer)
  {
    hide PayloadOk, Execute, Advance, VersionOk, PolicyOk, QuorumOf, CanonicalSet, BallotsSigned;
  }

  /** A new epoch has the next number and a canonical set, starts with the next integer, and
      was signed by at least two thirds of the set before it, for the hash it is anchored at or
      else the previous record. */
  lemma EpochWasVoted(v: Verifier, records: seq<Record>, i: nat)
    requires Replay(v, records).Some? && i < |records| && records[i].metadata.epoch != NO_TRANSITION
    ensures Replay(v, records[..i]).Some? && Replay(v, records[..i + 1]).Some?
    ensures var t, previous := records[i].metadata.epoch, if i == 0 then NULL_HASH else RecordHash(v, records[i - 1]);
            && Replay(v, records[..i + 1]).value.epoch == t.epoch == Replay(v, records[..i]).value.epoch + 1
            && Replay(v, records[..i + 1]).value.validators == t.next && CanonicalSet(t.next)
            && t.activation == i + 3 && (Anchored(t) ==> t.anchorInteger == i + 2)
            && TwoThirds(t.votes, Deciding(v, records, i))
            && forall k :: 0 <= k < |t.votes| ==>
                 v.epochBallot(if Anchored(t) then t.anchorHash else previous, i + 2, t.epoch, t.activation, t.next, t.votes[k])
  {
    hide Replay, Replay1, RecordHash, LedgerOk, TwoThirds, QuorumOf, Deciding, CanonicalSet;
    TakenUp(v, records, i);
    ChainIsLinked(v, records, i);
    var s := Replay(v, records[..i]).value;
    StepEpochVoted(v, s, records[i]);
    EpochStep(v, s, records[i]);
    DecidingIsInstalled(v, records, i);
    QuorumIsTwoThirds(records[i].metadata.epoch.votes, Deciding(v, records, i));
  }

  lemma StepFinalized(v: Verifier, s: State, r: Record)
    requires Replay1(v, s, r).Some? && !v.legacyFinalization(r, s.validators)
    ensures CertificateOk(v, r.finalization, TargetHash(v, r), r.header.previous, r.header.integer, s.validators)
  {
    hide BatchOk, PrattOk, DivisionOk, MetadataOk, Execute, Advance, CertificateOk, TargetHash;
  }

  lemma QuorumOfVotes(votes: seq<FinalizationVote>, validators: seq<Address>)
    requires QuorumVotes(votes, validators)
    ensures var voters := Elements(VoteNames(votes));
            |voters| == |votes| && voters <= Elements(validators) && 3 * |voters| >= 2 * |validators|
  {
    AscendingSize(VoteNames(votes));
  }

  /** Who finalized record i, unless it falls under the rules kept for old records: two or three
      different development addresses on a chain without validators, and otherwise distinct
      members, at least two thirds of the set in force, with a certificate for this record at
      this place in the chain. */
  lemma RecordWasVoted(v: Verifier, records: seq<Record>, i: nat)
    requires Replay(v, records).Some? && i < |records| && Replay(v, records[..i]).Some?
    requires !v.legacyFinalization(records[i], Replay(v, records[..i]).value.validators)
    ensures records[i].header.integer == i + 2
    ensures var f, target, validators := records[i].finalization, TargetHash(v, records[i]), Replay(v, records[..i]).value.validators;
            var voters, previous := Elements(VoteNames(f.votes)), if i == 0 then NULL_HASH else RecordHash(v, records[i - 1]);
            if validators == [] then
              && 2 <= |f.votes| <= 3 && v.developmentVotes(f.votes, target)
              && (forall k :: 0 <= k < |f.votes| ==> IsDevelopmentAddress(f.votes[k].validator))
              && (forall j, k :: 0 <= j < k < |f.votes| ==> f.votes[j].validator != f.votes[k].validator)
            else
              && |voters| == |f.votes| && voters <= Elements(validators) && 3 * |voters| >= 2 * |validators|
              && v.certificate(f, target, previous, i + 2, validators)
  {
    hide Replay, Replay1, RecordHash, LedgerOk, TargetHash, QuorumVotes, VoteNames, ChangesCarried, CanonicalSet;
    TakenUp(v, records, i);
    ChainIsLinked(v, records, i);
    StepFinalized(v, Replay(v, records[..i]).value, records[i]);
    if Replay(v, records[..i]).value.validators != [] {
      QuorumOfVotes(records[i].finalization.votes, Replay(v, records[..i]).value.validators);
    }
  }

  // ---------------------------------------------------------------- who worked

  lemma StepWork(v: Verifier, s: State, r: Record)
    requires Replay1(v, s, r).Some? && s.started
    ensures r.Composite? ==>
              && r.division.g == r.header.integer && r.division.d * r.division.e == r.division.g && r.division.d > 1 && r.division.e > 1
              && (|| IsDevelopmentAddress(r.division.provider)
                  || (IsSignatureAddress(r.division.provider) && v.divisionSigned(r.division)))
    ensures r.PrimeRecord? && s.validators != [] ==> IsSignatureAddress(r.pratt.provider) && v.prattSigned(r.pratt, r.header.previous)
  {
    hide BatchOk, CommitPhaseOk, LotteryOk, CertificateSetOk, GenesisOk, FinalizationOk, MetadataOk, Execute, Advance,
         NumberTheory.VerifyCompositeProof;
    if r.Composite? {
      NumberTheory.CompositeProofExact(NumberTheory.CompositeProof(r.division.g, r.division.d, r.division.e));
    }
  }

  /** Work is signed by the one who is rewarded for it: a composite record names two proper
      factors and its provider, and once there are validators the finder of a prime signed the
      proof for this place in the chain. */
  lemma WorkIsSigned(v: Verifier, records: seq<Record>, i: nat)
    requires Replay(v, records).Some? && 1 <= i < |records|
    ensures Replay(v, records[..i]).Some?
    ensures records[i].Composite? ==>
              var d := records[i].division;
              && d.d * d.e == i + 2 && d.d > 1 && d.e > 1
              && (IsDevelopmentAddress(d.provider) || (IsSignatureAddress(d.provider) && v.divisionSigned(d)))
    ensures records[i].PrimeRecord? && Replay(v, records[..i]).value.validators != [] ==>
              IsSignatureAddress(records[i].pratt.provider) && v.prattSigned(records[i].pratt, RecordHash(v, records[i - 1]))
  {
    hide Replay, Replay1, RecordHash, LedgerOk;
    TakenUp(v, records, i);
    ChainIsLinked(v, records, i);
    HeightOf(v, records[..i]);
    StepWork(v, Replay(v, records[..i]).value, records[i]);
  }

  // ---------------------------------------------------------------- evidence

  lemma StepEvidence(v: Verifier, s: State, r: Record)
    requires Replay1(v, s, r).Some?
    ensures var m, h, validators := r.metadata, r.header, Install(s, r).validators;
            && v.endpoints(m.endpoints, validators, h.previous, h.integer)
            && v.applications(m.applications, h.previous, h.integer) && v.bindings(m.bindings, h.previous, h.integer)
    ensures r.Composite? ==>
              && (r.header.version == 0 <==> s.validators == [])
              && (1 <= r.header.version <= 8 ==>
                    r.commitPhase.validators == s.validators && v.commitPhase(r.header.integer, r.commitPhase, r.division))
              && (r.header.version >= 10 ==> v.lottery(r.header, r.lottery, SubjectHash(v, r), s.validators))
  {
    hide BatchOk, PrattOk, PrattSignatureOk, DivisionOk, GenesisOk, FinalizationOk, Execute, Advance, VersionOk, TransitionOk, PolicyOk,
         SubjectHash;
  }

  /** What a record brings was checked for its place in the chain: updates of endpoints,
      applications and work bindings; for a composite, with validators in force, the commit phase
      of that set in versions 1 to 8 and the lottery among that set from version 10 on. */
  lemma EvidenceIsChecked(v: Verifier, records: seq<Record>, i: nat)
    requires Replay(v, records).Some? && i < |records|
    ensures Replay(v, records[..i]).Some? && records[i].header.integer == i + 2
    ensures var m, previous := records[i].metadata, if i == 0 then NULL_HASH else RecordHash(v, records[i - 1]);
            && v.endpoints(m.endpoints, Deciding(v, records, i), previous, i + 2)
            && v.applications(m.applications, previous, i + 2) && v.bindings(m.bindings, previous, i + 2)
    ensures records[i].Composite? ==>
              var r, validators := records[i], Replay(v, records[..i]).value.validators;
              && (r.header.version == 0 <==> validators == [])
              && (1 <= r.header.version <= 8 ==>
                    r.commitPhase.validators == validators && v.commitPhase(i + 2, r.commitPhase, r.division))
              && (r.header.version >= 10 ==> v.lottery(r.header, r.lottery, SubjectHash(v, r), validators))
  {
    hide Replay, Replay1, RecordHash, LedgerOk, Deciding, SubjectHash;
    TakenUp(v, records, i);
    ChainIsLinked(v, records, i);
    StepEvidence(v, Replay(v, records[..i]).value, records[i]);
    DecidingIsInstalled(v, records, i);
  }

  lemma StepGenesis(v: Verifier, r: Record)
    requires Replay1(v, EMPTY, r).Some?
    ensures r.PrimeRecord? && r.pratt.p == 2
    ensures if r.header.version == 0 then r.genesis.validators == []
            else
              && CanonicalSet(r.genesis.validators)
              && (if r.header.version == 1 then r.genesis.message == "" else r.header.version >= 11 && r.genesis.message != "")
  {
    hide BatchOk, PrattSignatureOk, FinalizationOk, Execute, Advance, MetadataOk, CanonicalSet, IsProtocolAddress,
         NumberTheory.PrattAccepts;
  }

  /** The first record is the prime 2. It installs no validators in version 0, and otherwise a
      canonical set, without a message in version 1 and with one from version 11 on. */
  lemma GenesisRecord(v: Verifier, records: seq<Record>)
    requires Replay(v, records).Some? && records != []
    ensures records[0].PrimeRecord? && records[0].pratt.p == 2
    ensures var r := records[0];
            if r.header.version == 0 then r.genesis.validators == []
            else
              && CanonicalSet(r.genesis.validators)
              && (if r.header.version == 1 then r.genesis.message == "" else r.header.version >= 11 && r.genesis.message != "")
  {
    hide Replay1, LedgerOk, CanonicalSet;
    TakenUp(v, records, 0);
    assert records[..0] == [];
    StepGenesis(v, records[0]);
  }
}
