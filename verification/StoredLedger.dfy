/**
 The ledger and what is stored of it: which records the store takes
 (src/storage/record_store.cpp, validateRecord), what load makes of them
 (src/node/sequential_node.cpp), and how that compares with the node that appended them.
 */
module StoredLedger {
  import opened Machine
  import opened Addresses
  import opened Records
  import opened Formats
  import opened FieldFormats
  import opened RecordForm
  import opened WrittenForm
  import opened BatchRoots
  import opened Distribution
  import opened Ledger
  import opened LedgerInvariant
  import opened LedgerReplay
  import opened CertificateIndependence

  // ---------------------------------------------------------------- what is read of an accepted record

  /** Version 14 writes the anchor of a transition. Before, its votes are read as votes for
      the record's own predecessor. */
  predicate AnchorReads(v: Verifier, r: Record) {
    HasTransition(r.metadata.epoch) && r.header.version < EPOCH_VOTE_ANCHOR ==>
      BallotsSigned(v, r.metadata.epoch, r.header.previous, r.header.integer)
  }

  lemma TransitionRead(v: Verifier, t: EpochTransition, version: u64, validators: seq<Address>, epoch: nat,
                       previous: Hash256, integer: u64)
    requires TransitionOk(v, t, validators, epoch, previous, integer) && (HasTransition(t) ==> version >= 2)
    ensures HasTransition(WrittenTransition(t, version)) == HasTransition(t)
    ensures TransitionOk(v, WrittenTransition(t, version), validators, epoch, previous, integer)
       <==> (HasTransition(t) && version < EPOCH_VOTE_ANCHOR ==> BallotsSigned(v, t, previous, integer))
  {
    hide CanonicalSet, QuorumOf;
    var w := WrittenTransition(t, version);
    if t != NO_TRANSITION {
      assert HasTransition(t);
      assert BallotsSigned(v, w, previous, integer) <==> BallotsSigned(v, t, previous, integer);
    }
  }

  /** Whatever else the version does not write is at its default already. */
  lemma MetadataRead(v: Verifier, s: State, r: Record)
    requires MetadataOk(v, s, r)
    ensures WrittenMetadata(r.metadata, r.header.version)
         == r.metadata.(epoch := WrittenTransition(r.metadata.epoch, r.header.version))
    ensures HasTransition(WrittenTransition(r.metadata.epoch, r.header.version)) == HasTransition(r.metadata.epoch)
    ensures MetadataOk(v, s, Written(r)) <==> AnchorReads(v, r)
  {
    hide CanonicalSet, QuorumOf, TransitionOk, PolicyOk, BallotsSigned;
    var h, m := r.header, r.metadata;
    TransitionRead(v, m.epoch, h.version, s.validators, s.epoch, h.previous, h.integer);
    assert WrittenPolicy(m.policy, h.version) == m.policy;
    assert Written(r).metadata == WrittenMetadata(m, h.version);
  }

  lemma CertificateRead(v: Verifier, f: Finalization, target: Hash256, previous: Hash256, integer: u64,
                        validators: seq<Address>)
    requires CertificateOk(v, f, target, previous, integer, validators)
    ensures CertificateOk(v, WrittenFinalization(f), target, previous, integer, validators)
    ensures validators != [] ==> WrittenFinalization(f) == f
  {
    hide CanonicalSet, QuorumVotes, DistinctDevelopers;
  }

  lemma TargetRead(v: Verifier, r: Record)
    requires OmitsUnwritten(v.schema)
    ensures SubjectHash(v, Written(r)) == SubjectHash(v, r) && RecordHash(v, Written(r)) == RecordHash(v, r)
    ensures TargetHash(v, Written(r)) == TargetHash(v, r)
  {
    hide Serialize, WrittenMetadata, OmitsUnwritten;
    SubjectWritten(v.schema, r);
    SerializeWritten(v.schema, r, true);
    SerializeWritten(v.schema, r, false);
    SerializeWritten(v.schema, WithoutVotes(r), true);
    assert WithoutVotes(Written(r)) == Written(WithoutVotes(r));
    assert Written(r).finalization.rule == r.finalization.rule;
  }

  lemma WrittenWork(r: Record)
    ensures SameWork(r, Written(r))
  {
    hide WrittenMetadata, WrittenFinalization, WrittenGenesis;
  }

  /** The payload checks of load hold of what is read, whatever participants it has noted. */
  lemma PayloadRead(v: Verifier, s: State, t: State, r: Record)
    requires StartedOk(s) && SameLedger(s, t) && OmitsUnwritten(v.schema)
    requires CandidateOk(v, s, r) && FinalizationOk(v, r, s.validators)
    ensures PayloadOk(v, t, Written(r))
  {
    hide PrattOk, DivisionOk, PrattSignatureOk, MetadataOk, HoldersOk, EpochsOk, NamesOk, CanonicalSet, AssetsOk, RecordHash,
         TargetHash, SubjectHash, WrittenMetadata, WrittenFinalization, OmitsUnwritten, CertificateOk, BatchRoot;
    TargetRead(v, r);
    CertificateRead(v, r.finalization, TargetHash(v, r), r.header.previous, r.header.integer, s.validators);
    WrittenWork(r);
    SamePrattOk(r);
    if r.Composite? && r.header.version == 1 {
      CanonicalIsNonEmpty(r.commitPhase.validators);
    }
  }

  lemma SamePrattOk(r: Record)
    ensures r.PrimeRecord? ==> PrattOk(Written(r)) == PrattOk(r)
    ensures r.Composite? ==> forall v :: DivisionOk(v, Written(r)) == DivisionOk(v, r)
  {
    hide WrittenMetadata, WrittenFinalization, WrittenGenesis;
  }

  /** The state after the record is loaded, from the one after it is appended: only the noted
      participants can differ. */
  ghost function Reloaded(v: Verifier, s: State, t: State, r: Record): State
    requires Append(v, s, r).Some?
  {
    var renewed := HasTransition(r.metadata.epoch);
    Append(v, s, r).value.(
      feeParticipants := Noted(t.feeParticipants, DistributesFees(s, r) || renewed, Written(r)),
      rewardParticipants := Noted(t.rewardParticipants, DistributesRewards(r) || renewed, Written(r)))
  }

  /** An appended record is accepted by load if and only if the votes of its transition are
      still good, and then with the same ledger. */
  lemma AppendedIsRead(v: Verifier, s: State, t: State, r: Record)
    requires StartedOk(s) && SameLedger(s, t) && OmitsUnwritten(v.schema) && Append(v, s, r).Some?
    ensures Replay1(v, t, Written(r)).Some? <==> AnchorReads(v, r)
    ensures AnchorReads(v, r) ==> Replay1(v, t, Written(r)) == Some(Reloaded(v, s, t, r))
  {
    hide CandidateOk, PayloadOk, MetadataOk, Execute, MoveTip, Enact, AnchorReads, FinalizationOk, HoldersOk, EpochsOk, NamesOk,
         AssetsOk, OmitsUnwritten, Written;
    var q := Written(r);
    CandidateFollows(v, s, r);
    PayloadRead(v, s, t, r);
    MetadataRead(v, s, r);
    SameMetadataOk(v, s, t, q);
    WrittenWork(r);
    SameExecution(v, s, t, r, q);
    PolicyNeverLate(v, s, r);
    WrittenPolicyOf(r);
    if AnchorReads(v, r) {
      AdvanceRead(v, s, t, r);
    }
  }

  lemma CandidateFollows(v: Verifier, s: State, r: Record)
    requires CandidateOk(v, s, r)
    ensures Follows(s, r) && MetadataOk(v, s, r)
  {
    hide PrattOk, DivisionOk, PrattSignatureOk, MetadataOk, BatchOk, CommitPhaseOk;
  }

  lemma WrittenPolicyOf(r: Record)
    ensures r.header.version >= 7 ==> Written(r).metadata.policy == r.metadata.policy
    ensures Written(r).metadata == WrittenMetadata(r.metadata, r.header.version)
  {
    hide WrittenFinalization, WrittenGenesis, WrittenTransition;
  }

  lemma SameMetadataOk(v: Verifier, s: State, t: State, r: Record)
    requires SameLedger(s, t)
    ensures MetadataOk(v, s, r) == MetadataOk(v, t, r)
  {
    hide TransitionOk, PolicyOk, VersionOk;
  }

  lemma SameDistributions(s: State, t: State, r: Record, q: Record)
    requires SameLedger(s, t) && r.body == q.body && r.header == q.header
    ensures DistributesFees(s, r) == DistributesFees(t, q) && DistributesRewards(r) == DistributesRewards(q)
  {
    assert TxContext(s, r.header.integer) == TxContext(t, q.header.integer);
  }

  lemma AdvanceRead(v: Verifier, s: State, t: State, r: Record)
    requires SameLedger(s, t) && OmitsUnwritten(v.schema) && MetadataOk(v, s, r) && Append(v, s, r).Some?
    requires Execute(v, t, Written(r)).Some? && SameLedger(Execute(v, s, r).value, Execute(v, t, Written(r)).value)
    ensures Advance(v, t, Execute(v, t, Written(r)).value, Written(r)) == Reloaded(v, s, t, r)
  {
    hide CandidateOk, MetadataOk, Execute, Noted, DistributesFees, DistributesRewards, RecordHash, OmitsUnwritten, FinalizationOk;
    var q := Written(r);
    TargetRead(v, r);
    MetadataRead(v, s, r);
    WrittenPolicyOf(r);
    SameDistributions(s, t, r, q);
    ExecuteKeepsNames(v, t, q);
    ExecuteKeepsNames(v, s, r);
  }

  lemma ExecuteKeepsNames(v: Verifier, s: State, r: Record)
    requires Execute(v, s, r).Some?
    ensures var x := Execute(v, s, r).value;
            x.feeParticipants == s.feeParticipants && x.rewardParticipants == s.rewardParticipants
  {
    hide Execute;
    ExecuteFields(v, s, r);
  }

  // ---------------------------------------------------------------- participants

  /** A sorted list without duplicates is determined by its elements. */
  lemma {:induction false} AscendingUnique(a: seq<Address>, b: seq<Address>)
    requires Ascending(a) && Ascending(b) && forall x :: x in a <==> x in b
    ensures a == b
  {
    if a == [] {
      assert forall i :: 0 <= i < |b| ==> b[i] in b;
    } else {
      assert a[0] in a && a[0] in b;
      AscendingTail(a);
      AscendingTail(b);
      assert b[0] in b && b[0] in a;
      if a[0] != b[0] {
        LessAsymmetric(a[0], b[0]);
        assert false;
      }
      forall x
        ensures x in a[1..] <==> x in b[1..]
      {
        LessIrreflexive(a[0]);
        assert x in a <==> x in b;
      }
      AscendingUnique(a[1..], b[1..]);
      assert a == [a[0]] + a[1..] && b == [b[0]] + b[1..];
    }
  }

  /** Signers a record in memory shows but does not write: commit-phase votes outside versions
      1 to 8, and round changes under a rule that carries none. */
  function UnwrittenSigners(r: Record): seq<Address> {
    (if r.Composite? && !(1 <= r.header.version < DIRECT_COMPOSITE) then BallotNames(r.commitPhase.votes) else [])
    + (if CarriesRoundChanges(r.finalization.rule) then [] else ChangeNames(r.finalization.roundChanges))
  }

  lemma SignersSplit(r: Record, a: Address)
    ensures a in Signers(r) <==> a in UnwrittenSigners(r) || a in Signers(Written(r))
  {
    hide WrittenMetadata, WrittenGenesis;
    var f, q := r.finalization, Written(r);
    assert BallotNames(NO_COMMIT_PHASE.votes) == [];
    assert ChangeNames(WithoutLocks(f.roundChanges)) == ChangeNames(f.roundChanges);
    assert q.finalization.votes == f.votes;
    assert ChangeNames(q.finalization.roundChanges)
        == if CarriesRoundChanges(f.rule) then ChangeNames(f.roundChanges) else [];
    assert a in Signers(r) <==>
      (r.Composite? && a in BallotNames(r.commitPhase.votes))
      || a in VoteNames(f.votes) || a in ChangeNames(f.roundChanges);
    assert a in Signers(q) <==>
      (q.Composite? && a in BallotNames(q.commitPhase.votes))
      || a in VoteNames(f.votes) || a in ChangeNames(q.finalization.roundChanges);
  }

  /** Every signing address that is not written is noted already or written elsewhere. */
  ghost predicate NamesRead(names: seq<Address>, r: Record) {
    forall a :: a in UnwrittenSigners(r) && IsSignatureAddress(a) ==> a in names || a in Signers(Written(r))
  }

  /** The list of participants read back is the list in memory, if and only if that holds. */
  lemma NotedIff(names: seq<Address>, r: Record)
    requires Ascending(names)
    ensures Noted(names, false, r) == Noted(names, false, Written(r)) <==> NamesRead(names, r)
  {
    hide IsSignatureAddress, Signers, UnwrittenSigners, Written;
    var q := Written(r);
    AddSignersOk(names, Signers(r));
    AddSignersOk(names, Signers(q));
    forall a
      ensures a in Signers(r) <==> a in UnwrittenSigners(r) || a in Signers(q)
    {
      SignersSplit(r, a);
    }
    if NamesRead(names, r) {
      AscendingUnique(Noted(names, false, r), Noted(names, false, q));
    }
  }

  /** After an accepted append, the record read back leaves the state in memory if and only if
      each list of participants is emptied by the record or loses no name. */
  lemma ReloadExactIff(v: Verifier, s: State, r: Record)
    requires StartedOk(s) && Append(v, s, r).Some?
    ensures var renewed := HasTransition(r.metadata.epoch);
            Reloaded(v, s, s, r) == Append(v, s, r).value
            <==> && (DistributesFees(s, r) || renewed || NamesRead(s.feeParticipants, r))
                 && (DistributesRewards(r) || renewed || NamesRead(s.rewardParticipants, r))
  {
    hide CandidateOk, Execute, FinalizationOk, DistributesFees, DistributesRewards, AddSigners, Signers, NamesRead, AssetsOk, HoldersOk,
         EpochsOk, HasTransition;
    NotedIff(s.feeParticipants, r);
    NotedIff(s.rewardParticipants, r);
    AppendedNames(v, s, r);
  }

  lemma AppendedNames(v: Verifier, s: State, r: Record)
    requires Append(v, s, r).Some?
    ensures var n, renewed := Append(v, s, r).value, HasTransition(r.metadata.epoch);
            && n.feeParticipants == Noted(s.feeParticipants, DistributesFees(s, r) || renewed, r)
            && n.rewardParticipants == Noted(s.rewardParticipants, DistributesRewards(r) || renewed, r)
  {
    hide CandidateOk, Execute, FinalizationOk, DistributesFees, DistributesRewards, Noted, Advance;
    ExecuteKeepsNames(v, s, r);
    AdvanceFields(v, s, Execute(v, s, r).value, r);
  }

  // ---------------------------------------------------------------- transactions

  lemma SameBytesSameTransactions(f: Format<Transaction>, hash: Bytes -> Hash256, a: seq<Transaction>, b: seq<Transaction>)
    requires Lawful(f) && SameBytes(Digester(f.render, hash), a, b)
    requires (forall tx :: tx in a ==> f.valid(tx)) && (forall tx :: tx in b ==> f.valid(tx))
    ensures a == b
  {
    forall i | 0 <= i < |a|
      ensures a[i] == b[i]
    {
      assert a[i] in a && b[i] in b && f.render(a[i]) == f.render(b[i]);
      ReadBack(f, a[i], []);
      ReadBack(f, b[i], []);
    }
  }

  /** The count and root a record carries determine its transactions: two accepted records of
      one version with the same pair have the same list, unless two of the byte strings hashed
      for the roots collide. */
  lemma BatchDetermines(v: Verifier, a: Record, b: Record)
    requires Lawful(v.schema.parts.transaction) && BatchOk(v, a) && BatchOk(v, b)
    requires a.header.version == b.header.version && a.body.batch == b.body.batch
    requires forall tx :: tx in a.body.transactions ==> v.schema.parts.transaction.valid(tx)
    requires forall tx :: tx in b.body.transactions ==> v.schema.parts.transaction.valid(tx)
    requires var d := TransactionDigester(v);
             CollisionFree(v.hash, HashedFor(d, a.body.transactions, a.header.version)
                                   + HashedFor(d, b.body.transactions, b.header.version))
    ensures a.body.transactions == b.body.transactions
  {
    hide BatchRoot, HashedFor, CollisionFree, Lawful;
    BatchBinds(TransactionDigester(v), a.body.transactions, b.body.transactions, a.header.version);
    SameBytesSameTransactions(v.schema.parts.transaction, v.hash, a.body.transactions, b.body.transactions);
  }
}
