/**
 From a validator's votes to the bytes of its file and back
 (src/node/sync_server.cpp, src/storage/finalization_store.cpp). The server keeps the records
 of the file themselves; a reading tells what they stand for in the consensus model.
 */
module VoteFile {
  import opened Machine
  import opened Addresses
  import opened Records
  import FieldFormats
  import opened RecordForm
  import opened SubjectIdentity
  import opened FinalizationStore
  import opened Certificates
  import opened VoteRules
  import opened LockDurability
  import Ledger
  import LedgerAgreement
  import LedgerCertificates

  function ReadAll(read: SignedVote -> SignedRecord, xs: seq<SignedVote>): (file: seq<SignedRecord>)
    ensures |file| == |xs|
  {
    seq(|xs|, i requires 0 <= i < |xs| => read(xs[i]))
  }

  /** persistSignedCandidates: the bytes written. */
  function BytesOf(xs: seq<SignedVote>): Bytes {
    FileOf(VoteFormat(MAGIC_V2), xs)
  }

  /** loadFinalizationVotesInternal on the bytes of the file. */
  function LoadBytes(read: SignedVote -> SignedRecord, b: Bytes, self: Address, target: nat, net: set<Message>): Loaded {
    var xs := LoadFile(VoteFormat(MAGIC_V1), VoteFormat(MAGIC_V2), b);
    if xs.None? then LoadError else LoadVotes(ReadAll(read, xs.value), self, target, net)
  }

  /** The records are read back from the bytes written for them. */
  lemma BytesReadBack(read: SignedVote -> SignedRecord, xs: seq<SignedVote>, self: Address, target: nat, net: set<Message>)
    requires forall i :: 0 <= i < |xs| ==> Writable(xs[i])
    ensures LoadBytes(read, BytesOf(xs), self, target, net) == LoadVotes(ReadAll(read, xs), self, target, net)
  {
    hide Writable, VoteFormat, LoadFile, FileOf, LoadVotes;
    VotesSurvive(xs);
  }

  /** The bytes written from a validator's votes load, and give back the recent locks exactly
      when no recent lock shares its integer and round with a vote for another position. */
  lemma BytesDurableIff(
    read: SignedVote -> SignedRecord, xs: seq<SignedVote>, signed: SignedCandidates, locks: Locks, self: Address, target: nat,
    net: set<Message>)
    requires forall i :: 0 <= i < |xs| ==> Writable(xs[i])
    requires LocksFormed(locks, self, net) && SignedFormed(signed, locks, self, net) && SnapshotOf(ReadAll(read, xs), signed, locks)
    ensures LoadBytes(read, BytesOf(xs), self, target, net).Loaded?
    ensures LoadBytes(read, BytesOf(xs), self, target, net).locks == Recent(locks, target) <==> NoCollision(signed, locks, target)
  {
    hide Writable, BytesOf, LoadBytes, LoadVotes, NoCollision, Recent, SnapshotOf, ReadAll;
    BytesReadBack(read, xs, self, target, net);
    DurableIff(ReadAll(read, xs), signed, locks, self, target, net);
  }

  /** A file cut inside its last record: refused, unless fewer than eight bytes of the record
      are left, when the votes before it load. */
  lemma CutLoads(
    read: SignedVote -> SignedRecord, xs: seq<SignedVote>, last: SignedVote, cut: nat, self: Address, target: nat, net: set<Message>)
    requires (forall i :: 0 <= i < |xs| ==> Writable(xs[i])) && Writable(last) && cut < |VoteFormat(MAGIC_V2).render(last)|
    ensures LoadBytes(read, BytesOf(xs) + VoteFormat(MAGIC_V2).render(last)[..cut], self, target, net)
         == if cut < 8 then LoadVotes(ReadAll(read, xs), self, target, net) else LoadError
  {
    hide Writable, VoteFormat, LoadFile, FileOf, LoadVotes;
    CutFile(xs, last, cut);
  }

  // ---------------------------------------------------------------- the reading

  /** The candidate in the payload of a record. */
  function StoredCandidate(sc: FieldFormats.Schema, x: SignedVote): Option<Record>
    requires FieldFormats.LawfulSchema(sc)
  {
    if x.kind == LedgerCertificates.PRIME_KIND_NAME then Deserialize(sc, false, x.payload)
    else if x.kind == LedgerCertificates.COMPOSITE_KIND_NAME then Deserialize(sc, true, x.payload)
    else None
  }

  /** signedCandidateSubject: what a record of the file stands for, when hashes have these
      names. A payload that does not decode is a candidate for another integer, which the
      loader refuses. */
  function Reading(v: Ledger.Verifier, name: Hash256 -> Hash, x: SignedVote): SignedRecord
    requires FieldFormats.LawfulSchema(v.schema)
  {
    var d := StoredCandidate(v.schema, x);
    var candidate :=
      if x.payload == [] then None
      else if d.None? then Some(Candidate(Certificates.Subject(Zero, x.integer + 1, None, []), Proof(DevelopmentRule, [], [])))
      else
        var prev := name(d.value.header.previous);
        Some(Candidate(LedgerAgreement.SubjectOf(v.schema, prev, d.value), LedgerCertificates.ProofOf(v, prev, d.value)));
    SignedRecord(x.integer, candidate, Vote(x.validator, name(x.target), x.round))
  }

  /** The name of the hash of the candidate is its subject, and no other hash in the record has
      that name. */
  ghost predicate Names(v: Ledger.Verifier, name: Hash256 -> Hash, x: SignedVote)
    requires FieldFormats.LawfulSchema(v.schema)
  {
    var d := StoredCandidate(v.schema, x);
    d.Some? ==>
      var s := Of(LedgerAgreement.SubjectOf(v.schema, name(d.value.header.previous), d.value));
      && name(LedgerCertificates.LockHash(v, d.value)) == s
      && (name(x.target) == s ==> x.target == LedgerCertificates.LockHash(v, d.value))
  }

  /** The comparison the source makes of a record with its candidate, by decoding and hashing,
      is the one the loader makes on what it stands for. */
  lemma ReadingMatches(v: Ledger.Verifier, name: Hash256 -> Hash, x: SignedVote)
    requires FieldFormats.LawfulSchema(v.schema) && Names(v, name, x) && x.payload != []
    ensures var r, d := Reading(v, name, x), StoredCandidate(v.schema, x);
            && r.candidate.Some?
            && (r.candidate.value.subject.integer == r.integer && r.vote.target == Of(r.candidate.value.subject)
                <==> d.Some? && d.value.header.integer == x.integer && x.target == LedgerCertificates.LockHash(v, d.value))
  {
    hide FieldFormats.LawfulSchema, LedgerCertificates.ProofOf, LedgerCertificates.LockHash, Deserialize, SubjectBytes,
         LedgerAgreement.NextSet;
  }
}
