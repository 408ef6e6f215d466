# Verification of primechain

Primechain decides one integer after the other. Each finalized record says whether the next
integer is prime or composite, proves it, mints an asset for each prime, and carries the
votes of a validator quorum. This project models the five parts that this rests on and
proves what they promise. `dafny verify dfyconfig.toml` checks all of it with Dafny 4.11.

## Parts

**Finalization** (`Addresses`, `Quorum`, `Certificates`, `Committee`, `VoteRules`,
`LockDurability`, `VoterSafety`, `Agreement`, `VoteGiven`, `RoundChanges`, `Progress`,
`FinalizationServer`). `FinalizationServer`
holds the server's maps of signed candidates, locks and round changes as a class; its
methods follow the source loop by loop and are proved equal to the step functions of
`VoteRules`. `Agreement` runs those steps for many validators with failed writes, restarts
and an adversary who controls the others and the network. The main results are that honest
chains are prefixes of one another, that nobody honest signs two subjects at one position,
and that locks survive restarts. They rest on the permanent lock per previous hash and
integer and on quorum intersection, not on what round-change certificates report. `VoteGiven`
is the other side: exactly when an honest validator does vote. `RoundChanges` says what it
reports when it changes rounds and how rounds open, `Progress` that an honest committee of the
first round finalizes.

**Ledger** (`Money`, `Transactions`, `Conservation`, `Distribution`, `Payments`,
`Acceptance`, `Ledger`, `Minting`, `Rewards`, `LedgerInvariant`, `LedgerReplay`,
`LedgerHistory`, `ChainLaws`, `ChainLists`, `CertificateIndependence`, `Mempool`, `Ownership`,
`Books`, `Snapshots`, `SequentialNode`). `Ledger` gives append and replay as functions on
states. `Books` and `SequentialNode` are the mutable node, with its save and restore on
failure. The main results are exact minting, append equal to replay, snapshots equal to
replay, the epoch and policy history, every balance after every record, exactly which
transactions are accepted, and that nothing is spent unsigned and no active validator's
reserve at all.

**From the ledger to its neighbours** (`StoredLedger`, `LedgerStore`, `Participants`,
`Restarts`, `DurableLedger`, `FirstRecords`, `LedgerWitnesses`, `LedgerAgreement`,
`LedgerCertificates`, `LedgerRuns`, `RunWitness`, `VoteFile`). What a node appended is
compared with what it loads after a restart, from its records or from a snapshot saved at any
point of a run, and after a crash at any byte. `LedgerCertificates` checks certificates on the
fields of a record and proves the check to be that of the consensus model. `LedgerRuns` is a
system of validators that hold records, vote for what their ledgers accept and append what
ledger and store take; its runs are runs of the consensus model, so that chain agreement
becomes agreement of balances, supply, nonces, validators and policy.

**Arithmetic** (`Machine`, `Sets`, `Divisibility`, `ModularPower`, `Fermat`,
`PrimitiveRoot`, `Factorization`, `Lucas`, `NumberTheory`, `ProofIndex`). 64-bit words wrap
explicitly. Both directions of the Lucas criterion are proved from scratch, so that a Pratt
proof is accepted for some base if and only if the integer is prime, up to 2^63.

**Codec and identity** (`Records`, `ProtocolAddresses`, `Formats`, `FieldFormats`,
`FieldLayouts`, `RecordBytes`, `DecodeLimits`, `RecordForm`, `WrittenForm`, `WireFacts`,
`Witnesses`, `ByteReading`, `RecordReader`, `RecordWriter`, `SubjectIdentity`, `Merkle`,
`BatchRoots`). A format is a printer, a parser, the values the parser can return and the
values there are in memory. A lawful format reads back what it can, refuses the rest, and
accepts no bytes but those of some admissible value. `RecordBytes` spells the bytes of every
record out, `DecodeLimits` which records come back from them. `RecordWriter` and
`RecordReader` are the statement sequences of the source over a byte buffer and a cursor,
proved to write and read what the formats say.

**Storage** (`StoreFile`, `IndexFile`, `StoreRecovery`, `RecordStore`,
`FinalizationStore`). Files are byte sequences. An append may stop at any byte of its three
writes.

## What is assumed

- In the consensus model a hash is the subject it is the hash of. Elsewhere hashes are
  computed from bytes by an arbitrary function, and results name the collisions they exclude.
- Signatures are an oracle. An honest validator's messages are those it sent, everybody
  else's may be anything. In `LedgerRuns` a signature that verifies was made by its validator,
  and the bytes hashed for a record and the candidates it reports do not collide (`Genuine`).
- Record versions in the consensus model are 11 and later, where vote target, stored
  identity and chain link are all the subject hash.
- Writes of a file happen in order and may stop at any byte; a rename is atomic.
- Records in memory have sizes below 2^64 and characters of one byte (`Representable`).

## What the code does not do

- `mulMod` is wrong for every modulus above 2^63 (`MulModExactIff`), so the results about
  Pratt proofs and minting stop at 2^63.
- The vote file has one entry per integer and round. A lock that shares both with a vote for
  another position is not written (`DurableIff`, `CollisionLosesLock`). A chain that only
  grows never gets there (`LocksSurviveRestart`).
- The check of reported locks stops at the first contradiction it meets. Two candidates
  reported for one round refuse a certificate even when a later change reports a higher lock
  on the subject, but not when that change comes first (`LocksAllowIff`,
  `ContradictionsBelow`).
- A vote file cut in the first eight bytes of a record loads without that record and what
  follows; cut anywhere else inside a record it is refused (`CutFile`, `CutLoads`).
- Version 3 records without an endpoint list decode but re-encode differently
  (`DecodedIsCanonical`; `ShortBytesNotCanonical` at the protocol's own formats).
- Decoders limit lists to 16 validators and votes (64 for some), encoders do not. A record
  reads back if and only if it is `Storable` (`StorableIff`, `SeventeenValidators`). The
  store decodes a payload before it takes it, so such a record is refused and append leaves
  everything as it was (`StoreTakesIff`, `Node.Append`).
- Append notes the signers of the record in memory. Commit-phase votes outside versions 1 to
  8, and round changes under a rule that carries none, are not written, so a load from the
  records can forget participants. `RecordsRestoreIff` says exactly when, over whole runs;
  `ForgottenParticipant` shows it after a record with a quorum certificate of other validators.
- A transition may name the predecessor its votes are for, and append checks the votes
  against it, but versions before 14 do not write it. Load then checks the votes against the
  record's own predecessor. `LoadFollowsRun` says exactly when a store of accepted records
  loads, `RefusedOnReload` shows one that does not.
- A snapshot only hides these two effects: what happened before it was saved comes back, what
  happened after it is read from the records (`SnapshotRestoreIff`).
- When a record behind a snapshot is refused, load discards the snapshot and calls itself, but
  with the error still set, so that the second load returns at once. It never loads the records
  without the snapshot (`SnapshotContinues`, `SnapshotStopsLoad`). For snapshots a node saved
  itself that makes no difference (`RetryWouldNotHelp`, `SnapshotRefines`).
- Equal Merkle roots alone do not mean equal lists (`RootAloneIsAmbiguous`); count and root
  do (`BatchDetermines`).

## Model

| member | source | states |
|---|---|---|
| Quorum.RequiredQuorum | src/core/consensus.cpp:31-35 | The quorum is the least count that is at least two thirds of the set, and never more than the set. |
| Quorum.HonestIntersection | src/core/consensus.cpp:31-35 | With fewer than 2q - n faulty members, any two quorums share an honest member. |
| Quorum.QuorumsCanSplit | src/core/consensus.cpp:31-35 | The bound is tight for every n: there are two quorums that share exactly 2q - n members. |
| Quorum.ThirdIsEnough | src/core/consensus.cpp:31-35 | Fewer than a third faulty is always within the bound. |
| Certificates.VerifyRoundChangeCertificate | src/protocol/records.cpp:1670-1757 | The loop over a round-change certificate accepts exactly the certified rounds: canonical set, a quorum of distinct signed changes for one round and position, sorted. |
| Certificates.ScanHighestLock | src/node/sync_server.cpp:4471-4491 | The scan over reported locks computes the highest one, or a conflict. |
| Certificates.HighestLockIsHighest | src/node/sync_server.cpp:4471-4491 | Without a conflict the result is reported by someone, nobody reports a higher round, and everyone reporting that round names the same candidate. |
| Certificates.AgreeingLocksScan | src/node/sync_server.cpp:4471-4491 | Reports that agree round by round never scan to a conflict. |
| Certificates.VerifyRecordFinalization | src/protocol/records.cpp:1759-1826 | The vote loop accepts exactly the finalizing certificates; which those are is stated without the loop by FinalizesIff, and what they say about reported locks by LocksAllowIff. |
| Certificates.LocksAllowIff | src/node/sync_server.cpp:4471-4491 | Under the locked rule a subject passes the lock check if and only if every change that reports a lock of the highest round reports this subject, and no change on the way there contradicts the highest lock met before it. |
| Certificates.ContradictionsBelow | src/node/sync_server.cpp:4471-4491 | The second condition is needed: a certificate whose highest lock is reported by one change only is refused because of two different candidates in a lower round, in one order of the changes and not in the other. |
| Certificates.FinalizesIff | src/protocol/records.cpp:1759-1826 | A certificate finalizes a target if and only if a quorum of distinct members voted for it in the round the certificate proves, and under the locked rule the reports of the highest round are for it and nothing met before contradicts. |
| Certificates.CertifiedHasQuorum | src/protocol/records.cpp:1670-1757 | A certified round is 1 without changes, or at least 2 with a quorum of distinct members that signed for it. |
| Certificates.FinalizedHasQuorum | src/protocol/records.cpp:1759-1826 | Behind every accepted certificate stand the votes of a quorum of distinct members of the set. |
| Committee.FinalizationCommitteeOrdered | src/node/sync_server.cpp:4320-4349 | The window loop and the rotation compute the committee with its proposer first. |
| Committee.CommitteeDistinct | src/node/sync_server.cpp:4320-4349 | A committee has exactly a quorum of members, all different. |
| Committee.CommitteeIsWindow | src/node/sync_server.cpp:4320-4349 | A validator sits on the committee if and only if its position lies in the cyclic window. |
| Committee.EveryoneSitsEqually | src/node/sync_server.cpp:4320-4349 | In any n consecutive rounds every validator sits on exactly a quorum of committees. |
| Committee.ProposerIsMember | src/node/sync_server.cpp:4360-4367 | The proposer is the validator at the rotating position, and sits on the committee. |
| Committee.ProposerOncePerBlock | src/node/sync_server.cpp:4360-4367 | In every aligned block of n rounds a validator proposes in one round and in no other. |
| Committee.RetryLoopTurns | src/node/sync_server.cpp:5274-5289 | The 4n rounds of the retry loop give every validator at least three proposer turns. |
| VoteRules.ActiveRoundMonotone | src/node/sync_server.cpp:4092-4101 | Recording more round changes never lowers the active round. |
| VoteRules.ImportOnlyAdds | src/node/sync_server.cpp:4179-4209 | An import keeps every recorded change and adds only certified ones, also when it stops at a conflict. |
| FinalizationServer.Server.CertifiedRoundChanges | src/node/sync_server.cpp:4076-4090 | The certificate is sorted, holds recorded changes of the round only, is the complete list unless truncated, and reaches the quorum exactly when the round is certified. |
| FinalizationServer.Server.ActiveFinalizationRound | src/node/sync_server.cpp:4092-4101 | The loop over the map finds the highest certified round, 1 if there is none. |
| FinalizationServer.Server.SignedCandidateSnapshot | src/node/sync_server.cpp:4046-4064 | The written list is all signed candidates, then each lock whose integer and round are not listed yet. |
| FinalizationServer.Server.AcceptRoundChangeVote | src/node/sync_server.cpp:4103-4177 | Records a valid change for the integer being decided, with rollback when persisting fails; nothing but the changes moves. |
| FinalizationServer.Server.ImportCertifiedRoundChanges | src/node/sync_server.cpp:4179-4209 | The import with its partial effect on a conflict and its rollback on a failed write; nothing but the changes moves. |
| FinalizationServer.Server.LoadFinalizationVotes | src/node/sync_server.cpp:4239-4318 | The reload loop accepts and rebuilds exactly as the specification of the loader says. A refused file leaves the maps of the records before the refused one, with its lock raised already when only its vote was a duplicate. |
| FinalizationServer.Server.ClearSignedCandidate | src/node/sync_server.cpp:4404-4422 | Forgets candidates and changes of a finalized integer and keeps every lock. |
| FinalizationServer.Server.MakeLocalFinalizationVote | src/node/sync_server.cpp:4424-4583 | The whole voting procedure is one step of the protocol model: same new state, same vote or refusal, and any file written is a snapshot of the new votes. |
| FinalizationServer.Server.VoteInRound | src/node/sync_server.cpp:4471-4583 | The decision after the import, equal to the decision function of the protocol model; when that gives a vote is stated without it by VoteGivenIff and HonestVoteGiven. |
| FinalizationServer.Server.SignCandidate | src/node/sync_server.cpp:4531-4583 | Signs, raises the lock, writes the file, and undoes both when the write fails. |
| LockDurability.LoaderExact | src/node/sync_server.cpp:4239-4318 | The loader accepts exactly the loadable files, and rebuilds the highest vote of each recent position and every vote for the current integer. |
| LockDurability.SnapshotLoads | src/node/sync_server.cpp:4046-4064 | A snapshot of well-formed votes always loads. |
| LockDurability.DurableIff | src/node/sync_server.cpp:4046-4064 | Writing and reloading gives back all recent locks if and only if no recent lock shares integer and round with a vote for another position. |
| LockDurability.CollisionLosesLock | src/node/sync_server.cpp:4046-4064 | A concrete pair of locks at one integer and round, after two different predecessors, of which the file keeps only one. |
| LockDurability.RebuiltFromFile | src/node/sync_server.cpp:4239-4318 | A file that holds the recent locks, and nothing they do not cover, rebuilds exactly them. |
| VoterSafety.LockIsRaised | src/node/sync_server.cpp:4531-4544 | A new vote is always in a higher round than the lock it meets, so it becomes the lock. |
| VoterSafety.SignKeeps | src/node/sync_server.cpp:4531-4583 | Signing and persisting keeps every invariant of an honest voter. |
| VoterSafety.ClearKeeps | src/node/sync_server.cpp:4404-4422 | Clearing a finalized integer keeps the invariants and the active round. |
| VoterSafety.ReloadRestores | src/node/sync_server.cpp:4239-4318 | Reloading rebuilds every recent lock and every vote for the current integer. |
| VoterSafety.RestartKeeps | src/node/sync_server.cpp:2911-2922 | A restart, with pruning of old locks and any round changes found on disk, keeps the invariants. |
| Agreement.StepKeeps | src/node/sync_server.cpp:4424-4583 | Every step of every node or of the adversary keeps the invariant of the whole system. |
| Agreement.RunKeeps | src/node/sync_server.cpp:4424-4583 | The invariant holds after every run from a shared genesis. |
| Agreement.NoEquivocation | src/node/sync_server.cpp:4531-4544 | In no run does an honest validator sign two subjects for one previous hash and integer. |
| Agreement.QuorumsAgree | src/protocol/records.cpp:1759-1826 | Two subjects at one position that quorums of the same set voted for are the same subject. |
| Agreement.ChainAgreement | src/node/sequential_node.cpp:1005-1060 | Chain agreement: after every run, of two honest chains one is a prefix of the other. |
| LedgerAgreement.SetInForce | src/node/sequential_node.cpp:744-869 | After every replayed chain, the validator set the consensus counts quorums over is the one the ledger has in force. |
| LedgerAgreement.SameSubjectsSameLedger | src/protocol/records.cpp:1139-1199 | Accepted chains with the same subjects differ at most in what is not written, in certificates and in lottery evidence, and have the same record hashes and ledgers. |
| LedgerAgreement.AgreedLedgers | src/node/sequential_node.cpp:744-869 | Nodes one of whose chains of subjects is a prefix of the other have the same ledger at every height both have reached. |
| LedgerCertificates.VerdictIsCheck | src/protocol/records.cpp:1759-1826 | With verifyRecordFinalization on the fields of the record as its certificate check, the ledger accepts a certificate exactly when that check does: the parts the ledger looks at itself are among those of the check. |
| LedgerCertificates.LockHashesName | src/protocol/records.cpp:1711-1741 | Reported candidates have the same hash exactly when they are the same subject, unless the bytes hashed for them collide. |
| LedgerCertificates.ScansAgree | src/protocol/records.cpp:1783-1804 | The scan for the highest lock over hashes and the one over subjects end at the same lock, or both in a conflict. |
| LedgerCertificates.LockHashAllowsIff | src/protocol/records.cpp:1783-1804 | The same exact condition on the fields of a record: the changes that report a lock of the highest round report the hash of the target, and nothing met on the way contradicts. |
| LedgerCertificates.VerifiedIffFinalizes | src/protocol/records.cpp:1670-1826 | One check: the certificate of a record verifies, with its hashes, payloads, rounds and locks, if and only if its signatures do and it finalizes the record's subject in the consensus model. |
| LedgerRuns.AppendIsStep | src/node/sequential_node.cpp:1005-1129 | What the ledger and the store of a node take is a valid candidate of the consensus model with a certificate that finalizes it. |
| LedgerRuns.StepRefines | src/node/sequential_node.cpp:678-1129 | Voting, appending and loading keep every chain that of records the ledger accepts, and each is no step or one step of the consensus model. |
| LedgerRuns.RunBacked | src/node/sequential_node.cpp:678-1129 | Every run of validators with ledgers is a run of the consensus model with the ledger's candidate check, and after it every honest chain is that of records that replay. |
| LedgerRuns.HonestLedgersAgree | src/node/sequential_node.cpp:678-1129 | Ledger agreement: after every run of validators with ledgers with few enough faults, at every height two honest nodes have reached their balances, supply, nonces, providers, validators, epoch, policy and tip are the same. |
| RunWitness.SystemExists | src/node/sequential_node.cpp:1623-1640 | There is such a system: it starts from a genesis record of four validators, and its nodes append the record of 3 once three of them have voted for it. |
| RunWitness.WireFormatsOk | src/protocol/records.cpp:751-796 | The formats of the protocol are among those these results are for. |
| Agreement.OneSubjectPerRound | src/node/sync_server.cpp:4471-4583 | If the assigned proposer of a round is honest, all honest votes of that round and position are for one subject. |
| Agreement.HonestReportsAgree | src/node/sync_server.cpp:4838-4881 | Honest locks reported for one honestly proposed round never conflict. |
| Agreement.RoundsNeverDecrease | src/node/sync_server.cpp:4471-4583 | The rounds of an honest validator's votes for an integer never decrease, across restarts too. |
| Agreement.LocksSurviveRestart | src/node/sync_server.cpp:4239-4318 | After every run the vote file loads, rebuilds every lock at most 10000 integers behind, and covers every recent vote ever sent. |
| VoteGiven.ImportExact | src/node/sync_server.cpp:4179-4209 | An import of changes with different keys succeeds if and only if it contradicts nothing recorded, and then records all of them and nothing else. |
| VoteGiven.ActiveAfterImport | src/node/sync_server.cpp:4092-4209 | After the import of a certificate the active round is the certified one, unless a later one was open already. |
| VoteGiven.VoteGivenIff | src/node/sync_server.cpp:4424-4583 | A validator in order gives exactly this vote if and only if the request is in order, all its earlier votes at the position are for the same subject, and the file is written or the vote was given before. |
| VoteGiven.HonestVoteGiven | src/node/sync_server.cpp:4424-4583 | In every reachable state of every run, an honest validator votes exactly then; in particular a lock on the same subject never refuses it. |
| VoteGiven.RepeatedVote | src/node/sync_server.cpp:4545-4555 | A vote given before is given again whatever can be written, and nothing changes but the round changes the request brings. |
| VoteGiven.StillInOrder | src/node/sync_server.cpp:4424-4583 | A request that was in order is still in order after it was answered and more was signed. |
| VoteGiven.AskAgain | src/node/sync_server.cpp:4424-4583 | The same request directly after a vote gives the same vote and leaves the node exactly as it was. |
| Progress.SnapshotExists | src/node/sync_server.cpp:4046-4064 | There is a vote file to write for any signed candidates and locks. |
| Progress.CommitteeCertifies | src/protocol/records.cpp:1759-1826 | The votes of the committee of the first round, in the order of the set, are a finalizing certificate. |
| Progress.HonestCommitteeFinalizes | src/node/sync_server.cpp:5057-5158 | Progress: in every reachable state, if the members of the first committee are honest, share a chain and have voted for nothing else there, asking them one after the other gives a certificate for any candidate the ledger accepts, and every honest node with that chain then appends it. |
| RoundChanges.ReportsLastVote | src/node/sync_server.cpp:4838-4881 | In every reachable state, the round change an honest validator signs reports exactly its last vote at the position, when that vote is from an earlier round than the one it changes to, and otherwise nothing. |
| RoundChanges.HonestChangeAccepted | src/node/sync_server.cpp:4103-4177 | The change an honest validator signs for the active round or the next is recorded by every validator with the same chain. |
| RoundChanges.OneRoundAtATime | src/node/sync_server.cpp:4092-4177 | Accepting a change raises the active round by one exactly when it completes a quorum for the next round, and otherwise leaves it. |
| RoundChanges.VoteKeepsTidy | src/node/sync_server.cpp:4424-4583 | Voting records candidates and round changes for the integer being decided only. |
| RoundChanges.AcceptKeepsTidy | src/node/sync_server.cpp:4103-4177 | So does accepting a round change. |
| RoundChanges.RestartTidies | src/node/sync_server.cpp:4239-4318 | After a restart the recorded candidates are for the integer being decided. |
| RoundChanges.NextStartsFresh | src/node/sync_server.cpp:4404-4422 | Once a record is appended and its integer cleared, the next integer starts in round 1 with nothing signed and no round changes, and every lock is kept. |
| NumberTheory.GcdLoop | src/math/number_theory.cpp:32-39 | Euclid's loop returns the greatest common divisor. |
| NumberTheory.MulMod | src/math/number_theory.cpp:41-54 | Double-and-add in 64-bit arithmetic; up to modulus 2^63 it is the product modulo mod. |
| NumberTheory.MulModExactIff | src/math/number_theory.cpp:41-54 | It is the product modulo mod for all arguments if and only if mod is at most 2^63. |
| NumberTheory.MulModWrong | src/math/number_theory.cpp:41-54 | For every modulus above 2^63, doubling the largest residue comes out wrong. |
| NumberTheory.PowMod | src/math/number_theory.cpp:56-69 | Square-and-multiply; up to modulus 2^63 it is the power modulo mod. |
| NumberTheory.IsPrime | src/math/number_theory.cpp:79-96 | The 6k +- 1 wheel decides primality of every 64-bit integer, without overflow. |
| NumberTheory.CompositeProofExact | src/math/number_theory.cpp:131-139 | Accepted exactly for a true product of two factors of at least 2, no wrapped one. |
| NumberTheory.CompositeProofNotPrime | src/math/number_theory.cpp:131-139 | An accepted division is about a composite. |
| NumberTheory.IsCanonicalFactorization | src/math/number_theory.cpp:146-161 | The loop accepts exactly increasing primes with positive exponents. |
| NumberTheory.MultiplyFactorization | src/math/number_theory.cpp:163-178 | The product, if and only if the factorization is canonical and the product fits 64 bits. |
| NumberTheory.VerifyPrattProof | src/math/number_theory.cpp:190-221 | The checks as coded; acceptance up to 2^63 implies primality. |
| NumberTheory.PrattSound | src/math/number_theory.cpp:190-221 | Soundness: up to 2^63 an accepted proof is about a prime. |
| NumberTheory.PrattComplete | src/math/number_theory.cpp:190-221 | Completeness: every prime up to 2^63 has a base whose proof is accepted. |
| ProofIndex.CoveringIndexReduces | src/math/number_theory.cpp:12-30 | An index with a proof for every composite up to n reduces n to primes. |
| ProofIndex.AddFactor | src/math/number_theory.cpp:12-30 | The recursion terminates, succeeds exactly for reducible n, and multiplies the value of the counts by n. |
| ProofIndex.FactorizeFromProofIndex | src/math/number_theory.cpp:254-274 | Every factorization returned is canonical with value n; one is returned exactly for reducible n of at least 2. |
| ProofIndex.MakePrattProof | src/math/number_theory.cpp:223-252 | Every proof made verifies; up to 2^63 one is made exactly for primes whose predecessor the index reduces. |
| ProofIndex.PrattCharacterizesPrimes | src/math/number_theory.cpp:190-252 | Up to 2^63 an integer is prime if and only if some Pratt proof for it is accepted. |
| ByteReading.ByteReader.ReadUint64 | src/protocol/records.cpp:71-80 | Reads what the word format parses, and leaves the bytes after it. |
| ByteReading.ByteReader.ReadHash | src/protocol/records.cpp:82-89 | Reads what the digest format parses. |
| ByteReading.ByteReader.ReadBytes | src/protocol/records.cpp:91-100 | Reads what the length-prefixed format parses; a length beyond what remains is refused. |
| ByteReading.ByteReader.ReadString | src/protocol/records.cpp:102-109 | Reads what the text format parses. |
| RecordWriter.AppendUint64 | src/protocol/records.cpp:133-137 | The shifting loop writes the eight little-endian bytes. |
| RecordWriter.AppendBytes | src/protocol/records.cpp:143-146 | Length and bytes, as the blob format renders them. |
| RecordWriter.AppendString | src/protocol/records.cpp:148-151 | Length and characters, as the text format renders them. |
| RecordWriter.AppendList | src/protocol/records.cpp:183-188 | A count and every item, as the list format renders them; the lists of a record are written through it. |
| RecordWriter.AppendMetadata | src/protocol/records.cpp:762-767 | Transition, endpoints, policy, applications and bindings, each from its version on, as specified. |
| RecordWriter.AppendFinalization | src/protocol/records.cpp:257-275 | Rule, round changes under the two rules that carry them, votes; without votes it is the rendering with an empty vote list. |
| RecordWriter.SerializeTransaction | src/protocol/records.cpp:875-896 | Writes what the transaction format renders; what is signed is the rendering with an empty signature. |
| RecordWriter.SerializeComposite | src/protocol/records.cpp:751-773 | The statement sequence of the source produces the specified bytes of a composite record of any version. |
| RecordWriter.SerializePrime | src/protocol/records.cpp:775-796 | The same for prime records. |
| RecordReader.ReadList | src/protocol/records.cpp:410-429 | Reads a count, refused beyond the limit, and that many items: what the list format parses, and the bytes after it. |
| RecordReader.ReadFinalization | src/protocol/records.cpp:675-699 | The rule decides whether round changes follow and in which layout; reads what the certificate format parses. |
| RecordReader.ReadTail | src/protocol/records.cpp:701-749 | Metadata, lottery and certificate. Version 3 is read with an endpoint list exactly when that attempt comes out even, and otherwise again from the saved position without one. |
| RecordReader.ReadComposite | src/protocol/records.cpp:956-1002 | The decoder of composite records reads its parts in the order of the specification. |
| RecordReader.ReadPrime | src/protocol/records.cpp:1004-1066 | The same for prime records, with the genesis configuration at height 0 only. |
| RecordReader.ChosenIsDeserialized | src/protocol/records.cpp:735-748 | Choosing the attempt at the metadata, as the source does, is the same as parsing the whole record twice. |
| RecordReader.ReadRecord | src/protocol/records.cpp:956-1066 | The decoders compute Deserialize on all bytes, and refuse bytes left over. |
| FieldFormats.TransactionFormat | src/protocol/records.cpp:898-946 | Transactions read back, sizes and counts within the decode limits; the bytes field by field are given by TransactionWritten, the values that can be read by TransactionIff. |
| FieldFormats.BodyFormat | src/protocol/records.cpp:400-429 | Lawful, transactions nested with their lengths. |
| FieldFormats.DivisionFormat | src/protocol/records.cpp:431-437 | Lawful. |
| FieldFormats.PrattFormat | src/protocol/records.cpp:444-463 | Lawful, at most 1024 factors. |
| FieldFormats.VoteFormat | src/protocol/records.cpp:465-471 | Lawful. |
| FieldFormats.LotteryFormat | src/protocol/records.cpp:473-480 | Lawful. |
| FieldFormats.CommitPhaseFormat | src/protocol/records.cpp:482-513 | Lawful, with the decode limits of its three lists. |
| FieldFormats.GenesisFormat | src/protocol/records.cpp:515-530 | Lawful for every version. |
| FieldFormats.TransitionFormat | src/protocol/records.cpp:532-560 | Lawful for every version, with or without the anchor. |
| FieldFormats.EndpointFormat | src/protocol/records.cpp:562-581 | Lawful. |
| FieldFormats.ApplicationFormat | src/protocol/records.cpp:583-604 | Lawful. |
| FieldFormats.BindingFormat | src/protocol/records.cpp:606-624 | Lawful. |
| FieldFormats.PolicyFormat | src/protocol/records.cpp:626-647 | Lawful for every version, with or without the reserve. |
| FieldFormats.RoundChangeFormat | src/protocol/records.cpp:649-673 | Lawful in both layouts. |
| FieldFormats.FinalizationFormat | src/protocol/records.cpp:675-699 | Lawful: what follows the rule depends on the rule. |
| FieldFormats.WireAdmitsAbsent | src/protocol/records.cpp:562-581 | The conditions under which the version 3 and subject results are stated hold of the protocol's own formats. |
| FieldLayouts.TransactionLayout | src/protocol/records.cpp:875-896 | A transaction, from version to signature, is the bytes the source appends, field by field. |
| FieldLayouts.BodyLayout | src/protocol/records.cpp:178-188 | Batch, nested transactions and state root, field by field. |
| FieldLayouts.DivisionLayout | src/protocol/records.cpp:190-196 | A composite proof, field by field. |
| FieldLayouts.LotteryLayout | src/protocol/records.cpp:248-255 | Lottery evidence, field by field. |
| FieldLayouts.GenesisLayout | src/protocol/records.cpp:309-316 | The genesis configuration, with its message from version 11 on. |
| FieldLayouts.TransitionLayout | src/protocol/records.cpp:318-336 | A transition, with the vote anchor from version 14 on. |
| FieldLayouts.PolicyLayout | src/protocol/records.cpp:384-398 | A policy update, with the reserve from version 7 on. |
| FieldLayouts.FinalizationLayout | src/protocol/records.cpp:257-275 | A certificate: rule, round changes in the layout of the rule, votes. |
| RecordBytes.AmountLayout | src/protocol/records.cpp:157-160 | An amount is its numerator, then its denominator, each eight little-endian bytes. |
| RecordBytes.InputLayout | src/protocol/records.cpp:162-165 | An input is the asset, then the amount. |
| RecordBytes.OutputLayout | src/protocol/records.cpp:167-171 | An output is the asset, the amount, then the receiver behind its length. |
| RecordBytes.FeeLayout | src/protocol/records.cpp:173-176 | The fee is the asset, then the amount. |
| RecordBytes.TransactionWritten | src/protocol/records.cpp:875-896 | A transaction is written field by field, down to words and texts. |
| RecordBytes.BodyWritten | src/protocol/records.cpp:178-188 | Number and root of the batch, the count, and each transaction behind the length of its bytes. |
| RecordBytes.PrattWritten | src/protocol/records.cpp:198-212 | A Pratt proof is written field by field, its factors as prime and exponent. |
| RecordBytes.FinalizationWritten | src/protocol/records.cpp:214-275 | The rule, the round changes in the form of that rule, the votes. |
| RecordBytes.CommitEntryLayout | src/protocol/records.cpp:277-284 | A commitment is written field by field. |
| RecordBytes.CommitPhaseWritten | src/protocol/records.cpp:277-307 | Validators, commitments and votes of the commit phase, each list behind its count. |
| RecordBytes.GenesisWritten | src/protocol/records.cpp:309-316 | The genesis set, and the message from version 11 on. |
| RecordBytes.TransitionWritten | src/protocol/records.cpp:318-336 | Epoch, the anchor from version 14 on, activation, the new set, the votes. |
| RecordBytes.PolicyWritten | src/protocol/records.cpp:384-398 | Fee, reserve from version 7 on, effective integer, sequence, votes. |
| RecordBytes.EndpointLayout | src/protocol/records.cpp:338-351 | An endpoint update is written field by field. |
| RecordBytes.ApplicationLayout | src/protocol/records.cpp:353-368 | A validator application is written field by field. |
| RecordBytes.BindingLayout | src/protocol/records.cpp:370-382 | A work binding is written field by field. |
| RecordBytes.WireRenders | src/protocol/records.cpp:133-398 | All formats of the protocol print these bytes. |
| RecordBytes.RecordWritten | src/protocol/records.cpp:751-796 | The bytes of a whole record of any version and kind, with or without its certificate, spelled out down to little-endian words, texts and hashes. |
| DecodeLimits.TransactionIff | src/protocol/records.cpp:898-946 | Exactly which transactions a decoder returns: at most the decode limit of inputs and outputs, texts and byte strings of a size that fits. |
| DecodeLimits.BodyIff | src/protocol/records.cpp:400-429 | At most 10,000 transactions, each of which can be decoded. |
| DecodeLimits.PrattIff | src/protocol/records.cpp:444-463 | At most 1024 factors. |
| DecodeLimits.FinalizationIff | src/protocol/records.cpp:649-699 | At most 16 round changes and 16 votes; locks at their defaults under the rule without locks, no round changes under the others. |
| DecodeLimits.CommitPhaseIff | src/protocol/records.cpp:482-513 | At most 16 validators, 1024 commitments and 16 votes. |
| DecodeLimits.GenesisIff | src/protocol/records.cpp:515-530 | At most 16 validators, and no message before version 11. |
| DecodeLimits.TransitionIff | src/protocol/records.cpp:532-560 | At most 16 validators and votes, and no anchor before version 14. |
| DecodeLimits.PolicyIff | src/protocol/records.cpp:626-647 | At most 64 votes, and no reserve before version 7. |
| DecodeLimits.ListsIff | src/protocol/records.cpp:562-624 | At most 64 endpoint updates, applications and work bindings. |
| DecodeLimits.WireReturns | src/protocol/records.cpp:400-699 | All formats of the protocol return exactly these values. |
| DecodeLimits.ReadsBackIff | src/protocol/records.cpp:751-1066 | A record reads back from its own bytes if and only if its lists are within these limits and what its version or rule does not carry is at its default. |
| RecordForm.Rendered | src/protocol/records.cpp:751-796 | The format of records renders the bytes the serializers write. |
| RecordForm.RoundTrip | src/protocol/records.cpp:956-1066 | A record within the decode limits, of any version and with unwritten fields at default, decodes from its own bytes, also through the two attempts of version 3. |
| RecordForm.DecodedIsCanonical | src/protocol/records.cpp:701-749 | Bytes that decode re-encode to themselves at every version but 3, and at version 3 exactly when the attempt with an endpoint list took them. |
| WrittenForm.SerializeWritten | src/protocol/records.cpp:751-796 | A record is written as its written form: fields its version does not write at their defaults. |
| WrittenForm.WrittenReadsBack | src/protocol/records.cpp:956-1066 | A record whose written form is within the decode limits is read back as that form. |
| WrittenForm.DecodesWritten | src/protocol/records.cpp:956-1066 | At every version but 3, every record in memory decodes from its bytes to its written form if that is within the decode limits, and is refused otherwise. |
| WrittenForm.StorableIff | src/protocol/records.cpp:956-1066 | A record of any version reads back as itself if and only if it is storable. |
| WrittenForm.SubjectWritten | src/protocol/records.cpp:1139-1178 | The subject bytes of a record are those of its written form. |
| WireFacts.WireOmitsUnwritten | src/protocol/records.cpp:257-398 | The formats of the protocol leave out exactly the fields the written form resets. |
| WireFacts.TooManyValidators | src/protocol/records.cpp:532-560 | No record with more than 16 validators in its transition reads back; outside version 3 its bytes are refused. |
| Witnesses.SeventeenValidators | src/protocol/records.cpp:318-336 | Such a record at the formats of the protocol, with a canonical set of 17 validators. |
| SubjectIdentity.Version3NotCanonical | src/protocol/records.cpp:735-748 | A whole family of version 3 bytes that decode but re-encode to other bytes. |
| SubjectIdentity.LongRuleIsNoEndpointList | src/protocol/records.cpp:735-748 | A certificate whose rule has more than 64 characters is never read as an endpoint list, whatever the formats of endpoints and certificates. |
| Witnesses.CertificateIsNoEndpointList | src/protocol/records.cpp:562-581 | At the formats of the protocol no certificate under a rule of the protocol, or under a longer one, is read as an endpoint list. |
| Witnesses.ShortBytesNotCanonical | src/protocol/records.cpp:735-748 | At the formats of the protocol, every version 3 composite record without endpoint list under these rules decodes from its short bytes and re-encodes to others. |
| Witnesses.Version3Witness | src/protocol/records.cpp:735-748 | One of them, certified by three validators under the rule of the first round. |
| SubjectIdentity.SubjectInjective | src/protocol/records.cpp:1139-1199 | Equal subject encodings come from equal subjects, of either kind and any version. |
| SubjectIdentity.StorableSubject | src/protocol/records.cpp:1139-1178 | Every record that can be stored has an encodable subject. |
| Merkle.ComputeLevel | src/protocol/records.cpp:1092-1118 | The pairwise loop computes the next level, the last hash of an odd level paired with itself. |
| Merkle.ComputeRoot | src/protocol/records.cpp:1100-1120 | The level loop terminates with the root. |
| Merkle.RootBinds | src/protocol/records.cpp:1100-1120 | Equal length and equal root mean equal lists, unless two values actually hashed collide. For the count and root of a record this is BatchDetermines. |
| Merkle.RootAloneIsAmbiguous | src/protocol/records.cpp:1100-1120 | Whatever the hash, repeating the last item of an odd list of at least three keeps the root, so the count is needed. |
| Merkle.PathsMeet | src/protocol/records.cpp:1100-1120 | From every leaf the path of its siblings leads to the root, even nodes on the left. |
| BatchRoots.EveryPathIsRoot | src/protocol/records.cpp:1086-1127 | The same over the bytes hashed: every transaction leads to the root by the leaf label and its hash, then level by level the node label and the pair in order, the last of an odd level with itself. |
| BatchRoots.FlatRoot | src/protocol/records.cpp:1072-1084 | Before version 12 the root is the hash of the label, the count and the hash of each transaction at its place. |
| BatchRoots.BatchBinds | src/protocol/records.cpp:1068-1127 | At every version the count and the root, flat or tree, determine the encoded transactions, unless two of the byte strings hashed for them collide. |
| StoredLedger.BatchDetermines | src/protocol/records.cpp:1068-1127 | Two accepted records of one version with the same count and root carry the same transactions, unless two of the byte strings hashed for the roots collide. |
| ProtocolAddresses.RewardPoolRoundTrip | src/node/sequential_node.cpp:52-66 | The reward-pool address of an epoch parses back to that epoch. |
| ProtocolAddresses.ReserveOfSigner | src/protocol/records.cpp:835-868 | The reserve address of a signing address is recognised as one. |
| ProtocolAddresses.FeePoolAddress | src/protocol/records.cpp:813-860 | A fee-pool address is never a reward-pool or a signing address. |
| Money.CreditConsistent | src/node/sequential_node.cpp:1578-1585 | A credit keeps supply equal to the sum of balances. |
| Money.CreditFits | src/node/sequential_node.cpp:1578-1585 | On consistent books a credit overflows exactly when the supply itself would. |
| Money.DebitConsistent | src/node/sequential_node.cpp:1587-1597 | A debit keeps the books, and its unchecked supply subtraction never wraps. |
| Money.HeldUpdate | src/node/sequential_node.cpp:1578-1597 | Writing one balance moves the sum of its asset by the difference and no other sum. |
| BookKeeping.SumInputs | src/node/sequential_node.cpp:1443-1455 | Per-asset totals of the inputs, refused on overflow. |
| BookKeeping.SumOutputs | src/node/sequential_node.cpp:1456-1470 | Per-asset totals of the outputs, refused on overflow. |
| BookKeeping.CheckBalanced | src/node/sequential_node.cpp:1443-1479 | Accepts exactly the transactions whose inputs equal outputs plus fee for every asset. |
| BookKeeping.Books.CreditAsset | src/node/sequential_node.cpp:1578-1585 | The two in-place additions with their overflow checks. |
| BookKeeping.Books.DebitAsset | src/node/sequential_node.cpp:1587-1597 | The two in-place subtractions; a refusal changes nothing. |
| BookKeeping.Books.DebitTotals | src/node/sequential_node.cpp:1481-1488 | Debiting asset by asset succeeds exactly when the owner affords all of them, in any order. |
| BookKeeping.Books.CreditReceivers | src/node/sequential_node.cpp:1489-1493 | Credits the outputs one after the other, equal to the credit function of the ledger; what that does to each balance is stated by TransactionMoves and DistributionRaises. |
| BookKeeping.Books.CreditCollectedFees | src/node/sequential_node.cpp:1501-1507 | Paying out the collected fees asset by asset is order independent. |
| Conservation.MoveSucceeds | src/node/sequential_node.cpp:1443-1493 | Only an insufficient balance refuses a balanced transaction on sound books. |
| Conservation.MoveSupply | src/node/sequential_node.cpp:1443-1493 | The fee is what the supply of an asset loses to a transaction, nothing else. |
| Conservation.OnlyBalanceRefuses | src/node/sequential_node.cpp:1375-1493 | Given the checks on form, only an insufficient balance refuses; no overflow check inside a batch ever fires. |
| Conservation.CreditFeesRestores | src/node/sequential_node.cpp:1494-1507 | Paying the collected fees restores every supply exactly. |
| Conservation.BatchConserves | src/node/sequential_node.cpp:1375-1509 | A batch with a fee recipient leaves every supply as it was, and paying the fees never refuses it. |
| Payments.TransactionMoves | src/node/sequential_node.cpp:1443-1493 | Every balance after an accepted transaction: what it was, less what the inputs take if the account pays, plus what the outputs give to that account and asset. |
| Payments.TransactionBalances | src/node/sequential_node.cpp:1443-1479 | Of every asset an accepted transaction gives and pays in fees exactly what it takes. |
| Payments.BatchMoves | src/node/sequential_node.cpp:1375-1509 | Every balance after an accepted batch: less what it pays, plus what it receives, and for the fee recipient plus all fees of the asset. |
| Payments.DistributionRaises | src/node/sequential_node.cpp:181-254 | A distribution raises the i-th receiver by exactly the i-th share and nobody else. |
| Payments.DistributionMoves | src/node/sequential_node.cpp:181-254 | Every balance after an accepted distribution: the pool at zero, each receiver up by its share, the others as they were. |
| Acceptance.BalancedIff | src/node/sequential_node.cpp:1443-1479 | The balance check holds if and only if amounts are whole, receivers are protocol addresses, and of every asset as much is spent as given and paid in fees. |
| Acceptance.EvenIsShares | src/node/sequential_node.cpp:228-251 | The shares of the code are the only even split of the pool with the greater shares first. |
| Acceptance.SplitsIff | src/node/sequential_node.cpp:181-254 | The shape check of a distribution holds if and only if the whole pool goes unsigned and without fee to distinct sorted members, evenly, and to all of them where that is asked for. |
| Acceptance.AuthorisedIff | src/node/sequential_node.cpp:412-440 | Who may send: authenticated signers versions 2, 4 and 8, the fee pool of the current epoch version 3, reward pools version 5, and development keys version 0 on a chain without validators. |
| Acceptance.AcceptedIff | src/node/sequential_node.cpp:1375-1500 | A transaction is accepted if and only if it is authorised, has the form of its kind with exactly the fee in force, adds up, is covered by the balance of the payer, and carries the next nonce. |
| Distribution.MatchReceivers | src/node/sequential_node.cpp:230-245 | The nested search loop over members accepts exactly the in-order lists. |
| Distribution.InOrderExact | src/node/sequential_node.cpp:230-245 | For sorted members those are exactly the sorted lists of members. |
| Distribution.FullListIsEveryone | src/node/sequential_node.cpp:221-245 | A list as long as the members is the members. |
| Distribution.SharesAddUp | src/node/sequential_node.cpp:228-251 | The shares add up to the whole and differ by at most one. |
| Distribution.DistributionPays | src/node/sequential_node.cpp:181-254 | An accepted distribution pays sorted members in positive, near-equal shares that add up to the pool; everyone, for rewards from integer 26488 on. |
| Distribution.DistributionEmptiesPool | src/node/sequential_node.cpp:1392-1493 | Right after it the pool asset is at zero and every supply is unchanged. |
| LedgerHistory.ChainDistributes | src/node/sequential_node.cpp:1392-1493 | Both of the above for every chain, without assumptions on its validator sets. |
| Minting.RewardRaises | src/node/sequential_node.cpp:1523-1567 | Finder's part, providers' parts and remainder add up, and never fail on consistent books. |
| Minting.MintExact | src/node/sequential_node.cpp:1517-1576 | A new asset is minted with exactly 1,000,000 units; neither the "already minted" nor the conservation check refuses it. |
| Rewards.MintBalance | src/node/sequential_node.cpp:1517-1576 | Every balance after minting, for the finder, each provider, the reward pool and everybody else. |
| Rewards.RecordMoves | src/node/sequential_node.cpp:1511-1576 | Every balance after an accepted record: the transactions, the fees to the pool of the epoch, and the parts of the new asset. |
| Rewards.NewAsset | src/node/sequential_node.cpp:1517-1576 | Of the asset a prime record mints, an address holds 100,000 for the reward pool of the epoch, 450,000 plus the remainder for the finder, and an equal part of 450,000 for every composite it provided since the last prime; on a chain without validators 500,000 and 500,000. The finder gets both parts when there is no composite. |
| LedgerInvariant.OnlyTransactionsRefuse | src/node/sequential_node.cpp:1511-1576 | On a ledger in order only the transactions can refuse the next record. |
| LedgerInvariant.ExecuteSupply | src/node/sequential_node.cpp:1511-1576 | A record leaves all supplies alone or adds one whole asset, its own integer. |
| LedgerInvariant.RecordTruthful | src/node/sequential_node.cpp:572-671 | An accepted payload tells the truth about its integer, up to 2^63. |
| LedgerInvariant.HoldersStep | src/node/sequential_node.cpp:1375-1576 | Every owner of a balance stays a protocol address. |
| LedgerInvariant.AddSignersOk | src/node/sequential_node.cpp:1176-1216 | The participants are the old ones and the signing addresses among the signers, sorted and without duplicates. |
| LedgerReplay.ReplayStepOk | src/node/sequential_node.cpp:744-869 | Every replayed record keeps the ledger invariant. |
| LedgerReplay.ReplayOk | src/node/sequential_node.cpp:744-869 | The invariant holds after every replay, and the frontier is one more than the number of records. |
| LedgerReplay.ExactMinting | src/node/sequential_node.cpp:744-869 | In every reachable state up to 2^63 the supply of p is 1,000,000 if p is a prime not beyond the frontier and 0 otherwise, and equals the sum of its balances. |
| ChainLaws.ChainIsLinked | src/node/sequential_node.cpp:744-869 | Record i of an accepted chain has height i and integer i + 2, names the record before it by its hash, and is a prime record exactly when i + 2 is prime, up to 2^63. |
| ChainLaws.ProvidersSinceLastPrime | src/node/sequential_node.cpp:1511-1515 | Owed a share of the next asset are the providers of the composites since the last prime, in order, once per composite. |
| ChainLaws.DefaultPolicy | src/node/sequential_node.cpp:687-688 | Without a policy record the fee is 1 and the reserve 5,000,000. |
| ChainLaws.PolicyInForce | src/node/sequential_node.cpp:1131-1145 | The fee and the reserve in force are those of the last policy record. |
| ChainLaws.PolicyWasVoted | src/protocol/records.cpp:1878-1937 | Every policy on an accepted chain is positive, takes effect with the next integer, and was signed for this place in the chain by distinct members, at least two thirds of the set in force. |
| ChainLaws.EpochWasVoted | src/protocol/records.cpp:1474-1546 | Every transition on an accepted chain has the next number and a canonical set, starts with the next integer, and was signed by at least two thirds of the set before it, for its anchor or else for the previous record. |
| ChainLaws.RecordWasVoted | src/node/sequential_node.cpp:572-671 | Every record that does not fall under the rules for old records was finalized by two or three different development addresses on a chain without validators, and otherwise by distinct members, at least two thirds of the set in force, with a certificate for this place in the chain. |
| ChainLaws.EvidenceIsChecked | src/node/sequential_node.cpp:572-671 | Endpoints, applications, work bindings, commit phases (versions 1 to 8) and lottery evidence (version 10 on) of an accepted chain were checked against the set in force and this place in the chain; composites have version 0 exactly on a chain without validators. |
| ChainLaws.GenesisRecord | src/node/sequential_node.cpp:572-671 | The first record is the prime 2, with no validators in version 0, a canonical set without a message in version 1, and a canonical set with a message from version 11 on. |
| ChainLaws.WorkIsSigned | src/node/sequential_node.cpp:394-459 | A composite record names two proper factors and a provider that signed or is a development address; with validators in force the finder of a prime signed its proof for this place in the chain. |
| ChainLists.RegistryEvents | src/node/validator_registry.cpp:18-87 | The events of the registry are the genesis set and then, in order, every epoch with the height of its record, its set and the integer it starts with. |
| ChainLists.SignersAtWork | src/node/sequential_node.cpp:1176-1198 | The signers noted for a record are those of its commit phase, its votes and its round changes. |
| ChainLists.ParticipantsAre | src/node/sequential_node.cpp:1176-1216 | The participants of fees and of rewards are exactly the signing addresses seen at work since the pool was last paid out or the epoch began. |
| LedgerReplay.PolicyNeverLate | src/node/sequential_node.cpp:1131-1145 | The policy failure after the store write is unreachable. |
| LedgerReplay.AppendIsReplay | src/node/sequential_node.cpp:1005-1129 | Append accepts exactly what replay accepts under a current certificate, with the same state. |
| LedgerReplay.ReplayTakesIff | src/node/sequential_node.cpp:744-869 | Load takes a record if and only if it is a valid candidate with a certificate of the current rules or of those kept for old records. |
| LedgerReplay.RunOfAppends | src/node/sequential_node.cpp:678-869 | After any run of appends the state is the one replay of the same record values gives. For what the store writes and reads back it is LoadFollowsRun. |
| SequentialNode.Node.ApplyTransaction | src/node/sequential_node.cpp:1381-1500 | One transaction applied in place is the specified one. |
| SequentialNode.Node.ApplyBatch | src/node/sequential_node.cpp:1375-1509 | The batch loop is the specified batch and touches nothing but balances, supply and nonces. |
| SequentialNode.Node.MintAsset | src/node/sequential_node.cpp:1517-1576 | The new asset, equal to the minting function of the ledger; who holds how much of it afterwards is stated by NewAsset. |
| SequentialNode.Node.ExecuteRecord | src/node/sequential_node.cpp:1511-1576 | Transactions and minting in place are the specified execution. |
| SequentialNode.Node.ValidateCandidate | src/node/sequential_node.cpp:913-1003 | Tries a candidate and puts everything back; accepts exactly the valid ones. |
| SequentialNode.Node.ValidatePending | src/node/sequential_node.cpp:1362-1373 | Accepts exactly the lists that apply at the next integer, and leaves the node as it was. |
| SequentialNode.Node.Append | src/node/sequential_node.cpp:1005-1129 | All or nothing: it succeeds exactly when the ledger accepts the record, the files work, and the store decodes the payload to the same identity; success means the specified state and one more stored entry, failure means nothing changed. |
| SequentialNode.Node.ReplayRecord | src/node/sequential_node.cpp:760-869 | One stored record replayed in place is the specified replay step. |
| SequentialNode.Node.Load | src/node/sequential_node.cpp:678-876 | Load succeeds exactly when the specification does, with that state: from an anchored snapshot that restores, and otherwise from the first record. A record refused behind a snapshot fails it and leaves the node empty. |
| SequentialNode.Node.SaveSnapshot | src/node/sequential_node.cpp:1292-1316 | The snapshot of a node in order restores to exactly its state. |
| SequentialNode.Node.RestoreSnapshot | src/node/sequential_node.cpp:1218-1290 | Takes over exactly the snapshots that pass all checks, and changes nothing otherwise. |
| SequentialNode.Node.LoadEntries | src/node/sequential_node.cpp:744-869 | The load loop takes up stored entries exactly as specified. |
| LedgerStore.StoreTakesIff | src/storage/record_store.cpp:72-107 | The store takes a record if and only if its written form is within the decode limits and its payload within the size limit, and decodes what it took to the written form. |
| LedgerStore.Version3Taken | src/storage/record_store.cpp:84-95 | At version 3 the identity check lets through only what was read with its endpoint list. |
| LedgerStore.LoadTaken | src/node/sequential_node.cpp:744-869 | What the store took is loaded as the written form of the record. |
| LedgerStore.LoadFollowsRun | src/node/sequential_node.cpp:678-1129 | Load follows every run: after any run of appends that ledger and store accepted, the store loads if and only if the votes of every transition in the run are good for the predecessor they are read with, and then to the ledger in memory, participants aside. |
| LedgerStore.RestartIff | src/node/sequential_node.cpp:678-1129 | After an accepted append a load from the records finds exactly the state in memory if and only if the votes of the transition are still good and each list of participants is emptied by the record or loses no name. |
| Participants.NotedAllExact | src/node/sequential_node.cpp:1176-1216 | Who is on a list of participants after a run: those before, if no record emptied it, and the signers of the records after the last that did. |
| Participants.NotedAllIff | src/node/sequential_node.cpp:1176-1216 | Over whole runs the records as read give the list of the records in memory if and only if every signing address shown but not written, since the list was last emptied, was on it or is written by a record since then. |
| Restarts.LoadFromRun | src/node/sequential_node.cpp:744-869 | Loading the records of a run succeeds if and only if the votes of every transition are still good, and gives the ledger in memory with the names the records write. |
| Restarts.RecordsRestoreIff | src/node/sequential_node.cpp:678-869 | After any accepted run, a load from the records finds exactly the state in memory if and only if the votes of every transition are still good and no participant is lost. |
| Restarts.SnapshotRestoreIff | src/node/sequential_node.cpp:705-869 | With a snapshot saved at any point of a run, load succeeds if and only if the votes of every later transition are still good, and finds exactly the state in memory if and only if moreover no participant of the later records is lost. |
| Restarts.RetryWouldNotHelp | src/node/sequential_node.cpp:738-742 | When the records behind a snapshot a node saved are refused, so is the whole store: the second load that never happens would not help it. |
| LedgerStore.LoadIsReplay | src/node/sequential_node.cpp:744-869 | Every store that loads holds a chain of records that replays to the same state. |
| StoredLedger.AppendedIsRead | src/node/sequential_node.cpp:744-869 | An appended record is accepted by load if and only if the votes of its transition are good for the predecessor they are read with, and then with the same ledger. |
| StoredLedger.NotedIff | src/node/sequential_node.cpp:1176-1216 | A list of participants read back is the one in memory if and only if every signing address that is not written is on it already or is written elsewhere in the record. |
| StoredLedger.ReloadExactIff | src/node/sequential_node.cpp:1005-1216 | After an accepted append, replaying the record as read leaves the state in memory if and only if each list of participants is emptied or loses no name. |
| FirstRecords.FirstLoads | src/node/sequential_node.cpp:1623-1640 | A genesis record of four validators and a record of 3 certified by three of them are taken by the store and load, to a state in order. |
| FirstRecords.WireReady | src/protocol/records.cpp:751-796 | The formats of the protocol write and read the records of the witnesses. |
| LedgerWitnesses.ForgottenParticipant | src/node/sequential_node.cpp:1176-1198 | A participant is lost: a node that loaded two records appends a third, certified by three of four validators, its store takes it, and the three records load to another state. |
| LedgerWitnesses.RefusedOnReload | src/protocol/records.cpp:1474-1546 | A node that cannot load what it appended: after two loaded records, a transition whose votes name another predecessor is accepted and stored, and the three records do not load. |
| LedgerWitnesses.SnapshotStopsLoad | src/node/sequential_node.cpp:738-742 | A snapshot with another validator set is anchored and passes every check, the record behind it is refused, and load fails although the records alone load. |
| DurableLedger.CrashThenLoad | src/storage/record_store.cpp:611-654 | Crash safety end to end: whatever the byte at which the write of an accepted append stops, the next load gives the state before the record or what a restart after the whole append gives. |
| DurableLedger.CrashKeepsLedger | src/node/sequential_node.cpp:678-1129 | In terms of the ledger: the state before the record, or the ledger after it. |
| CertificateIndependence.CertificatesDoNotMatter | src/node/sequential_node.cpp:744-869 | Chains of versions 11 and later that differ only in certificates and lottery evidence have equal record hashes and equal ledgers, participants aside. |
| CertificateIndependence.EffectsDecide | src/node/sequential_node.cpp:744-869 | Accepted chains of records with the same identities and effects have the same ledger. |
| CertificateIndependence.WrittenEffect | src/protocol/records.cpp:751-796 | Records of versions 11 and later that are written with the same subject have the same identity and effects, whatever else they hold in memory. |
| CertificateIndependence.SameHash | src/protocol/records.cpp:1188-1211 | From version 11 on the record hash depends on the subject only. |
| CertificateIndependence.VotesDoNotMoveTarget | src/protocol/records.cpp:1304-1314 | What is voted for does not depend on the votes already collected; under the rule with locks and from version 11 on, not on the certificate at all. |
| CertificateIndependence.ParticipantsMayDiffer | src/node/sequential_node.cpp:1176-1216 | The exception is real: certificates decide who participated. |
| LedgerHistory.EpochStep | src/protocol/records.cpp:1474-1546 | The epoch moves by one, by a transition a quorum of the set in force signed, or not at all. |
| LedgerHistory.EpochHistory | src/node/sequential_node.cpp:803-860 | The epoch map has keys exactly 0 to the current epoch, ends in the active set, and each later set is canonical and was elected by a quorum of distinct members of the one before. |
| LedgerHistory.LoadValidatorRegistry | src/node/validator_registry.cpp:65-87 | The registry loop computes the specified registry. |
| LedgerHistory.RegistryAgrees | src/node/validator_registry.cpp:18-87 | The separate membership replay has the active set and epoch of the full one, and one event per epoch. |
| LedgerHistory.NoncesCountUp | src/node/sequential_node.cpp:1375-1493 | Over any chain the nonces of a sender are exactly 1, 2, 3, and so on, in order. |
| Snapshots.RebuildSupply | src/node/sequential_node.cpp:1219-1225 | The loop over the balances rebuilds the per-asset sums, refused exactly when one exceeds 64 bits. |
| Snapshots.CheckSnapshot | src/node/sequential_node.cpp:1218-1290 | The checks of restoreSnapshot as loops. |
| Snapshots.RestoreIff | src/node/sequential_node.cpp:1218-1290 | A snapshot is restored if and only if its books balance within 64 bits, its addresses are protocol addresses, its participants sorted signing addresses, its policy positive, and its epochs canonical with the last in force. |
| Snapshots.SnapshotRestores | src/node/sequential_node.cpp:1218-1316 | Saving and restoring gives back every state in order. |
| Snapshots.SnapshotContinues | src/node/sequential_node.cpp:705-745 | A snapshot of any state in order at the tip of some records continues from exactly that state, and fails when a later record is refused. |
| Snapshots.ForeignSnapshotIgnored | src/node/sequential_node.cpp:705-745 | A snapshot of a record that is not in the store, by integer, height and hash, has no effect on load. |
| Snapshots.SnapshotRefines | src/node/sequential_node.cpp:705-745 | With the snapshot a node wrote after loading some records, load gives what loading everything gives. |
| Mempool.RevalidateMempool | src/node/sync_server.cpp:8058-8091 | The loop keeps exactly the transactions that are young enough and still apply, and the result validates as a sequence. |
| Mempool.PrefixesStayValid | src/node/sequential_node.cpp:1362-1373 | Every prefix of a valid list is valid. |
| Mempool.RevalidationIsStable | src/node/sync_server.cpp:8058-8091 | Revalidating a valid list keeps all of it. |
| Mempool.RetainedExact | src/node/sync_server.cpp:8058-8091 | Revalidation keeps nothing too old, makes nothing up, lets no later transaction displace an earlier one, and drops a young one only if it does not apply after those kept before it. |
| Mempool.ExtensionIff | src/node/sequential_node.cpp:1362-1373 | A valid list can be extended by exactly the transactions that are authorised, in form, balanced, covered by what the list leaves, and next in nonce. |
| Mempool.PendingCanBeMined | src/node/sequential_node.cpp:1362-1509 | A list accepted as pending also applies when mined next with fees paid to the pool, in a record of either kind. |
| Ownership.BatchLeaves | src/node/sequential_node.cpp:1375-1500 | Nobody but the spenders of a batch loses anything by it. |
| Ownership.ReserveSpender | src/node/sequential_node.cpp:153-179 | A reserve is spent only by its own validator, signed, and only while that validator is not active. |
| Ownership.SignerSpender | src/node/sequential_node.cpp:412-440 | A signing address is spent from only by transactions it signed. |
| Ownership.ReserveStaysLocked | src/node/sequential_node.cpp:153-179 | No accepted record lowers the reserve of a validator that is active when it runs. |
| Ownership.ReserveLockedWhileActive | src/node/sequential_node.cpp:153-179 | Over whole chains: as long as a validator is active its reserve never goes down. |
| Ownership.SpendingIsSigned | src/node/sequential_node.cpp:412-440 | A record without a transaction signed by an address never lowers its balances. |
| Ownership.NothingSpentUnsigned | src/node/sequential_node.cpp:412-440 | Over whole chains: without a transaction it signed, an address never loses anything. |
| StoreFile.HeaderReadsBack | src/storage/record_store.cpp:110-121 | The header of an encoded record reads back. |
| StoreFile.ScanStore | src/storage/record_store.cpp:176-251 | The scan loop computes the specified scan: records, places, valid size and tail. |
| StoreFile.LookAtCut | src/storage/record_store.cpp:176-251 | A record cut anywhere reads as incomplete, never as another record or an error. |
| StoreFile.CutScan | src/storage/record_store.cpp:176-251 | A valid store cut at any byte scans to exactly the records before the cut, with a tail if and only if the cut is inside a record. |
| StoreFile.CutAnywhere | src/storage/record_store.cpp:176-251 | The same for every cut, naming the number of whole records. |
| IndexFile.AcceptedIsBody | src/storage/record_store.cpp:452-484 | Whatever its header fields hold, an accepted index yields the places its body was written from, for a store of the size it names. |
| IndexFile.LoadIndexIff | src/storage/record_store.cpp:338-484 | The index files accepted for a store are exactly those written for its size and for ascending places that begin with the store, have room in it, and start and end at the start of a record. |
| StoreRecovery.CleanIsAccepted | src/storage/record_store.cpp:338-378 | The index written for a store is accepted and gives the places of its records. |
| StoreRecovery.AcceptedIsExact | src/storage/record_store.cpp:452-484 | An accepted index is byte for byte the one writeIndex writes for its entries. |
| StoreRecovery.CrashScan | src/storage/record_store.cpp:611-654 | After a crash at any point of append the scan finds exactly the surviving records. |
| StoreRecovery.CrashAgrees | src/storage/record_store.cpp:380-425 | At every crash point inside append, an index that is accepted is the index of a full scan. |
| StoreRecovery.ReplacedAgrees | src/storage/record_store.cpp:656-687 | Between the two renames of replaceTip the old index is accepted only when it is right for the new store. |
| StoreRecovery.RecoversFromCrash | src/storage/record_store.cpp:486-502 | From any crash inside append the next operation finds a clean store of the surviving records. |
| RecordStore.LowerBound | src/storage/record_store.cpp:803-805 | Binary search finds the first entry not below the integer. |
| RecordStore.AppendedIsFound | src/storage/record_store.cpp:611-654 | After an append the record is found under its integer with its own hash and everything else as before; appending it again changes nothing. Refused are exactly bad records, records before the tip, and another record for the integer of the tip. |
| RecordStore.Store.PrepareIndex | src/storage/record_store.cpp:486-502 | Accepts the index, or rescans, truncates and rewrites it. |
| RecordStore.Store.FindByInteger | src/storage/record_store.cpp:798-817 | Lookup through the index equals a linear search. |
| RecordStore.Store.FindRange | src/storage/record_store.cpp:819-855 | A range read through the index equals the range of a full scan; an inverted range is empty. |
| RecordStore.Store.Append | src/storage/record_store.cpp:611-654 | Accepts exactly good records in order or a repeated tip, and leaves a clean store with the record added once. |
| FinalizationStore.WriteVote | src/storage/finalization_store.cpp:130-138 | Writes what the vote record format renders. |
| FinalizationStore.ReplaceAll | src/storage/finalization_store.cpp:111-152 | Refuses the list exactly when a field is out of bounds, and otherwise writes the records one after the other. |
| FinalizationStore.LoadAll | src/storage/finalization_store.cpp:64-109 | The read loop computes the specified reading of both record versions. |
| FinalizationStore.WritableExact | src/storage/finalization_store.cpp:119-129 | The bounds checked on writing are the bounds checked on reading. |
| FinalizationStore.FileReadsBack | src/storage/finalization_store.cpp:64-109 | Reading back gives what was written, also with fewer than eight stray bytes at the end. |
| FinalizationStore.VotesSurvive | src/storage/finalization_store.cpp:64-152 | The same for the concrete formats of the file. |
| FinalizationStore.CutFile | src/storage/finalization_store.cpp:64-109 | A file cut inside its last record is refused, unless fewer than eight bytes of that record are left: then it loads without it. |
| VoteFile.BytesReadBack | src/storage/finalization_store.cpp:64-152 | Loading the bytes written for a list of vote records is loading the records, whatever they are read as. |
| VoteFile.BytesDurableIff | src/node/sync_server.cpp:4046-4064 | The bytes written from a validator's votes load, and give back all recent locks if and only if no recent lock shares integer and round with a vote for another position. |
| VoteFile.CutLoads | src/storage/finalization_store.cpp:64-109 | What the loader makes of a cut file: an error, or the votes before the last one. |
| VoteFile.ReadingMatches | src/node/sync_server.cpp:4016-4044 | Comparing a vote record with its candidate by decoding and hashing is comparing what they stand for in the consensus model. |

## Left out

- Readers of the single parts of a record below the tail (proofs, transactions, commit phase, metadata lists): `RecordReader` takes the parsers of their formats; the cursor, lists, certificate, tail and both record decoders are code.
- Liveness of finalization beyond the first round: permanent locks can stall a height. Progress is proved for an honest committee of the first round that has not voted for anything else.
- Networking, framing, peers, rate limits, command parsing, and the threads and mutexes of the server.
- SHA3-256, ML-DSA-65 and Ed25519, key handling and address derivation.
- The commit-phase votes and timeouts, and the composite lottery draw; their checks are oracles of the ledger model.
- Endpoint updates, validator applications and work bindings: encoded and decoded, but their signature checks are oracles.
- Legacy finalization targets and the opaque version 1 fallback: an oracle.
- The assigned-committee check on received certificates: agreement is proved for any quorum of votes, which is more than it lets through.
- Replacing the tip by a record with the same subject in the consensus model: it changes no chain of subjects. The files are covered by `ReplacedAgrees`.
- The file of round changes: a restart in the model may find any round changes, which covers every file.
- The startup path that deletes sidecar files when a loader fails: the runs are those in which the vote file is kept.
- The snapshot file format and when snapshots are written.
- initializeGenesis: chains start from any acceptable genesis record; `FirstRecords` has one with the fields makeGenesisPrimeRecordV0 gives it and a shorter message.
- installValidatedStore, countRangeByKind, forEachRange, backups, fsync and error texts of the stores.
- Error texts in general: refusals are absent results.
- Heights and epochs are unbounded integers in the ledger; a chain would need 2^64 records to tell the difference.
- AppendUint64: takes the buffer and returns the longer one, as do the other append methods, instead of changing a shared vector.
- LedgerReplay.RunOfAppends: speaks of record values; `LedgerStore.LoadFollowsRun` is the statement about what is written and read.
- Merkle.RootBinds: speaks of any list and hash; `StoredLedger.BatchDetermines` is the statement about the count and root of a record.
- LedgerStore.RestartIff: is about a load from the records; `Restarts.SnapshotRestoreIff` is the statement about a load from a snapshot.
- LedgerRuns.HonestLedgersAgree: participants aside, because they depend on certificates; records and reported candidates are of versions 11 and later, as in the consensus model.
- Miner front ends, tools and the older block-based node.
