/**
 What every operation of one validator keeps: its locks, signed candidates and file agree
 with each other, with its chain and with every vote it has ever signed.
 */
module VoterSafety {
  import opened Machine
  import opened Addresses
  import opened Quorum
  import opened Certificates
  import opened VoteRules
  import opened LockDurability

  // ---------------------------------------------------------------- the invariant

  /** The position follows the validator's own chain, up to the integer being decided. */
  ghost predicate Placed(chain: seq<Subject>, k: Position) {
    3 <= k.1 <= Target(chain) && k.0 == Tip(chain[..k.1 - 2])
  }

  ghost predicate LocksPlaced(chain: seq<Subject>, locks: Locks) {
    forall k :: k in locks ==> Placed(chain, k)
  }

  ghost predicate Formed(self: Address, node: Node, net: set<Message>) {
    && LocksFormed(node.locks, self, net) && SignedFormed(node.signed, node.locks, self, net)
    && LocksPlaced(node.chain, node.locks)
  }

  ghost function Active(node: Node): nat {
    ActiveRound(node.changes, Target(node.chain), RequiredQuorum(|SetAfter(Tip(node.chain))|))
  }

  /** The lock for the integer being decided is a signed candidate. */
  ghost predicate LockIsSigned(node: Node) {
    forall k :: k in node.locks && k.1 == Target(node.chain) ==> (k.1, node.locks[k].vote.round) in node.signed
  }

  /** No candidate is signed for a round beyond the active one. */
  ghost predicate RoundsReached(node: Node) {
    forall k :: k in node.signed && k.0 == Target(node.chain) ==> k.1 <= Active(node)
  }

  /** The file holds the locks and the signed candidates. */
  ghost predicate DiskFormed(self: Address, node: Node, net: set<Message>) {
    && SlotsDistinct(node.disk)
    && FileCovered(node.disk, node.locks, self, net) && FileHoldsLocks(node.disk, node.locks)
    && FileHoldsSigned(node.disk, node.signed, Target(node.chain))
  }

  ghost predicate FileCovered(file: seq<SignedRecord>, locks: Locks, self: Address, net: set<Message>) {
    forall r :: r in file ==> Authentic(r, self, net) && Covered(r, locks)
  }

  ghost predicate FileHoldsLocks(file: seq<SignedRecord>, locks: Locks) {
    forall k :: k in locks ==> locks[k] in file
  }

  /** The signed candidates are in the file, and the file has no others for the integer
      being decided. */
  ghost predicate FileHoldsSigned(file: seq<SignedRecord>, signed: SignedCandidates, target: nat) {
    && (forall k :: k in signed ==> signed[k] in file)
    && (forall r :: r in file && r.integer == target ==> HoldsSigned(signed, r))
  }

  ghost predicate HoldsSigned(signed: SignedCandidates, r: SignedRecord) {
    (r.integer, r.vote.round) in signed && signed[(r.integer, r.vote.round)] == r
  }

  /** A vote signed by this validator: on its chain, and locked while it is recent. */
  ghost predicate VoteAccounted(node: Node, v: Vote) {
    && v.target.Of? && v.round >= 1
    && var k := (v.target.subject.prev, v.target.subject.integer);
       && Placed(node.chain, k) && (!Expired(k.1, Target(node.chain)) ==> k in node.locks)
       && LockedAtLeast(node.locks, v)
  }

  /** A lock on the vote's position is for the vote's subject, in no earlier round. */
  ghost predicate LockedAtLeast(locks: Locks, v: Vote) {
    v.target.Of? ==>
      var k := (v.target.subject.prev, v.target.subject.integer);
      k in locks ==> locks[k].vote.target == v.target && v.round <= locks[k].vote.round
  }

  ghost predicate VotesAccounted(self: Address, node: Node, net: set<Message>) {
    forall v :: VoteMsg(v) in net && v.validator == self ==> VoteAccounted(node, v)
  }

  ghost predicate SamePosition(a: Hash, b: Hash) {
    a.Of? && b.Of? && a.subject.prev == b.subject.prev && a.subject.integer == b.subject.integer
  }

  /** The validator never signs two subjects for one previous hash and integer. */
  ghost predicate NeverEquivocates(self: Address, net: set<Message>) {
    forall u, v ::
      VoteMsg(u) in net && VoteMsg(v) in net && u.validator == self && v.validator == self
      && SamePosition(u.target, v.target)
      ==> u.target == v.target
  }

  ghost predicate VoterOk(self: Address, node: Node, net: set<Message>) {
    && Formed(self, node, net) && LockIsSigned(node) && RoundsReached(node)
    && DiskFormed(self, node, net)
    && VotesAccounted(self, node, net) && NeverEquivocates(self, net)
  }

  // ---------------------------------------------------------------- persisting

  /** On one chain an integer has one position, so no two votes collide. */
  lemma PlacedNoCollision(self: Address, node: Node, net: set<Message>, target: nat)
    requires Formed(self, node, net)
    ensures NoCollision(node.signed, node.locks, target)
  {
    forall k | k in node.locks
      ensures forall j :: j in node.signed && SameSlot(node.signed[j], node.locks[k]) ==> PositionOf(node.signed[j]) == k
      ensures forall j :: j in node.locks && SameSlot(node.locks[j], node.locks[k]) ==> j == k
    {
      forall j | j in node.signed && SameSlot(node.signed[j], node.locks[k])
        ensures PositionOf(node.signed[j]) == k
      {
        OnePosition(node.chain, PositionOf(node.signed[j]), k);
      }
      forall j | j in node.locks && SameSlot(node.locks[j], node.locks[k])
        ensures j == k
      {
        OnePosition(node.chain, j, k);
      }
    }
  }

  lemma OnePosition(chain: seq<Subject>, j: Position, k: Position)
    requires Placed(chain, j) && Placed(chain, k) && j.1 == k.1
    ensures j == k
  {
  }

  /** A snapshot of the current votes is a file that holds them. */
  lemma SnapshotIsFormed(self: Address, node: Node, net: set<Message>)
    requires Formed(self, node, net) && LockIsSigned(node)
    requires SnapshotOf(node.disk, node.signed, node.locks)
    ensures DiskFormed(self, node, net)
  {
    PlacedNoCollision(self, node, net, 0);
    SnapshotLoads(node.disk, node.signed, node.locks, self, 0, net);
    forall k | k in node.locks
      ensures node.locks[k] in node.disk
    {
      LockInFile(node.disk, node.signed, node.locks, self, 0, net, k);
    }
    forall r | r in node.disk && r.integer == Target(node.chain)
      ensures HoldsSigned(node.signed, r)
    {
      TargetRecordSigned(self, node, net, r);
    }
  }

  lemma TargetRecordSigned(self: Address, node: Node, net: set<Message>, r: SignedRecord)
    requires Formed(self, node, net) && LockIsSigned(node)
    requires IsSigned(r, node.signed) || IsLock(r, node.locks)
    requires r.integer == Target(node.chain)
    ensures HoldsSigned(node.signed, r)
  {
    if IsSigned(r, node.signed) {
      var k :| k in node.signed && node.signed[k] == r;
    } else {
      var k :| k in node.locks && node.locks[k] == r;
      var slot := (k.1, r.vote.round);
      assert slot in node.signed;
      SameIntegerSamePosition(node, node.signed[slot], r);
    }
  }

  lemma SameIntegerSamePosition(node: Node, a: SignedRecord, b: SignedRecord)
    requires LocksPlaced(node.chain, node.locks)
    requires Covered(a, node.locks) && Covered(b, node.locks) && SameSlot(a, b)
    requires PositionOf(a).1 == a.integer && PositionOf(b).1 == b.integer
    requires b == node.locks[PositionOf(b)]
    ensures a == b
  {
    OnePosition(node.chain, PositionOf(a), PositionOf(b));
  }

  // ---------------------------------------------------------------- messages of others

  lemma NetGrows(self: Address, node: Node, net: set<Message>, more: set<Message>)
    requires VoterOk(self, node, net) && net <= more
    requires forall v :: VoteMsg(v) in more && VoteMsg(v) !in net ==> v.validator != self
    ensures VoterOk(self, node, more)
  {
    assert forall v :: VoteMsg(v) in more && v.validator == self ==> VoteMsg(v) in net;
  }

  // ---------------------------------------------------------------- round changes

  lemma ChangesGrow(self: Address, node: Node, changes: Changes, net: set<Message>)
    requires VoterOk(self, node, net)
    requires forall k :: k in node.changes ==> k in changes
    ensures VoterOk(self, node.(changes := changes), net)
    ensures Active(node) <= Active(node.(changes := changes))
  {
    ActiveRoundMonotone(node.changes, changes, Target(node.chain), RequiredQuorum(|SetAfter(Tip(node.chain))|));
  }

  lemma ActiveRoundLocal(a: Changes, b: Changes, integer: nat, quorum: nat)
    requires forall k: (nat, nat, Address) :: k.0 == integer ==> (k in a <==> k in b)
    ensures ActiveRound(a, integer, quorum) == ActiveRound(b, integer, quorum)
  {
    forall round: nat
      ensures Changers(a, integer, round) == Changers(b, integer, round)
    {
    }
    assert OpenRounds(a, integer, quorum) == OpenRounds(b, integer, quorum);
  }

  // ---------------------------------------------------------------- finalized integers

  /** A new record moves the chain on; nothing was signed yet for the integer after it. */
  lemma ChainGrows(self: Address, node: Node, s: Subject, net: set<Message>)
    requires VoterOk(self, node, net)
    ensures VoterOk(self, node.(chain := node.chain + [s]), net)
  {
    var next := node.(chain := node.chain + [s]);
    forall k: Position | Placed(node.chain, k)
      ensures Placed(next.chain, k) && k.1 < Target(next.chain)
    {
      assert next.chain[..k.1 - 2] == node.chain[..k.1 - 2];
    }
  }

  lemma ClearKeeps(self: Address, node: Node, integer: nat, net: set<Message>)
    requires VoterOk(self, node, net) && integer < Target(node.chain)
    ensures VoterOk(self, ClearSigned(node, integer), net)
    ensures Active(ClearSigned(node, integer)) == Active(node)
  {
    var next := ClearSigned(node, integer);
    ActiveRoundLocal(node.changes, next.changes, Target(node.chain), RequiredQuorum(|SetAfter(Tip(node.chain))|));
    FewerSigned(self, node, next.signed, net);
    assert next == node.(signed := next.signed, changes := next.changes);
  }

  /** Dropping signed candidates of decided integers. */
  ghost predicate DropsDecided(node: Node, signed: SignedCandidates) {
    && (forall k :: k in signed ==> k in node.signed && signed[k] == node.signed[k])
    && (forall k :: k in node.signed && k.0 == Target(node.chain) ==> k in signed)
  }

  lemma FewerSigned(self: Address, node: Node, signed: SignedCandidates, net: set<Message>)
    requires Formed(self, node, net) && LockIsSigned(node) && DiskFormed(self, node, net)
    requires DropsDecided(node, signed)
    ensures SignedFormed(signed, node.locks, self, net) && LockIsSigned(node.(signed := signed))
    ensures FileHoldsSigned(node.disk, signed, Target(node.chain))
  {
    FewerSignedFormed(self, node, signed, net);
    FewerSignedHeld(node, signed);
  }

  lemma FewerSignedFormed(self: Address, node: Node, signed: SignedCandidates, net: set<Message>)
    requires SignedFormed(node.signed, node.locks, self, net) && LockIsSigned(node) && DropsDecided(node, signed)
    ensures SignedFormed(signed, node.locks, self, net) && LockIsSigned(node.(signed := signed))
  {
  }

  lemma FewerSignedHeld(node: Node, signed: SignedCandidates)
    requires FileHoldsSigned(node.disk, node.signed, Target(node.chain)) && DropsDecided(node, signed)
    ensures FileHoldsSigned(node.disk, signed, Target(node.chain))
  {
    forall r | r in node.disk && r.integer == Target(node.chain)
      ensures HoldsSigned(signed, r)
    {
      assert HoldsSigned(node.signed, r);
    }
  }

  lemma DiskRewritten(self: Address, node: Node, file: seq<SignedRecord>, net: set<Message>)
    requires VoterOk(self, node, net) && SnapshotOf(file, node.signed, node.locks)
    ensures VoterOk(self, node.(disk := file), net)
  {
    SnapshotIsFormed(self, node.(disk := file), net);
  }

  // ---------------------------------------------------------------- signing

  /** The state in which a validator comes to sign a new vote for subject s. */
  ghost predicate ReadyToSign(node: Node, s: Subject, round: nat) {
    && Placed(node.chain, (s.prev, s.integer)) && s.integer == Target(node.chain)
    && round == Active(node)
    && (s.integer, round) !in node.signed
    && ((s.prev, s.integer) in node.locks ==> node.locks[(s.prev, s.integer)].vote.target == Of(s))
  }

  /** A new vote is always for a higher round than the lock, so it becomes the lock. */
  lemma LockIsRaised(node: Node, s: Subject, round: nat, record: SignedRecord)
    requires LockIsSigned(node) && RoundsReached(node) && ReadyToSign(node, s, round)
    requires record.vote.round == round
    ensures var k := (s.prev, s.integer);
            && (k in node.locks ==> node.locks[k].vote.round < round)
            && RaisedLock(node.locks, k, record) == node.locks[k := record]
  {
    var k := (s.prev, s.integer);
    if k in node.locks {
      assert (k.1, node.locks[k].vote.round) in node.signed;
    }
  }

  lemma SignedStaysFormed(
    self: Address, node: Node, record: SignedRecord, net: set<Message>, more: set<Message>)
    requires SignedFormed(node.signed, node.locks, self, net) && net <= more
    requires record.candidate.Some? && Authentic(record, self, more)
    requires var k := PositionOf(record);
             k in node.locks ==> node.locks[k].vote.target == record.vote.target && node.locks[k].vote.round < record.vote.round
    ensures SignedFormed(node.signed[(record.integer, record.vote.round) := record],
                         node.locks[PositionOf(record) := record], self, more)
  {
  }

  lemma SignKeeps(
    self: Address, node: Node, c: Candidate, round: nat, file: seq<SignedRecord>, net: set<Message>)
    requires VoterOk(self, node, net) && ReadyToSign(node, c.subject, round) && round >= 1
    requires var next := SignAndPersist(self, node, c, round, Some(file)).node;
             SnapshotOf(file, next.signed, next.locks)
    ensures VoterOk(self, SignAndPersist(self, node, c, round, Some(file)).node,
                    net + {VoteMsg(Vote(self, Of(c.subject), round))})
  {
    var s := c.subject;
    var vote := Vote(self, Of(s), round);
    var record := SignedRecord(s.integer, Some(c), vote);
    var more := net + {VoteMsg(vote)};
    var next := SignAndPersist(self, node, c, round, Some(file)).node;
    LockIsRaised(node, s, round, record);
    SignedStaysFormed(self, node, record, net, more);
    LocksStayFormed(node.chain, node.locks, record, self, net, more);
    LockStaysSigned(node, next, record);
    RoundsStayReached(node, next, record);
    SnapshotIsFormed(self, next, more);
    SignedVoteAccounted(self, node, next, record, net);
  }

  lemma LocksStayFormed(chain: seq<Subject>, locks: Locks, record: SignedRecord, self: Address, net: set<Message>, more: set<Message>)
    requires LocksFormed(locks, self, net) && LocksPlaced(chain, locks) && net <= more
    requires record.candidate.Some? && Authentic(record, self, more) && Placed(chain, PositionOf(record))
    ensures LocksFormed(locks[PositionOf(record) := record], self, more)
    ensures LocksPlaced(chain, locks[PositionOf(record) := record])
  {
  }

  lemma LockStaysSigned(node: Node, next: Node, record: SignedRecord)
    requires LockIsSigned(node) && LocksPlaced(node.chain, node.locks)
    requires record.candidate.Some? && record.integer == PositionOf(record).1 && Placed(node.chain, PositionOf(record))
    requires next.chain == node.chain && next.locks == node.locks[PositionOf(record) := record]
    requires next.signed == node.signed[(record.integer, record.vote.round) := record]
    ensures LockIsSigned(next)
  {
    forall k | k in next.locks && k.1 == Target(next.chain)
      ensures (k.1, next.locks[k].vote.round) in next.signed
    {
      if k != PositionOf(record) {
        assert k in node.locks;
      }
    }
  }

  lemma RoundsStayReached(node: Node, next: Node, record: SignedRecord)
    requires RoundsReached(node)
    requires next.chain == node.chain && next.changes == node.changes && record.vote.round <= Active(node)
    requires next.signed == node.signed[(record.integer, record.vote.round) := record]
    ensures RoundsReached(next)
  {
    assert Active(next) == Active(node);
  }

  /** Every vote for the position so far was for the same subject, at a lower round. */
  lemma SignedVoteAccounted(self: Address, node: Node, next: Node, record: SignedRecord, net: set<Message>)
    requires VotesAccounted(self, node, net) && NeverEquivocates(self, net)
    requires record.candidate.Some? && record.vote.validator == self && record.vote.round >= 1
    requires record.vote.target == Of(record.candidate.value.subject)
    requires var k := PositionOf(record);
             && Placed(node.chain, k) && k.1 == Target(node.chain)
             && (k in node.locks ==> node.locks[k].vote.target == record.vote.target && node.locks[k].vote.round < record.vote.round)
             && next.locks == node.locks[k := record] && next.chain == node.chain
    ensures VotesAccounted(self, next, net + {VoteMsg(record.vote)})
    ensures NeverEquivocates(self, net + {VoteMsg(record.vote)})
  {
    forall v | VoteMsg(v) in net && v.validator == self
      ensures VoteAccounted(next, v)
      ensures SamePosition(v.target, record.vote.target) ==> v.target == record.vote.target
    {
      assert VoteAccounted(node, v);
    }
  }

  // ---------------------------------------------------------------- restart

  /** A restart rebuilds every recent lock, and every vote for the integer being decided. */
  lemma ReloadRestores(self: Address, node: Node, net: set<Message>)
    requires Formed(self, node, net) && DiskFormed(self, node, net)
    ensures var r := LoadVotes(node.disk, self, Target(node.chain), net);
            && r.Loaded? && r.locks == Recent(node.locks, Target(node.chain))
            && r.signed == map k | k in node.signed && k.0 == Target(node.chain) :: node.signed[k]
  {
    var target := Target(node.chain);
    forall i, j | 0 <= i < j < |node.disk|
      ensures Compatible(node.disk[i], node.disk[j], target)
    {
      assert node.disk[i] in node.disk && node.disk[j] in node.disk;
      assert !SameSlot(node.disk[i], node.disk[j]);
    }
    forall i | 0 <= i < |node.disk|
      ensures Authentic(node.disk[i], self, net)
    {
      assert node.disk[i] in node.disk;
    }
    LoaderExact(node.disk, self, target, net);
    var r := LoadVotes(node.disk, self, target, net);
    RebuiltFromFile(node.disk, node.locks, r.locks, self, target, net);
    SignedRestored(self, node, r.signed, net);
  }

  lemma SignedRestored(self: Address, node: Node, signed: SignedCandidates, net: set<Message>)
    requires SignedFormed(node.signed, node.locks, self, net)
    requires forall k :: k in node.signed ==> node.signed[k] in node.disk
    requires forall r :: r in node.disk && r.integer == Target(node.chain) ==> HoldsSigned(node.signed, r)
    requires SignedOf(signed, node.disk, Target(node.chain))
    ensures signed == map k | k in node.signed && k.0 == Target(node.chain) :: node.signed[k]
  {
    forall k | k in node.signed && k.0 == Target(node.chain)
      ensures k in signed && signed[k] == node.signed[k]
    {
      assert node.signed[k] in node.disk;
    }
    forall k | k in signed
      ensures k in node.signed && k.0 == Target(node.chain)
    {
      assert HoldsSigned(node.signed, signed[k]);
    }
  }

  /** The votes and locks a restart comes back with. */
  ghost function Reloaded(node: Node, changes: Changes): Node {
    node.(locks := Recent(node.locks, Target(node.chain)),
          signed := map k | k in node.signed && k.0 == Target(node.chain) :: node.signed[k],
          changes := changes)
  }

  lemma RecentFormed(chain: seq<Subject>, locks: Locks, self: Address, net: set<Message>, target: nat)
    requires LocksFormed(locks, self, net) && LocksPlaced(chain, locks)
    ensures LocksFormed(Recent(locks, target), self, net) && LocksPlaced(chain, Recent(locks, target))
  {
  }

  lemma ReloadedSignedFormed(self: Address, node: Node, changes: Changes, net: set<Message>)
    requires SignedFormed(node.signed, node.locks, self, net)
    ensures SignedFormed(Reloaded(node, changes).signed, Recent(node.locks, Target(node.chain)), self, net)
  {
    var signed, recent := Reloaded(node, changes).signed, Recent(node.locks, Target(node.chain));
    forall k | k in signed
      ensures Authentic(signed[k], self, net) && k == (signed[k].integer, signed[k].vote.round)
      ensures Covered(signed[k], recent)
    {
      var r := node.signed[k];
      assert Authentic(r, self, net) && Covered(r, node.locks);
      assert PositionOf(r) in recent;
    }
  }

  lemma ReloadedLockIsSigned(node: Node, changes: Changes)
    requires LockIsSigned(node)
    ensures LockIsSigned(Reloaded(node, changes))
  {
    var next := Reloaded(node, changes);
    forall k | k in next.locks && k.1 == Target(next.chain)
      ensures (k.1, next.locks[k].vote.round) in next.signed
    {
      assert k in node.locks;
    }
  }

  lemma ReloadedFormed(self: Address, node: Node, changes: Changes, net: set<Message>)
    requires Formed(self, node, net) && LockIsSigned(node)
    ensures Formed(self, Reloaded(node, changes), net) && LockIsSigned(Reloaded(node, changes))
  {
    RecentFormed(node.chain, node.locks, self, net, Target(node.chain));
    ReloadedSignedFormed(self, node, changes, net);
    ReloadedLockIsSigned(node, changes);
  }

  lemma ReloadedAccounted(self: Address, node: Node, changes: Changes, net: set<Message>)
    requires VotesAccounted(self, node, net)
    ensures VotesAccounted(self, Reloaded(node, changes), net)
  {
    forall v | VoteMsg(v) in net && v.validator == self
      ensures VoteAccounted(Reloaded(node, changes), v)
    {
      assert VoteAccounted(node, v);
    }
  }

  lemma NothingPruned(locks: Locks, disk: seq<SignedRecord>, self: Address, net: set<Message>, target: nat)
    requires LocksFormed(locks, self, net) && FileHoldsLocks(disk, locks) && !NeedsPruning(disk, target)
    ensures Recent(locks, target) == locks
  {
    forall k | k in locks
      ensures !Expired(k.1, target)
    {
      assert locks[k] in disk;
    }
  }

  lemma UnprunedDisk(self: Address, node: Node, changes: Changes, net: set<Message>)
    requires LocksFormed(node.locks, self, net) && DiskFormed(self, node, net)
    requires !NeedsPruning(node.disk, Target(node.chain))
    ensures DiskFormed(self, Reloaded(node, changes), net)
  {
    NothingPruned(node.locks, node.disk, self, net, Target(node.chain));
    FewerSignedHeld(node, Reloaded(node, changes).signed);
  }

  lemma RestartKeeps(
    self: Address, node: Node, changes: Changes, file: Option<seq<SignedRecord>>, net: set<Message>)
    requires VoterOk(self, node, net)
    requires Restarted(self, node, changes, file, net).Some?
    requires var next := Restarted(self, node, changes, file, net).value;
             file.Some? ==> SnapshotOf(file.value, next.signed, next.locks)
    ensures VoterOk(self, Restarted(self, node, changes, file, net).value, net)
  {
    var next := Restarted(self, node, changes, file, net).value;
    ReloadRestores(self, node, net);
    ReloadedFormed(self, node, changes, net);
    ReloadedAccounted(self, node, changes, net);
    assert RoundsReached(next);
    if NeedsPruning(node.disk, Target(node.chain)) {
      SnapshotIsFormed(self, next, net);
    } else {
      UnprunedDisk(self, node, changes, net);
      assert next == Reloaded(node, changes);
    }
  }
}
