/**
 Safety locks survive a restart: what the loader accepts, what it rebuilds, and exactly when
 a persisted snapshot gives back the locks it was written from.
 */
module LockDurability {
  import opened Machine
  import opened Addresses
  import opened Certificates
  import opened VoteRules

  function PositionOf(r: SignedRecord): Position
    requires r.candidate.Some?
  {
    (r.candidate.value.subject.prev, r.candidate.value.subject.integer)
  }

  /** A record the loader takes: signed by this validator, and matching its candidate. */
  ghost predicate Authentic(r: SignedRecord, self: Address, net: set<Message>) {
    && r.vote.round >= 1 && r.vote.validator == self && VoteMsg(r.vote) in net
    && (r.candidate.Some? ==>
          r.candidate.value.subject.integer == r.integer && r.vote.target == Of(r.candidate.value.subject))
  }

  /** Records that count for the locks: with a candidate, and recent enough. */
  ghost predicate Locking(r: SignedRecord, target: nat) {
    r.candidate.Some? && !Expired(r.integer, target)
  }

  ghost predicate Compatible(a: SignedRecord, b: SignedRecord, target: nat) {
    && (Locking(a, target) && Locking(b, target) && PositionOf(a) == PositionOf(b) ==> a.vote.target == b.vote.target)
    && !(SameSlot(a, b) && a.integer == target)
  }

  /** The files the loader accepts. */
  ghost predicate Loadable(file: seq<SignedRecord>, self: Address, target: nat, net: set<Message>) {
    && (forall i :: 0 <= i < |file| ==> Expired(file[i].integer, target) || Authentic(file[i], self, net))
    && (forall i, j :: 0 <= i < j < |file| ==> Compatible(file[i], file[j], target))
  }

  /** The locks of a file: for each position the record of the highest round. */
  ghost predicate LocksOf(locks: Locks, file: seq<SignedRecord>, target: nat) {
    && (forall k :: k in locks ==>
          locks[k] in file && Locking(locks[k], target) && PositionOf(locks[k]) == k)
    && (forall r :: r in file && Locking(r, target) ==>
          PositionOf(r) in locks && r.vote.round <= locks[PositionOf(r)].vote.round)
  }

  /** The votes of a file for the integer being decided. */
  ghost predicate SignedOf(signed: SignedCandidates, file: seq<SignedRecord>, target: nat) {
    && (forall k :: k in signed ==>
          signed[k] in file && signed[k].integer == target && k == (signed[k].integer, signed[k].vote.round))
    && (forall r :: r in file && r.integer == target ==>
          (r.integer, r.vote.round) in signed && signed[(r.integer, r.vote.round)] == r)
  }

  lemma LoadStepLocks(init: seq<SignedRecord>, last: SignedRecord, self: Address, target: nat, net: set<Message>, acc: Loaded)
    requires acc.Loaded? && LocksOf(acc.locks, init, target)
    requires LoadStep(acc, last, self, target, net).Loaded?
    ensures LocksOf(LoadStep(acc, last, self, target, net).locks, init + [last], target)
  {
    var locks := LoadStep(acc, last, self, target, net).locks;
    var file := init + [last];
    assert forall r :: r in file <==> r in init || r == last;
    if Locking(last, target) {
      var key := PositionOf(last);
      assert locks == (if key in acc.locks && last.vote.round <= acc.locks[key].vote.round then acc.locks
                       else acc.locks[key := last]);
    } else {
      assert locks == acc.locks;
    }
  }

  lemma LoadStepSigned(init: seq<SignedRecord>, last: SignedRecord, self: Address, target: nat, net: set<Message>, acc: Loaded)
    requires acc.Loaded? && SignedOf(acc.signed, init, target)
    requires LoadStep(acc, last, self, target, net).Loaded?
    ensures SignedOf(LoadStep(acc, last, self, target, net).signed, init + [last], target)
  {
    var signed := LoadStep(acc, last, self, target, net).signed;
    assert forall r :: r in init + [last] <==> r in init || r == last;
    if last.integer == target {
      assert !Expired(last.integer, target);
      assert (target, last.vote.round) !in acc.signed;
      assert signed == acc.signed[(target, last.vote.round) := last];
    } else {
      assert signed == acc.signed;
    }
  }

  lemma LoadStepAccepts(init: seq<SignedRecord>, last: SignedRecord, self: Address, target: nat, net: set<Message>, acc: Loaded)
    requires Loadable(init, self, target, net)
    requires acc.Loaded? && LocksOf(acc.locks, init, target) && SignedOf(acc.signed, init, target)
    ensures LoadStep(acc, last, self, target, net).Loaded?
      <==> (Expired(last.integer, target) || Authentic(last, self, net))
           && forall i :: 0 <= i < |init| ==> Compatible(init[i], last, target)
  {
    if !Expired(last.integer, target) && Authentic(last, self, net) {
      DuplicateIff(init, last, target, acc);
      if last.candidate.Some? {
        ConflictIff(init, last, self, target, net, acc);
      }
    }
  }

  ghost predicate Duplicates(init: seq<SignedRecord>, last: SignedRecord, target: nat) {
    exists i :: 0 <= i < |init| && SameSlot(init[i], last) && init[i].integer == target
  }

  ghost predicate Conflicts(init: seq<SignedRecord>, last: SignedRecord, target: nat)
    requires last.candidate.Some?
  {
    exists i :: 0 <= i < |init| && Locking(init[i], target) && PositionOf(init[i]) == PositionOf(last)
                && init[i].vote.target != last.vote.target
  }

  lemma DuplicateIff(init: seq<SignedRecord>, last: SignedRecord, target: nat, acc: Loaded)
    requires acc.Loaded? && SignedOf(acc.signed, init, target)
    ensures last.integer == target && (last.integer, last.vote.round) in acc.signed <==> Duplicates(init, last, target)
  {
    var k := (last.integer, last.vote.round);
    if last.integer == target && k in acc.signed {
      var i :| 0 <= i < |init| && init[i] == acc.signed[k];
      assert SameSlot(init[i], last);
    }
  }

  lemma ConflictIff(init: seq<SignedRecord>, last: SignedRecord, self: Address, target: nat, net: set<Message>, acc: Loaded)
    requires Loadable(init, self, target, net)
    requires acc.Loaded? && LocksOf(acc.locks, init, target)
    requires Locking(last, target) && Authentic(last, self, net)
    ensures PositionOf(last) in acc.locks && acc.locks[PositionOf(last)].vote.target != last.vote.target
      <==> Conflicts(init, last, target)
  {
    var k := PositionOf(last);
    if k in acc.locks {
      var j :| 0 <= j < |init| && init[j] == acc.locks[k];
      if Conflicts(init, last, target) {
        var i :| 0 <= i < |init| && Locking(init[i], target) && PositionOf(init[i]) == k
                 && init[i].vote.target != last.vote.target;
        assert i == j || Compatible(init[i], init[j], target) || Compatible(init[j], init[i], target);
      }
    }
  }

  /** The loader accepts exactly the loadable files, and rebuilds from them the highest vote
      for each recent position and every vote for the integer being decided. */
  lemma {:induction false} LoaderExact(file: seq<SignedRecord>, self: Address, target: nat, net: set<Message>)
    ensures LoadVotes(file, self, target, net).Loaded? <==> Loadable(file, self, target, net)
    ensures LoadVotes(file, self, target, net).Loaded? ==>
              && LocksOf(LoadVotes(file, self, target, net).locks, file, target)
              && SignedOf(LoadVotes(file, self, target, net).signed, file, target)
  {
    if file != [] {
      var init, last := file[..|file| - 1], file[|file| - 1];
      assert file == init + [last];
      LoaderExact(init, self, target, net);
      var acc := LoadVotes(init, self, target, net);
      LoadableSplit(init, last, self, target, net);
      if acc.Loaded? {
        LoadStepAccepts(init, last, self, target, net, acc);
        if LoadVotes(file, self, target, net).Loaded? {
          LoadStepLocks(init, last, self, target, net, acc);
          LoadStepSigned(init, last, self, target, net, acc);
        }
      }
    }
  }

  lemma LoadableSplit(init: seq<SignedRecord>, last: SignedRecord, self: Address, target: nat, net: set<Message>)
    ensures Loadable(init + [last], self, target, net)
      <==> Loadable(init, self, target, net)
           && (Expired(last.integer, target) || Authentic(last, self, net))
           && forall i :: 0 <= i < |init| ==> Compatible(init[i], last, target)
  {
    var file := init + [last];
    if Loadable(file, self, target, net) {
      forall i | 0 <= i < |init|
        ensures file[i] == init[i]
        ensures Expired(init[i].integer, target) || Authentic(init[i], self, net)
        ensures Compatible(init[i], last, target)
      {
        assert file[i] == init[i] && file[|init|] == last;
      }
    }
  }

  // ---------------------------------------------------------------- snapshots

  /** Locks this validator signed, each stored under its position. */
  ghost predicate LocksFormed(locks: Locks, self: Address, net: set<Message>) {
    forall k :: k in locks ==>
      Authentic(locks[k], self, net) && locks[k].candidate.Some? && PositionOf(locks[k]) == k
  }

  /** The record is for the candidate its position is locked on, at no higher round. */
  ghost predicate Covered(r: SignedRecord, locks: Locks) {
    && r.candidate.Some? && PositionOf(r) in locks
    && var lock := locks[PositionOf(r)];
       && lock.vote.target == r.vote.target && r.vote.round <= lock.vote.round
       && (r.vote.round == lock.vote.round ==> r == lock)
  }

  ghost predicate SignedFormed(signed: SignedCandidates, locks: Locks, self: Address, net: set<Message>) {
    forall k :: k in signed ==>
      && Authentic(signed[k], self, net) && k == (signed[k].integer, signed[k].vote.round)
      && Covered(signed[k], locks)
  }

  /** No recent lock shares its integer and round with a vote for another position. */
  ghost predicate NoCollision(signed: SignedCandidates, locks: Locks, target: nat)
    requires forall k :: k in signed ==> signed[k].candidate.Some?
    requires forall k :: k in locks ==> locks[k].candidate.Some?
  {
    forall k :: k in locks && !Expired(k.1, target) ==>
      && (forall j :: j in signed && SameSlot(signed[j], locks[k]) ==> PositionOf(signed[j]) == k)
      && (forall j :: j in locks && SameSlot(locks[j], locks[k]) ==> j == k)
  }

  function Recent(locks: Locks, target: nat): Locks {
    map k | k in locks && !Expired(k.1, target) :: locks[k]
  }

  /** The snapshot of well-formed votes always loads. */
  lemma SnapshotLoads(
    file: seq<SignedRecord>, signed: SignedCandidates, locks: Locks, self: Address, target: nat, net: set<Message>)
    requires LocksFormed(locks, self, net) && SignedFormed(signed, locks, self, net)
    requires SnapshotOf(file, signed, locks)
    ensures Loadable(file, self, target, net)
    ensures forall r :: r in file ==> Authentic(r, self, net) && Covered(r, locks)
  {
    forall r | r in file
      ensures Authentic(r, self, net) && Covered(r, locks)
    {
      if IsSigned(r, signed) {
        var k :| k in signed && signed[k] == r;
      } else {
        var k :| k in locks && locks[k] == r;
      }
    }
    forall i, j | 0 <= i < j < |file|
      ensures Compatible(file[i], file[j], target)
    {
      assert file[i] in file && file[j] in file;
      assert !SameSlot(file[i], file[j]);
    }
  }

  /** Writing the votes and reloading them gives back the recent locks, each at its highest
      round, exactly when no recent lock shares its integer and round with a vote for another
      position. */
  lemma DurableIff(
    file: seq<SignedRecord>, signed: SignedCandidates, locks: Locks, self: Address, target: nat, net: set<Message>)
    requires LocksFormed(locks, self, net) && SignedFormed(signed, locks, self, net)
    requires SnapshotOf(file, signed, locks)
    ensures LoadVotes(file, self, target, net).Loaded?
    ensures LoadVotes(file, self, target, net).locks == Recent(locks, target) <==> NoCollision(signed, locks, target)
  {
    SnapshotLoads(file, signed, locks, self, target, net);
    LoaderExact(file, self, target, net);
    var loaded := LoadVotes(file, self, target, net).locks;
    if NoCollision(signed, locks, target) {
      forall k | k in locks && !Expired(k.1, target)
        ensures locks[k] in file
      {
        LockInFile(file, signed, locks, self, target, net, k);
      }
      RebuiltFromFile(file, locks, loaded, self, target, net);
    }
    if loaded == Recent(locks, target) {
      forall k | k in locks && !Expired(k.1, target)
        ensures locks[k] in file
      {
        assert loaded[k] == locks[k];
      }
      LocksInFileDoNotCollide(file, signed, locks, self, target, net);
    }
  }

  lemma LocksInFileDoNotCollide(
    file: seq<SignedRecord>, signed: SignedCandidates, locks: Locks, self: Address, target: nat, net: set<Message>)
    requires LocksFormed(locks, self, net) && SignedFormed(signed, locks, self, net)
    requires SnapshotOf(file, signed, locks)
    requires forall k :: k in locks && !Expired(k.1, target) ==> locks[k] in file
    ensures NoCollision(signed, locks, target)
  {
    forall k | k in locks && !Expired(k.1, target)
      ensures forall j :: j in signed && SameSlot(signed[j], locks[k]) ==> PositionOf(signed[j]) == k
      ensures forall j :: j in locks && SameSlot(locks[j], locks[k]) ==> j == k
    {
      forall j | j in signed && SameSlot(signed[j], locks[k])
        ensures PositionOf(signed[j]) == k
      {
        SlotDecides(file, signed[j], locks[k]);
      }
      forall j | j in locks && SameSlot(locks[j], locks[k])
        ensures j == k
      {
        SlotDecides(file, locks[j], locks[k]);
      }
    }
  }

  lemma SlotDecides(file: seq<SignedRecord>, a: SignedRecord, b: SignedRecord)
    requires SlotsDistinct(file) && a in file && b in file && SameSlot(a, b)
    ensures a == b
  {
    var i :| 0 <= i < |file| && file[i] == a;
    var j :| 0 <= j < |file| && file[j] == b;
    if i != j {
      assert SameSlot(file[i], file[j]) && SameSlot(file[j], file[i]);
    }
  }

  lemma LockInFile(
    file: seq<SignedRecord>, signed: SignedCandidates, locks: Locks, self: Address, target: nat, net: set<Message>,
    k: Position)
    requires LocksFormed(locks, self, net) && SignedFormed(signed, locks, self, net)
    requires SnapshotOf(file, signed, locks) && NoCollision(signed, locks, target)
    requires k in locks && !Expired(k.1, target)
    ensures locks[k] in file
  {
    var i :| 0 <= i < |file| && SameSlot(file[i], locks[k]);
    var r := file[i];
    assert r in file;
    if IsSigned(r, signed) {
      var j :| j in signed && signed[j] == r;
      assert Covered(signed[j], locks);
    } else {
      var j :| j in locks && locks[j] == r;
    }
  }

  /** A file holding the recent locks, all its records covered, rebuilds them. */
  lemma RebuiltFromFile(
    file: seq<SignedRecord>, locks: Locks, loaded: Locks, self: Address, target: nat, net: set<Message>)
    requires LocksFormed(locks, self, net)
    requires forall r :: r in file ==> Authentic(r, self, net) && Covered(r, locks)
    requires forall k :: k in locks && !Expired(k.1, target) ==> locks[k] in file
    requires LocksOf(loaded, file, target)
    ensures loaded == Recent(locks, target)
  {
    var recent := Recent(locks, target);
    forall k | k in loaded
      ensures k in recent && loaded[k] == recent[k]
    {
      var r := loaded[k];
      assert Covered(r, locks);
      assert locks[k] in file && Locking(locks[k], target);
    }
    forall k | k in recent
      ensures k in loaded
    {
      assert locks[k] in file && Locking(locks[k], target);
    }
  }

  /** Two locks for one integer and round after different predecessors: the file keeps
      one. */
  lemma CollisionLosesLock(self: Address) returns (locks: Locks, file: seq<SignedRecord>, net: set<Message>)
    ensures LocksFormed(locks, self, net) && SnapshotOf(file, map[], locks)
    ensures forall k :: k in locks ==> k.1 == 3 && k.0.Of? && k.0.subject.integer == 2
    ensures LoadVotes(file, self, 3, net).Loaded?
    ensures LoadVotes(file, self, 3, net).locks != Recent(locks, 3)
  {
    var p, q := Of(Subject(Zero, 2, None, [0])), Of(Subject(Zero, 2, None, [1]));
    var a, b := Subject(p, 3, None, []), Subject(q, 3, None, []);
    var ra := SignedRecord(3, Some(Candidate(a, Proof(SignedRule, [], []))), Vote(self, Of(a), 1));
    var rb := SignedRecord(3, Some(Candidate(b, Proof(SignedRule, [], []))), Vote(self, Of(b), 1));
    locks, file, net := map[(p, 3) := ra, (q, 3) := rb], [ra], {VoteMsg(ra.vote), VoteMsg(rb.vote)};
    assert [0][0] != [1][0];
    assert (p, 3) in locks && (q, 3) in locks && locks[(p, 3)] == ra && locks[(q, 3)] == rb;
    assert IsLock(ra, locks);
    assert SameSlot(file[0], ra) && SameSlot(file[0], rb);
    assert SameSlot(locks[(p, 3)], locks[(q, 3)]);
    DurableIff(file, map[], locks, self, 3, net);
  }
}
