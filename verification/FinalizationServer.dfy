/**
 The mutable voting state of a validator process: the maps src/node/sync_server.cpp updates
 in place, with their roll-back when a file cannot be written. Every method is proved to
 take the step that the vote rules describe.
 */
module FinalizationServer {
  import opened Machine
  import opened Sets
  import opened Addresses
  import opened Quorum
  import opened Certificates
  import opened Committee
  import opened VoteRules

  function Names(cs: seq<RoundChange>): (names: seq<Address>)
    ensures |names| == |cs|
  {
    seq(|cs|, i requires 0 <= i < |cs| => cs[i].validator)
  }

  lemma InsertAscending(s: seq<Address>, i: nat, a: Address)
    requires Ascending(s) && i <= |s| && (i > 0 ==> Less(s[i - 1], a)) && (i < |s| ==> Less(a, s[i]))
    ensures Ascending(s[..i] + [a] + s[i..])
  {
  }

  /** Insertion by validator address into a sorted list. */
  method InsertByValidator(cs: seq<RoundChange>, c: RoundChange) returns (out: seq<RoundChange>)
    requires Ascending(Names(cs)) && c.validator !in Names(cs)
    ensures Ascending(Names(out))
    ensures forall d :: d in out <==> d in cs || d == c
  {
    var i := 0;
    while i < |cs| && Less(cs[i].validator, c.validator)
      invariant 0 <= i <= |cs|
      invariant i > 0 ==> Less(cs[i - 1].validator, c.validator)
    {
      i := i + 1;
    }
    if i < |cs| {
      assert Names(cs)[i] in Names(cs);
      LessTotal(cs[i].validator, c.validator);
    }
    InsertAscending(Names(cs), i, c.validator);
    NamesOfInserted(cs, i, c);
    InsertedMembers(cs, i, c);
    out := cs[..i] + [c] + cs[i..];
  }

  lemma NamesOfInserted(cs: seq<RoundChange>, i: nat, c: RoundChange)
    requires i <= |cs|
    ensures Names(cs[..i] + [c] + cs[i..]) == Names(cs)[..i] + [c.validator] + Names(cs)[i..]
  {
  }

  lemma InsertedMembers<T>(s: seq<T>, i: nat, x: T)
    requires i <= |s|
    ensures forall y :: y in s[..i] + [x] + s[i..] <==> y in s || y == x
  {
    assert s == s[..i] + s[i..];
  }

  class Server {
    const self: Address
    var chain: seq<Subject>
    var signed: SignedCandidates
    var locks: Locks
    var changes: Changes
    var disk: seq<SignedRecord>

    constructor (self: Address, genesis: Subject)
      ensures State() == Node([genesis], map[], map[], map[], []) && this.self == self && Keyed()
    {
      this.self := self;
      chain := [genesis];
      signed := map[];
      locks := map[];
      changes := map[];
      disk := [];
    }

    function State(): Node
      reads this
    {
      Node(chain, signed, locks, changes, disk)
    }

    /** Signed candidates and round changes are stored under their own integer and round. */
    ghost predicate Keyed()
      reads this
    {
      && (forall k :: k in signed ==> k == (signed[k].integer, signed[k].vote.round))
      && (forall k :: k in changes ==> k == ChangeKey(changes[k]))
    }

    function Validators(): seq<Address>
      reads this
    {
      SetAfter(Tip(chain))
    }

    /** The round changes recorded for a round, sorted by validator. */
    method CollectChanges(integer: nat, round: nat) returns (out: seq<RoundChange>)
      requires Keyed()
      ensures Ascending(Names(out)) && Collected(out, changes, integer, round)
    {
      out := [];
      var keys := InSomeOrder(changes.Keys);
      var i := 0;
      while i < |keys|
        invariant 0 <= i <= |keys| && Ascending(Names(out))
        invariant forall c :: c in out ==> IsChange(c, changes, integer, round) && ChangeKey(c) in keys[..i]
        invariant forall j :: 0 <= j < i && keys[j].0 == integer && keys[j].1 == round ==> changes[keys[j]] in out
      {
        var k := keys[i];
        assert k in keys;
        if k.0 == integer && k.1 == round {
          NotCollectedYet(out, changes, keys[..i], integer, round, k);
          out := InsertByValidator(out, changes[k]);
        }
        i := i + 1;
      }
    }

    /** The round changes a certificate is made of: sorted, and no more than the validators. */
    method CertifiedRoundChanges(integer: nat, round: nat) returns (out: seq<RoundChange>)
      requires Keyed()
      ensures Ascending(Names(out)) && |out| <= |Validators()|
      ensures forall c :: c in out ==> ChangeKey(c) in changes && changes[ChangeKey(c)] == c && c.integer == integer && c.newRound == round
      ensures |Changers(changes, integer, round)| <= |Validators()| ==>
                Elements(Names(out)) == Changers(changes, integer, round)
      ensures |out| >= RequiredQuorum(|Validators()|) <==> RoundCertified(changes, integer, round, RequiredQuorum(|Validators()|))
    {
      var all := CollectChanges(integer, round);
      NamesAreChangers(all, changes, integer, round);
      AscendingSize(Names(all));
      out := if |all| > |Validators()| then all[..|Validators()|] else all;
      assert Names(out) == Names(all)[..|out|];
      assert forall c :: c in out ==> c in all;
    }

    /** The highest certified round. */
    method ActiveFinalizationRound(integer: nat) returns (active: nat)
      requires Keyed()
      ensures active == ActiveRound(changes, integer, RequiredQuorum(|Validators()|))
    {
      active := 1;
      ghost var quorum := RequiredQuorum(|Validators()|);
      var keys := InSomeOrder(changes.Keys);
      var i := 0;
      while i < |keys|
        invariant 0 <= i <= |keys| && active in OpenRounds(changes, integer, quorum)
        invariant active >= 1
        invariant forall j :: 0 <= j < i ==> OpenBelow(changes, integer, keys[j], quorum, active)
      {
        var k := keys[i];
        assert k in keys;
        if k.0 == integer {
          var certified := CertifiedRoundChanges(integer, k.1);
          if |certified| >= RequiredQuorum(|Validators()|) && k.1 > active {
            active := k.1;
          }
        }
        i := i + 1;
      }
      HighestOpen(changes, keys, integer, quorum, active);
    }

    /** Every signed candidate, then every lock whose integer and round are still missing. */
    method SignedCandidateSnapshot() returns (out: seq<SignedRecord>)
      requires Keyed()
      ensures SnapshotOf(out, signed, locks)
    {
      out := [];
      var included: set<(nat, nat)> := {};
      var keys := InSomeOrder(signed.Keys);
      var i := 0;
      while i < |keys|
        invariant 0 <= i <= |keys| && SnapshotSoFar(out, included) && AllFrom(out, signed, map[])
        invariant forall k :: k in included ==> k in keys[..i]
        invariant forall j :: 0 <= j < i ==> signed[keys[j]] in out
      {
        var k := keys[i];
        assert k in keys;
        SnapshotAppend(out, included, signed[k]);
        assert IsSigned(signed[k], signed);
        out, included, i := out + [signed[k]], included + {Slot(signed[k])}, i + 1;
      }
      out := AddLocks(out, included);
    }

    method AddLocks(candidates: seq<SignedRecord>, slots: set<(nat, nat)>) returns (out: seq<SignedRecord>)
      requires SnapshotSoFar(candidates, slots) && AllFrom(candidates, signed, map[])
      requires forall k :: k in signed ==> signed[k] in candidates
      ensures SnapshotOf(out, signed, locks)
    {
      out := candidates;
      var included := slots;
      var keys := InSomeOrder(locks.Keys);
      var i := 0;
      while i < |keys|
        invariant 0 <= i <= |keys| && SnapshotSoFar(out, included) && AllFrom(out, signed, locks)
        invariant forall k :: k in signed ==> signed[k] in out
        invariant forall j :: 0 <= j < i ==> Slot(locks[keys[j]]) in included
      {
        var k := keys[i];
        assert k in keys;
        if Slot(locks[k]) !in included {
          SnapshotAppend(out, included, locks[k]);
          LockAppended(out, signed, locks, k);
          out, included := out + [locks[k]], included + {Slot(locks[k])};
        }
        i := i + 1;
      }
      SnapshotComplete(out, signed, locks, keys, included);
    }

    /** Records certified changes. A conflict stops the import with the changes before it
        recorded; a failed write forgets the new ones. */
    method ImportCertifiedRoundChanges(proof: Proof, persisted: bool) returns (ok: bool)
      requires Keyed()
      modifies this
      ensures Keyed() && Import(changes, ok) == ImportPersisted(old(changes), proof.changes, persisted)
      ensures State() == old(State()).(changes := changes)
    {
      var cs := proof.changes;
      var before := changes;
      var inserted := [];
      var i := 0;
      while i < |cs|
        invariant 0 <= i <= |cs| && Keyed()
        invariant signed == old(signed) && locks == old(locks) && chain == old(chain) && disk == old(disk)
        invariant ImportChanges(before, cs) == ImportChanges(changes, cs[i..])
        invariant forall k :: k in changes <==> k in before || k in inserted
        invariant forall k :: k in inserted ==> k !in before
        invariant forall k :: k in before ==> changes[k] == before[k]
      {
        var k := ChangeKey(cs[i]);
        assert cs[i..][0] == cs[i] && cs[i..][1..] == cs[i + 1..];
        if k in changes {
          if !SameLock(changes[k], cs[i]) {
            return false;
          }
        } else {
          changes, inserted := changes[k := cs[i]], inserted + [k];
        }
        i := i + 1;
      }
      if inserted == [] {
        assert changes == before;
        return true;
      }
      assert inserted[0] in inserted;
      if !persisted {
        changes := map k | k in changes && k !in inserted :: changes[k];
        assert changes == before;
        return false;
      }
      return true;
    }

    /** A vote on a candidate. `file` is the vote file when one was written. */
    method MakeLocalFinalizationVote(
      cfg: Config, c: Candidate, proposal: Option<Vote>, net: set<Message>, roundsPersisted: bool, persisted: bool)
      returns (vote: Option<Vote>, file: Option<seq<SignedRecord>>)
      requires Keyed()
      modifies this
      ensures Keyed()
      ensures VoteStep(cfg, self, old(State()), c, proposal, net, roundsPersisted, file) == VoteOutcome(State(), vote)
      ensures file.Some? ==> SnapshotOf(file.value, signed, locks)
    {
      vote, file := None, None;
      var validators, s := Validators(), c.subject;
      if self !in validators || c.proof.votes != [] || !ValidCandidate(cfg, chain, s) {
        return;
      }
      var certified := VerifyRoundChangeCertificate(c.proof, s.prev, s.integer, validators, net);
      if certified.None? {
        return;
      }
      var round := certified.value;
      var imported := ImportCertifiedRoundChanges(c.proof, roundsPersisted);
      if !imported {
        return;
      }
      vote, file := VoteInRound(cfg, c, round, proposal, net, persisted);
    }

    /** The vote once the candidate's round changes are imported. */
    method VoteInRound(
      cfg: Config, c: Candidate, round: nat, proposal: Option<Vote>, net: set<Message>, persisted: bool)
      returns (vote: Option<Vote>, file: Option<seq<SignedRecord>>)
      requires Keyed() && round >= 1
      modifies this
      ensures Keyed()
      ensures DecideVote(cfg, self, old(State()), c, round, proposal, net, file) == VoteOutcome(State(), vote)
      ensures file.Some? ==> SnapshotOf(file.value, signed, locks)
    {
      vote, file := None, None;
      var validators, s := Validators(), c.subject;
      if |validators| == 0 || !LocksAllow(c.proof, Of(s)) {
        return;
      }
      var active := ActiveFinalizationRound(s.integer);
      if round != active {
        return;
      }
      var committee := FinalizationCommitteeOrdered(validators, cfg.selector(s.prev, s.integer), round);
      if self !in committee || !ProposerOk(cfg, self, validators, s, round, proposal, net) {
        return;
      }
      if !LockPermits(locks, s) {
        return;
      }
      var slot := (s.integer, round);
      if slot in signed {
        if signed[slot].vote.target == Of(s) {
          vote := Some(signed[slot].vote);
        }
        return;
      }
      vote, file := SignCandidate(c, round, persisted);
    }

    /** Signs, raises the lock and writes the file; undoes both when writing fails. */
    method SignCandidate(c: Candidate, round: nat, persisted: bool)
      returns (vote: Option<Vote>, file: Option<seq<SignedRecord>>)
      requires Keyed() && (c.subject.integer, round) !in signed
      modifies this
      ensures Keyed()
      ensures SignAndPersist(self, old(State()), c, round, file) == VoteOutcome(State(), vote)
      ensures file.Some? ==> SnapshotOf(file.value, signed, locks)
    {
      var s := c.subject;
      var newVote := Vote(self, Of(s), round);
      var record := SignedRecord(s.integer, Some(c), newVote);
      var slot, lockKey := (s.integer, round), (s.prev, s.integer);
      signed := signed[slot := record];
      var previous := if lockKey in locks then Some(locks[lockKey]) else None;
      if previous.None? || round > previous.value.vote.round {
        locks := locks[lockKey := record];
      }
      if persisted {
        disk := SignedCandidateSnapshot();
        return Some(newVote), Some(disk);
      }
      UndoInsert(old(signed), slot, record);
      UndoInsert(old(locks), lockKey, record);
      signed := signed - {slot};
      if previous.None? {
        locks := locks - {lockKey};
      } else {
        locks := locks[lockKey := previous.value];
      }
      return None, None;
    }

    /** Forgets the candidates and round changes of a finalized integer. */
    method ClearSignedCandidate(integer: nat, persisted: bool) returns (file: Option<seq<SignedRecord>>)
      requires Keyed()
      modifies this
      ensures Keyed() && (file.Some? ==> SnapshotOf(file.value, signed, locks))
      ensures var cleared := ClearSigned(old(State()), integer);
              State() == if file.Some? then cleared.(disk := file.value) else cleared
    {
      var keptSigned := map k | k in signed && k.0 != integer :: signed[k];
      var keptChanges := map k | k in changes && k.0 != integer :: changes[k];
      var changed := keptSigned != signed || keptChanges != changes;
      signed, changes := keptSigned, keptChanges;
      file := None;
      if changed && persisted {
        var snapshot := SignedCandidateSnapshot();
        disk, file := snapshot, Some(snapshot);
      }
    }

    /** Rebuilds votes and locks from the file. */
    method LoadFinalizationVotes(net: set<Message>) returns (ok: bool)
      modifies this
      ensures var r := LoadVotes(disk, self, Target(chain), net);
              ok == r.Loaded? && (ok ==> signed == r.signed && locks == r.locks)
      ensures !ok ==> exists i :: RefusedAt(disk, i, self, Target(chain), net, signed, locks)
      ensures chain == old(chain) && changes == old(changes) && disk == old(disk)
    {
      signed, locks := map[], map[];
      var target := Target(chain);
      var i := 0;
      while i < |disk|
        invariant 0 <= i <= |disk|
        invariant chain == old(chain) && changes == old(changes) && disk == old(disk)
        invariant LoadVotes(disk[..i], self, target, net) == Loaded(signed, locks)
      {
        var step := LoadStep(Loaded(signed, locks), disk[i], self, target, net);
        assert disk[..i + 1][..i] == disk[..i];
        if step.LoadError? {
          LoadErrorStays(disk, i + 1, self, target, net);
          locks := LocksTried(locks, disk[i], self, net);
          assert RefusedAt(disk, i, self, target, net, signed, locks);
          return false;
        }
        signed, locks, i := step.signed, step.locks, i + 1;
      }
      assert disk[..i] == disk;
      return true;
    }

    /** Records a round-change vote for the integer being decided. */
    method AcceptRoundChangeVote(c: RoundChange, net: set<Message>, persisted: bool) returns (ok: bool)
      requires Keyed()
      modifies this
      ensures Keyed() && State() == old(State()).(changes := changes)
      ensures Import(changes, ok) == AcceptChange(old(State()), c, net, persisted)
    {
      var active := ActiveFinalizationRound(Target(chain));
      if || c.integer != Target(chain) || c.prev != Tip(chain)
         || c.newRound < (if active > 2 then active else 2) || c.newRound > active + 1
         || c.validator !in Validators()
      {
        return false;
      }
      if c.lockedRound == 0 {
        if c.locked.Some? {
          return false;
        }
      } else if c.lockedRound >= c.newRound || c.locked.None? {
        return false;
      }
      if ChangeMsg(c) !in net {
        return false;
      }
      var key := ChangeKey(c);
      if key in changes {
        return SameLock(changes[key], c);
      }
      changes := changes[key := c];
      if !persisted {
        changes := changes - {key};
        assert changes == old(changes);
        return false;
      }
      return true;
    }
  }

  /** Removing an inserted key, or putting the overwritten value back, restores the map. */
  lemma UndoInsert<K, V>(m: map<K, V>, k: K, v: V)
    ensures k !in m ==> m[k := v] - {k} == m
    ensures k in m ==> m[k := v][k := m[k]] == m && m[k := m[k]] == m
  {
  }

  lemma LockAppended(out: seq<SignedRecord>, signed: SignedCandidates, locks: Locks, k: Position)
    requires AllFrom(out, signed, locks) && k in locks
    requires forall j :: j in signed ==> signed[j] in out
    ensures AllFrom(out + [locks[k]], signed, locks)
    ensures forall j :: j in signed ==> signed[j] in out + [locks[k]]
  {
    assert IsLock(locks[k], locks);
  }

  /** The load stopped at record i: the votes before it were taken, and so was its lock when
      only the vote was a duplicate. */
  ghost predicate RefusedAt(
    file: seq<SignedRecord>, i: int, self: Address, target: nat, net: set<Message>, signed: SignedCandidates, locks: Locks)
  {
    && 0 <= i < |file|
    && var before := LoadVotes(file[..i], self, target, net);
       && before.Loaded? && LoadVotes(file[..i + 1], self, target, net).LoadError?
       && signed == before.signed && locks == LocksTried(before.locks, file[i], self, net)
  }

  lemma {:induction false} LoadErrorStays(file: seq<SignedRecord>, i: nat, self: Address, target: nat, net: set<Message>)
    requires i <= |file| && LoadVotes(file[..i], self, target, net).LoadError?
    ensures LoadVotes(file, self, target, net).LoadError?
    decreases |file| - i
  {
    if i < |file| {
      assert file[..i + 1][..i] == file[..i];
      LoadErrorStays(file, i + 1, self, target, net);
    } else {
      assert file[..i] == file;
    }
  }

  ghost predicate OpenBelow(changes: Changes, integer: nat, k: (nat, nat, Address), quorum: nat, active: nat) {
    k.0 == integer && RoundCertified(changes, integer, k.1, quorum) ==> k.1 <= active
  }

  lemma HighestOpen(changes: Changes, keys: seq<(nat, nat, Address)>, integer: nat, quorum: nat, active: nat)
    requires active in OpenRounds(changes, integer, quorum) && active >= 1
    requires forall k :: k in changes ==> k in keys
    requires forall j :: 0 <= j < |keys| ==> OpenBelow(changes, integer, keys[j], quorum, active)
    ensures active == ActiveRound(changes, integer, quorum)
  {
    var r := ActiveRound(changes, integer, quorum);
    if r != 1 {
      var k :| k in changes && k.0 == integer && RoundCertified(changes, integer, k.1, quorum) && k.1 == r;
      assert k in keys;
    }
  }

  lemma SnapshotComplete(
    out: seq<SignedRecord>, signed: SignedCandidates, locks: Locks, keys: seq<Position>, included: set<(nat, nat)>)
    requires SnapshotSoFar(out, included) && AllFrom(out, signed, locks)
    requires forall k :: k in signed ==> signed[k] in out
    requires forall k :: k in locks <==> k in keys
    requires forall j :: 0 <= j < |keys| ==> Slot(locks[keys[j]]) in included
    ensures SnapshotOf(out, signed, locks)
  {
    forall k | k in locks
      ensures exists i :: 0 <= i < |out| && SameSlot(out[i], locks[k])
    {
      var j :| 0 <= j < |keys| && keys[j] == k;
      var i :| 0 <= i < |out| && Slot(out[i]) == Slot(locks[k]);
      assert SameSlot(out[i], locks[k]);
    }
  }

  function Slot(r: SignedRecord): (nat, nat) {
    (r.integer, r.vote.round)
  }

  /** The integers and rounds of the records written so far, each written once. */
  ghost predicate SnapshotSoFar(out: seq<SignedRecord>, included: set<(nat, nat)>) {
    && SlotsDistinct(out)
    && (forall i :: 0 <= i < |out| ==> Slot(out[i]) in included)
    && (forall slot :: slot in included ==> exists i :: 0 <= i < |out| && Slot(out[i]) == slot)
  }

  ghost predicate AllFrom(out: seq<SignedRecord>, signed: SignedCandidates, locks: Locks) {
    forall r :: r in out ==> IsSigned(r, signed) || IsLock(r, locks)
  }

  lemma SnapshotAppend(out: seq<SignedRecord>, included: set<(nat, nat)>, r: SignedRecord)
    requires SnapshotSoFar(out, included) && Slot(r) !in included
    ensures SnapshotSoFar(out + [r], included + {Slot(r)})
  {
    var next := out + [r];
    assert next[|out|] == r;
    forall slot | slot in included
      ensures exists i :: 0 <= i < |next| && Slot(next[i]) == slot
    {
      var i :| 0 <= i < |out| && Slot(out[i]) == slot;
      assert next[i] == out[i];
    }
  }

  ghost predicate IsChange(c: RoundChange, changes: Changes, integer: nat, round: nat) {
    ChangeKey(c) in changes && changes[ChangeKey(c)] == c && c.integer == integer && c.newRound == round
  }

  /** The changes recorded for one round. */
  ghost predicate Collected(out: seq<RoundChange>, changes: Changes, integer: nat, round: nat) {
    && (forall c :: c in out ==> IsChange(c, changes, integer, round))
    && (forall k :: k in changes && k.0 == integer && k.1 == round ==> changes[k] in out)
  }

  lemma NotCollectedYet(
    out: seq<RoundChange>, changes: Changes, keys: seq<(nat, nat, Address)>, integer: nat, round: nat, k: (nat, nat, Address))
    requires forall c :: c in out ==> IsChange(c, changes, integer, round) && ChangeKey(c) in keys
    requires k in changes && k == ChangeKey(changes[k]) && k !in keys && k.0 == integer && k.1 == round
    ensures changes[k].validator !in Names(out)
  {
    forall i | 0 <= i < |out|
      ensures Names(out)[i] != changes[k].validator
    {
      assert out[i] in out;
    }
  }

  lemma NamesAreChangers(out: seq<RoundChange>, changes: Changes, integer: nat, round: nat)
    requires forall k :: k in changes ==> k == ChangeKey(changes[k])
    requires Collected(out, changes, integer, round)
    ensures Elements(Names(out)) == Changers(changes, integer, round)
  {
    forall a | a in Names(out)
      ensures a in Changers(changes, integer, round)
    {
      var i :| 0 <= i < |out| && Names(out)[i] == a;
      assert out[i] in out;
      assert ChangeKey(out[i]) in changes;
    }
    forall a | a in Changers(changes, integer, round)
      ensures a in Names(out)
    {
      var k :| k in changes && k.0 == integer && k.1 == round && k.2 == a;
      var i :| 0 <= i < |out| && out[i] == changes[k];
      assert Names(out)[i] == a;
    }
  }
}
