/**
 The lists a chain determines: the events of the validator registry
 (src/node/validator_registry.cpp) and the participants of fees and rewards
 (src/node/sequential_node.cpp).
 */
module ChainLists {
  import opened Machine
  import opened Addresses
  import opened Records
  import opened ProtocolAddresses
  import opened Ledger
  import opened LedgerInvariant
  import opened LedgerReplay
  import opened LedgerHistory
  import opened ChainLaws

  // ---------------------------------------------------------------- the validator registry

  /** The event of epoch e, after that of the genesis set if there is one. */
  ghost predicate EventOk(records: seq<Record>, epochs: map<nat, seq<Address>>, g: Registry, e: nat) {
    var k := e - if g.started then 0 else 1;
    && e in epochs && 0 <= k < |g.events| && g.events[k].EpochEvent?
    && var h := g.events[k].height;
       && h < |records| && records[h].metadata.epoch.epoch == e && records[h].metadata.epoch.next == epochs[e]
       && g.events[k] == EpochEvent(h, e, h + 3, epochs[e])
  }

  ghost predicate EventsOk(records: seq<Record>, s: State, g: Registry) {
    && g.epoch == s.epoch && g.active == s.validators && |g.events| == s.epoch + (if g.started then 1 else 0)
    && g.activation == (if g.events == [] then 0 else g.events[|g.events| - 1].activation)
    && (g.started ==> 0 in s.epochs && g.events[0] == GenesisEvent(0, 2, s.epochs[0]))
    && (forall e :: 1 <= e <= s.epoch ==> EventOk(records, s.epochs, g, e))
  }

  lemma GenesisEventOk(v: Verifier, init: seq<Record>, last: Record)
    requires Replay(v, init).Some? && Replay1(v, Replay(v, init).value, last).Some?
    requires EventsOk(init, Replay(v, init).value, RegistryOf(init))
    ensures EventsOk(init, Install(Replay(v, init).value, last), ApplyGenesis(RegistryOf(init), last))
  {
    hide Replay1, EventOk;
    ReplayOk(v, init);
    HeightOf(v, init);
    StepIsLinked(v, Replay(v, init).value, last);
    if init != [] {
      InstallOnlyOnce(v, init, last);
    }
  }

  lemma TransitionEventOk(records: seq<Record>, s: State, g: Registry, r: Record, n: State)
    requires EventsOk(records, s, g) && r.metadata.epoch != NO_TRANSITION && HasTransition(r.metadata.epoch)
    requires (forall e: nat :: e in s.epochs <==> e <= s.epoch) && r.header.height == |records|
    requires var t := r.metadata.epoch;
             && t.epoch == s.epoch + 1 == n.epoch && n.validators == t.next && n.epochs == s.epochs[t.epoch := t.next]
             && t.activation == r.header.height + 3
    ensures EventsOk(records + [r], n, ApplyTransition(g, r))
  {
    var more, next := records + [r], ApplyTransition(g, r);
    assert more[|records|] == r;
    forall e | 1 <= e <= n.epoch
      ensures EventOk(more, n.epochs, next, e)
    {
      if e <= s.epoch {
        assert EventOk(records, s.epochs, g, e);
        var k := e - if g.started then 0 else 1;
        assert next.events[k] == g.events[k] && more[g.events[k].height] == records[g.events[k].height];
      }
    }
  }

  lemma QuietEventsOk(records: seq<Record>, s: State, g: Registry, r: Record, n: State)
    requires EventsOk(records, s, g) && n.epoch == s.epoch && n.validators == s.validators && n.epochs == s.epochs
    ensures EventsOk(records + [r], n, g)
  {
    forall e | 1 <= e <= n.epoch
      ensures EventOk(records + [r], n.epochs, g, e)
    {
      assert EventOk(records, s.epochs, g, e);
      var k := e - if g.started then 0 else 1;
      assert (records + [r])[g.events[k].height] == records[g.events[k].height];
    }
  }

  /** The events of the registry are the genesis set and then, in order, every epoch with the
      record that brought it, its set and the integer it starts with. */
  lemma {:induction false} RegistryEvents(v: Verifier, records: seq<Record>)
    requires Replay(v, records).Some?
    ensures EventsOk(records, Replay(v, records).value, RegistryOf(records))
  {
    hide Replay1, EventsOk, ApplyGenesis, ApplyTransition, CanonicalSet, QuorumOf, BallotsSigned, EpochsOk;
    if records == [] {
      NoEvents(v);
    } else {
      var n := |records| - 1;
      var init, last := records[..n], records[n];
      RegistryEvents(v, init);
      GenesisEventOk(v, init, last);
      RegistryStepOk(v, init, last);
      assert init + [last] == records;
    }
  }

  lemma NoEvents(v: Verifier)
    ensures EventsOk([], Replay(v, []).value, RegistryOf([]))
  {
    hide Replay1;
  }

  lemma RegistryStepOk(v: Verifier, init: seq<Record>, last: Record)
    requires Replay(v, init).Some? && Replay1(v, Replay(v, init).value, last).Some?
    requires EventsOk(init, Install(Replay(v, init).value, last), ApplyGenesis(RegistryOf(init), last))
    ensures EventsOk(init + [last], Replay1(v, Replay(v, init).value, last).value,
                     ApplyTransition(ApplyGenesis(RegistryOf(init), last), last))
  {
    hide Replay1, EventsOk, ApplyGenesis, CanonicalSet, QuorumOf, BallotsSigned, Install;
    var s, g := Replay(v, init).value, ApplyGenesis(RegistryOf(init), last);
    var i, n := Install(s, last), Replay1(v, s, last).value;
    ReplayOk(v, init);
    HeightOf(v, init);
    StepIsLinked(v, s, last);
    EpochStep(v, s, last);
    GenesisEpochs(v, s, last);
    if last.metadata.epoch != NO_TRANSITION {
      StepEpochVoted(v, s, last);
      TransitionEventOk(init, i, g, last, n);
    } else {
      QuietEventsOk(init, i, g, last, n);
    }
  }

  // ---------------------------------------------------------------- participants

  /** The record shows the address at work: it signed the commit phase, the finalization or a
      round change. */
  ghost predicate AtWork(r: Record, a: Address) {
    || (r.Composite? && exists i :: 0 <= i < |r.commitPhase.votes| && r.commitPhase.votes[i].validator == a)
    || (exists i :: 0 <= i < |r.finalization.votes| && r.finalization.votes[i].validator == a)
    || (exists i :: 0 <= i < |r.finalization.roundChanges| && r.finalization.roundChanges[i].validator == a)
  }

  lemma SignersAtWork(r: Record, a: Address)
    ensures a in Signers(r) <==> AtWork(r, a)
  {
    var f := r.finalization;
    if r.Composite? {
      assert a in BallotNames(r.commitPhase.votes)
        <==> exists i :: 0 <= i < |r.commitPhase.votes| && r.commitPhase.votes[i].validator == a by {
        if i :| 0 <= i < |r.commitPhase.votes| && r.commitPhase.votes[i].validator == a {
          assert BallotNames(r.commitPhase.votes)[i] == a;
        }
      }
    }
    assert a in VoteNames(f.votes) <==> exists i :: 0 <= i < |f.votes| && f.votes[i].validator == a by {
      if i :| 0 <= i < |f.votes| && f.votes[i].validator == a {
        assert VoteNames(f.votes)[i] == a;
      }
    }
    assert a in ChangeNames(f.roundChanges) <==> exists i :: 0 <= i < |f.roundChanges| && f.roundChanges[i].validator == a by {
      if i :| 0 <= i < |f.roundChanges| && f.roundChanges[i].validator == a {
        assert ChangeNames(f.roundChanges)[i] == a;
      }
    }
  }

  predicate PaysFromPool(tx: Transaction, epoch: nat) {
    tx.version == 3 && tx.sender == FeePoolAddress(epoch)
  }

  /** The record pays out the fees of the epoch in force, or ends the epoch. */
  ghost predicate PaysFees(v: Verifier, before: seq<Record>, r: Record) {
    || r.metadata.epoch != NO_TRANSITION
    || (&& Replay(v, before).Some?
        && exists i :: 0 <= i < |r.body.transactions| && PaysFromPool(r.body.transactions[i], Replay(v, before).value.epoch))
  }

  /** The record pays out the rewards of some epoch, or ends the epoch. */
  ghost predicate PaysRewards(r: Record) {
    || r.metadata.epoch != NO_TRANSITION
    || exists i :: 0 <= i < |r.body.transactions| && r.body.transactions[i].version == 5 && IsRewardPool(r.body.transactions[i].sender)
  }

  lemma StepParticipants(v: Verifier, before: seq<Record>, r: Record)
    requires Replay(v, before).Some? && Replay1(v, Replay(v, before).value, r).Some?
    ensures var s, n := Replay(v, before).value, Replay1(v, Replay(v, before).value, r).value;
            && n.feeParticipants == Noted(s.feeParticipants, PaysFees(v, before, r), r)
            && n.rewardParticipants == Noted(s.rewardParticipants, PaysRewards(r), r)
  {
    hide PayloadOk, MetadataOk, Execute, Advance, Noted, IsRewardPool, RecordHash;
    var s := Replay(v, before).value;
    ExecuteFields(v, Install(s, r), r);
    AdvanceFields(v, Install(s, r), Execute(v, Install(s, r), r).value, r);
    TransitionOrNone(v, s, r);
  }

  lemma TransitionOrNone(v: Verifier, s: State, r: Record)
    requires Replay1(v, s, r).Some?
    ensures HasTransition(r.metadata.epoch) <==> r.metadata.epoch != NO_TRANSITION
  {
    hide PayloadOk, Execute, Advance, VersionOk, PolicyOk, QuorumOf, CanonicalSet, BallotsSigned;
  }

  /** From record i on nothing was paid out of the fees. */
  ghost predicate FeesKept(v: Verifier, records: seq<Record>, i: int) {
    forall k :: 0 <= i <= k < |records| ==> !PaysFees(v, records[..k], records[k])
  }

  ghost predicate RewardsKept(records: seq<Record>, i: int) {
    forall k :: 0 <= i <= k < |records| ==> !PaysRewards(records[k])
  }

  ghost predicate EarnedFees(v: Verifier, records: seq<Record>, a: Address) {
    IsSignatureAddress(a) && exists i :: 0 <= i < |records| && AtWork(records[i], a) && FeesKept(v, records, i)
  }

  ghost predicate EarnedRewards(records: seq<Record>, a: Address) {
    IsSignatureAddress(a) && exists i :: 0 <= i < |records| && AtWork(records[i], a) && RewardsKept(records, i)
  }

  lemma FeesKeptLonger(v: Verifier, init: seq<Record>, r: Record)
    ensures forall i :: 0 <= i <= |init| ==> (FeesKept(v, init + [r], i) <==> !PaysFees(v, init, r) && FeesKept(v, init, i))
  {
    hide PaysFees;
    var n, records := |init|, init + [r];
    assert records[n] == r && records[..n] == init;
    assert forall k :: 0 <= k < n ==> records[k] == init[k] && records[..k] == init[..k];
    forall i | 0 <= i <= n
      ensures FeesKept(v, records, i) <==> !PaysFees(v, init, r) && FeesKept(v, init, i)
    {
      if FeesKept(v, records, i) {
        assert !PaysFees(v, records[..n], records[n]);
        forall k | i <= k < n
          ensures !PaysFees(v, init[..k], init[k])
        {
          assert !PaysFees(v, records[..k], records[k]);
        }
      }
    }
  }

  lemma NothingAfter(v: Verifier, records: seq<Record>)
    ensures FeesKept(v, records, |records|)
  {
  }

  lemma EarnedFeesStep(v: Verifier, init: seq<Record>, r: Record, a: Address)
    ensures EarnedFees(v, init + [r], a)
       <==> !PaysFees(v, init, r) && (EarnedFees(v, init, a) || (IsSignatureAddress(a) && AtWork(r, a)))
  {
    hide PaysFees, AtWork, IsSignatureAddress, FeesKept;
    var n, records := |init|, init + [r];
    assert records[n] == r && records[..n] == init;
    FeesKeptLonger(v, init, r);
    if EarnedFees(v, init, a) && !PaysFees(v, init, r) {
      var i :| 0 <= i < n && AtWork(init[i], a) && FeesKept(v, init, i);
      assert records[i] == init[i] && FeesKept(v, records, i);
    }
    if IsSignatureAddress(a) && AtWork(r, a) && !PaysFees(v, init, r) {
      NothingAfter(v, init);
      assert FeesKept(v, records, n);
    }
    if EarnedFees(v, records, a) {
      var i :| 0 <= i < |records| && AtWork(records[i], a) && FeesKept(v, records, i);
      assert i < n ==> init[i] == records[i] && FeesKept(v, init, i);
    }
  }

  lemma EarnedRewardsStep(init: seq<Record>, r: Record, a: Address)
    ensures EarnedRewards(init + [r], a)
       <==> !PaysRewards(r) && (EarnedRewards(init, a) || (IsSignatureAddress(a) && AtWork(r, a)))
  {
    hide PaysRewards, AtWork, IsSignatureAddress;
    var n, records := |init|, init + [r];
    assert records[n] == r;
    forall i | 0 <= i <= n
      ensures RewardsKept(records, i) <==> !PaysRewards(r) && RewardsKept(init, i)
    {
      assert forall k :: 0 <= k < n ==> records[k] == init[k];
    }
    if EarnedRewards(init, a) && !PaysRewards(r) {
      var i :| 0 <= i < n && AtWork(init[i], a) && RewardsKept(init, i);
      assert records[i] == init[i] && RewardsKept(records, i);
    }
    if IsSignatureAddress(a) && AtWork(r, a) && !PaysRewards(r) {
      assert RewardsKept(init, n) && RewardsKept(records, n);
    }
    if EarnedRewards(records, a) {
      var i :| 0 <= i < |records| && AtWork(records[i], a) && RewardsKept(records, i);
      assert i < n ==> init[i] == records[i] && RewardsKept(init, i);
    }
  }

  /** Participants of the fees and of the rewards are exactly the signing addresses seen at work
      since the pool was last paid out or the epoch began. */
  lemma {:induction false} ParticipantsAre(v: Verifier, records: seq<Record>, a: Address)
    requires Replay(v, records).Some?
    ensures a in Replay(v, records).value.feeParticipants <==> EarnedFees(v, records, a)
    ensures a in Replay(v, records).value.rewardParticipants <==> EarnedRewards(records, a)
  {
    hide Replay1, EarnedFees, EarnedRewards, PaysFees, PaysRewards, AtWork, Signers, IsSignatureAddress, AddSigners;
    if records == [] {
      NothingEarned(v, a);
    } else {
      var n := |records| - 1;
      var init, last := records[..n], records[n];
      assert init + [last] == records;
      ParticipantsAre(v, init, a);
      StepParticipants(v, init, last);
      EarnedFeesStep(v, init, last, a);
      EarnedRewardsStep(init, last, a);
      SignersAtWork(last, a);
      ParticipantsSorted(v, init);
      var s := Replay(v, init).value;
      AddSignersOk(s.feeParticipants, Signers(last));
      AddSignersOk(s.rewardParticipants, Signers(last));
    }
  }

  lemma NothingEarned(v: Verifier, a: Address)
    ensures Replay(v, []) == Some(EMPTY) && !EarnedFees(v, [], a) && !EarnedRewards([], a)
  {
    hide Replay1;
  }

  lemma ParticipantsSorted(v: Verifier, records: seq<Record>)
    requires Replay(v, records).Some?
    ensures Ascending(Replay(v, records).value.feeParticipants) && Ascending(Replay(v, records).value.rewardParticipants)
  {
    hide Replay, AssetsOk, HoldersOk, EpochsOk;
    ReplayOk(v, records);
  }
}
