/**
 The invariant of the ledger over whole replays, exact minting, and append as replay.
 */
module LedgerReplay {
  import opened Machine
  import opened Addresses
  import opened ProtocolAddresses
  import opened Divisibility
  import opened Records
  import opened Money
  import opened Transactions
  import opened Ledger
  import opened LedgerInvariant

  // ---------------------------------------------------------------- the invariant

  /** Epochs are numbered without gaps, the last is in force, and every set is canonical; only
      a chain without validators has an empty one. */
  ghost predicate EpochsOk(s: State) {
    && (forall k: nat :: k in s.epochs <==> k <= s.epoch)
    && s.epochs[s.epoch] == s.validators
    && (forall k :: k in s.epochs ==> if s.epochs[k] == [] then s.epoch == 0 else CanonicalSet(s.epochs[k]))
  }

  ghost predicate StartedOk(s: State) {
    && s.started && s.frontier == s.height + 2
    && AssetsOk(s.accounts.money, s.frontier) && HoldersOk(s) && EpochsOk(s)
    && NamesOk(s.feeParticipants) && NamesOk(s.rewardParticipants)
    && s.fee >= 1 && s.reserve >= 1
  }

  ghost predicate LedgerOk(s: State) {
    s == EMPTY || StartedOk(s)
  }

  lemma EpochsStep(v: Verifier, before: State, s: State, r: Record)
    requires EpochsOk(s) && s.validators == before.validators && s.epoch == before.epoch
    requires TransitionOk(v, r.metadata.epoch, before.validators, before.epoch, r.header.previous, r.header.integer)
    ensures EpochsOk(Advance(v, before, s, r))
  {
    hide Noted, RecordHash, QuorumOf, CanonicalSet, DistributesFees, DistributesRewards;
    var t := r.metadata.epoch;
    if HasTransition(t) {
      assert t.epoch == s.epoch + 1 && CanonicalSet(t.next) && CanonicalSet(s.validators);
      CanonicalIsNonEmpty(t.next);
      CanonicalIsNonEmpty(s.validators);
    }
  }

  lemma CanonicalIsNonEmpty(vs: seq<Address>)
    requires CanonicalSet(vs)
    ensures vs != []
  {
  }

  lemma NothingMinted(m: Money)
    requires m == Money(map[], map[])
    ensures AssetsOk(m, 1)
  {
    assert SameAssets(m);
    assert forall p: nat :: Prime(p) ==> p >= 2;
  }

  lemma InstalledOk(v: Verifier, s: State, r: Record)
    requires LedgerOk(s) && Expected(s, r) && PayloadOk(v, s, r)
    ensures var i := Install(s, r);
            && AssetsOk(i.accounts.money, r.header.integer - 1) && HoldersOk(i) && EpochsOk(i) && r.header.integer == r.header.height + 2
            && NamesOk(i.feeParticipants) && NamesOk(i.rewardParticipants) && i.fee >= 1 && i.reserve >= 1
  {
    hide PrattOk, DivisionOk, BatchOk, CommitPhaseOk, PrattSignatureOk, CanonicalSet, IsProtocolAddress, IsSignatureAddress;
    if s == EMPTY {
      NothingMinted(s.accounts.money);
      assert GenesisOk(r);
      var i := Install(s, r);
      assert i.epochs == map[0 := i.validators];
      assert EpochsOk(i);
    } else {
      assert r.header.height == s.height + 1;
      assert Install(s, r) == s;
    }
  }

  lemma AdvanceFields(v: Verifier, before: State, s: State, r: Record)
    ensures var n := Advance(v, before, s, r);
            && n.started && n.height == r.header.height && n.frontier == r.header.integer && n.tip == RecordHash(v, r)
            && n.accounts == s.accounts && n.pending == s.pending
            && n.feeParticipants == Noted(s.feeParticipants, DistributesFees(before, r) || HasTransition(r.metadata.epoch), r)
            && n.rewardParticipants == Noted(s.rewardParticipants, DistributesRewards(r) || HasTransition(r.metadata.epoch), r)
            && n.fee == (if HasPolicy(r.metadata.policy) then r.metadata.policy.fee else s.fee)
            && n.reserve == (if HasPolicy(r.metadata.policy) then r.metadata.policy.reserve else s.reserve)
  {
    hide Noted, RecordHash, DistributesFees, DistributesRewards;
  }

  lemma ExecuteFields(v: Verifier, s: State, r: Record)
    requires Execute(v, s, r).Some?
    ensures var x := Execute(v, s, r).value; x == s.(accounts := x.accounts, pending := x.pending)
  {
    hide ApplyTransactions, Mint;
  }

  lemma ReplayStepOk(v: Verifier, s: State, r: Record)
    requires LedgerOk(s) && Replay1(v, s, r).Some?
    ensures StartedOk(Replay1(v, s, r).value)
  {
    hide PayloadOk, Execute, Advance, AssetsOk, HoldersOk, EpochsOk, NamesOk, Noted, DistributesFees, DistributesRewards,
         VersionOk, QuorumOf, CanonicalSet;
    var i := Install(s, r);
    InstalledOk(v, s, r);
    ExecuteFields(v, i, r);
    var x := Execute(v, i, r).value;
    var n := Advance(v, i, x, r);
    AdvanceFields(v, i, x, r);
    RecordTruthful(v, s, r);
    AssetsStep(v, i, r, r.header.integer - 1);
    ProviderIsProtocol(v, s, r);
    HoldersStep(v, i, r);
    HoldersCarry(x, n);
    EpochsCarry(i, x);
    EpochsStep(v, i, x, r);
    NotedOk(x.feeParticipants, DistributesFees(i, r) || HasTransition(r.metadata.epoch), r);
    NotedOk(x.rewardParticipants, DistributesRewards(r) || HasTransition(r.metadata.epoch), r);
  }

  lemma HoldersCarry(x: State, n: State)
    requires HoldersOk(x) && n.accounts == x.accounts && n.pending == x.pending
    ensures HoldersOk(n)
  {
  }

  lemma EpochsCarry(i: State, x: State)
    requires EpochsOk(i) && x.epochs == i.epochs && x.epoch == i.epoch && x.validators == i.validators
    ensures EpochsOk(x)
  {
  }

  /** Every state a node replays to is in order, at the integer its last record decides. */
  lemma {:induction false} ReplayOk(v: Verifier, records: seq<Record>)
    requires Replay(v, records).Some?
    ensures LedgerOk(Replay(v, records).value)
    ensures records != [] ==> StartedOk(Replay(v, records).value)
    ensures records != [] ==> Replay(v, records).value.started && Replay(v, records).value.frontier == |records| + 1
  {
    hide Replay1, StartedOk;
    if records != [] {
      var init, last := records[..|records| - 1], records[|records| - 1];
      ReplayOk(v, init);
      ReplayStepOk(v, Replay(v, init).value, last);
      FrontierMoves(v, Replay(v, init).value, last);
    }
  }

  lemma FrontierMoves(v: Verifier, s: State, r: Record)
    requires Replay1(v, s, r).Some? && LedgerOk(s)
    ensures Replay1(v, s, r).value.started && Replay1(v, s, r).value.frontier == if s.started then s.frontier + 1 else 2
    ensures Replay1(v, s, r).value.tip == RecordHash(v, r)
  {
    hide PayloadOk, Execute, MetadataOk, Advance, RecordHash, AssetsOk, HoldersOk, EpochsOk, NamesOk;
    AdvanceFields(v, Install(s, r), Execute(v, Install(s, r), r).value, r);
  }

  /** Exact minting: up to 2^63 an asset exists, with exactly 1,000,000 units, if and only if
      it is a prime not beyond the frontier; and the units are the sum of the balances. */
  lemma ExactMinting(v: Verifier, records: seq<Record>, p: nat)
    requires Replay(v, records).Some? && |records| + 1 <= TWO_63
    ensures var m := Replay(v, records).value.accounts.money;
            && SupplyOf(m.supply, p) == (if Prime(p) && p <= |records| + 1 && records != [] then ASSET else 0)
            && SupplyOf(m.supply, p) == Held(m.balances, p)
  {
    hide Replay, HoldersOk, EpochsOk, NamesOk, Consistent, Held;
    ReplayOk(v, records);
    var m := Replay(v, records).value.accounts.money;
    assert Consistent(m) by {
      if records == [] {
        EmptyBooks(v);
      }
    }
    ConsistentSupply(m, p);
    if records == [] {
      EmptyBooks(v);
    }
  }

  lemma EmptyBooks(v: Verifier)
    ensures Replay(v, []) == Some(EMPTY) && EMPTY.accounts.money == Money(map[], map[]) && Consistent(EMPTY.accounts.money)
  {
    assert SameAssets(EMPTY.accounts.money);
  }

  // ---------------------------------------------------------------- append and replay

  /** A candidate that passes its checks passes the policy check made after the store write:
      that late failure cannot happen. */
  lemma PolicyNeverLate(v: Verifier, s: State, r: Record)
    requires CandidateOk(v, s, r)
    ensures PolicyApplies(r.metadata.policy, r.header.integer)
  {
    hide PrattOk, DivisionOk, BatchOk, CommitPhaseOk, PrattSignatureOk, GenesisOk, CertificateSetOk, TransitionOk, VersionOk;
  }

  /** Append accepts exactly the records replay accepts on a certificate of the current
      rules, and with the same result. */
  lemma AppendIsReplay(v: Verifier, s: State, r: Record)
    requires StartedOk(s)
    ensures Append(v, s, r) == if FinalizationOk(v, r, s.validators) then Replay1(v, s, r) else None
  {
    hide PrattOk, DivisionOk, BatchOk, PrattSignatureOk, GenesisOk, MetadataOk, Execute, Advance, PolicyApplies,
         HoldersOk, EpochsOk, NamesOk, CanonicalSet, Consistent, AssetsArePrimes;
    if Follows(s, r) {
      assert r.header.height >= 1 && Install(s, r) == s;
      assert r.header.integer !in s.accounts.money.supply;
      if r.Composite? && CommitPhaseOk(v, r) && r.header.version == 1 {
        CanonicalIsNonEmpty(r.commitPhase.validators);
      }
    }
  }

  /** Load takes a record if and only if it is a valid candidate with a certificate of the
      current rules or of those kept for old records. */
  lemma ReplayTakesIff(v: Verifier, s: State, r: Record)
    requires StartedOk(s)
    ensures Replay1(v, s, r).Some?
       <==> ValidCandidate(v, s, r) && (FinalizationOk(v, r, s.validators) || v.legacyFinalization(r, s.validators))
  {
    hide PrattOk, DivisionOk, BatchOk, PrattSignatureOk, GenesisOk, MetadataOk, Execute, Advance, PolicyApplies,
         HoldersOk, EpochsOk, NamesOk, CanonicalSet, Consistent, AssetsArePrimes, FinalizationOk;
    if Follows(s, r) {
      assert r.header.height >= 1 && Install(s, r) == s;
      assert r.header.integer !in s.accounts.money.supply;
      if r.Composite? && CommitPhaseOk(v, r) && r.header.version == 1 {
        CanonicalIsNonEmpty(r.commitPhase.validators);
      }
      if CandidateOk(v, s, r) {
        PolicyNeverLate(v, s, r);
      }
    }
  }

  /** Append after replay is replay of the longer chain. */
  lemma AppendExtendsReplay(v: Verifier, records: seq<Record>, r: Record)
    requires records != [] && Replay(v, records).Some? && Append(v, Replay(v, records).value, r).Some?
    ensures Replay(v, records + [r]) == Append(v, Replay(v, records).value, r)
  {
    hide Append, Replay1, StartedOk, LedgerOk;
    ReplayOk(v, records);
    AppendIsReplay(v, Replay(v, records).value, r);
    assert (records + [r])[..|records|] == records;
  }

  ghost function AppendAll(v: Verifier, s: State, rs: seq<Record>): Option<State> {
    if rs == [] then Some(s)
    else
      var before := AppendAll(v, s, rs[..|rs| - 1]);
      if before.None? then None else Append(v, before.value, rs[|rs| - 1])
  }

  /** Whole runs: the state a node reaches by appending is the state it loads. */
  lemma {:induction false} RunOfAppends(v: Verifier, records: seq<Record>, rs: seq<Record>)
    requires records != [] && Replay(v, records).Some? && AppendAll(v, Replay(v, records).value, rs).Some?
    ensures Replay(v, records + rs) == AppendAll(v, Replay(v, records).value, rs)
  {
    hide Append, Replay;
    if rs == [] {
      assert records + rs == records;
    } else {
      var init, last := rs[..|rs| - 1], rs[|rs| - 1];
      RunOfAppends(v, records, init);
      AppendExtendsReplay(v, records + init, last);
      assert records + init + [last] == records + rs;
    }
  }
}
