/**
 Restarts after whole runs of appends: from the records, or from a snapshot saved at any point
 of the run (src/node/sequential_node.cpp, load). When they succeed, and when they find
 exactly the state the node had in memory.
 */
module Restarts {
  import opened Machine
  import opened Addresses
  import opened Records
  import opened FieldFormats
  import opened RecordForm
  import opened WrittenForm
  import opened StoreFile
  import opened StoreRecovery
  import opened Ledger
  import opened LedgerInvariant
  import opened LedgerReplay
  import opened CertificateIndependence
  import opened StoredLedger
  import opened Participants
  import opened LedgerStore
  import opened Snapshots

  // ---------------------------------------------------------------- the lists over a run

  /** Which records of a run empty the list for fees. */
  ghost function FeeResets(v: Verifier, s: State, rs: seq<Record>): (resets: seq<bool>)
    requires AppendAll(v, s, rs).Some?
    ensures |resets| == |rs|
  {
    if rs == [] then []
    else
      var n := |rs| - 1;
      FeeResets(v, s, rs[..n])
      + [DistributesFees(AppendAll(v, s, rs[..n]).value, rs[n]) || HasTransition(rs[n].metadata.epoch)]
  }

  /** Which records of a run empty the list for rewards. */
  function RewardResets(rs: seq<Record>): (resets: seq<bool>)
    ensures |resets| == |rs|
  {
    seq(|rs|, i requires 0 <= i < |rs| => DistributesRewards(rs[i]) || HasTransition(rs[i].metadata.epoch))
  }

  lemma NotedOneMore(names: seq<Address>, resets: seq<bool>, rs: seq<Record>, reset: bool, r: Record)
    requires |resets| == |rs|
    ensures NotedAll(names, resets + [reset], rs + [r]) == Noted(NotedAll(names, resets, rs), reset, r)
  {
    hide Noted;
    assert (resets + [reset])[..|rs|] == resets && (rs + [r])[..|rs|] == rs;
  }

  lemma WrittenOneMore(rs: seq<Record>, n: nat)
    requires n + 1 == |rs|
    ensures WrittenAll(rs) == WrittenAll(rs[..n]) + [Written(rs[n])]
    ensures RewardResets(rs) == RewardResets(rs[..n]) + [DistributesRewards(rs[n]) || HasTransition(rs[n].metadata.epoch)]
  {
    hide Written, DistributesRewards, HasTransition;
  }

  /** The lists in memory after a run. */
  lemma {:induction false} RunNames(v: Verifier, s: State, rs: seq<Record>)
    requires AppendAll(v, s, rs).Some?
    ensures var n := AppendAll(v, s, rs).value;
            && n.feeParticipants == NotedAll(s.feeParticipants, FeeResets(v, s, rs), rs)
            && n.rewardParticipants == NotedAll(s.rewardParticipants, RewardResets(rs), rs)
  {
    hide Append, DistributesFees, DistributesRewards, HasTransition, Noted, NotedAll, RewardResets;
    if rs == [] {
      NoRecords(s.feeParticipants, FeeResets(v, s, rs), rs);
      NoRecords(s.rewardParticipants, RewardResets(rs), rs);
    } else {
      var n := |rs| - 1;
      var before := AppendAll(v, s, rs[..n]).value;
      var renewed := HasTransition(rs[n].metadata.epoch);
      RunNames(v, s, rs[..n]);
      AppendedNames(v, before, rs[n]);
      WrittenOneMore(rs, n);
      assert rs == rs[..n] + [rs[n]];
      NotedOneMore(s.feeParticipants, FeeResets(v, s, rs[..n]), rs[..n], DistributesFees(before, rs[n]) || renewed, rs[n]);
      NotedOneMore(s.rewardParticipants, RewardResets(rs[..n]), rs[..n], DistributesRewards(rs[n]) || renewed, rs[n]);
    }
  }

  lemma NoRecords(names: seq<Address>, resets: seq<bool>, rs: seq<Record>)
    requires |resets| == |rs| == 0
    ensures NotedAll(names, resets, rs) == names
  {
  }

  // ---------------------------------------------------------------- loading a run

  /** What loading the records of a run gives: the ledger in memory, and the names the records
      write. */
  ghost predicate LoadedRun(v: Verifier, s: State, t: State, rs: seq<Record>, x: State)
    requires AppendAll(v, s, rs).Some?
  {
    && SameLedger(AppendAll(v, s, rs).value, x)
    && x.feeParticipants == NotedAll(t.feeParticipants, FeeResets(v, s, rs), WrittenAll(rs))
    && x.rewardParticipants == NotedAll(t.rewardParticipants, RewardResets(rs), WrittenAll(rs))
  }

  lemma LoadFromOneMore(v: Verifier, t: State, es: seq<Entry>, e: Entry)
    requires LawfulSchema(v.schema)
    ensures LoadFrom(v, t, es + [e]) == if LoadFrom(v, t, es).None? then None else LoadEntry(v, LoadFrom(v, t, es).value, e)
  {
    hide LoadEntry, LawfulSchema;
    assert (es + [e])[..|es|] == es;
  }

  /** One more record of the run is loaded. */
  lemma LoadedOneMore(v: Verifier, s: State, t: State, rs: seq<Record>, n: nat, x: State)
    requires SchemaOk(v.schema) && n + 1 == |rs| && AcceptedRun(v, s, rs) && AppendAll(v, s, rs[..n]).Some?
    requires StartedOk(AppendAll(v, s, rs[..n]).value) && LoadedRun(v, s, t, rs[..n], x)
    ensures LoadEntry(v, x, EntryOf(v, rs[n])).Some? <==> AnchorReads(v, rs[n])
    ensures AnchorReads(v, rs[n]) ==> LoadedRun(v, s, t, rs, LoadEntry(v, x, EntryOf(v, rs[n])).value)
  {
    hide Append, StartedOk, Real, StoreTakes, AnchorReads, LawfulSchema, OmitsUnwritten, EntryOf, Replay1, LoadEntry, DistributesFees,
         DistributesRewards, HasTransition, Noted, NotedAll, RewardResets, WrittenAll, Written;
    var before, r := AppendAll(v, s, rs[..n]).value, rs[n];
    var renewed := HasTransition(r.metadata.epoch);
    ShorterRun(v, s, rs, n);
    LoadTaken(v, x, r);
    AppendedIsRead(v, before, x, r);
    if AnchorReads(v, r) {
      ReloadedLedger(v, before, x, r);
      WrittenOneMore(rs, n);
      NotedOneMore(t.feeParticipants, FeeResets(v, s, rs[..n]), WrittenAll(rs[..n]), DistributesFees(before, r) || renewed, Written(r));
      NotedOneMore(t.rewardParticipants, RewardResets(rs[..n]), WrittenAll(rs[..n]), DistributesRewards(r) || renewed, Written(r));
    }
  }

  /** Loading the records of a run, from a state with the ledger the run started in. */
  lemma {:induction false} LoadFromRun(v: Verifier, s: State, t: State, rs: seq<Record>)
    requires SchemaOk(v.schema) && AcceptedRun(v, s, rs) && StartedOk(s) && SameLedger(s, t)
    ensures StartedOk(AppendAll(v, s, rs).value)
    ensures LoadFrom(v, t, EntriesOf(v, rs)).Some? <==> AnchorsRead(v, rs)
    ensures AnchorsRead(v, rs) ==> LoadedRun(v, s, t, rs, LoadFrom(v, t, EntriesOf(v, rs)).value)
  {
    hide Append, LoadFrom, StartedOk, Real, StoreTakes, AnchorReads, LawfulSchema, OmitsUnwritten, EntryOf, LoadEntry, NotedAll,
         WrittenAll, RewardResets, FeeResets, SameLedger;
    if rs == [] {
      LoadNothingMore(v, t);
      assert EntriesOf(v, rs) == [];
      NoRecords(t.feeParticipants, FeeResets(v, s, rs), WrittenAll(rs));
      NoRecords(t.rewardParticipants, RewardResets(rs), WrittenAll(rs));
    } else {
      var n := |rs| - 1;
      ShorterRun(v, s, rs, n);
      LoadFromRun(v, s, t, rs[..n]);
      AppendKeepsOrder(v, AppendAll(v, s, rs[..n]).value, rs[n]);
      assert rs == rs[..n] + [rs[n]];
      EntriesAppend(v, rs[..n], rs[n]);
      LoadFromOneMore(v, t, EntriesOf(v, rs[..n]), EntryOf(v, rs[n]));
      if AnchorsRead(v, rs[..n]) {
        LoadedOneMore(v, s, t, rs, n, LoadFrom(v, t, EntriesOf(v, rs[..n])).value);
      }
    }
  }

  lemma LoadNothingMore(v: Verifier, t: State)
    requires LawfulSchema(v.schema)
    ensures LoadFrom(v, t, []) == Some(t)
  {
    hide LawfulSchema;
  }

  // ---------------------------------------------------------------- exact restarts

  /** No participant is lost when the records of this run are read instead of kept. */
  ghost predicate RunNamesRead(v: Verifier, s: State, rs: seq<Record>)
    requires AppendAll(v, s, rs).Some?
  {
    && NamesReadOver(s.feeParticipants, FeeResets(v, s, rs), rs)
    && NamesReadOver(s.rewardParticipants, RewardResets(rs), rs)
  }

  lemma LoadFromExact(v: Verifier, s: State, rs: seq<Record>)
    requires SchemaOk(v.schema) && AcceptedRun(v, s, rs) && StartedOk(s)
    ensures LoadFrom(v, s, EntriesOf(v, rs)) == AppendAll(v, s, rs) <==> AnchorsRead(v, rs) && RunNamesRead(v, s, rs)
  {
    hide AppendAll, LoadFrom, Real, StoreTakes, AnchorsRead, LawfulSchema, OmitsUnwritten, EntriesOf, NotedAll, WrittenAll,
         RewardResets, FeeResets, NamesReadOver, AssetsOk, HoldersOk, EpochsOk, NamesOk;
    LoadFromRun(v, s, s, rs);
    RunNames(v, s, rs);
    NotedAllIff(s.feeParticipants, FeeResets(v, s, rs), rs);
    NotedAllIff(s.rewardParticipants, RewardResets(rs), rs);
  }

  /** A restart from the records, after any run that ledger and store accepted, finds exactly
      the state in memory if and only if the votes of every transition are still good and no
      participant is lost. */
  lemma RecordsRestoreIff(v: Verifier, store: seq<Entry>, s: State, rs: seq<Record>)
    requires SchemaOk(v.schema) && AcceptedRun(v, s, rs) && LoadStore(v, store) == Some(s) && StartedOk(s)
    ensures LoadStore(v, store + EntriesOf(v, rs)) == AppendAll(v, s, rs) <==> AnchorsRead(v, rs) && RunNamesRead(v, s, rs)
  {
    hide AppendAll, LoadFrom, LoadStore, Real, StoreTakes, AnchorsRead, LawfulSchema, OmitsUnwritten, EntriesOf, RunNamesRead,
         StartedOk;
    LoadSplits(v, store, EntriesOf(v, rs));
    LoadFromExact(v, s, rs);
  }

  // ---------------------------------------------------------------- snapshots taken during a run

  lemma AppendAtTip(v: Verifier, store: seq<Entry>, s: State, r: Record)
    requires AtTip(s, store) && IntegersAscend(store) && Append(v, s, r).Some?
    ensures AtTip(Append(v, s, r).value, store + [EntryOf(v, r)]) && IntegersAscend(store + [EntryOf(v, r)])
  {
    hide CandidateOk, Execute, FinalizationOk, Advance, RecordHash, Serialize;
    CandidateFollows(v, s, r);
    AdvanceFields(v, s, Execute(v, s, r).value, r);
    var longer := store + [EntryOf(v, r)];
    forall i | 0 < i < |longer|
      ensures longer[i - 1].integer < longer[i].integer
    {
      if i < |store| {
        assert longer[i] == store[i] && longer[i - 1] == store[i - 1];
      }
    }
  }

  /** The node's state stays that of its store. */
  lemma {:induction false} RunAtTip(v: Verifier, store: seq<Entry>, s: State, rs: seq<Record>)
    requires AtTip(s, store) && IntegersAscend(store) && AppendAll(v, s, rs).Some?
    ensures AtTip(AppendAll(v, s, rs).value, store + EntriesOf(v, rs)) && IntegersAscend(store + EntriesOf(v, rs))
  {
    hide Append, AtTip, IntegersAscend, EntryOf;
    if rs == [] {
      assert store + EntriesOf(v, rs) == store;
    } else {
      var n := |rs| - 1;
      RunAtTip(v, store, s, rs[..n]);
      assert rs == rs[..n] + [rs[n]];
      EntriesAppend(v, rs[..n], rs[n]);
      var longer := store + EntriesOf(v, rs[..n]);
      assert store + EntriesOf(v, rs) == longer + [EntryOf(v, rs[n])];
      AppendAtTip(v, longer, AppendAll(v, s, rs[..n]).value, rs[n]);
    }
  }

  lemma {:induction false} SplitRun(v: Verifier, s: State, rs: seq<Record>, k: nat)
    requires LawfulSchema(v.schema) && AcceptedRun(v, s, rs) && k <= |rs|
    ensures AcceptedRun(v, s, rs[..k])
    ensures AcceptedRun(v, AppendAll(v, s, rs[..k]).value, rs[k..])
    ensures AppendAll(v, AppendAll(v, s, rs[..k]).value, rs[k..]) == AppendAll(v, s, rs)
  {
    hide Append, Real, StoreTakes, LawfulSchema;
    if k == |rs| {
      assert rs[..k] == rs && rs[k..] == [];
    } else {
      var n := |rs| - 1;
      ShorterRun(v, s, rs, n);
      SplitRun(v, s, rs[..n], k);
      assert rs[..n][..k] == rs[..k] && rs[k..][..n - k] == rs[..n][k..] && rs[k..][n - k] == rs[n];
    }
  }

  lemma EntriesSplit(v: Verifier, rs: seq<Record>, k: nat)
    requires k <= |rs|
    ensures EntriesOf(v, rs) == EntriesOf(v, rs[..k]) + EntriesOf(v, rs[k..])
  {
    hide EntryOf;
  }

  /** The load with the snapshot saved after the first k records of a run continues from
      there. */
  lemma RunContinues(v: Verifier, store: seq<Entry>, s: State, rs: seq<Record>, k: nat, mid: State)
    requires SchemaOk(v.schema) && AcceptedRun(v, s, rs) && StartedOk(s) && AtTip(s, store) && IntegersAscend(store)
    requires k <= |rs| && AppendAll(v, s, rs[..k]) == Some(mid)
    ensures StartedOk(mid) && AcceptedRun(v, mid, rs[k..]) && AppendAll(v, mid, rs[k..]) == AppendAll(v, s, rs)
    ensures LoadWith(v, store + EntriesOf(v, rs), Some(Save(mid))) == LoadFrom(v, mid, EntriesOf(v, rs[k..]))
  {
    hide AppendAll, AcceptedRun, LoadWith, LoadFrom, StartedOk, AtTip, IntegersAscend, LawfulSchema, OmitsUnwritten, EntriesOf, Save;
    SplitRun(v, s, rs, k);
    LoadFromRun(v, s, s, rs[..k]);
    RunAccepted(v, s, rs);
    RunAtTip(v, store, s, rs[..k]);
    RunAtTip(v, store, s, rs);
    EntriesSplit(v, rs, k);
    var a, b := store + EntriesOf(v, rs[..k]), EntriesOf(v, rs[k..]);
    assert store + EntriesOf(v, rs) == a + b;
    SnapshotContinues(v, mid, a, b);
  }

  lemma RunAccepted(v: Verifier, s: State, rs: seq<Record>)
    requires LawfulSchema(v.schema) && AcceptedRun(v, s, rs)
    ensures AppendAll(v, s, rs).Some?
  {
    hide Real, StoreTakes, LawfulSchema;
  }

  /** A restart from a snapshot saved at any point of a run succeeds if and only if the votes
      of every later transition are still good, and finds exactly the state in memory if and
      only if moreover no participant of the later records is lost. What happened before the
      snapshot does not matter. */
  lemma SnapshotRestoreIff(v: Verifier, store: seq<Entry>, s: State, rs: seq<Record>, k: nat, mid: State)
    requires SchemaOk(v.schema) && AcceptedRun(v, s, rs) && StartedOk(s) && AtTip(s, store) && IntegersAscend(store)
    requires k <= |rs| && AppendAll(v, s, rs[..k]) == Some(mid)
    ensures AppendAll(v, mid, rs[k..]).Some?
    ensures var x := LoadWith(v, store + EntriesOf(v, rs), Some(Save(mid)));
            && (x.Some? <==> AnchorsRead(v, rs[k..]))
            && (x == AppendAll(v, s, rs) <==> AnchorsRead(v, rs[k..]) && RunNamesRead(v, mid, rs[k..]))
  {
    hide AppendAll, AcceptedRun, LoadWith, LoadFrom, StartedOk, AtTip, IntegersAscend, LawfulSchema, OmitsUnwritten, EntriesOf, Save,
         AnchorsRead, RunNamesRead;
    RunContinues(v, store, s, rs, k, mid);
    RunAccepted(v, mid, rs[k..]);
    LoadFromRun(v, mid, mid, rs[k..]);
    LoadFromExact(v, mid, rs[k..]);
  }

  /** The full load that load never gets to after a snapshot would not help a node: when the
      records behind a snapshot it saved are refused, so are they all. */
  lemma RetryWouldNotHelp(v: Verifier, store: seq<Entry>, s: State, rs: seq<Record>, k: nat, mid: State)
    requires SchemaOk(v.schema) && AcceptedRun(v, s, rs) && StartedOk(s) && AtTip(s, store) && IntegersAscend(store)
    requires k <= |rs| && AppendAll(v, s, rs[..k]) == Some(mid) && LoadStore(v, store) == Some(s)
    requires LoadWith(v, store + EntriesOf(v, rs), Some(Save(mid))).None?
    ensures LoadStore(v, store + EntriesOf(v, rs)).None?
  {
    hide AppendAll, AcceptedRun, LoadWith, LoadFrom, LoadStore, StartedOk, AtTip, IntegersAscend, LawfulSchema, OmitsUnwritten,
         EntriesOf, Save, AnchorReads;
    RunContinues(v, store, s, rs, k, mid);
    LoadFromRun(v, mid, mid, rs[k..]);
    LoadSplits(v, store, EntriesOf(v, rs));
    LoadFromRun(v, s, s, rs);
  }
}
