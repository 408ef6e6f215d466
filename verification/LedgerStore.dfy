/**
 The ledger on its record store: the store decodes every payload and compares identities
 before it writes (src/storage/record_store.cpp, validateRecord), and load takes up what the
 store holds (src/node/sequential_node.cpp).
 */
module LedgerStore {
  import opened Machine
  import opened Records
  import opened FieldFormats
  import opened RecordForm
  import opened WrittenForm
  import opened BatchRoots
  import opened StoreFile
  import opened Ledger
  import opened LedgerReplay
  import opened CertificateIndependence
  import opened StoredLedger

  const COMPOSITE_KIND: u64 := 1
  const PRIME_KIND: u64 := 2

  /** makeStoredRecord: the bytes of a record in an envelope with its identity. */
  function EntryOf(v: Verifier, r: Record): Entry {
    Entry(if r.Composite? then COMPOSITE_KIND else PRIME_KIND, r.header.height, r.header.integer, RecordHash(v, r),
          Serialize(v.schema, r, true))
  }

  function Decoded(v: Verifier, e: Entry): Option<Record>
    requires LawfulSchema(v.schema)
  {
    Deserialize(v.schema, e.kind == COMPOSITE_KIND, e.payload)
  }

  /** recordPayloadMatchesEnvelope. */
  predicate PayloadMatches(v: Verifier, e: Entry)
    requires LawfulSchema(v.schema)
  {
    Decoded(v, e).Some? && RecordHash(v, Decoded(v, e).value) == e.hash
  }

  /** The check the store makes of every record it writes or scans. */
  function Matches(v: Verifier): Entry -> bool
    requires LawfulSchema(v.schema)
  {
    (e: Entry) => PayloadMatches(v, e)
  }

  predicate StoreTakes(v: Verifier, r: Record)
    requires LawfulSchema(v.schema)
  {
    Good(EntryOf(v, r), Matches(v))
  }

  /** The formats, as far as what is stored depends on them. */
  ghost predicate SchemaOk(sc: Schema) {
    LawfulSchema(sc) && OmitsUnwritten(sc) && sc.metadata.endpoints.valid([])
  }

  /** The bytes of a version 3 record and those its short reading would have been written as
      do not have the same hash. */
  ghost predicate NoBareCollision(v: Verifier, r: Record)
    requires LawfulSchema(v.schema)
  {
    var q := Decoded(v, EntryOf(v, r));
    r.header.version == 3 && q.Some? ==>
      CollisionFree(v.hash, {Serialize(v.schema, q.value, true), Serialize(v.schema, r, true)})
  }

  /** A record as the node can hold it. */
  ghost predicate Real(v: Verifier, r: Record)
    requires LawfulSchema(v.schema)
  {
    Representable(v.schema, r) && NoBareCollision(v, r)
  }

  /** The store takes a record if and only if its written form is within the decode limits and
      its bytes within the size limit. */
  lemma StoreTakesIff(v: Verifier, r: Record)
    requires SchemaOk(v.schema) && Real(v, r)
    ensures StoreTakes(v, r)
       <==> Storable(v.schema, Written(r)) && 1 <= |Serialize(v.schema, r, true)| <= 67_108_864
    ensures StoreTakes(v, r) ==> Decoded(v, EntryOf(v, r)) == Some(Written(r))
  {
    hide Serialize, Deserialize, Storable, Representable, Written, RecordHash, OmitsUnwritten, LawfulSchema;
    TargetRead(v, r);
    if Storable(v.schema, Written(r)) {
      WrittenReadsBack(v.schema, r);
    }
    if StoreTakes(v, r) {
      if r.header.version != 3 {
        DecodesWritten(v.schema, r);
      } else {
        Version3Taken(v, r);
      }
    }
  }

  /** At version 3 the identity check refuses what was read without the endpoint list. */
  lemma Version3Taken(v: Verifier, r: Record)
    requires SchemaOk(v.schema) && Real(v, r) && r.header.version == 3 && StoreTakes(v, r)
    ensures Storable(v.schema, Written(r)) && Decoded(v, EntryOf(v, r)) == Some(Written(r))
  {
    hide Serialize, Storable, Representable, Written, OmitsUnwritten, LawfulSchema, RecordFormat;
    var sc, b := v.schema, Serialize(v.schema, r, true);
    var q := Decoded(v, EntryOf(v, r)).value;
    DecodedHeader(sc, r);
    assert v.hash(Serialize(sc, q, true)) == v.hash(b);
    DecodedIsCanonical(sc, r.Composite?, b);
    FullDecides(sc, r);
  }

  // ---------------------------------------------------------------- load

  /** One stored record taken up: its payload decodes, the envelope fits, and it replays. */
  ghost function LoadEntry(v: Verifier, s: State, e: Entry): Option<State>
    requires LawfulSchema(v.schema)
  {
    if !Good(e, Matches(v)) then None
    else
      var r := Decoded(v, e).value;
      if r.header.height != e.height || r.header.integer != e.integer then None else Replay1(v, s, r)
  }

  /** load without a snapshot. */
  ghost function LoadStore(v: Verifier, store: seq<Entry>): (x: Option<State>)
    requires LawfulSchema(v.schema)
  {
    if store == [] then Some(EMPTY)
    else
      var before := LoadStore(v, store[..|store| - 1]);
      if before.None? then None else LoadEntry(v, before.value, store[|store| - 1])
  }

  lemma LoadOneMore(v: Verifier, store: seq<Entry>, e: Entry)
    requires LawfulSchema(v.schema)
    ensures LoadStore(v, store + [e])
         == if LoadStore(v, store).None? then None else LoadEntry(v, LoadStore(v, store).value, e)
  {
    hide LoadEntry, LawfulSchema;
    assert (store + [e])[..|store|] == store;
  }

  function EntriesOf(v: Verifier, rs: seq<Record>): (es: seq<Entry>)
    ensures |es| == |rs|
  {
    seq(|rs|, i requires 0 <= i < |rs| => EntryOf(v, rs[i]))
  }

  lemma EntriesAppend(v: Verifier, rs: seq<Record>, r: Record)
    ensures EntriesOf(v, rs + [r]) == EntriesOf(v, rs) + [EntryOf(v, r)]
  {
    hide EntryOf;
  }

  /** What the store took is loaded as the written form of the record. */
  lemma LoadTaken(v: Verifier, s: State, r: Record)
    requires SchemaOk(v.schema) && Real(v, r) && StoreTakes(v, r)
    ensures LoadEntry(v, s, EntryOf(v, r)) == Replay1(v, s, Written(r))
  {
    hide Replay1, Serialize, Decoded, OmitsUnwritten, LawfulSchema, RecordHash, Real;
    StoreTakesIff(v, r);
  }

  lemma AppendKeepsOrder(v: Verifier, s: State, r: Record)
    requires StartedOk(s) && Append(v, s, r).Some?
    ensures StartedOk(Append(v, s, r).value)
  {
    hide Append, Replay1, StartedOk, LedgerOk;
    AppendIsReplay(v, s, r);
    StartedIsLedger(s);
    ReplayStepOk(v, s, r);
  }

  lemma StartedIsLedger(s: State)
    requires StartedOk(s)
    ensures LedgerOk(s)
  {
  }

  /** A run of appends, each taken by the ledger and by the store. */
  ghost predicate AcceptedRun(v: Verifier, s: State, rs: seq<Record>)
    requires LawfulSchema(v.schema)
  {
    && AppendAll(v, s, rs).Some?
    && forall i :: 0 <= i < |rs| ==> Real(v, rs[i]) && StoreTakes(v, rs[i])
  }

  ghost predicate AnchorsRead(v: Verifier, rs: seq<Record>) {
    forall i :: 0 <= i < |rs| ==> AnchorReads(v, rs[i])
  }

  lemma ShorterRun(v: Verifier, s: State, rs: seq<Record>, n: nat)
    requires LawfulSchema(v.schema) && n + 1 == |rs| && AcceptedRun(v, s, rs)
    ensures AppendAll(v, s, rs[..n]).Some? && Append(v, AppendAll(v, s, rs[..n]).value, rs[n]) == AppendAll(v, s, rs)
    ensures AcceptedRun(v, s, rs[..n]) && Real(v, rs[n]) && StoreTakes(v, rs[n])
    ensures AnchorsRead(v, rs) <==> AnchorsRead(v, rs[..n]) && AnchorReads(v, rs[n])
  {
    hide Append, Real, StoreTakes, AnchorReads, LawfulSchema;
    forall i | 0 <= i < n
      ensures rs[..n][i] == rs[i]
    {
    }
    if AnchorsRead(v, rs[..n]) && AnchorReads(v, rs[n]) {
      forall i | 0 <= i < |rs|
        ensures AnchorReads(v, rs[i])
      {
        assert i < n ==> rs[i] == rs[..n][i];
      }
    }
  }

  /** Load follows every run: after any run of appends that ledger and store accepted, the
      store loads if and only if the votes of every transition in the run are still good, and
      then to the ledger in memory, participants aside. */
  lemma {:induction false} LoadFollowsRun(v: Verifier, store: seq<Entry>, s: State, rs: seq<Record>)
    requires SchemaOk(v.schema) && AcceptedRun(v, s, rs) && StartedOk(s)
    requires LoadStore(v, store).Some? && SameLedger(s, LoadStore(v, store).value)
    ensures LoadStore(v, store + EntriesOf(v, rs)).Some? <==> AnchorsRead(v, rs)
    ensures AnchorsRead(v, rs) ==>
              SameLedger(AppendAll(v, s, rs).value, LoadStore(v, store + EntriesOf(v, rs)).value)
    ensures StartedOk(AppendAll(v, s, rs).value)
  {
    hide Append, LoadStore, StartedOk, Real, StoreTakes, AnchorReads, LawfulSchema, OmitsUnwritten, EntryOf, Replay1, LoadEntry;
    if rs == [] {
      assert store + EntriesOf(v, rs) == store;
    } else {
      var n := |rs| - 1;
      ShorterRun(v, s, rs, |rs| - 1);
      LoadFollowsRun(v, store, s, rs[..n]);
      var before := AppendAll(v, s, rs[..n]).value;
      AppendKeepsOrder(v, before, rs[n]);
      assert rs == rs[..n] + [rs[n]];
      EntriesAppend(v, rs[..n], rs[n]);
      var longer := store + EntriesOf(v, rs[..n]);
      assert store + EntriesOf(v, rs) == longer + [EntryOf(v, rs[n])];
      LoadOneMore(v, longer, EntryOf(v, rs[n]));
      if LoadStore(v, longer).Some? {
        LoadTaken(v, LoadStore(v, longer).value, rs[n]);
        AppendedIsRead(v, before, LoadStore(v, longer).value, rs[n]);
        ReloadedLedger(v, before, LoadStore(v, longer).value, rs[n]);
      }
    }
  }

  lemma ReloadedLedger(v: Verifier, s: State, t: State, r: Record)
    requires Append(v, s, r).Some?
    ensures SameLedger(Append(v, s, r).value, Reloaded(v, s, t, r))
  {
    hide Append, Noted, DistributesFees, DistributesRewards;
  }

  /** What a record must meet for its reader to note whom the node that appended it noted. */
  ghost predicate NamesKept(s: State, r: Record) {
    var renewed := HasTransition(r.metadata.epoch);
    && (DistributesFees(s, r) || renewed || NamesRead(s.feeParticipants, r))
    && (DistributesRewards(r) || renewed || NamesRead(s.rewardParticipants, r))
  }

  /** A load from the records after an accepted append finds exactly the state in memory, if
      and only if the votes of the transition are still good and no participant is lost. */
  lemma RestartIff(v: Verifier, store: seq<Entry>, s: State, r: Record)
    requires SchemaOk(v.schema) && LoadStore(v, store) == Some(s) && StartedOk(s)
    requires Append(v, s, r).Some? && Real(v, r) && StoreTakes(v, r)
    ensures LoadStore(v, store + [EntryOf(v, r)]) == Append(v, s, r) <==> AnchorReads(v, r) && NamesKept(s, r)
  {
    hide Append, LoadStore, StartedOk, Real, StoreTakes, AnchorReads, LawfulSchema, OmitsUnwritten, EntryOf, Replay1, LoadEntry,
         NamesRead, DistributesFees, DistributesRewards, Reloaded;
    LoadOneMore(v, store, EntryOf(v, r));
    LoadTaken(v, s, r);
    AppendedIsRead(v, s, s, r);
    ReloadExactIff(v, s, r);
  }

  // ---------------------------------------------------------------- load is replay

  /** The record is what the stored entry holds. */
  ghost predicate Fits(v: Verifier, e: Entry, r: Record)
    requires LawfulSchema(v.schema)
  {
    && Good(e, Matches(v)) && Decoded(v, e) == Some(r)
    && r.header.height == e.height && r.header.integer == e.integer && RecordHash(v, r) == e.hash
  }

  lemma LoadedEntry(v: Verifier, s: State, e: Entry) returns (r: Record)
    requires LawfulSchema(v.schema) && LoadEntry(v, s, e).Some?
    ensures Fits(v, e, r) && LoadEntry(v, s, e) == Replay1(v, s, r)
  {
    hide Replay1, LawfulSchema, RecordHash, Deserialize;
    r := Decoded(v, e).value;
  }

  lemma LastLoaded(v: Verifier, store: seq<Entry>) returns (s: State, r: Record)
    requires LawfulSchema(v.schema) && store != [] && LoadStore(v, store).Some?
    ensures LoadStore(v, store[..|store| - 1]) == Some(s) && Fits(v, store[|store| - 1], r)
    ensures LoadStore(v, store) == Replay1(v, s, r)
  {
    hide Replay1, LawfulSchema, LoadEntry, Fits;
    s := LoadStore(v, store[..|store| - 1]).value;
    r := LoadedEntry(v, s, store[|store| - 1]);
  }

  /** Every store that loads holds a chain that replays: the theorems about replay are about
      it. */
  lemma {:induction false} LoadIsReplay(v: Verifier, store: seq<Entry>) returns (records: seq<Record>)
    requires LawfulSchema(v.schema) && LoadStore(v, store).Some?
    ensures |records| == |store| && Replay(v, records) == LoadStore(v, store)
    ensures forall i :: 0 <= i < |store| ==> Fits(v, store[i], records[i])
  {
    hide Replay1, LawfulSchema, LoadEntry, Fits;
    if store == [] {
      records := [];
    } else {
      var n := |store| - 1;
      var s, r := LastLoaded(v, store);
      var init := LoadIsReplay(v, store[..n]);
      records := init + [r];
      assert records[..n] == init;
      forall i | 0 <= i < |store|
        ensures Fits(v, store[i], records[i])
      {
        assert i < n ==> store[i] == store[..n][i] && records[i] == init[i];
      }
    }
  }

  lemma LoadedOk(v: Verifier, store: seq<Entry>)
    requires LawfulSchema(v.schema) && LoadStore(v, store).Some?
    ensures LedgerOk(LoadStore(v, store).value)
    ensures store != [] ==> StartedOk(LoadStore(v, store).value)
  {
    hide LoadStore, LedgerOk, StartedOk, LawfulSchema, Replay;
    var records := LoadIsReplay(v, store);
    ReplayOk(v, records);
  }
}
