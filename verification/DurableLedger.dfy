/**
 The ledger on disk: a crash at any byte of an append, followed by the recovery of the store
 and a load, leaves the ledger before or after the record.
 */
module DurableLedger {
  import opened Machine
  import opened Records
  import opened FieldFormats
  import opened RecordForm
  import opened WrittenForm
  import opened StoreFile
  import opened IndexFile
  import opened StoreRecovery
  import opened Ledger
  import opened LedgerReplay
  import opened CertificateIndependence
  import opened StoredLedger
  import opened LedgerStore
  import opened Snapshots

  /** The store is brought in order, scanned, and loaded. */
  ghost function LoadDisk(v: Verifier, d: Disk): Option<State>
    requires LawfulSchema(v.schema)
  {
    var p := Prepare(d, Matches(v));
    if !p.Prepared? then None
    else
      var s := ScanAll(p.disk.store, Matches(v));
      if s.Corrupt? then None else LoadStore(v, s.records)
  }

  lemma LoadClean(v: Verifier, d: Disk, rs: seq<Entry>)
    requires LawfulSchema(v.schema)
    requires Prepare(d, Matches(v)).Prepared? && Clean(Prepare(d, Matches(v)).disk, rs, Matches(v))
    ensures LoadDisk(v, d) == LoadStore(v, rs)
  {
    hide LoadStore, EncodeAll, ScanFrom, PlacesOf, LawfulSchema, Prepare, IndexBytes, Matches;
    WholeScan(rs, Matches(v));
  }

  /** The entry of an accepted record comes after what a loaded store holds. */
  lemma EntryInOrder(v: Verifier, store: seq<Entry>, s: State, r: Record)
    requires LawfulSchema(v.schema) && store != [] && LoadStore(v, store) == Some(s)
    requires IntegersAscend(store) && Append(v, s, r).Some?
    ensures IntegersAscend(store + [EntryOf(v, r)])
  {
    hide LoadStore, LawfulSchema, Append, StartedOk, EntryOf;
    LoadedAtTip(v, store);
    AppendFollows(v, s, r);
    EntryInteger(v, r);
  }

  lemma AppendFollows(v: Verifier, s: State, r: Record)
    requires Append(v, s, r).Some?
    ensures Follows(s, r)
  {
    hide Execute, FinalizationOk, CandidateOk, Follows;
    CandidateFollows(v, s, r);
  }

  lemma EntryInteger(v: Verifier, r: Record)
    ensures EntryOf(v, r).integer == r.header.integer
  {
    hide RecordHash, Serialize;
  }

  ghost predicate HasRoom(store: seq<Entry>, e: Entry, at: CrashPoint) {
    && (forall i :: 0 <= i < |store| ==> |store[i].payload| < TWO_64) && |e.payload| < TWO_64
    && |EncodeAll(store)| + HEADER_BYTES + |e.payload| < TWO_64 && Possible(at, e)
  }

  /** What load makes of the files a crash leaves. */
  ghost function AfterCrash(v: Verifier, store: seq<Entry>, e: Entry, at: CrashPoint): Option<State>
    requires LawfulSchema(v.schema) && HasRoom(store, e, at)
  {
    LoadDisk(v, Crashed(store, e, at))
  }

  predicate CutShort(e: Entry, at: CrashPoint) {
    at.InData? && at.bytes < HEADER_BYTES + |e.payload|
  }

  lemma CrashRecovers(v: Verifier, store: seq<Entry>, e: Entry, at: CrashPoint)
    requires LawfulSchema(v.schema) && HasRoom(store, e, at) && Appendable(store, e, Matches(v))
    ensures AfterCrash(v, store, e, at) == LoadStore(v, if CutShort(e, at) then store else store + [e])
  {
    hide LoadStore, EncodeAll, Encode, LawfulSchema, Prepare, Crashed, LoadDisk, Matches, Appendable;
    RecoversFromCrash(store, e, at, Matches(v));
    assert Survivors(store, e, at) == if CutShort(e, at) then store else store + [e];
    LoadClean(v, Crashed(store, e, at), Survivors(store, e, at));
  }

  /** Crash safety end to end: whatever the byte at which an accepted append stops, the next
      load gives the state before the record, or what a restart after the whole append gives. */
  lemma CrashThenLoad(v: Verifier, store: seq<Entry>, s: State, r: Record, e: Entry, at: CrashPoint)
    requires LawfulSchema(v.schema) && store != [] && Sound(store, Matches(v)) && LoadStore(v, store) == Some(s)
    requires Append(v, s, r).Some? && StoreTakes(v, r) && e == EntryOf(v, r) && HasRoom(store, e, at)
    ensures AfterCrash(v, store, e, at) == if CutShort(e, at) then Some(s) else LoadStore(v, store + [e])
  {
    hide LoadStore, EncodeAll, LawfulSchema, Append, EntryOf, AfterCrash, Matches;
    EntryInOrder(v, store, s, r);
    EncodeAllAppend(store, e);
    assert AllGood(store + [e], Matches(v));
    CrashRecovers(v, store, e, at);
  }

  /** In terms of the ledger: for a record whose votes read back, the state before it or the
      ledger after it, participants aside. */
  lemma CrashKeepsLedger(v: Verifier, store: seq<Entry>, s: State, r: Record, e: Entry, at: CrashPoint)
    requires SchemaOk(v.schema) && store != [] && Sound(store, Matches(v)) && LoadStore(v, store) == Some(s)
    requires Append(v, s, r).Some? && StoreTakes(v, r) && e == EntryOf(v, r) && HasRoom(store, e, at)
    requires Real(v, r) && AnchorReads(v, r)
    ensures var x := AfterCrash(v, store, e, at);
            x.Some? && (x.value == s || SameLedger(Append(v, s, r).value, x.value))
  {
    hide LoadStore, LawfulSchema, OmitsUnwritten, Append, EntryOf, AfterCrash, Matches, StartedOk, Real, AnchorReads, Replay1,
         LoadEntry, HasRoom, Sound;
    CrashThenLoad(v, store, s, r, e, at);
    LoadedOk(v, store);
    LoadOneMore(v, store, e);
    LoadTaken(v, s, r);
    AppendedIsRead(v, s, s, r);
    ReloadedLedger(v, s, s, r);
  }
}
