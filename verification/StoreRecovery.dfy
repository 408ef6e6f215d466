/**
 The record store and its index through appends, tip replacements, crashes and recovery
 (src/storage/record_store.cpp). Writes happen in order and may stop at any byte; a rename is
 atomic.
 */
module StoreRecovery {
  import opened Machine
  import opened Records
  import opened Formats
  import opened StoreFile
  import opened IndexFile

  datatype Disk = Disk(store: Bytes, index: Option<Bytes>)

  predicate IntegersAscend(rs: seq<Entry>) {
    forall i :: 0 < i < |rs| ==> rs[i - 1].integer < rs[i].integer
  }

  /** A store of good records in order, of addressable size. */
  predicate Sound(rs: seq<Entry>, matches: Entry -> bool) {
    AllGood(rs, matches) && IntegersAscend(rs) && |EncodeAll(rs)| < TWO_64
  }

  /** The index exactly as writeIndex would write it. */
  ghost predicate Clean(d: Disk, rs: seq<Entry>, matches: Entry -> bool) {
    && Sound(rs, matches) && d.store == EncodeAll(rs)
    && d.index == Some(IndexBytes(|d.store|, PlacesOf(rs)))
  }

  function Accepted(d: Disk): Option<seq<Place>> {
    if d.index.None? then None else LoadIndex(d.index.value, d.store)
  }

  /** Any index that is accepted equals the index of a full scan. */
  ghost predicate IndexAgrees(d: Disk, matches: Entry -> bool) {
    Accepted(d).Some? ==>
      var s := ScanAll(d.store, matches);
      s.Scanned? && !s.tail && s.places == Accepted(d).value
  }

  // ---------------------------------------------------------------- offsets

  lemma {:induction false} ExtentGrows(rs: seq<Entry>, i: nat, j: nat)
    requires i <= j <= |rs|
    ensures Extent(rs, i) + HEADER_BYTES * (j - i) <= Extent(rs, j)
    decreases j
  {
    if i < j {
      ExtentGrows(rs, i, j - 1);
    }
  }

  lemma PlacesFit(rs: seq<Entry>, matches: Entry -> bool)
    requires Sound(rs, matches)
    ensures forall i :: 0 <= i < |rs| ==> PlacesOf(rs)[i].offset < TWO_64
    ensures Increasing(PlacesOf(rs)) && HEADER_BYTES * |rs| <= |EncodeAll(rs)|
  {
    hide EncodeAll;
    EncodeAllLength(rs);
    ExtentGrows(rs, 0, |rs|);
    forall i | 0 <= i < |rs|
      ensures PlacesOf(rs)[i].offset < TWO_64
      ensures i > 0 ==> PlacesOf(rs)[i - 1].integer < PlacesOf(rs)[i].integer && PlacesOf(rs)[i - 1].offset < PlacesOf(rs)[i].offset
    {
      ExtentGrows(rs, i, |rs|);
      if i > 0 {
        ExtentGrows(rs, i - 1, i);
      }
    }
  }

  /** The bytes at the place of a record start with that record. */
  lemma AtPlace(rs: seq<Entry>, i: nat)
    requires i < |rs| && forall j :: 0 <= j < |rs| ==> |rs[j].payload| < TWO_64
    ensures Extent(rs, i) + HEADER_BYTES + |rs[i].payload| <= |EncodeAll(rs)|
    ensures EncodeAll(rs)[Extent(rs, i)..] == Encode(rs[i]) + EncodeAll(rs[i + 1..])
  {
    hide Encode;
    EncodeAllSplit(rs, i);
    EncodeAllLength(rs[..i]);
    ExtentPrefix(rs, i, i);
    assert rs[i..][0] == rs[i] && rs[i..][1..] == rs[i + 1..];
  }

  lemma HeaderAtPlace(rs: seq<Entry>, i: nat, matches: Entry -> bool)
    requires AllGood(rs, matches) && i < |rs|
    ensures HeaderAt(EncodeAll(rs), PlacesOf(rs)[i])
  {
    hide EncodeAll, Encode, EncodeHeader, ReadHeader;
    AtPlace(rs, i);
    EncodedHeader(rs[i], EncodeAll(rs[i + 1..]));
    assert PlacesOf(rs)[i] == Place(rs[i].integer, Extent(rs, i));
  }

  lemma EncodedHeader(r: Entry, rest: Bytes)
    requires |r.payload| < TWO_64
    ensures ReadHeader(Encode(r) + rest) == HeaderOf(r)
  {
    hide EncodeHeader, ReadHeader;
    assert Encode(r) + rest == EncodeHeader(HeaderOf(r)) + (r.payload + rest);
    HeaderReadsBack(HeaderOf(r), r.payload + rest);
  }

  // ---------------------------------------------------------------- the clean index

  /** The written index is accepted, and gives the places of the records. */
  lemma CleanIsAccepted(rs: seq<Entry>, matches: Entry -> bool)
    requires Sound(rs, matches)
    ensures LoadIndex(IndexBytes(|EncodeAll(rs)|, PlacesOf(rs)), EncodeAll(rs)) == Some(PlacesOf(rs))
  {
    hide EncodeAll, ReadPlaces, PlacesOf, HeaderAt, Increasing, PlacesBytes, IndexHeader;
    var store, ps := EncodeAll(rs), PlacesOf(rs);
    PlacesFit(rs, matches);
    HeaderWords(|store|, |ps|, PlacesBytes(ps));
    ReadPlacesBack(ps, []);
    assert PlacesBytes(ps) + [] == PlacesBytes(ps);
    CountFits(|rs|, |store|);
    EmptyStore(rs);
    if rs != [] {
      HeaderAtPlace(rs, 0, matches);
      HeaderAtPlace(rs, |rs| - 1, matches);
    }
  }

  lemma EmptyStore(rs: seq<Entry>)
    requires forall j :: 0 <= j < |rs| ==> |rs[j].payload| < TWO_64
    ensures rs == [] <==> EncodeAll(rs) == []
    ensures rs != [] ==> PlacesOf(rs)[0].offset == 0
  {
  }

  lemma CountFits(n: nat, size: nat)
    requires HEADER_BYTES * n <= size
    ensures n <= size / HEADER_BYTES
  {
  }

  lemma WordPrinted(b: Bytes)
    requires |b| == 8
    ensures LittleEndian(ToWord(b), 8) == b
  {
    PrintedValue(b);
  }

  lemma PlacePrinted(b: Bytes)
    requires |b| >= 16
    ensures PlaceBytes(ReadPlace(b)) == b[..16]
  {
    WordPrinted(b[..8]);
    WordPrinted(b[8..16]);
    assert b[..16] == b[..8] + b[8..16];
  }

  lemma {:induction false} ReadPlacesCanonical(b: Bytes, n: nat)
    requires 16 * n <= |b|
    ensures PlacesBytes(ReadPlaces(b, n).value) == b[..16 * n]
  {
    hide PlaceBytes, ReadPlace;
    if n > 0 {
      ReadPlacesCanonical(b, n - 1);
      var ps, start := ReadPlaces(b, n).value, 16 * (n - 1);
      assert ps[..n - 1] == ReadPlaces(b, n - 1).value;
      PlacePrinted(b[start..]);
      assert b[..start + 16] == b[..start] + b[start..][..16];
    }
  }

  /** An accepted index is, byte for byte, the one writeIndex writes for its entries. */
  lemma AcceptedIsExact(index: Bytes, store: Bytes)
    requires LoadIndex(index, store).Some?
    ensures index == IndexBytes(|store|, LoadIndex(index, store).value)
  {
    hide HeaderAt, Increasing, ReadPlaces, PlacesBytes, LittleEndian, ToWord;
    WordPrinted(index[..8]);
    WordPrinted(index[8..16]);
    WordPrinted(index[16..24]);
    var count := ToWord(index[16..24]);
    ReadPlacesCanonical(index[24..], count);
    assert index[24..][..16 * count] == index[24..];
    FourParts(index);
  }

  lemma FourParts(b: Bytes)
    requires |b| >= 24
    ensures b == b[..8] + b[8..16] + b[16..24] + b[24..]
  {
  }

  // ---------------------------------------------------------------- crashes inside append

  /** Where an append may stop: in the data, in the index entry, in the index header. */
  datatype CrashPoint = InData(bytes: nat) | InEntry(bytes: nat) | InHeader(bytes: nat)

  predicate Possible(at: CrashPoint, r: Entry)
    requires |r.payload| < TWO_64
  {
    match at
    case InData(n) => n <= |Encode(r)|
    case InEntry(n) => n <= 16
    case InHeader(n) => n <= 16
  }

  /** The first bytes new, the others old. */
  function Overwritten(before: Bytes, after: Bytes, n: nat): (b: Bytes)
    requires |before| == |after| && n <= |before|
    ensures |b| == |before|
  {
    after[..n] + before[n..]
  }

  /** The disk after a crash in the append of r to a clean disk. */
  function Crashed(rs: seq<Entry>, r: Entry, at: CrashPoint): Disk
    requires |r.payload| < TWO_64 && (forall i :: 0 <= i < |rs| ==> |rs[i].payload| < TWO_64) && Possible(at, r)
  {
    var store, ps := EncodeAll(rs), PlacesOf(rs);
    var index, entry := IndexBytes(|store|, ps), PlaceBytes(Place(r.integer, |store|));
    match at
    case InData(n) => Disk(store + Encode(r)[..n], Some(index))
    case InEntry(n) => Disk(store + Encode(r), Some(index + entry[..n]))
    case InHeader(n) =>
      var before := LittleEndian(|store|, 8) + LittleEndian(|ps|, 8);
      var after := LittleEndian(|store| + |Encode(r)|, 8) + LittleEndian(|ps| + 1, 8);
      Disk(store + Encode(r), Some(LittleEndian(INDEX_MAGIC, 8) + Overwritten(before, after, n) + (PlacesBytes(ps) + entry)))
  }

  lemma {:induction false} EncodeAllAppend(rs: seq<Entry>, r: Entry)
    requires |r.payload| < TWO_64 && forall i :: 0 <= i < |rs| ==> |rs[i].payload| < TWO_64
    ensures EncodeAll(rs + [r]) == EncodeAll(rs) + Encode(r)
  {
    hide Encode;
    EncodeAllSplit(rs + [r], |rs|);
    assert (rs + [r])[..|rs|] == rs && (rs + [r])[|rs|..] == [r];
    assert EncodeAll([r]) == Encode(r) + EncodeAll([]);
    assert Encode(r) + [] == Encode(r);
  }

  lemma PlacesAppend(rs: seq<Entry>, r: Entry)
    requires |r.payload| < TWO_64 && forall i :: 0 <= i < |rs| ==> |rs[i].payload| < TWO_64
    ensures PlacesOf(rs + [r]) == PlacesOf(rs) + [Place(r.integer, |EncodeAll(rs)|)]
    ensures PlacesBytes(PlacesOf(rs + [r])) == PlacesBytes(PlacesOf(rs)) + PlaceBytes(Place(r.integer, |EncodeAll(rs)|))
  {
    EncodeAllLength(rs);
    forall i | 0 <= i <= |rs|
      ensures Extent(rs + [r], i) == Extent(rs, i)
    {
      ExtentPrefix(rs + [r], |rs|, i);
      assert (rs + [r])[..|rs|] == rs;
    }
    var ps := PlacesOf(rs + [r]);
    assert ps == PlacesOf(rs) + [Place(r.integer, |EncodeAll(rs)|)];
    assert ps[..|ps| - 1] == PlacesOf(rs);
  }

  /** The record is durable exactly when all its bytes are. */
  function Survivors(rs: seq<Entry>, r: Entry, at: CrashPoint): seq<Entry>
    requires |r.payload| < TWO_64
  {
    if at.InData? && at.bytes < |Encode(r)| then rs else rs + [r]
  }

  ghost predicate Appendable(rs: seq<Entry>, r: Entry, matches: Entry -> bool) {
    Sound(rs, matches) && Good(r, matches) && Sound(rs + [r], matches)
  }

  /** After any crash the scan finds exactly the surviving records. */
  lemma CrashScan(rs: seq<Entry>, r: Entry, at: CrashPoint, matches: Entry -> bool)
    requires Appendable(rs, r, matches) && Possible(at, r)
    ensures var d, kept := Crashed(rs, r, at), Survivors(rs, r, at);
            && ScanAll(d.store, matches)
               == Scanned(kept, PlacesOf(kept), |EncodeAll(kept)|, |d.store| != |EncodeAll(kept)|)
            && EncodeAll(kept) <= d.store
  {
    hide Encode, EncodeAll, ScanFrom, PlacesBytes, PlacesOf, IndexHeader;
    var all := rs + [r];
    EncodeAllAppend(rs, r);
    EncodeAllLength(rs);
    EncodeAllLength(all);
    ExtentPrefix(all, |rs|, |rs|);
    assert all[..|rs|] == rs && all[..|all|] == all;
    if at.InData? && at.bytes < |Encode(r)| {
      CutScan(all, |rs|, |EncodeAll(rs)| + at.bytes, matches);
      assert EncodeAll(all)[..|EncodeAll(rs)| + at.bytes] == EncodeAll(rs) + Encode(r)[..at.bytes];
    } else {
      WholeScan(all, matches);
      assert Encode(r)[..|Encode(r)|] == Encode(r);
    }
  }

  lemma CleanAgrees(rs: seq<Entry>, d: Disk, matches: Entry -> bool)
    requires Clean(d, rs, matches)
    ensures IndexAgrees(d, matches)
  {
    hide EncodeAll, ScanFrom, LoadIndex, PlacesOf, IndexBytes;
    CleanIsAccepted(rs, matches);
    WholeScan(rs, matches);
  }

  lemma StaleIsRejected(size: nat, count: nat, body: Bytes, store: Bytes)
    requires size < TWO_64 && count < TWO_64 && size != |store|
    ensures LoadIndex(IndexHeader(size, count) + body, store).None?
  {
    HeaderWords(size, count, body);
  }

  lemma DataCrashAgrees(rs: seq<Entry>, r: Entry, n: nat, matches: Entry -> bool)
    requires Appendable(rs, r, matches) && n <= |Encode(r)|
    ensures IndexAgrees(Crashed(rs, r, InData(n)), matches)
  {
    hide EncodeAll, Encode, ScanFrom, LoadIndex, PlacesOf, PlacesBytes;
    var store, ps, d := EncodeAll(rs), PlacesOf(rs), Crashed(rs, r, InData(n));
    PlacesFit(rs, matches);
    if n == 0 {
      assert d.store == store;
      CleanAgrees(rs, d, matches);
    } else {
      StaleIsRejected(|store|, |ps|, PlacesBytes(ps), d.store);
    }
  }

  lemma EntryCrashAgrees(rs: seq<Entry>, r: Entry, n: nat, matches: Entry -> bool)
    requires Appendable(rs, r, matches) && n <= 16
    ensures IndexAgrees(Crashed(rs, r, InEntry(n)), matches)
  {
    hide EncodeAll, Encode, ScanFrom, LoadIndex, PlacesOf, PlacesBytes, IndexHeader, PlaceBytes;
    var store, ps, d := EncodeAll(rs), PlacesOf(rs), Crashed(rs, r, InEntry(n));
    PlacesFit(rs, matches);
    var entry := PlaceBytes(Place(r.integer, |store|));
    assert IndexBytes(|store|, ps) + entry[..n] == IndexHeader(|store|, |ps|) + (PlacesBytes(ps) + entry[..n]);
    StaleIsRejected(|store|, |ps|, PlacesBytes(ps) + entry[..n], d.store);
  }

  lemma HeaderCrashAgrees(rs: seq<Entry>, r: Entry, n: nat, matches: Entry -> bool)
    requires Appendable(rs, r, matches) && n <= 16
    ensures IndexAgrees(Crashed(rs, r, InHeader(n)), matches)
  {
    hide EncodeAll, Encode, ScanFrom, LoadIndex, PlacesOf, PlacesBytes, PlaceBytes, LittleEndian;
    var d := Crashed(rs, r, InHeader(n));
    PlacesAppend(rs, r);
    PlacesFit(rs + [r], matches);
    AcceptedIsBody(d.index.value, d.store, PlacesOf(rs + [r]));
    EncodeAllAppend(rs, r);
    WholeScan(rs + [r], matches);
  }

  /** Crash safety: at every point at which an append can stop, an index that is accepted is
      the index of a full scan. */
  lemma CrashAgrees(rs: seq<Entry>, r: Entry, at: CrashPoint, matches: Entry -> bool)
    requires Appendable(rs, r, matches) && Possible(at, r)
    ensures IndexAgrees(Crashed(rs, r, at), matches)
  {
    hide Crashed, IndexAgrees, Encode;
    match at
    case InData(n) => DataCrashAgrees(rs, r, n, matches);
    case InEntry(n) => EntryCrashAgrees(rs, r, n, matches);
    case InHeader(n) => HeaderCrashAgrees(rs, r, n, matches);
  }

  // ---------------------------------------------------------------- crashes inside replaceTip

  /** Between the two renames of replaceTip the new store meets the old index: it is accepted
      only when it is right. */
  lemma ReplacedAgrees(rs: seq<Entry>, tip: Entry, replacement: Entry, matches: Entry -> bool)
    requires Sound(rs + [tip], matches) && Sound(rs + [replacement], matches) && tip.integer == replacement.integer
    ensures IndexAgrees(Disk(EncodeAll(rs + [replacement]), Some(IndexBytes(|EncodeAll(rs + [tip])|, PlacesOf(rs + [tip])))), matches)
    ensures IndexAgrees(Disk(EncodeAll(rs + [replacement]), None), matches)
  {
    hide EncodeAll, ScanFrom, LoadIndex, PlacesOf, PlacesBytes;
    var before, after := rs + [tip], rs + [replacement];
    assert before[|rs|] == tip && after[|rs|] == replacement;
    assert forall i :: 0 <= i < |rs| ==> before[i] == rs[i];
    PlacesAppend(rs, tip);
    PlacesAppend(rs, replacement);
    PlacesFit(before, matches);
    if |EncodeAll(before)| == |EncodeAll(after)| {
      CleanAgrees(after, Disk(EncodeAll(after), Some(IndexBytes(|EncodeAll(after)|, PlacesOf(after)))), matches);
    } else {
      StaleIsRejected(|EncodeAll(before)|, |before|, PlacesBytes(PlacesOf(before)), EncodeAll(after));
    }
  }

  // ---------------------------------------------------------------- recovery

  datatype Prepared = Unreadable | Prepared(disk: Disk, places: seq<Place>)

  /** prepareIndex: the accepted index, or a scan that cuts an incomplete tail and rewrites
      the index. */
  function Prepare(d: Disk, matches: Entry -> bool): Prepared {
    var accepted := Accepted(d);
    if accepted.Some? then Prepared(d, accepted.value)
    else
      var s := ScanAll(d.store, matches);
      if s.Corrupt? then Unreadable
      else
        var store := if s.tail && s.valid <= |d.store| then d.store[..s.valid] else d.store;
        Prepared(Disk(store, Some(IndexBytes(|store|, s.places))), s.places)
  }

  /** Recovery: from any crash inside append the next operation finds a clean store holding
      exactly the surviving records, with their index. */
  lemma RecoversFromCrash(rs: seq<Entry>, r: Entry, at: CrashPoint, matches: Entry -> bool)
    requires Appendable(rs, r, matches) && Possible(at, r)
    ensures var p, kept := Prepare(Crashed(rs, r, at), matches), Survivors(rs, r, at);
            p.Prepared? && p.places == PlacesOf(kept) && Clean(p.disk, kept, matches)
  {
    hide EncodeAll, Encode, ScanFrom, LoadIndex, PlacesOf, IndexBytes, Crashed;
    var d, kept := Crashed(rs, r, at), Survivors(rs, r, at);
    CrashScan(rs, r, at, matches);
    CrashAgrees(rs, r, at, matches);
    if Accepted(d).Some? {
      AcceptedIsExact(d.index.value, d.store);
    }
  }
}
