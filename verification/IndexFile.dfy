/**
 The index cache of the record store (src/storage/record_store.cpp): which index files are
 accepted, and that no crash leaves one that disagrees with a scan.
 */
module IndexFile {
  import opened Machine
  import opened Records
  import opened Formats
  import opened StoreFile

  const INDEX_MAGIC: u64 := 0x3158444943435055

  function PlaceBytes(p: Place): (b: Bytes)
    ensures |b| == 16
  {
    LittleEndian(p.integer, 8) + LittleEndian(p.offset, 8)
  }

  function PlacesBytes(ps: seq<Place>): (b: Bytes)
    ensures |b| == 16 * |ps|
  {
    if ps == [] then [] else PlacesBytes(ps[..|ps| - 1]) + PlaceBytes(ps[|ps| - 1])
  }

  function IndexHeader(size: nat, count: nat): (b: Bytes)
    ensures |b| == 24
  {
    LittleEndian(INDEX_MAGIC, 8) + LittleEndian(size, 8) + LittleEndian(count, 8)
  }

  /** writeIndex: the whole file, replaced by a rename. */
  function IndexBytes(size: nat, ps: seq<Place>): Bytes {
    IndexHeader(size, |ps|) + PlacesBytes(ps)
  }

  // ---------------------------------------------------------------- loading

  function ReadPlace(b: Bytes): Place
    requires |b| >= 16
  {
    Place(ToWord(b[..8]), ToWord(b[8..16]))
  }

  /** The first n places of the body, if there are that many bytes. */
  function ReadPlaces(b: Bytes, n: nat): (ps: Option<seq<Place>>)
    ensures ps.Some? <==> 16 * n <= |b|
    ensures ps.Some? ==> |ps.value| == n
  {
    if n == 0 then Some([])
    else if 16 * n > |b| then None
    else Some(ReadPlaces(b, n - 1).value + [ReadPlace(b[16 * (n - 1)..])])
  }

  predicate Increasing(ps: seq<Place>) {
    forall i :: 0 < i < |ps| ==> ps[i - 1].integer < ps[i].integer && ps[i - 1].offset < ps[i].offset
  }

  /** A plausible record header for the entry. */
  predicate HeaderAt(store: Bytes, p: Place) {
    && p.offset <= |store| && |store| - p.offset >= HEADER_BYTES
    && var h := ReadHeader(store[p.offset..]);
       && h.magic == STORE_MAGIC && ValidKind(h.kind) && h.integer == p.integer
       && 1 <= h.size <= MAX_PAYLOAD && h.size <= |store| - p.offset - HEADER_BYTES
  }

  /** loadIndex: the entries of an index file that is accepted for the store. */
  function LoadIndex(index: Bytes, store: Bytes): (ps: Option<seq<Place>>) {
    if |index| < 24 then None
    else
      var size, count := ToWord(index[8..16]), ToWord(index[16..24]);
      var places := ReadPlaces(index[24..], count);
      if ToWord(index[..8]) != INDEX_MAGIC || size != |store| || count > |store| / HEADER_BYTES || places.None? then None
      else if !Increasing(places.value) || |index| != 24 + 16 * count then None
      else if store == [] then (if places.value == [] then places else None)
      else if places.value == [] || places.value[0].offset != 0 then None
      else if !HeaderAt(store, places.value[0]) || !HeaderAt(store, places.value[|places.value| - 1]) then None
      else places
  }

  lemma {:induction false} ReadPlacesBack(ps: seq<Place>, rest: Bytes)
    requires forall i :: 0 <= i < |ps| ==> ps[i].offset < TWO_64
    ensures ReadPlaces(PlacesBytes(ps) + rest, |ps|) == Some(ps)
  {
    hide ReadPlace, PlaceBytes;
    if ps != [] {
      var n := |ps| - 1;
      var init, last := ps[..n], ps[n];
      var b := PlacesBytes(ps) + rest;
      assert b == PlacesBytes(init) + (PlaceBytes(last) + rest);
      ReadPlacesBack(init, PlaceBytes(last) + rest);
      assert b[16 * n..] == PlaceBytes(last) + rest;
      PlaceReadsBack(last, rest);
      assert init + [last] == ps;
    }
  }

  lemma PlaceReadsBack(p: Place, rest: Bytes)
    requires p.offset < TWO_64
    ensures ReadPlace(PlaceBytes(p) + rest) == p
  {
    var b := PlaceBytes(p) + rest;
    assert b[..8] == LittleEndian(p.integer, 8) && b[8..16] == LittleEndian(p.offset, 8);
    WordBack(p.integer);
    WordBack(p.offset);
  }

  /** The header of an index cannot lie about its body: whatever its size and count fields
      hold, an accepted file yields exactly the places its body was written from, and only
      for a store of the size it names. */
  lemma AcceptedIsBody(index: Bytes, store: Bytes, ps: seq<Place>)
    requires |index| >= 24 && index[24..] == PlacesBytes(ps) && forall i :: 0 <= i < |ps| ==> ps[i].offset < TWO_64
    ensures LoadIndex(index, store).Some? ==> LoadIndex(index, store).value == ps
    ensures LoadIndex(index, store).Some? ==> ToWord(index[8..16]) == |store|
  {
    hide ReadPlaces, HeaderAt, Increasing;
    if LoadIndex(index, store).Some? {
      var count := ToWord(index[16..24]);
      assert count == |ps|;
      ReadPlacesBack(ps, []);
      assert PlacesBytes(ps) + [] == PlacesBytes(ps);
    }
  }

  lemma HeaderWords(size: nat, count: nat, body: Bytes)
    requires size < TWO_64 && count < TWO_64
    ensures var index := IndexHeader(size, count) + body;
            && ToWord(index[..8]) == INDEX_MAGIC && ToWord(index[8..16]) == size && ToWord(index[16..24]) == count
            && index[24..] == body
  {
    var index := IndexHeader(size, count) + body;
    assert index[..8] == LittleEndian(INDEX_MAGIC, 8) && index[8..16] == LittleEndian(size, 8)
           && index[16..24] == LittleEndian(count, 8);
    WordBack(INDEX_MAGIC);
    WordBack(size);
    WordBack(count);
  }

  lemma WordBytes(b: Bytes)
    requires |b| == 8
    ensures LittleEndian(ToWord(b), 8) == b
  {
    PrintedValue(b);
  }

  lemma PlaceBytesBack(b: Bytes)
    requires |b| == 16
    ensures PlaceBytes(ReadPlace(b)) == b && ReadPlace(b).offset < TWO_64
  {
    hide LittleEndian;
    WordBytes(b[..8]);
    WordBytes(b[8..16]);
    assert b == b[..8] + b[8..16];
  }

  lemma {:induction false} PlacesBytesBack(b: Bytes, n: nat)
    requires |b| == 16 * n
    ensures ReadPlaces(b, n).Some? && PlacesBytes(ReadPlaces(b, n).value) == b
    ensures forall i :: 0 <= i < n ==> ReadPlaces(b, n).value[i].offset < TWO_64
  {
    hide PlaceBytes, ReadPlace;
    if n > 0 {
      var k := 16 * (n - 1);
      var init, last := b[..k], b[k..];
      ReadPlacesPrefix(b, init, n - 1);
      PlacesBytesBack(init, n - 1);
      PlaceBytesBack(last);
      var ps := ReadPlaces(b, n).value;
      assert ps[..n - 1] == ReadPlaces(init, n - 1).value;
      assert b == init + last;
    }
  }

  lemma {:induction false} ReadPlacesPrefix(b: Bytes, c: Bytes, n: nat)
    requires 16 * n <= |c| <= |b| && c == b[..|c|]
    ensures ReadPlaces(b, n) == ReadPlaces(c, n)
  {
    if n > 0 {
      ReadPlacesPrefix(b, c, n - 1);
      var k := 16 * (n - 1);
      assert b[k..][..8] == b[k..k + 8] == c[k..k + 8] == c[k..][..8];
      assert b[k..][8..16] == b[k + 8..k + 16] == c[k + 8..k + 16] == c[k..][8..16];
    }
  }

  /** The store has at this offset the start of a record of this integer that fits. */
  predicate RecordStarts(store: Bytes, p: Place) {
    && p.offset + 72 <= |store|
    && var h := ReadHeader(store[p.offset..]);
       && h.magic == 0x3056445243435055 && (h.kind == 1 || h.kind == 2) && h.integer == p.integer
       && 1 <= h.size <= 67_108_864 && p.offset + 72 + h.size <= |store|
  }

  lemma HeaderAtIff(store: Bytes, p: Place)
    ensures HeaderAt(store, p) <==> RecordStarts(store, p)
  {
    hide ReadHeader;
  }

  /** Places in ascending order, no more than the store has room for, that begin with the store,
      the first and the last at the start of a record. */
  ghost predicate Fitting(store: Bytes, ps: seq<Place>) {
    && 72 * |ps| <= |store| && (forall i :: 0 <= i < |ps| ==> ps[i].offset < TWO_64)
    && (forall i :: 0 < i < |ps| ==> ps[i - 1].integer < ps[i].integer && ps[i - 1].offset < ps[i].offset)
    && (store == [] <==> ps == [])
    && (ps != [] ==> ps[0].offset == 0 && RecordStarts(store, ps[0]) && RecordStarts(store, ps[|ps| - 1]))
  }

  lemma LoadedFits(index: Bytes, store: Bytes, ps: seq<Place>)
    requires LoadIndex(index, store) == Some(ps)
    ensures Fitting(store, ps) && index == IndexBytes(|store|, ps)
  {
    hide ReadPlaces, PlacesBytes, LittleEndian, HeaderAt, RecordStarts;
    var count := ToWord(index[16..24]);
    PlacesBytesBack(index[24..], count);
    WordBytes(index[..8]);
    WordBytes(index[8..16]);
    WordBytes(index[16..24]);
    assert index == index[..8] + index[8..16] + index[16..24] + index[24..];
    RoomFor(count, |store|);
    if ps != [] {
      HeaderAtIff(store, ps[0]);
      HeaderAtIff(store, ps[|ps| - 1]);
    }
  }

  lemma FittingLoads(store: Bytes, ps: seq<Place>)
    requires |store| < TWO_64 && Fitting(store, ps)
    ensures LoadIndex(IndexBytes(|store|, ps), store) == Some(ps)
  {
    hide ReadPlaces, PlacesBytes, LittleEndian, HeaderAt, RecordStarts, IndexHeader;
    HeaderWords(|store|, |ps|, PlacesBytes(ps));
    ReadPlacesBack(ps, []);
    assert PlacesBytes(ps) + [] == PlacesBytes(ps);
    RoomFor(|ps|, |store|);
    if ps != [] {
      HeaderAtIff(store, ps[0]);
      HeaderAtIff(store, ps[|ps| - 1]);
    }
  }

  /** Index files that are accepted for a store are exactly those writeIndex writes for its size
      and fitting places. */
  lemma LoadIndexIff(index: Bytes, store: Bytes, ps: seq<Place>)
    requires |store| < TWO_64
    ensures LoadIndex(index, store) == Some(ps) <==> Fitting(store, ps) && index == IndexBytes(|store|, ps)
  {
    hide LoadIndex, Fitting, IndexBytes;
    if LoadIndex(index, store) == Some(ps) {
      LoadedFits(index, store, ps);
    }
    if Fitting(store, ps) {
      FittingLoads(store, ps);
    }
  }

  lemma RoomFor(n: nat, size: nat)
    ensures n <= size / HEADER_BYTES <==> 72 * n <= size
  {
  }
}
