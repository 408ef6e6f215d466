/**
 The record store file as bytes (src/storage/record_store.cpp): what a scan finds after the
 file was cut anywhere.
 */
module StoreFile {
  import opened Machine
  import opened Records
  import opened Formats

  const STORE_MAGIC: u64 := 0x3056445243435055
  const HEADER_BYTES := 72
  const MAX_PAYLOAD := 64 * 1024 * 1024

  /** A stored record; kind 1 is composite, kind 2 prime. */
  datatype Entry = Entry(kind: u64, height: u64, integer: u64, hash: Hash256, payload: Bytes)

  datatype EntryHeader = EntryHeader(magic: u64, kind: u64, height: u64, integer: u64, hash: Hash256, size: u64)

  predicate ValidKind(kind: u64) {
    kind == 1 || kind == 2
  }

  /** `matches` decides whether the payload decodes to the hash in the envelope. */
  predicate Good(r: Entry, matches: Entry -> bool) {
    ValidKind(r.kind) && 1 <= |r.payload| <= MAX_PAYLOAD && matches(r)
  }

  // ---------------------------------------------------------------- encoding

  function HeaderOf(r: Entry): EntryHeader
    requires |r.payload| < TWO_64
  {
    EntryHeader(STORE_MAGIC, r.kind, r.height, r.integer, r.hash, |r.payload|)
  }

  function EncodeHeader(h: EntryHeader): (b: Bytes)
    ensures |b| == HEADER_BYTES
  {
    LittleEndian(h.magic, 8) + LittleEndian(h.kind, 8) + LittleEndian(h.height, 8) + LittleEndian(h.integer, 8)
    + h.hash + LittleEndian(h.size, 8)
  }

  function ReadHeader(b: Bytes): EntryHeader
    requires |b| >= HEADER_BYTES
  {
    EntryHeader(ToWord(b[..8]), ToWord(b[8..16]), ToWord(b[16..24]), ToWord(b[24..32]), b[32..64], ToWord(b[64..72]))
  }

  lemma WordBack(w: u64)
    ensures ToWord(LittleEndian(w, 8)) == w
  {
    EightBytes();
    ValueOfPrinted(w, 8);
  }

  lemma HeaderReadsBack(h: EntryHeader, rest: Bytes)
    ensures ReadHeader(EncodeHeader(h) + rest) == h
  {
    var b := EncodeHeader(h) + rest;
    assert b[..8] == LittleEndian(h.magic, 8) && b[8..16] == LittleEndian(h.kind, 8);
    assert b[16..24] == LittleEndian(h.height, 8) && b[24..32] == LittleEndian(h.integer, 8);
    assert b[32..64] == h.hash && b[64..72] == LittleEndian(h.size, 8);
    WordBack(h.magic);
    WordBack(h.kind);
    WordBack(h.height);
    WordBack(h.integer);
    WordBack(h.size);
  }

  function Encode(r: Entry): (b: Bytes)
    requires |r.payload| < TWO_64
    ensures |b| == HEADER_BYTES + |r.payload|
  {
    EncodeHeader(HeaderOf(r)) + r.payload
  }

  predicate RepeatsTip(rs: seq<Entry>, r: Entry) {
    rs != [] && rs[|rs| - 1].integer == r.integer && rs[|rs| - 1].hash == r.hash
  }

  /** What the store holds after an append: nothing new for its own tip, and no record that is
      bad or out of order. */
  function StoreAppend(rs: seq<Entry>, r: Entry, matches: Entry -> bool): Option<seq<Entry>> {
    if !Good(r, matches) then None
    else if RepeatsTip(rs, r) then Some(rs)
    else if rs != [] && rs[|rs| - 1].integer >= r.integer then None
    else Some(rs + [r])
  }

  predicate AllGood(rs: seq<Entry>, matches: Entry -> bool) {
    forall i :: 0 <= i < |rs| ==> Good(rs[i], matches)
  }

  function EncodeAll(rs: seq<Entry>): Bytes
    requires forall i :: 0 <= i < |rs| ==> |rs[i].payload| < TWO_64
  {
    if rs == [] then [] else Encode(rs[0]) + EncodeAll(rs[1..])
  }

  // ---------------------------------------------------------------- scanning

  datatype Place = Place(integer: u64, offset: nat)

  /** What a scan finds: the complete records, where they start, where they end, and whether
      something incomplete follows. */
  datatype Scan =
    | Corrupt
    | Scanned(records: seq<Entry>, places: seq<Place>, valid: nat, tail: bool)

  datatype Look = Done | Incomplete | Bad | Found(record: Entry)

  /** The record that starts at the beginning of the remaining bytes. */
  function LookAt(b: Bytes, matches: Entry -> bool): (l: Look)
    ensures l.Found? ==> 1 <= |l.record.payload| && HEADER_BYTES + |l.record.payload| <= |b|
  {
    if b == [] then Done
    else if |b| < HEADER_BYTES then Incomplete
    else
      var h := ReadHeader(b);
      if h.magic != STORE_MAGIC || !ValidKind(h.kind) || h.size == 0 || h.size > MAX_PAYLOAD then Bad
      else if h.size > |b| - HEADER_BYTES then Incomplete
      else
        var r := Entry(h.kind, h.height, h.integer, h.hash, b[HEADER_BYTES..HEADER_BYTES + h.size]);
        if matches(r) then Found(r) else Bad
  }

  function ScanFrom(b: Bytes, offset: nat, matches: Entry -> bool): (s: Scan)
    decreases |b|
  {
    match LookAt(b, matches)
    case Done => Scanned([], [], offset, false)
    case Incomplete => Scanned([], [], offset, true)
    case Bad => Corrupt
    case Found(r) =>
      var size := HEADER_BYTES + |r.payload|;
      var rest := ScanFrom(b[size..], offset + size, matches);
      if rest.Corrupt? then Corrupt
      else Scanned([r] + rest.records, [Place(r.integer, offset)] + rest.places, rest.valid, rest.tail)
  }

  function ScanAll(b: Bytes, matches: Entry -> bool): Scan {
    ScanFrom(b, 0, matches)
  }

  /** The scan's findings continued from what was found before. */
  function Joined(records: seq<Entry>, places: seq<Place>, rest: Scan): Scan {
    if rest.Corrupt? then Corrupt else Scanned(records + rest.records, places + rest.places, rest.valid, rest.tail)
  }

  /** scanStore: one pass over the offsets. */
  method ScanStore(b: Bytes, matches: Entry -> bool) returns (s: Scan)
    ensures s == ScanAll(b, matches)
  {
    hide ScanFrom, LookAt;
    var offset, tail := 0, false;
    var records: seq<Entry>, places: seq<Place> := [], [];
    assert b[0..] == b;
    JoinedNothing(ScanFrom(b, 0, matches));
    while offset < |b| && !tail
      invariant 0 <= offset <= |b|
      invariant ScanAll(b, matches) ==
                if tail then Scanned(records, places, offset, true)
                else Joined(records, places, ScanFrom(b[offset..], offset, matches))
      decreases |b| - offset, !tail
    {
      var look := LookAt(b[offset..], matches);
      ScanCases(records, places, b[offset..], offset, matches);
      if look.Bad? {
        return Corrupt;
      } else if look.Incomplete? {
        tail := true;
      } else {
        var r := look.record;
        var size := HEADER_BYTES + |r.payload|;
        assert b[offset..][size..] == b[offset + size..];
        records, places := records + [r], places + [Place(r.integer, offset)];
        offset := offset + size;
      }
    }
    if !tail {
      assert b[offset..] == [];
      ScanCases(records, places, [], offset, matches);
    }
    s := Scanned(records, places, offset, tail);
  }

  lemma JoinedNothing(rest: Scan)
    ensures Joined([], [], rest) == rest
  {
  }

  lemma ScanCases(records: seq<Entry>, places: seq<Place>, b: Bytes, offset: nat, matches: Entry -> bool)
    ensures var l, j := LookAt(b, matches), Joined(records, places, ScanFrom(b, offset, matches));
            && (l.Done? <==> b == [])
            && (l.Done? ==> j == Scanned(records, places, offset, false))
            && (l.Bad? ==> j == Corrupt)
            && (l.Incomplete? ==> j == Scanned(records, places, offset, true))
            && (l.Found? ==>
                  var size := HEADER_BYTES + |l.record.payload|;
                  j == Joined(records + [l.record], places + [Place(l.record.integer, offset)],
                              ScanFrom(b[size..], offset + size, matches)))
  {
    assert records + [] == records && places + [] == places;
    if LookAt(b, matches).Found? {
      JoinedStep(records, places, b, offset, matches);
    }
  }

  lemma JoinedStep(records: seq<Entry>, places: seq<Place>, b: Bytes, offset: nat, matches: Entry -> bool)
    requires LookAt(b, matches).Found?
    ensures var r := LookAt(b, matches).record;
            var size := HEADER_BYTES + |r.payload|;
            Joined(records, places, ScanFrom(b, offset, matches))
            == Joined(records + [r], places + [Place(r.integer, offset)], ScanFrom(b[size..], offset + size, matches))
  {
    hide LookAt;
    var r := LookAt(b, matches).record;
    var rest := ScanFrom(b[HEADER_BYTES + |r.payload|..], offset + HEADER_BYTES + |r.payload|, matches);
    if rest.Scanned? {
      assert records + ([r] + rest.records) == records + [r] + rest.records;
      assert places + ([Place(r.integer, offset)] + rest.places) == places + [Place(r.integer, offset)] + rest.places;
    }
  }

  // ---------------------------------------------------------------- cuts

  /** Bytes of the first k records. */
  function Extent(rs: seq<Entry>, k: nat): nat
    requires k <= |rs|
  {
    if k == 0 then 0 else Extent(rs, k - 1) + HEADER_BYTES + |rs[k - 1].payload|
  }

  /** Where the records start. */
  function PlacesOf(rs: seq<Entry>): (ps: seq<Place>)
    ensures |ps| == |rs|
  {
    seq(|rs|, i requires 0 <= i < |rs| => Place(rs[i].integer, Extent(rs, i)))
  }

  lemma LookAtEncoded(r: Entry, rest: Bytes, matches: Entry -> bool)
    requires Good(r, matches)
    ensures LookAt(Encode(r) + rest, matches) == Found(r)
  {
    hide EncodeHeader, ReadHeader;
    var b := Encode(r) + rest;
    assert b == EncodeHeader(HeaderOf(r)) + (r.payload + rest);
    HeaderReadsBack(HeaderOf(r), r.payload + rest);
    assert b[HEADER_BYTES..HEADER_BYTES + |r.payload|] == r.payload;
  }

  /** A record cut short reads as incomplete, or as nothing when nothing of it is left. */
  lemma LookAtCut(r: Entry, cut: nat, matches: Entry -> bool)
    requires Good(r, matches) && cut < |Encode(r)|
    ensures LookAt(Encode(r)[..cut], matches) == if cut == 0 then Done else Incomplete
  {
    var b := Encode(r)[..cut];
    if cut >= HEADER_BYTES {
      assert b == EncodeHeader(HeaderOf(r)) + r.payload[..cut - HEADER_BYTES];
      HeaderReadsBack(HeaderOf(r), r.payload[..cut - HEADER_BYTES]);
    }
  }

  /** The findings of a scan of whole records followed by a cut one. */
  function Shifted(rs: seq<Entry>, offset: nat): (ps: seq<Place>)
    ensures |ps| == |rs|
  {
    if rs == [] then [] else [Place(rs[0].integer, offset)] + Shifted(rs[1..], offset + HEADER_BYTES + |rs[0].payload|)
  }

  ghost predicate FindsPrefix(s: Scan, rs: seq<Entry>, offset: nat, tail: bool) {
    s == Scanned(rs, Shifted(rs, offset), offset + Extent(rs, |rs|), tail)
  }

  lemma {:induction false} ExtentCons(r: Entry, rs: seq<Entry>, k: nat)
    requires k <= |rs|
    ensures Extent([r] + rs, k + 1) == HEADER_BYTES + |r.payload| + Extent(rs, k)
  {
    if k > 0 {
      ExtentCons(r, rs, k - 1);
    }
  }

  lemma PrefixGrows(r: Entry, rs: seq<Entry>, b: Bytes, tail: Bytes, offset: nat, torn: bool, matches: Entry -> bool)
    requires LookAt(b, matches) == Found(r) && b[HEADER_BYTES + |r.payload|..] == tail
    requires FindsPrefix(ScanFrom(tail, offset + HEADER_BYTES + |r.payload|, matches), rs, offset + HEADER_BYTES + |r.payload|, torn)
    ensures FindsPrefix(ScanFrom(b, offset, matches), [r] + rs, offset, torn)
  {
    ScanOneMore(r, b, offset, matches);
    ShiftedOneMore(r, rs, offset);
    ExtentCons(r, rs, |rs|);
    hide LookAt, ScanFrom, Shifted, Extent;
  }

  lemma ShiftedOneMore(r: Entry, rs: seq<Entry>, offset: nat)
    ensures Shifted([r] + rs, offset) == [Place(r.integer, offset)] + Shifted(rs, offset + HEADER_BYTES + |r.payload|)
  {
    assert ([r] + rs)[1..] == rs;
  }

  lemma ScanOneMore(r: Entry, b: Bytes, offset: nat, matches: Entry -> bool)
    requires LookAt(b, matches) == Found(r)
    ensures var rest := ScanFrom(b[HEADER_BYTES + |r.payload|..], offset + HEADER_BYTES + |r.payload|, matches);
            rest.Scanned? ==>
              ScanFrom(b, offset, matches)
              == Scanned([r] + rest.records, [Place(r.integer, offset)] + rest.places, rest.valid, rest.tail)
  {
    hide LookAt;
  }

  lemma ScanOfNothing(rest: Bytes, offset: nat, matches: Entry -> bool)
    requires LookAt(rest, matches).Done? || LookAt(rest, matches).Incomplete?
    ensures FindsPrefix(ScanFrom(EncodeAll([]) + rest, offset, matches), [], offset, rest != [])
  {
    hide LookAt;
    DoneIffEmpty(rest, matches);
    assert EncodeAll([]) + rest == rest;
  }

  lemma EncodedSplit(rs: seq<Entry>, rest: Bytes)
    requires rs != [] && forall i :: 0 <= i < |rs| ==> |rs[i].payload| < TWO_64
    ensures EncodeAll(rs) + rest == Encode(rs[0]) + (EncodeAll(rs[1..]) + rest)
    ensures (EncodeAll(rs) + rest)[HEADER_BYTES + |rs[0].payload|..] == EncodeAll(rs[1..]) + rest
  {
    hide Encode;
  }

  lemma {:induction false} ScanOfRecords(rs: seq<Entry>, rest: Bytes, offset: nat, matches: Entry -> bool)
    requires AllGood(rs, matches) && (LookAt(rest, matches).Done? || LookAt(rest, matches).Incomplete?)
    ensures FindsPrefix(ScanFrom(EncodeAll(rs) + rest, offset, matches), rs, offset, rest != [])
  {
    hide LookAt, Encode, ScanFrom, FindsPrefix, EncodeAll;
    if rs == [] {
      ScanOfNothing(rest, offset, matches);
    } else {
      var size := HEADER_BYTES + |rs[0].payload|;
      var tail := EncodeAll(rs[1..]) + rest;
      EncodedSplit(rs, rest);
      LookAtEncoded(rs[0], tail, matches);
      ScanOfRecords(rs[1..], rest, offset + size, matches);
      PrefixGrows(rs[0], rs[1..], EncodeAll(rs) + rest, tail, offset, rest != [], matches);
      assert rs == [rs[0]] + rs[1..];
    }
  }

  lemma DoneIffEmpty(b: Bytes, matches: Entry -> bool)
    ensures LookAt(b, matches).Done? <==> b == []
  {
  }

  lemma {:induction false} ShiftedIsPlaces(rs: seq<Entry>, i: nat, offset: nat)
    requires i < |rs|
    ensures Shifted(rs, offset)[i] == Place(rs[i].integer, offset + Extent(rs, i))
  {
    if i > 0 {
      ShiftedIsPlaces(rs[1..], i - 1, offset + HEADER_BYTES + |rs[0].payload|);
      assert rs == [rs[0]] + rs[1..];
      ExtentCons(rs[0], rs[1..], i - 1);
    }
  }

  lemma {:induction false} EncodeAllLength(rs: seq<Entry>)
    requires forall i :: 0 <= i < |rs| ==> |rs[i].payload| < TWO_64
    ensures |EncodeAll(rs)| == Extent(rs, |rs|)
  {
    if rs != [] {
      EncodeAllLength(rs[1..]);
      assert rs == [rs[0]] + rs[1..];
      ExtentCons(rs[0], rs[1..], |rs| - 1);
    }
  }

  lemma {:induction false} EncodeAllSplit(rs: seq<Entry>, k: nat)
    requires k <= |rs| && forall i :: 0 <= i < |rs| ==> |rs[i].payload| < TWO_64
    ensures EncodeAll(rs) == EncodeAll(rs[..k]) + EncodeAll(rs[k..])
  {
    hide Encode;
    if k == 0 {
      assert rs[..0] == [] && rs[0..] == rs;
      assert EncodeAll(rs[..0]) == [];
    } else {
      EncodeAllSplit(rs[1..], k - 1);
      var a, b := EncodeAll(rs[..k][1..]), EncodeAll(rs[k..]);
      assert rs[1..][..k - 1] == rs[..k][1..] && rs[1..][k - 1..] == rs[k..];
      assert EncodeAll(rs[..k]) == Encode(rs[0]) + a;
      assert Encode(rs[0]) + (a + b) == Encode(rs[0]) + a + b;
    }
  }

  lemma CutSplit(rs: seq<Entry>, k: nat, cut: nat, matches: Entry -> bool)
    requires AllGood(rs, matches) && k <= |rs| && Extent(rs, k) <= cut <= |EncodeAll(rs)|
    requires k < |rs| ==> cut < Extent(rs, k + 1)
    ensures var rest := if k < |rs| then Encode(rs[k])[..cut - Extent(rs, k)] else [];
            EncodeAll(rs)[..cut] == EncodeAll(rs[..k]) + rest && (rest != [] <==> cut != Extent(rs, k))
  {
    hide Encode;
    EncodeAllLength(rs);
    EncodeAllSplit(rs, k);
    EncodeAllLength(rs[..k]);
    ExtentPrefix(rs, k, k);
    if k < |rs| {
      assert EncodeAll(rs[k..]) == Encode(rs[k]) + EncodeAll(rs[k + 1..]) by {
        assert rs[k..][0] == rs[k] && rs[k..][1..] == rs[k + 1..];
      }
      assert (EncodeAll(rs[..k]) + (Encode(rs[k]) + EncodeAll(rs[k + 1..])))[..cut]
          == EncodeAll(rs[..k]) + Encode(rs[k])[..cut - Extent(rs, k)];
    } else {
      assert rs[..k] == rs && EncodeAll(rs)[..cut] == EncodeAll(rs);
    }
  }

  lemma ShiftedAll(rs: seq<Entry>)
    ensures Shifted(rs, 0) == PlacesOf(rs)
  {
    forall i | 0 <= i < |rs|
      ensures Shifted(rs, 0)[i] == PlacesOf(rs)[i]
    {
      ShiftedIsPlaces(rs, i, 0);
    }
  }

  /** Crash recovery: a valid store cut at any byte scans, without error, to exactly the
      records that lie before the cut, and reports a tail exactly when the cut is inside a
      record. */
  lemma CutScan(rs: seq<Entry>, k: nat, cut: nat, matches: Entry -> bool)
    requires AllGood(rs, matches) && k <= |rs| && Extent(rs, k) <= cut <= |EncodeAll(rs)|
    requires k < |rs| ==> cut < Extent(rs, k + 1)
    ensures ScanAll(EncodeAll(rs)[..cut], matches)
         == Scanned(rs[..k], PlacesOf(rs[..k]), Extent(rs, k), cut != Extent(rs, k))
  {
    hide LookAt, ScanFrom, Encode, EncodeAll, Shifted;
    CutSplit(rs, k, cut, matches);
    var rest := if k < |rs| then Encode(rs[k])[..cut - Extent(rs, k)] else [];
    if k < |rs| {
      LookAtCut(rs[k], cut - Extent(rs, k), matches);
    } else {
      DoneIffEmpty(rest, matches);
    }
    ScanOfRecords(rs[..k], rest, 0, matches);
    ShiftedAll(rs[..k]);
    ExtentPrefix(rs, k, k);
  }

  lemma {:induction false} ExtentPrefix(rs: seq<Entry>, k: nat, i: nat)
    requires i <= k <= |rs|
    ensures Extent(rs[..k], i) == Extent(rs, i)
  {
    if i > 0 {
      ExtentPrefix(rs, k, i - 1);
    }
  }

  /** Every cut lies in exactly one place: after k whole records. */
  lemma {:induction false} WholeBefore(rs: seq<Entry>, cut: nat, n: nat) returns (k: nat)
    requires n <= |rs| && cut <= Extent(rs, n)
    ensures k <= n && Extent(rs, k) <= cut && (k < n ==> cut < Extent(rs, k + 1))
    decreases n
  {
    if n == 0 || cut == Extent(rs, n) {
      k := n;
    } else if cut < Extent(rs, n - 1) {
      k := WholeBefore(rs, cut, n - 1);
    } else {
      k := n - 1;
    }
  }

  /** The same for every cut, naming the number of whole records. */
  lemma CutAnywhere(rs: seq<Entry>, cut: nat, matches: Entry -> bool) returns (k: nat)
    requires AllGood(rs, matches) && cut <= |EncodeAll(rs)|
    ensures k <= |rs| && Extent(rs, k) <= cut && (k < |rs| ==> cut < Extent(rs, k + 1))
    ensures ScanAll(EncodeAll(rs)[..cut], matches)
         == Scanned(rs[..k], PlacesOf(rs[..k]), Extent(rs, k), cut != Extent(rs, k))
  {
    EncodeAllLength(rs);
    k := WholeBefore(rs, cut, |rs|);
    CutScan(rs, k, cut, matches);
  }

  /** A whole store scans to itself. */
  lemma WholeScan(rs: seq<Entry>, matches: Entry -> bool)
    requires AllGood(rs, matches)
    ensures |EncodeAll(rs)| == Extent(rs, |rs|)
    ensures ScanAll(EncodeAll(rs), matches) == Scanned(rs, PlacesOf(rs), Extent(rs, |rs|), false)
  {
    EncodeAllLength(rs);
    CutScan(rs, |rs|, |EncodeAll(rs)|, matches);
    assert EncodeAll(rs)[..|EncodeAll(rs)|] == EncodeAll(rs) && rs[..|rs|] == rs;
  }
}
