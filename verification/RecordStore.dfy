/**
 The record store object (src/storage/record_store.cpp): appending and looking
 records up through the index. `rs` is what the store holds.
 */
module RecordStore {
  import opened Machine
  import opened Records
  import opened Formats
  import opened StoreFile
  import opened IndexFile
  import opened StoreRecovery

  /** The next operation finds a clean store holding rs: true of a clean store and after any
      crash inside append. */
  ghost predicate Holds(d: Disk, rs: seq<Entry>, matches: Entry -> bool) {
    var p := Prepare(d, matches);
    p.Prepared? && p.places == PlacesOf(rs) && Clean(p.disk, rs, matches)
  }

  lemma CleanHolds(d: Disk, rs: seq<Entry>, matches: Entry -> bool)
    requires Clean(d, rs, matches)
    ensures Holds(d, rs, matches) && Prepare(d, matches).disk == d
  {
    hide LoadIndex, EncodeAll, ScanFrom, PlacesOf, IndexBytes;
    CleanIsAccepted(rs, matches);
  }

  // ---------------------------------------------------------------- linear specification

  /** The record of an integer, found by looking at all of them. */
  function LinearFind(rs: seq<Entry>, n: u64): Option<Entry> {
    if rs == [] then None else if rs[0].integer == n then Some(rs[0]) else LinearFind(rs[1..], n)
  }

  function LinearRange(rs: seq<Entry>, low: u64, high: u64): seq<Entry> {
    if rs == [] then []
    else
      var init, last := rs[..|rs| - 1], rs[|rs| - 1];
      LinearRange(init, low, high) + if low <= last.integer <= high then [last] else []
  }

  lemma {:induction false} EmptyRange(rs: seq<Entry>, low: u64, high: u64)
    requires low > high
    ensures LinearRange(rs, low, high) == []
  {
    if rs != [] {
      EmptyRange(rs[..|rs| - 1], low, high);
    }
  }

  lemma {:induction false} LinearFindAt(rs: seq<Entry>, i: nat)
    requires IntegersAscend(rs) && i < |rs|
    ensures LinearFind(rs, rs[i].integer) == Some(rs[i])
  {
    if i > 0 {
      AscendOrders(rs, 0, i);
      LinearFindAt(rs[1..], i - 1);
    }
  }

  lemma {:induction false} LinearFindNone(rs: seq<Entry>, n: u64)
    requires forall i :: 0 <= i < |rs| ==> rs[i].integer != n
    ensures LinearFind(rs, n) == None
  {
    if rs != [] {
      LinearFindNone(rs[1..], n);
    }
  }

  lemma {:induction false} AscendOrders(rs: seq<Entry>, i: nat, j: nat)
    requires IntegersAscend(rs) && i < j < |rs|
    ensures rs[i].integer < rs[j].integer
    decreases j
  {
    if i + 1 < j {
      AscendOrders(rs, i, j - 1);
    }
  }

  lemma {:induction false} LinearFindLonger(rs: seq<Entry>, r: Entry, n: u64)
    ensures LinearFind(rs + [r], n)
         == if LinearFind(rs, n).Some? then LinearFind(rs, n) else if r.integer == n then Some(r) else None
  {
    if rs == [] {
      assert ([] + [r])[1..] == [];
    } else {
      assert (rs + [r])[1..] == rs[1..] + [r];
      LinearFindLonger(rs[1..], r, n);
    }
  }

  /** After an append the record can be found under its integer with its own hash, and under
      every other integer what was found before. Refused are bad records, records before the tip,
      and any other record for the integer of the tip. */
  lemma AppendedIsFound(rs: seq<Entry>, r: Entry, matches: Entry -> bool, n: u64)
    requires IntegersAscend(rs)
    ensures StoreAppend(rs, r, matches).None?
       <==> || !Good(r, matches)
            || (rs != [] && r.integer < rs[|rs| - 1].integer)
            || (rs != [] && r.integer == rs[|rs| - 1].integer && r.hash != rs[|rs| - 1].hash)
    ensures StoreAppend(rs, r, matches).Some? ==>
              var found := LinearFind(StoreAppend(rs, r, matches).value, n);
              if n == r.integer then found.Some? && found.value.hash == r.hash else found == LinearFind(rs, n)
    ensures StoreAppend(rs, r, matches).Some? ==>
              var next := StoreAppend(rs, r, matches).value;
              IntegersAscend(next) && StoreAppend(next, r, matches) == Some(next)
  {
    hide Good;
    if rs != [] {
      LinearFindAt(rs, |rs| - 1);
    }
    LinearFindLonger(rs, r, n);
    if rs != [] && rs[|rs| - 1].integer < r.integer {
      BelowTip(rs, r.integer);
    }
  }

  lemma BelowTip(rs: seq<Entry>, n: u64)
    requires IntegersAscend(rs) && rs != [] && rs[|rs| - 1].integer < n
    ensures LinearFind(rs, n) == None
  {
    forall k | 0 <= k < |rs|
      ensures rs[k].integer != n
    {
      if k < |rs| - 1 {
        AscendOrders(rs, k, |rs| - 1);
      }
    }
    LinearFindNone(rs, n);
  }

  /** In a sorted store a range is a slice. */
  lemma {:induction false} RangeIsSlice(rs: seq<Entry>, low: u64, high: u64, i: nat, j: nat)
    requires i <= j <= |rs|
    requires forall k :: 0 <= k < i ==> rs[k].integer < low
    requires forall k :: i <= k < j ==> low <= rs[k].integer <= high
    requires forall k :: j <= k < |rs| ==> rs[k].integer > high
    ensures LinearRange(rs, low, high) == rs[i..j]
  {
    if rs != [] {
      var n := |rs| - 1;
      var init, last := rs[..n], rs[n];
      if j <= n {
        RangeIsSlice(init, low, high, i, j);
        assert last.integer > high;
        SliceOfPrefix(rs, i, j, n);
      } else if i <= n {
        RangeIsSlice(init, low, high, i, n);
        SliceOfPrefix(rs, i, n, n);
        assert rs[i..n] + [last] == rs[i..j];
      } else {
        RangeIsSlice(init, low, high, n, n);
        assert last.integer < low && rs[i..j] == [];
      }
    }
  }

  lemma SliceOfPrefix<T>(s: seq<T>, i: nat, j: nat, n: nat)
    requires i <= j <= n <= |s|
    ensures s[..n][i..j] == s[i..j]
  {
  }

  // ---------------------------------------------------------------- reading at a place

  function ReadAt(store: Bytes, offset: nat, matches: Entry -> bool): Option<Entry> {
    if offset > |store| then None
    else
      var l := LookAt(store[offset..], matches);
      if l.Found? then Some(l.record) else None
  }

  lemma ReadsRecord(rs: seq<Entry>, i: nat, matches: Entry -> bool)
    requires AllGood(rs, matches) && i < |rs|
    ensures ReadAt(EncodeAll(rs), PlacesOf(rs)[i].offset, matches) == Some(rs[i])
  {
    hide EncodeAll, Encode, LookAt;
    AtPlace(rs, i);
    LookAtEncoded(rs[i], EncodeAll(rs[i + 1..]), matches);
  }

  /** std::lower_bound over the index. */
  method LowerBound(ps: seq<Place>, n: u64) returns (i: nat)
    requires forall j, k :: 0 <= j < k < |ps| ==> ps[j].integer < ps[k].integer
    ensures i <= |ps|
    ensures forall k :: 0 <= k < i ==> ps[k].integer < n
    ensures forall k :: i <= k < |ps| ==> ps[k].integer >= n
  {
    var low, high := 0, |ps|;
    while low < high
      invariant 0 <= low <= high <= |ps|
      invariant forall k :: 0 <= k < low ==> ps[k].integer < n
      invariant forall k :: high <= k < |ps| ==> ps[k].integer >= n
    {
      var mid := (low + high) / 2;
      if ps[mid].integer < n {
        low := mid + 1;
      } else {
        high := mid;
      }
    }
    i := low;
  }

  lemma PlacesName(rs: seq<Entry>)
    ensures forall k :: 0 <= k < |rs| ==> PlacesOf(rs)[k].integer == rs[k].integer
  {
  }

  lemma PlacesOrdered(rs: seq<Entry>)
    requires IntegersAscend(rs)
    ensures forall j, k :: 0 <= j < k < |PlacesOf(rs)| ==> PlacesOf(rs)[j].integer < PlacesOf(rs)[k].integer
  {
    forall j, k | 0 <= j < k < |rs|
      ensures rs[j].integer < rs[k].integer
    {
      AscendOrders(rs, j, k);
    }
  }

  lemma RangeFound(rs: seq<Entry>, low: u64, high: u64, first: nat, end: nat)
    requires IntegersAscend(rs) && first <= end <= |rs|
    requires forall k :: 0 <= k < first ==> PlacesOf(rs)[k].integer < low
    requires forall k :: first <= k < |rs| ==> PlacesOf(rs)[k].integer >= low
    requires forall k :: first <= k < end ==> rs[k].integer <= high
    requires end < |rs| ==> rs[end].integer > high
    ensures LinearRange(rs, low, high) == rs[first..end]
  {
    assert forall k :: 0 <= k < |rs| ==> rs[k].integer == PlacesOf(rs)[k].integer;
    forall k | end <= k < |rs|
      ensures rs[k].integer > high
    {
      if end < k {
        AscendOrders(rs, end, k);
      }
    }
    RangeIsSlice(rs, low, high, first, end);
  }

  class Store {
    var data: Bytes
    var index: Option<Bytes>

    function Value(): Disk
      reads this
    {
      Disk(data, index)
    }

    constructor ()
      ensures Value() == Disk([], None)
    {
      data, index := [], None;
    }

    /** Brings the index in step with the data, cutting an incomplete tail if there is one. */
    method PrepareIndex(matches: Entry -> bool) returns (places: Option<seq<Place>>)
      modifies this
      ensures var p := Prepare(old(Value()), matches);
              if p.Prepared? then places == Some(p.places) && Value() == p.disk
              else places == None && Value() == old(Value())
    {
      hide LoadIndex, ScanFrom, IndexBytes;
      if index.Some? {
        places := LoadIndex(index.value, data);
        if places.Some? {
          return;
        }
      }
      var s := ScanStore(data, matches);
      if s.Corrupt? {
        return None;
      }
      if s.tail && s.valid <= |data| {
        data := data[..s.valid];
      }
      index := Some(IndexBytes(|data|, s.places));
      places := Some(s.places);
    }

    /** Lookup through the index finds what looking at every record finds. */
    method FindByInteger(n: u64, matches: Entry -> bool, ghost rs: seq<Entry>) returns (r: Option<Entry>)
      requires Holds(Value(), rs, matches)
      modifies this
      ensures r == LinearFind(rs, n) && Clean(Value(), rs, matches)
    {
      hide EncodeAll, ScanFrom, LoadIndex, IndexBytes, LookAt, LinearFind, ReadAt, IntegersAscend, PlacesOf;
      var places := PrepareIndex(matches);
      var ps := places.value;
      assert data == EncodeAll(rs) && ps == PlacesOf(rs);
      PlacesOrdered(rs);
      PlacesName(rs);
      var i := LowerBound(ps, n);
      if i == |ps| || ps[i].integer != n {
        LinearFindNone(rs, n);
        return None;
      }
      ReadsRecord(rs, i, matches);
      LinearFindAt(rs, i);
      r := ReadAt(data, ps[i].offset, matches);
    }

    /** A range read through the index is the range of a full scan. */
    method FindRange(low: u64, high: u64, matches: Entry -> bool, ghost rs: seq<Entry>) returns (out: seq<Entry>)
      requires Holds(Value(), rs, matches)
      modifies this
      ensures out == LinearRange(rs, low, high) && Holds(Value(), rs, matches)
      ensures low <= high ==> Clean(Value(), rs, matches)
    {
      hide EncodeAll, ScanFrom, LoadIndex, IndexBytes, LookAt;
      if low > high {
        EmptyRange(rs, low, high);
        return [];
      }
      var places := PrepareIndex(matches);
      var ps := places.value;
      assert data == EncodeAll(rs) && ps == PlacesOf(rs);
      PlacesOrdered(rs);
      var first := LowerBound(ps, low);
      out := ReadUpTo(ps, first, high, matches, rs);
      RangeFound(rs, low, high, first, first + |out|);
      CleanHolds(Value(), rs, matches);
    }

    /** Reads records from one place on, up to the integer `high`. */
    method ReadUpTo(ps: seq<Place>, first: nat, high: u64, matches: Entry -> bool, ghost rs: seq<Entry>)
      returns (out: seq<Entry>)
      requires AllGood(rs, matches) && data == EncodeAll(rs) && ps == PlacesOf(rs) && first <= |ps|
      ensures first + |out| <= |rs| && out == rs[first..first + |out|]
      ensures forall k :: first <= k < first + |out| ==> rs[k].integer <= high
      ensures first + |out| < |rs| ==> rs[first + |out|].integer > high
    {
      hide EncodeAll, LookAt, ReadAt;
      out := [];
      var i := first;
      while i < |ps| && ps[i].integer <= high
        invariant first <= i <= |ps| && |out| == i - first && out == rs[first..i]
        invariant forall k :: first <= k < i ==> rs[k].integer <= high
      {
        ReadsRecord(rs, i, matches);
        var r := ReadAt(data, ps[i].offset, matches);
        out := out + [r.value];
        i := i + 1;
      }
    }

    /** append, when nothing fails: refuses bad records and records out of order, accepts a
        repeated tip without writing it again. */
    method Append(r: Entry, matches: Entry -> bool, ghost rs: seq<Entry>) returns (ok: bool)
      requires Holds(Value(), rs, matches) && |EncodeAll(rs)| + HEADER_BYTES + |r.payload| < TWO_64
      modifies this
      ensures ok <==> StoreAppend(rs, r, matches).Some?
      ensures Holds(Value(), if ok then StoreAppend(rs, r, matches).value else rs, matches)
    {
      hide EncodeAll, Encode, ScanFrom, LoadIndex, LookAt, PlacesOf, PlacesBytes;
      if !Good(r, matches) {
        return false;
      }
      var places := PrepareIndex(matches);
      var ps := places.value;
      CleanHolds(Value(), rs, matches);
      if ps != [] {
        ReadsRecord(rs, |rs| - 1, matches);
        var latest := ReadAt(data, ps[|ps| - 1].offset, matches);
        if latest.value.integer == r.integer && latest.value.hash == r.hash {
          return true;
        }
        if latest.value.integer >= r.integer {
          return false;
        }
      }
      EncodeAllAppend(rs, r);
      PlacesAppend(rs, r);
      var entry := Place(r.integer, |data|);
      data := data + Encode(r);
      index := Some(IndexHeader(|data|, |ps| + 1) + (PlacesBytes(ps) + PlaceBytes(entry)));
      CleanHolds(Value(), rs + [r], matches);
      return true;
    }
  }
}
