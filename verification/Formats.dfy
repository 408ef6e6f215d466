/**
 Binary formats: a printer and a parser that are inverse to each other. The formats of the
 records are put together from these.
 */
module Formats {
  import opened Machine
  import opened Records

  /** `parse` returns the value and the bytes after it. `valid` tells the values the parser
      can return. `holds` tells the values there are in memory: sizes below 2^64, one byte per
      character, and fields that are not written at their defaults. */
  datatype Format<!T> = Format(
    render: T -> Bytes,
    parse: Bytes -> Option<(T, Bytes)>,
    valid: T -> bool,
    holds: T -> bool)

  /** Parsing what was printed gives the value back, whatever follows, or refuses it when it
      is out of bounds. It never gives another value. */
  ghost predicate ReadsBack<T(!new)>(f: Format<T>) {
    && (forall t {:trigger f.valid(t)} {:trigger f.holds(t)} :: f.valid(t) ==> f.holds(t))
    && (forall t, rest: Bytes {:trigger f.parse(f.render(t) + rest)} ::
          f.holds(t) ==> f.parse(f.render(t) + rest) == if f.valid(t) then Some((t, rest)) else None)
  }

  /** Whatever parses is what its value prints to: the encoding is canonical. */
  ghost predicate Canonical<T(!new)>(f: Format<T>) {
    forall b: Bytes {:trigger f.parse(b)} :: f.parse(b).Some? ==>
      f.valid(f.parse(b).value.0) && b == f.render(f.parse(b).value.0) + f.parse(b).value.1
  }

  ghost predicate Lawful<T(!new)>(f: Format<T>) {
    ReadsBack(f) && Canonical(f)
  }

  lemma ReadBack<T(!new)>(f: Format<T>, t: T, rest: Bytes)
    requires Lawful(f) && f.valid(t)
    ensures f.parse(f.render(t) + rest) == Some((t, rest))
  {
  }

  lemma ValidHolds<T(!new)>(f: Format<T>, t: T)
    requires Lawful(f) && f.valid(t)
    ensures f.holds(t)
  {
  }

  lemma Decides<T(!new)>(f: Format<T>, t: T, rest: Bytes)
    requires Lawful(f) && f.holds(t)
    ensures f.parse(f.render(t) + rest) == if f.valid(t) then Some((t, rest)) else None
  {
  }

  // ---------------------------------------------------------------- integers

  /** The n low bytes, least significant first. */
  function LittleEndian(value: nat, n: nat): (b: Bytes)
    ensures |b| == n
  {
    if n == 0 then [] else [value % 256] + LittleEndian(value / 256, n - 1)
  }

  function Value(b: Bytes): nat {
    if b == [] then 0 else b[0] + 256 * Value(b[1..])
  }

  ghost function Power256(n: nat): nat {
    if n == 0 then 1 else 256 * Power256(n - 1)
  }

  lemma {:induction false} ValueOfPrinted(value: nat, n: nat)
    requires value < Power256(n)
    ensures Value(LittleEndian(value, n)) == value
  {
    if n > 0 {
      ValueOfPrinted(value / 256, n - 1);
      assert LittleEndian(value, n)[1..] == LittleEndian(value / 256, n - 1);
    }
  }

  lemma {:induction false} PrintedValue(b: Bytes)
    ensures Value(b) < Power256(|b|) && LittleEndian(Value(b), |b|) == b
  {
    if b != [] {
      PrintedValue(b[1..]);
      var low, high := b[0], Value(b[1..]);
      assert Value(b) == low + 256 * high;
      assert Value(b) % 256 == low && Value(b) / 256 == high;
      assert b == [b[0]] + b[1..];
    }
  }

  lemma EightBytes()
    ensures Power256(8) == TWO_64
  {
    assert Power256(2) == 65536;
    assert Power256(4) == 65536 * 65536;
    assert Power256(6) == 65536 * 65536 * 65536;
  }

  const WORD: Format<u64> := Format(
    (v: u64) => LittleEndian(v, 8),
    (b: Bytes) => if |b| < 8 then None else Some((ToWord(b[..8]), b[8..])),
    (v: u64) => true,
    (v: u64) => true)

  function ToWord(b: Bytes): u64
    requires |b| == 8
  {
    PrintedValue(b);
    EightBytes();
    Value(b)
  }

  lemma WordLawful()
    ensures Lawful(WORD)
  {
    EightBytes();
    forall v: u64, rest: Bytes
      ensures WORD.parse(WORD.render(v) + rest) == Some((v, rest))
    {
      ValueOfPrinted(v, 8);
      var b := LittleEndian(v, 8) + rest;
      assert b[..8] == LittleEndian(v, 8) && b[8..] == rest;
    }
    forall b: Bytes | |b| >= 8
      ensures b == LittleEndian(ToWord(b[..8]), 8) + b[8..]
    {
      PrintedValue(b[..8]);
    }
  }

  // ---------------------------------------------------------------- bytes

  const DIGEST: Format<Hash256> := Format(
    (h: Hash256) => h,
    (b: Bytes) => if |b| < 32 then None else Some((b[..32], b[32..])),
    (h: Hash256) => true,
    (h: Hash256) => true)

  lemma DigestLawful()
    ensures Lawful(DIGEST)
  {
    forall h: Hash256, rest: Bytes
      ensures DIGEST.parse(DIGEST.render(h) + rest) == Some((h, rest))
    {
      var b := h + rest;
      assert b[..32] == h && b[32..] == rest;
    }
  }

  /** Length-prefixed bytes. */
  const BLOB: Format<Bytes> := Format(
    (data: Bytes) => LittleEndian(|data|, 8) + data,
    (b: Bytes) => ParseBlob(b),
    (data: Bytes) => |data| < TWO_64,
    (data: Bytes) => |data| < TWO_64)

  function ParseBlob(b: Bytes): Option<(Bytes, Bytes)> {
    var size := WORD.parse(b);
    if size.None? || size.value.0 > |size.value.1| then None
    else Some((size.value.1[..size.value.0], size.value.1[size.value.0..]))
  }

  lemma BlobLawful()
    ensures Lawful(BLOB)
  {
    WordLawful();
    forall data: Bytes, rest: Bytes | |data| < TWO_64
      ensures BLOB.parse(BLOB.render(data) + rest) == Some((data, rest))
    {
      assert LittleEndian(|data|, 8) + data + rest == WORD.render(|data|) + (data + rest);
      ReadBack(WORD, |data|, data + rest);
      assert (data + rest)[..|data|] == data && (data + rest)[|data|..] == rest;
    }
    forall b: Bytes | BLOB.parse(b).Some?
      ensures BLOB.valid(BLOB.parse(b).value.0) && b == BLOB.render(BLOB.parse(b).value.0) + BLOB.parse(b).value.1
    {
      var size, tail := WORD.parse(b).value.0, WORD.parse(b).value.1;
      assert b == WORD.render(size) + tail;
      assert tail == tail[..size] + tail[size..];
      assert |tail[..size]| == size;
    }
  }

  // ---------------------------------------------------------------- combinators

  function RawPair<A, B>(f: Format<A>, g: Format<B>): Format<(A, B)> {
    Format(
      (p: (A, B)) => f.render(p.0) + g.render(p.1),
      (b: Bytes) => ParsePair(f, g, b),
      (p: (A, B)) => f.valid(p.0) && g.valid(p.1),
      (p: (A, B)) => f.holds(p.0) && g.holds(p.1))
  }

  function ParsePair<A, B>(f: Format<A>, g: Format<B>, b: Bytes): Option<((A, B), Bytes)> {
    var first := f.parse(b);
    if first.None? then None
    else
      var second := g.parse(first.value.1);
      if second.None? then None else Some(((first.value.0, second.value.0), second.value.1))
  }

  lemma PairLawful<A(!new), B(!new)>(f: Format<A>, g: Format<B>)
    requires Lawful(f) && Lawful(g)
    ensures Lawful(RawPair(f, g))
  {
    var h := RawPair(f, g);
    forall p: (A, B) | h.valid(p)
      ensures h.holds(p)
    {
      ValidHolds(f, p.0);
      ValidHolds(g, p.1);
    }
    forall p: (A, B), rest: Bytes | h.holds(p)
      ensures h.parse(h.render(p) + rest) == if h.valid(p) then Some((p, rest)) else None
    {
      assert f.render(p.0) + g.render(p.1) + rest == f.render(p.0) + (g.render(p.1) + rest);
      Decides(f, p.0, g.render(p.1) + rest);
      Decides(g, p.1, rest);
    }
    forall b: Bytes | h.parse(b).Some?
      ensures h.valid(h.parse(b).value.0) && b == h.render(h.parse(b).value.0) + h.parse(b).value.1
    {
      var first := f.parse(b).value;
      var second := g.parse(first.1).value;
      assert b == f.render(first.0) + (g.render(second.0) + second.1);
    }
  }

  /** The format of the second part depends on the first. */
  function RawThen<A, B>(f: Format<A>, g: A -> Format<B>): Format<(A, B)> {
    Format(
      (p: (A, B)) => f.render(p.0) + g(p.0).render(p.1),
      (b: Bytes) => ParseThen(f, g, b),
      (p: (A, B)) => f.valid(p.0) && g(p.0).valid(p.1),
      (p: (A, B)) => f.holds(p.0) && g(p.0).holds(p.1))
  }

  function ParseThen<A, B>(f: Format<A>, g: A -> Format<B>, b: Bytes): Option<((A, B), Bytes)> {
    var first := f.parse(b);
    if first.None? then None
    else
      var second := g(first.value.0).parse(first.value.1);
      if second.None? then None else Some(((first.value.0, second.value.0), second.value.1))
  }

  lemma ThenLawful<A(!new), B(!new)>(f: Format<A>, g: A -> Format<B>)
    requires Lawful(f) && forall a: A :: Lawful(g(a))
    ensures Lawful(RawThen(f, g))
  {
    var h := RawThen(f, g);
    forall p: (A, B) | h.valid(p)
      ensures h.holds(p)
    {
      assert Lawful(g(p.0));
    }
    forall p: (A, B), rest: Bytes | h.holds(p)
      ensures h.parse(h.render(p) + rest) == if h.valid(p) then Some((p, rest)) else None
    {
      assert Lawful(g(p.0));
      assert f.render(p.0) + g(p.0).render(p.1) + rest == f.render(p.0) + (g(p.0).render(p.1) + rest);
      Decides(f, p.0, g(p.0).render(p.1) + rest);
      Decides(g(p.0), p.1, rest);
    }
    forall b: Bytes | h.parse(b).Some?
      ensures h.valid(h.parse(b).value.0) && b == h.render(h.parse(b).value.0) + h.parse(b).value.1
    {
      var first := f.parse(b).value;
      assert Lawful(g(first.0));
      var second := g(first.0).parse(first.1).value;
      assert b == f.render(first.0) + (g(first.0).render(second.0) + second.1);
    }
  }

  /** The same bytes for another type. */
  function RawMap<A, B(==)>(f: Format<A>, to: A -> B, from: B -> A): Format<B> {
    Format(
      (t: B) => f.render(from(t)),
      (b: Bytes) => var r := f.parse(b); if r.None? then None else Some((to(r.value.0), r.value.1)),
      (t: B) => f.valid(from(t)) && to(from(t)) == t,
      (t: B) => f.holds(from(t)) && to(from(t)) == t)
  }

  lemma MapLawful<A(!new), B(!new)>(f: Format<A>, to: A -> B, from: B -> A)
    requires Lawful(f) && forall a: A :: f.valid(a) ==> from(to(a)) == a
    ensures Lawful(RawMap(f, to, from))
  {
    var h := RawMap(f, to, from);
    forall b: Bytes | h.parse(b).Some?
      ensures h.valid(h.parse(b).value.0) && b == h.render(h.parse(b).value.0) + h.parse(b).value.1
    {
      var r := f.parse(b).value;
      assert from(to(r.0)) == r.0;
    }
  }

  /** A field that is not written and reads as its default. */
  function Absent<T(==)>(default: T): Format<T> {
    Format((t: T) => [], (b: Bytes) => Some((default, b)), (t: T) => t == default, (t: T) => t == default)
  }

  /** A field that is written only from some version on. */
  function RawWhen<T(==)>(present: bool, f: Format<T>, default: T): Format<T> {
    if present then f else Absent(default)
  }

  lemma WhenLawful<T(!new)>(present: bool, f: Format<T>, default: T)
    requires Lawful(f)
    ensures Lawful(RawWhen(present, f, default))
  {
    var h := RawWhen(present, f, default);
    if !present {
      forall rest: Bytes
        ensures h.parse([] + rest) == Some((default, rest))
      {
        assert [] + rest == rest;
      }
      forall b: Bytes
        ensures b == h.render(default) + b
      {
      }
    }
  }

  /** A field with a fixed value, such as a tag. */
  function RawOnly<T(==)>(f: Format<T>, value: T): Format<T> {
    Format(
      f.render,
      (b: Bytes) => var r := f.parse(b); if r.Some? && r.value.0 == value then r else None,
      (t: T) => f.valid(t) && t == value,
      f.holds)
  }

  lemma OnlyLawful<T(!new)>(f: Format<T>, value: T)
    requires Lawful(f)
    ensures Lawful(RawOnly(f, value))
  {
  }

  /** A field with a checked property, such as a size limit. */
  function RawWhere<T>(f: Format<T>, ok: T -> bool): Format<T> {
    Format(
      f.render,
      (b: Bytes) => var r := f.parse(b); if r.Some? && ok(r.value.0) then r else None,
      (t: T) => f.valid(t) && ok(t),
      f.holds)
  }

  lemma WhereLawful<T(!new)>(f: Format<T>, ok: T -> bool)
    requires Lawful(f)
    ensures Lawful(RawWhere(f, ok))
  {
  }

  // ---------------------------------------------------------------- text

  function Chars(b: Bytes): string {
    seq(|b|, i requires 0 <= i < |b| => b[i] as char)
  }

  function CharBytes(s: string): Bytes {
    seq(|s|, i requires 0 <= i < |s| => if s[i] < 256 as char then s[i] as int else 0)
  }

  /** Length-prefixed text, one byte per character. */
  const TEXT: Format<string> := RawMap(BLOB, Chars, CharBytes)

  lemma TextLawful()
    ensures Lawful(TEXT)
  {
    BlobLawful();
    forall b: Bytes
      ensures CharBytes(Chars(b)) == b
    {
    }
    MapLawful(BLOB, Chars, CharBytes);
  }

  // ---------------------------------------------------------------- lists

  function PrintAll<T>(f: Format<T>, ts: seq<T>): Bytes {
    if ts == [] then [] else f.render(ts[0]) + PrintAll(f, ts[1..])
  }

  function ParseMany<T>(f: Format<T>, n: nat, b: Bytes): Option<(seq<T>, Bytes)> {
    if n == 0 then Some(([], b))
    else
      var first := f.parse(b);
      if first.None? then None
      else
        var others := ParseMany(f, n - 1, first.value.1);
        if others.None? then None else Some(([first.value.0] + others.value.0, others.value.1))
  }

  function ParseList<T>(f: Format<T>, limit: nat, b: Bytes): Option<(seq<T>, Bytes)> {
    var count := WORD.parse(b);
    if count.None? || count.value.0 > limit then None else ParseMany(f, count.value.0, count.value.1)
  }

  /** A count, at most `limit`, and that many items. */
  function RawList<T>(f: Format<T>, limit: nat): Format<seq<T>> {
    Format(
      (ts: seq<T>) => LittleEndian(|ts|, 8) + PrintAll(f, ts),
      (b: Bytes) => ParseList(f, limit, b),
      (ts: seq<T>) => |ts| <= limit && forall i :: 0 <= i < |ts| ==> f.valid(ts[i]),
      (ts: seq<T>) => |ts| < TWO_64 && forall i :: 0 <= i < |ts| ==> f.holds(ts[i]))
  }

  predicate AllValid<T>(f: Format<T>, ts: seq<T>) {
    forall i :: 0 <= i < |ts| ==> f.valid(ts[i])
  }

  lemma {:induction false} ManyReadBack<T(!new)>(f: Format<T>, ts: seq<T>, rest: Bytes)
    requires Lawful(f) && forall i :: 0 <= i < |ts| ==> f.holds(ts[i])
    ensures ParseMany(f, |ts|, PrintAll(f, ts) + rest) == if AllValid(f, ts) then Some((ts, rest)) else None
  {
    if ts == [] {
      assert PrintAll(f, ts) + rest == rest;
    } else {
      ManyReadBack(f, ts[1..], rest);
      assert PrintAll(f, ts) + rest == f.render(ts[0]) + (PrintAll(f, ts[1..]) + rest);
      Decides(f, ts[0], PrintAll(f, ts[1..]) + rest);
      assert [ts[0]] + ts[1..] == ts;
      assert AllValid(f, ts) <==> f.valid(ts[0]) && AllValid(f, ts[1..]) by {
        if f.valid(ts[0]) && AllValid(f, ts[1..]) {
          forall i | 0 <= i < |ts|
            ensures f.valid(ts[i])
          {
            assert i > 0 ==> ts[i] == ts[1..][i - 1];
          }
        }
      }
    }
  }

  lemma {:induction false} ManyCanonical<T(!new)>(f: Format<T>, n: nat, b: Bytes)
    requires Lawful(f) && ParseMany(f, n, b).Some?
    ensures var (ts, rest) := ParseMany(f, n, b).value;
            |ts| == n && (forall i :: 0 <= i < |ts| ==> f.valid(ts[i])) && b == PrintAll(f, ts) + rest
  {
    if n > 0 {
      var first := f.parse(b).value;
      ManyCanonical(f, n - 1, first.1);
      var (others, rest) := ParseMany(f, n - 1, first.1).value;
      var ts := [first.0] + others;
      assert ts[1..] == others;
      assert b == f.render(first.0) + (PrintAll(f, others) + rest);
    }
  }

  lemma ListReadBack<T(!new)>(f: Format<T>, limit: nat, ts: seq<T>, rest: Bytes)
    requires Lawful(f) && limit < TWO_64 && |ts| < TWO_64 && forall i :: 0 <= i < |ts| ==> f.holds(ts[i])
    ensures ParseList(f, limit, LittleEndian(|ts|, 8) + PrintAll(f, ts) + rest)
         == if |ts| <= limit && AllValid(f, ts) then Some((ts, rest)) else None
  {
    var tail := PrintAll(f, ts) + rest;
    var b := LittleEndian(|ts|, 8) + PrintAll(f, ts) + rest;
    assert b == LittleEndian(|ts|, 8) + tail;
    CountReadBack(|ts|, tail);
    ManyReadBack(f, ts, rest);
  }

  lemma CountReadBack(n: nat, tail: Bytes)
    requires n < TWO_64
    ensures WORD.parse(LittleEndian(n, 8) + tail) == Some((n, tail))
  {
    WordLawful();
    ReadBack(WORD, n, tail);
  }

  lemma ListCanonical<T(!new)>(f: Format<T>, limit: nat, b: Bytes)
    requires Lawful(f) && ParseList(f, limit, b).Some?
    ensures var (ts, rest) := ParseList(f, limit, b).value;
            && |ts| <= limit && (forall i :: 0 <= i < |ts| ==> f.valid(ts[i]))
            && b == LittleEndian(|ts|, 8) + PrintAll(f, ts) + rest
  {
    WordLawful();
    var (count, tail) := WORD.parse(b).value;
    assert b == WORD.render(count) + tail;
    ManyCanonical(f, count, tail);
    var (ts, rest) := ParseMany(f, count, tail).value;
    assert LittleEndian(count, 8) + (PrintAll(f, ts) + rest) == LittleEndian(count, 8) + PrintAll(f, ts) + rest;
  }

  lemma ListLawful<T(!new)>(f: Format<T>, limit: nat)
    requires Lawful(f) && limit < TWO_64
    ensures Lawful(RawList(f, limit))
  {
    var h := RawList(f, limit);
    forall ts: seq<T>, rest: Bytes | h.holds(ts)
      ensures h.parse(h.render(ts) + rest) == if h.valid(ts) then Some((ts, rest)) else None
    {
      ListReadBack(f, limit, ts, rest);
    }
    forall b: Bytes | h.parse(b).Some?
      ensures h.valid(h.parse(b).value.0) && b == h.render(h.parse(b).value.0) + h.parse(b).value.1
    {
      ListCanonical(f, limit, b);
    }
  }

  // ---------------------------------------------------------------- whole inputs

  /** A value that must take up all the bytes. */
  function ParseAll<T>(f: Format<T>, b: Bytes): Option<T> {
    var r := f.parse(b);
    if r.Some? && r.value.1 == [] then Some(r.value.0) else None
  }

  lemma AllReadsBack<T(!new)>(f: Format<T>, t: T)
    requires Lawful(f) && f.valid(t)
    ensures ParseAll(f, f.render(t)) == Some(t)
  {
    assert f.render(t) + [] == f.render(t);
  }

  /** Over a whole input nothing else can come out than the value printed. */
  lemma AllDecides<T(!new)>(f: Format<T>, t: T)
    requires Lawful(f) && f.holds(t)
    ensures ParseAll(f, f.render(t)) == if f.valid(t) then Some(t) else None
  {
    assert f.render(t) + [] == f.render(t);
    Decides(f, t, []);
  }

  lemma AllCanonical<T(!new)>(f: Format<T>, b: Bytes)
    requires Lawful(f) && ParseAll(f, b).Some?
    ensures f.valid(ParseAll(f, b).value) && f.render(ParseAll(f, b).value) == b
  {
    assert b == f.render(ParseAll(f, b).value) + [];
  }

  /** A value of its own inside length-prefixed bytes. */
  function RawNested<T>(f: Format<T>): Format<T> {
    Format(
      (t: T) => BLOB.render(f.render(t)),
      (b: Bytes) => ParseNested(f, b),
      (t: T) => f.valid(t) && |f.render(t)| < TWO_64,
      (t: T) => f.holds(t) && |f.render(t)| < TWO_64)
  }

  function ParseNested<T>(f: Format<T>, b: Bytes): Option<(T, Bytes)> {
    var data := BLOB.parse(b);
    if data.None? then None
    else
      var t := ParseAll(f, data.value.0);
      if t.None? then None else Some((t.value, data.value.1))
  }

  lemma NestedLawful<T(!new)>(f: Format<T>)
    requires Lawful(f)
    ensures Lawful(RawNested(f))
  {
    BlobLawful();
    var h := RawNested(f);
    forall t: T, rest: Bytes | h.holds(t)
      ensures h.parse(h.render(t) + rest) == if h.valid(t) then Some((t, rest)) else None
    {
      ReadBack(BLOB, f.render(t), rest);
      AllDecides(f, t);
    }
    forall b: Bytes | h.parse(b).Some?
      ensures h.valid(h.parse(b).value.0) && b == h.render(h.parse(b).value.0) + h.parse(b).value.1
    {
      AllCanonical(f, BLOB.parse(b).value.0);
    }
  }

  // ---------------------------------------------------------------- lawful formats

  function Word(): (f: Format<u64>)
    ensures Lawful(f)
  {
    WordLawful();
    WORD
  }

  function Digest(): (f: Format<Hash256>)
    ensures Lawful(f)
  {
    DigestLawful();
    DIGEST
  }

  function Blob(): (f: Format<Bytes>)
    ensures Lawful(f)
  {
    BlobLawful();
    BLOB
  }

  function Text(): (f: Format<string>)
    ensures Lawful(f)
  {
    TextLawful();
    TEXT
  }

  function Pair<A(!new), B(!new)>(f: Format<A>, g: Format<B>): (h: Format<(A, B)>)
    requires Lawful(f) && Lawful(g)
    ensures Lawful(h)
  {
    PairLawful(f, g);
    RawPair(f, g)
  }

  function Then<A(!new), B(!new)>(f: Format<A>, g: A -> Format<B>): (h: Format<(A, B)>)
    requires Lawful(f) && forall a: A :: Lawful(g(a))
    ensures Lawful(h)
  {
    ThenLawful(f, g);
    RawThen(f, g)
  }

  function Map<A(!new), B(==, !new)>(f: Format<A>, to: A -> B, from: B -> A): (h: Format<B>)
    requires Lawful(f) && forall a: A :: from(to(a)) == a
    ensures Lawful(h)
  {
    MapLawful(f, to, from);
    RawMap(f, to, from)
  }

  /** Like Map, where only the valid values correspond. */
  function Select<A(!new), B(==, !new)>(f: Format<A>, to: A -> B, from: B -> A): (h: Format<B>)
    requires Lawful(f) && forall a: A :: f.valid(a) ==> from(to(a)) == a
    ensures Lawful(h)
  {
    MapLawful(f, to, from);
    RawMap(f, to, from)
  }

  function When<T(==, !new)>(present: bool, f: Format<T>, default: T): (h: Format<T>)
    requires Lawful(f)
    ensures Lawful(h)
  {
    WhenLawful(present, f, default);
    RawWhen(present, f, default)
  }

  function Only<T(==, !new)>(f: Format<T>, value: T): (h: Format<T>)
    requires Lawful(f)
    ensures Lawful(h)
  {
    OnlyLawful(f, value);
    RawOnly(f, value)
  }

  function Where<T(!new)>(f: Format<T>, ok: T -> bool): (h: Format<T>)
    requires Lawful(f)
    ensures Lawful(h)
  {
    WhereLawful(f, ok);
    RawWhere(f, ok)
  }

  function ListOf<T(!new)>(f: Format<T>, limit: nat): (h: Format<seq<T>>)
    requires Lawful(f) && limit < TWO_64
    ensures Lawful(h)
  {
    ListLawful(f, limit);
    RawList(f, limit)
  }

  function Nested<T(!new)>(f: Format<T>): (h: Format<T>)
    requires Lawful(f)
    ensures Lawful(h)
  {
    NestedLawful(f);
    RawNested(f)
  }
}
