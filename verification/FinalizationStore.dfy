/**
 The file through which a validator's votes and locks survive a restart
 (src/storage/finalization_store.cpp).
 */
module FinalizationStore {
  import opened Machine
  import opened Addresses
  import opened Records
  import opened Formats
  import opened FieldLayouts
  import opened RecordWriter

  const MAGIC_V1: u64 := 0x31544f5643464350
  const MAGIC_V2: u64 := 0x32544f5643464350
  const MAX_FIELD := 16 * 1024 * 1024

  datatype SignedVote = SignedVote(
    integer: u64, kind: string, payload: Bytes,
    validator: Address, publicKey: Bytes, target: Hash256, round: u64, signature: Bytes)

  function ShortBytes(): (f: Format<Bytes>)
    ensures Lawful(f)
  {
    Where(Blob(), (b: Bytes) => |b| <= MAX_FIELD)
  }

  function ShortText(): (f: Format<string>)
    ensures Lawful(f)
  {
    Where(Text(), (t: string) => |t| <= MAX_FIELD)
  }

  function AddressField(): (f: Format<Address>)
    ensures Lawful(f)
  {
    Where(Text(), (a: Address) => 1 <= |a| <= MAX_FIELD)
  }

  type Parts = (u64, (u64, (string, (Bytes, (Address, (Bytes, (Hash256, (u64, Bytes))))))))

  /** One record. The first version has no candidate. */
  function VoteFormat(magic: u64): (f: Format<SignedVote>)
    ensures Lawful(f)
  {
    var candidate := magic == MAGIC_V2;
    Select(
      Pair(Only(Word(), magic), Pair(Word(), Pair(When(candidate, ShortText(), ""), Pair(When(candidate, ShortBytes(), []),
        Pair(AddressField(), Pair(ShortBytes(), Pair(Digest(), Pair(Word(), ShortBytes())))))))),
      (p: Parts) =>
        SignedVote(p.1.0, p.1.1.0, p.1.1.1.0, p.1.1.1.1.0, p.1.1.1.1.1.0, p.1.1.1.1.1.1.0, p.1.1.1.1.1.1.1.0, p.1.1.1.1.1.1.1.1),
      (x: SignedVote) =>
        (magic, (x.integer, (x.kind, (x.payload, (x.validator, (x.publicKey, (x.target, (x.round, x.signature)))))))))
  }

  /** What replaceAll agrees to write. */
  predicate Writable(x: SignedVote) {
    VoteFormat(MAGIC_V2).valid(x)
  }

  function FileOf(f: Format<SignedVote>, xs: seq<SignedVote>): Bytes {
    if xs == [] then [] else f.render(xs[0]) + FileOf(f, xs[1..])
  }

  /** A whole file: records until fewer than eight bytes are left. */
  function LoadFile(v1: Format<SignedVote>, v2: Format<SignedVote>, b: Bytes): (xs: Option<seq<SignedVote>>)
    decreases |b|
  {
    if |b| < 8 then Some([])
    else
      var second := v2.parse(b);
      var r := if second.Some? then second else v1.parse(b);
      if r.None? || |r.value.1| >= |b| then None
      else
        var others := LoadFile(v1, v2, r.value.1);
        if others.None? then None else Some([r.value.0] + others.value)
  }

  /** A record takes up at least its magic number. */
  ghost predicate TakesSpace(f: Format<SignedVote>) {
    forall x {:trigger f.render(x)} :: |f.render(x)| >= 8
  }

  lemma RendersMagic(magic: u64)
    ensures TakesSpace(VoteFormat(magic))
  {
    forall x: SignedVote
      ensures |VoteFormat(magic).render(x)| >= 8
    {
      MagicFirst(magic, x);
    }
  }

  lemma MagicFirst(magic: u64, x: SignedVote)
    ensures |VoteFormat(magic).render(x)| >= 8
  {
    assert |LittleEndian(magic, 8)| == 8;
  }

  /** Round trip: what was written is read back, also when fewer than eight bytes of
      something else follow. */
  lemma {:induction false} FileReadsBack(v1: Format<SignedVote>, v2: Format<SignedVote>, xs: seq<SignedVote>, junk: Bytes)
    requires Lawful(v1) && Lawful(v2) && TakesSpace(v2) && |junk| < 8
    requires forall i :: 0 <= i < |xs| ==> v2.valid(xs[i])
    ensures LoadFile(v1, v2, FileOf(v2, xs) + junk) == Some(xs)
  {
    if xs == [] {
      assert FileOf(v2, xs) + junk == junk;
    } else {
      var rest := FileOf(v2, xs[1..]) + junk;
      var b := FileOf(v2, xs) + junk;
      assert b == v2.render(xs[0]) + rest;
      ReadBack(v2, xs[0], rest);
      assert |b| == |v2.render(xs[0])| + |rest|;
      FileReadsBack(v1, v2, xs[1..], junk);
      assert [xs[0]] + xs[1..] == xs;
    }
  }

  /** What was read before, followed by the rest. */
  function After(read: seq<SignedVote>, rest: Option<seq<SignedVote>>): Option<seq<SignedVote>> {
    if rest.None? then None else Some(read + rest.value)
  }

  lemma AfterNothing(rest: Option<seq<SignedVote>>)
    ensures After([], rest) == rest
  {
    if rest.Some? {
      assert [] + rest.value == rest.value;
    }
  }

  lemma AfterOneMore(read: seq<SignedVote>, x: SignedVote, rest: Option<seq<SignedVote>>)
    ensures After(read + [x], rest) == After(read, After([x], rest))
  {
    if rest.Some? {
      assert read + ([x] + rest.value) == read + [x] + rest.value;
    }
  }

  method LoadAll(v1: Format<SignedVote>, v2: Format<SignedVote>, b: Bytes) returns (xs: Option<seq<SignedVote>>)
    ensures xs == LoadFile(v1, v2, b)
  {
    var read: seq<SignedVote>, rest := [], b;
    AfterNothing(LoadFile(v1, v2, b));
    while |rest| >= 8
      invariant LoadFile(v1, v2, b) == After(read, LoadFile(v1, v2, rest))
      decreases |rest|
    {
      var r := v2.parse(rest);
      if r.None? {
        r := v1.parse(rest);
      }
      if r.None? || |r.value.1| >= |rest| {
        return None;
      }
      AfterOneMore(read, r.value.0, LoadFile(v1, v2, r.value.1));
      read, rest := read + [r.value.0], r.value.1;
    }
    assert read + [] == read;
    return Some(read);
  }

  // ---------------------------------------------------------------- the formats of the file

  function FieldsOf(x: SignedVote): Bytes {
    BlobBytes(x.payload) + (TextBytes(x.validator) + (BlobBytes(x.publicKey) + (x.target
      + (LittleEndian(x.round, 8) + BlobBytes(x.signature)))))
  }

  lemma RecordLayout(x: SignedVote)
    ensures VoteFormat(MAGIC_V2).render(x)
      == LittleEndian(MAGIC_V2, 8) + (LittleEndian(x.integer, 8) + (TextBytes(x.kind) + FieldsOf(x)))
  {
    hide LittleEndian;
  }

  /** One record, field by field. */
  method WriteVote(out: Bytes, x: SignedVote) returns (r: Bytes)
    ensures r == out + VoteFormat(MAGIC_V2).render(x)
  {
    hide VoteFormat, TextBytes, BlobBytes, LittleEndian;
    r := AppendUint64(out, MAGIC_V2);
    r := AppendUint64(r, x.integer);
    r := AppendString(r, x.kind);
    Nest3(out, LittleEndian(MAGIC_V2, 8), LittleEndian(x.integer, 8), TextBytes(x.kind));
    ghost var start := r;
    r := AppendBytes(r, x.payload);
    r := AppendString(r, x.validator);
    r := AppendBytes(r, x.publicKey);
    r := AppendHash(r, x.target);
    r := AppendUint64(r, x.round);
    r := AppendBytes(r, x.signature);
    Nest6(start, BlobBytes(x.payload), TextBytes(x.validator), BlobBytes(x.publicKey), x.target,
          LittleEndian(x.round, 8), BlobBytes(x.signature));
    RecordLayout(x);
    Nest4(out, LittleEndian(MAGIC_V2, 8), LittleEndian(x.integer, 8), TextBytes(x.kind), FieldsOf(x));
  }

  /** replaceAll: refuses the whole list for one field too long, and otherwise writes it. */
  method ReplaceAll(xs: seq<SignedVote>) returns (file: Option<Bytes>)
    ensures file.Some? <==> forall i :: 0 <= i < |xs| ==> Writable(xs[i])
    ensures file.Some? ==> file.value == FileOf(VoteFormat(MAGIC_V2), xs)
  {
    hide VoteFormat, Writable;
    var out: Bytes := [];
    var i := 0;
    while i < |xs|
      invariant 0 <= i <= |xs|
      invariant out + FileOf(VoteFormat(MAGIC_V2), xs[i..]) == FileOf(VoteFormat(MAGIC_V2), xs)
      invariant forall k :: 0 <= k < i ==> Writable(xs[k])
    {
      if !Writable(xs[i]) {
        return None;
      }
      assert xs[i..][0] == xs[i] && xs[i..][1..] == xs[i + 1..];
      Nest2(out, VoteFormat(MAGIC_V2).render(xs[i]), FileOf(VoteFormat(MAGIC_V2), xs[i + 1..]));
      out := WriteVote(out, xs[i]);
      i := i + 1;
    }
    assert out + [] == out;
    return Some(out);
  }

  /** The limits replaceAll checks are the ones loadAll checks. Text is made of bytes. */
  lemma WritableExact(x: SignedVote)
    ensures Writable(x)
      <==> && 1 <= |x.validator| <= 16_777_216 && |x.publicKey| <= 16_777_216 && |x.signature| <= 16_777_216
           && |x.kind| <= 16_777_216 && |x.payload| <= 16_777_216
           && Chars(CharBytes(x.kind)) == x.kind && Chars(CharBytes(x.validator)) == x.validator
  {
    hide LittleEndian, Value, Lawful;
  }

  /** The votes a validator writes are the votes it loads. */
  lemma VotesSurvive(xs: seq<SignedVote>)
    requires forall i :: 0 <= i < |xs| ==> Writable(xs[i])
    ensures LoadFile(VoteFormat(MAGIC_V1), VoteFormat(MAGIC_V2), FileOf(VoteFormat(MAGIC_V2), xs)) == Some(xs)
  {
    hide VoteFormat, LoadFile, FileOf, Lawful, TakesSpace;
    RendersMagic(MAGIC_V2);
    FileReadsBack(VoteFormat(MAGIC_V1), VoteFormat(MAGIC_V2), xs, []);
    assert FileOf(VoteFormat(MAGIC_V2), xs) + [] == FileOf(VoteFormat(MAGIC_V2), xs);
  }

  // ---------------------------------------------------------------- a file cut short

  /** No prefix of a record parses. */
  lemma CutDoesNotParse(f: Format<SignedVote>, x: SignedVote, cut: nat)
    requires Lawful(f) && f.valid(x) && cut < |f.render(x)|
    ensures f.parse(f.render(x)[..cut]).None?
  {
    var b, lost := f.render(x)[..cut], f.render(x)[cut..];
    if f.parse(b).Some? {
      var (y, rest) := f.parse(b).value;
      assert b == f.render(y) + rest;
      assert b + lost == f.render(x) + [];
      ReadBack(f, x, []);
      assert b + lost == f.render(y) + (rest + lost);
      ReadBack(f, y, rest + lost);
      assert false;
    }
  }

  lemma StartsWithMagic(magic: u64, x: SignedVote)
    ensures |VoteFormat(magic).render(x)| >= 8 && VoteFormat(magic).render(x)[..8] == LittleEndian(magic, 8)
  {
    hide LittleEndian;
    assert |LittleEndian(magic, 8)| == 8;
  }

  lemma MagicsDiffer()
    ensures LittleEndian(MAGIC_V1, 8) != LittleEndian(MAGIC_V2, 8)
  {
    hide LittleEndian, Value;
    EightBytes();
    ValueOfPrinted(MAGIC_V1, 8);
    ValueOfPrinted(MAGIC_V2, 8);
  }

  /** Bytes that start with the second magic number are no record of the first version. */
  lemma OtherVersionRefuses(b: Bytes)
    requires |b| >= 8 && b[..8] == LittleEndian(MAGIC_V2, 8)
    ensures VoteFormat(MAGIC_V1).parse(b).None?
  {
    hide VoteFormat, LittleEndian;
    var f := VoteFormat(MAGIC_V1);
    if f.parse(b).Some? {
      var (y, rest) := f.parse(b).value;
      assert b == f.render(y) + rest;
      StartsWithMagic(MAGIC_V1, y);
      assert b[..8] == f.render(y)[..8];
      MagicsDiffer();
    }
  }

  /** A file cut inside its last record is refused, unless fewer than eight bytes of that
      record are left: then it loads without it. */
  lemma {:induction false} CutFile(xs: seq<SignedVote>, x: SignedVote, cut: nat)
    requires (forall i :: 0 <= i < |xs| ==> Writable(xs[i])) && Writable(x) && cut < |VoteFormat(MAGIC_V2).render(x)|
    ensures LoadFile(VoteFormat(MAGIC_V1), VoteFormat(MAGIC_V2), FileOf(VoteFormat(MAGIC_V2), xs) + VoteFormat(MAGIC_V2).render(x)[..cut])
         == if cut < 8 then Some(xs) else None
  {
    hide VoteFormat, LittleEndian;
    var v1, v2 := VoteFormat(MAGIC_V1), VoteFormat(MAGIC_V2);
    var left := v2.render(x)[..cut];
    if cut < 8 {
      RendersMagic(MAGIC_V2);
      FileReadsBack(v1, v2, xs, left);
    } else if xs == [] {
      assert FileOf(v2, xs) + left == left;
      StartsWithMagic(MAGIC_V2, x);
      assert left[..8] == v2.render(x)[..8];
      OtherVersionRefuses(left);
      CutDoesNotParse(v2, x, cut);
    } else {
      var rest := FileOf(v2, xs[1..]) + left;
      assert FileOf(v2, xs) + left == v2.render(xs[0]) + rest;
      ReadBack(v2, xs[0], rest);
      CutFile(xs[1..], x, cut);
      RendersMagic(MAGIC_V2);
    }
  }
}
