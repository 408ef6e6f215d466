/**
 The cursor that decoders read from (src/protocol/records.cpp, class ByteReader).
 */
module ByteReading {
  import opened Machine
  import opened Records
  import opened Formats

  /** A read returns what the format parses and leaves the bytes after it. After a failed read
      the cursor is not used again. */
  ghost predicate Got<T>(f: Format<T>, before: Bytes, result: Option<T>, after: Bytes) {
    Took(f.parse(before), result, after)
  }

  ghost predicate Took<T>(parsed: Option<(T, Bytes)>, result: Option<T>, after: Bytes) {
    && (result.None? <==> parsed.None?)
    && (result.Some? ==> parsed == Some((result.value, after)))
  }

  lemma Scale(low: nat, digit: nat, place: nat)
    ensures 256 * (low + digit * place) == 256 * low + digit * (256 * place)
  {
  }

  lemma {:induction false} NextByte(b: Bytes, i: nat)
    requires i < |b|
    ensures Value(b[..i + 1]) == Value(b[..i]) + b[i] * Power256(i)
  {
    if i == 0 {
      assert b[..1] == [b[0]] && b[..0] == [];
    } else {
      NextByte(b[1..], i - 1);
      assert b[..i + 1][1..] == b[1..][..i] && b[..i][1..] == b[1..][..i - 1];
      Scale(Value(b[1..][..i - 1]), b[i], Power256(i - 1));
    }
  }

  class ByteReader {
    const bytes: Bytes
    var offset: nat

    ghost predicate Valid()
      reads this
    {
      offset <= |bytes|
    }

    ghost function Rest(): Bytes
      requires Valid()
      reads this
    {
      bytes[offset..]
    }

    constructor (bytes: Bytes)
      ensures this.bytes == bytes && Valid() && Rest() == bytes
    {
      this.bytes := bytes;
      offset := 0;
    }

    /** A copy of the cursor, for a reading that may be given up. */
    constructor At(bytes: Bytes, offset: nat)
      requires offset <= |bytes|
      ensures this.bytes == bytes && Valid() && Rest() == bytes[offset..]
    {
      this.bytes := bytes;
      this.offset := offset;
    }

    /** Eight bytes, each shifted to its place. */
    method ReadUint64() returns (value: Option<u64>)
      requires Valid()
      modifies this
      ensures Valid() && Got(WORD, old(Rest()), value, Rest())
    {
      if |bytes| - offset < 8 {
        return None;
      }
      ghost var b := bytes[offset..];
      var sum: nat, place: nat := 0, 1;
      for i := 0 to 8
        invariant offset == old(offset) + i <= |bytes|
        invariant place == Power256(i) && sum == Value(b[..i])
      {
        NextByte(b, i);
        var digit: nat := bytes[offset];
        sum := sum + digit * place;
        place := place * 256;
        offset := offset + 1;
      }
      assert bytes[offset..] == b[8..];
      PrintedValue(b[..8]);
      EightBytes();
      value := Some(sum);
    }

    method ReadHash() returns (hash: Option<Hash256>)
      requires Valid()
      modifies this
      ensures Valid() && Got(DIGEST, old(Rest()), hash, Rest())
    {
      if |bytes| - offset < 32 {
        return None;
      }
      ghost var b := bytes[offset..];
      hash := Some(bytes[offset..offset + 32]);
      offset := offset + 32;
      assert b[..32] == hash.value && b[32..] == bytes[offset..];
    }

    /** A length, refused when more than what remains, and that many bytes. */
    method ReadBytes() returns (data: Option<Bytes>)
      requires Valid()
      modifies this
      ensures Valid() && Got(BLOB, old(Rest()), data, Rest())
    {
      var size := ReadUint64();
      if size.None? || size.value > |bytes| - offset {
        return None;
      }
      ghost var b := bytes[offset..];
      data := Some(bytes[offset..offset + size.value]);
      offset := offset + size.value;
      assert b[..size.value] == data.value && b[size.value..] == bytes[offset..];
    }

    method ReadString() returns (text: Option<string>)
      requires Valid()
      modifies this
      ensures Valid() && Got(TEXT, old(Rest()), text, Rest())
    {
      var data := ReadBytes();
      text := if data.None? then None else Some(Chars(data.value));
    }

    /** A part of known format. */
    method Read<T(!new)>(f: Format<T>) returns (x: Option<T>)
      requires Valid() && Lawful(f)
      modifies this
      ensures Valid() && Got(f, old(Rest()), x, Rest())
    {
      var p := f.parse(bytes[offset..]);
      if p.None? {
        return None;
      }
      ghost var b := bytes[offset..];
      assert b == f.render(p.value.0) + p.value.1;
      offset := |bytes| - |p.value.1|;
      assert bytes[offset..] == p.value.1;
      x := Some(p.value.0);
    }

    method Consumed() returns (done: bool)
      requires Valid()
      ensures done <==> Rest() == []
    {
      done := offset == |bytes|;
    }
  }
}
