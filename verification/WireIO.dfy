/** The wire primitives step by step: a cursor that advances over its input, and a growing
    buffer whose length slots are patched in place. */
module WireIO {
  import opened Basics
  import opened Wire

  // ----------------------------------------------------------------- reading

  class Reader {
    const buf: Bytes
    var pos: nat

    predicate Valid()
      reads this
    {
      pos <= |buf|
    }

    constructor (input: Bytes)
      ensures Valid() && buf == input && pos == 0
    {
      buf := input;
      pos := 0;
    }

    predicate IsEmpty()
      reads this
    {
      pos >= |buf|
    }

    /** The bytes consumed since `start`. */
    function RawSince(start: nat): Bytes
      requires Valid() && start <= pos
      reads this
    {
      buf[start..pos]
    }

    method NextByte() returns (r: Result<byte, WireError>)
      requires Valid()
      modifies this`pos
      ensures Valid()
      ensures r == if old(pos) < |buf| then Ok(buf[old(pos)]) else Err(UnexpectedEof)
      ensures pos == if old(pos) < |buf| then old(pos) + 1 else old(pos)
    {
      if pos >= |buf| {
        return Err(UnexpectedEof);
      }
      r := Ok(buf[pos]);
      pos := pos + 1;
    }

    /** One byte for small values, else up to nine more, each shifted into place; what the
        tenth byte carries beyond 64 bits is lost. */
    method ReadVarint() returns (r: Result<nat, WireError>)
      requires Valid()
      modifies this`pos
      ensures Valid() && old(pos) <= pos <= |buf|
      ensures r.Ok? ==> Wire.ReadVarint(buf[old(pos)..]) == Got(r.value, pos - old(pos))
      ensures r.Err? ==> Wire.ReadVarint(buf[old(pos)..]) == Bad(r.error)
    {
      ghost var s, start := buf[pos..], pos;
      if pos >= |buf| {
        VarintCut(s);
        return Err(UnexpectedEof);
      }
      var first := buf[pos];
      pos := pos + 1;
      FirstDigit(s);
      if first < 128 {
        VarintDone(s, 1);
        return Ok(first);
      }
      var result, n := first % 128, 1;
      var shift := 7;
      while shift < 64
        invariant 1 <= n <= 10 && shift == 7 * n && pos == start + n && Valid()
        invariant n <= |s| && (forall i :: 0 <= i < n ==> s[i] >= 128)
        invariant result == Base128(s[..n]) % U64
        decreases 64 - shift
      {
        var next := NextByte();
        if next.Err? {
          VarintCut(s);
          return Err(next.error);
        }
        var byte := next.value;
        ShiftIntoPlace(s, n);
        result := result + Shifted(byte, n);
        n := n + 1;
        shift := shift + 7;
        if byte < 128 {
          VarintDone(s, n);
          return Ok(result);
        }
      }
      VarintTooLong(s);
      return Err(VarintOverflow);
    }

    method ReadTag() returns (r: Result<Tag, WireError>)
      requires Valid()
      modifies this`pos
      ensures Valid() && old(pos) <= pos <= |buf|
      ensures r.Ok? ==> old(pos) < pos && Wire.ReadTag(buf[old(pos)..]) == Got(r.value, pos - old(pos))
      ensures r.Err? ==> Wire.ReadTag(buf[old(pos)..]) == Bad(r.error)
    {
      var key := ReadVarint();
      if key.Err? {
        return Err(key.error);
      }
      var wire := WireTypeFrom(key.value % 8);
      if wire.None? {
        return Err(InvalidWireType(key.value % 8));
      }
      var number := key.value / 8;
      if number == 0 || number > MAX_FIELD_NUMBER {
        return Err(InvalidFieldNumber(number));
      }
      return Ok(Tag(number, wire.value));
    }

    /** A little-endian value of four or eight bytes. */
    method ReadFixed(width: nat) returns (r: Result<nat, WireError>)
      requires Valid()
      modifies this`pos
      ensures Valid() && old(pos) <= pos <= |buf|
      ensures r.Ok? ==> Wire.ReadFixed(buf[old(pos)..], width) == Got(r.value, pos - old(pos))
      ensures r.Err? ==> Wire.ReadFixed(buf[old(pos)..], width) == Bad(r.error)
    {
      if pos + width > |buf| {
        return Err(UnexpectedEof);
      }
      assert buf[pos..][..width] == buf[pos..pos + width];
      r := Ok(FromLittleEndian(buf[pos..pos + width]));
      pos := pos + width;
    }

    method ReadLenDelimited() returns (r: Result<Bytes, WireError>)
      requires Valid()
      modifies this`pos
      ensures Valid() && old(pos) <= pos <= |buf|
      ensures r.Ok? ==> Wire.ReadLenDelimited(buf[old(pos)..]) == Got(r.value, pos - old(pos))
      ensures r.Err? ==> Wire.ReadLenDelimited(buf[old(pos)..]) == Bad(r.error)
    {
      ghost var s, start := buf[pos..], pos;
      var len := ReadVarint();
      if len.Err? {
        return Err(len.error);
      }
      var end := pos + len.value;
      if end > |buf| {
        return Err(InvalidLength);
      }
      assert buf[pos..end] == s[pos - start..end - start];
      r := Ok(buf[pos..end]);
      pos := end;
    }

    method ReadPayload(wire: WireType) returns (r: Result<Payload, WireError>)
      requires Valid()
      modifies this`pos
      ensures Valid() && old(pos) <= pos <= |buf|
      ensures r.Ok? ==> Wire.ReadPayload(wire, buf[old(pos)..]) == Got(r.value, pos - old(pos))
      ensures r.Err? ==> Wire.ReadPayload(wire, buf[old(pos)..]) == Bad(r.error)
    {
      match wire
      case Varint =>
        var v := ReadVarint();
        r := if v.Ok? then Ok(PVarint(v.value)) else Err(v.error);
      case I64 =>
        var v := ReadFixed(8);
        r := if v.Ok? then Ok(PI64(v.value)) else Err(v.error);
      case I32 =>
        var v := ReadFixed(4);
        r := if v.Ok? then Ok(PI32(v.value)) else Err(v.error);
      case Len =>
        var v := ReadLenDelimited();
        r := if v.Ok? then Ok(PLen(v.value)) else Err(v.error);
    }

    /** Passes over a payload without looking at its value. */
    method Skip(wire: WireType) returns (r: Result<(), WireError>)
      requires Valid()
      modifies this`pos
      ensures Valid() && old(pos) <= pos <= |buf|
      ensures r.Ok? ==>
        var p := Wire.ReadPayload(wire, buf[old(pos)..]);
        p.Got? && pos - old(pos) == p.used
      ensures r.Err? ==> Wire.ReadPayload(wire, buf[old(pos)..]) == Bad(r.error)
    {
      match wire
      case Varint =>
        var v := ReadVarint();
        r := if v.Ok? then Ok(()) else Err(v.error);
      case I64 =>
        var v := ReadFixed(8);
        r := if v.Ok? then Ok(()) else Err(v.error);
      case I32 =>
        var v := ReadFixed(4);
        r := if v.Ok? then Ok(()) else Err(v.error);
      case Len =>
        var v := ReadLenDelimited();
        r := if v.Ok? then Ok(()) else Err(v.error);
    }
  }

  /** The low seven bits of `b`, shifted left by `7 * n` in a 64-bit word. */
  function Shifted(b: byte, n: nat): nat {
    (b % 128 * Pow128(n)) % U64
  }

  lemma FirstDigit(s: Bytes)
    requires s != []
    ensures Base128(s[..1]) == s[0] % 128
  {
    assert s[..1][1..] == [];
  }

  lemma VarintDone(s: Bytes, n: nat)
    requires 1 <= n <= 10 && n <= |s| && s[n - 1] < 128 && forall i :: 0 <= i < n - 1 ==> s[i] >= 128
    ensures Wire.ReadVarint(s) == Got(Base128(s[..n]) % U64, n)
  {
    ReadVarintAccepts(s, n);
    DigitSumIsBase128(s, n);
  }

  lemma VarintCut(s: Bytes)
    requires |s| < 10 && forall i :: 0 <= i < |s| ==> s[i] >= 128
    ensures Wire.ReadVarint(s) == Bad(UnexpectedEof)
  {
  }

  lemma VarintTooLong(s: Bytes)
    requires |s| >= 10 && forall i :: 0 <= i < 10 ==> s[i] >= 128
    ensures Wire.ReadVarint(s) == Bad(VarintOverflow)
  {
    assert Continuation(s) >= 10;
  }

  lemma {:induction false} Base128Bound(s: Bytes)
    ensures Base128(s) < Pow128(|s|)
  {
    if s != [] {
      Base128Bound(s[1..]);
    }
  }

  lemma Pow128Values()
    ensures Pow128(9) == 0x8000_0000_0000_0000
  {
    assert Pow128(3) == 128 * (128 * (128 * Pow128(0))) == 0x20_0000;
    assert Pow128(6) == 128 * (128 * (128 * Pow128(3))) == 0x400_0000_0000;
    assert Pow128(9) == 128 * (128 * (128 * Pow128(6)));
  }

  lemma {:induction false} Pow128Grows(k: nat, n: nat)
    requires k <= n
    ensures Pow128(k) <= Pow128(n)
  {
    if k < n {
      Pow128Grows(k, n - 1);
    }
  }

  /** Adding the shifted bits of the next byte adds its digit. */
  lemma ShiftIntoPlace(s: Bytes, n: nat)
    requires 1 <= n <= 9 && n < |s|
    ensures Base128(s[..n]) % U64 + Shifted(s[n], n) == Base128(s[..n + 1]) % U64
  {
    var low, d := Base128(s[..n]), s[n] % 128;
    assert s[..n + 1] == s[..n] + [s[n]];
    Base128Snoc(s[..n], s[n]);
    LowPart(s, n);
    if n < 9 {
      LowPart(s, n + 1);
      SmallSum(low, d * Pow128(n));
    } else {
      Pow128Values();
      TopDigit(low, d);
    }
  }

  lemma LowPart(s: Bytes, n: nat)
    requires n <= 9 && n <= |s|
    ensures Base128(s[..n]) < 0x8000_0000_0000_0000
  {
    Base128Bound(s[..n]);
    Pow128Values();
    Pow128Grows(n, 9);
  }

  lemma SmallSum(low: nat, q: nat)
    requires low + q < 0x8000_0000_0000_0000
    ensures low % U64 + q % U64 == (low + q) % U64
  {
  }

  /** Of the tenth digit only the lowest bit survives, as bit 63. */
  lemma TopDigit(low: nat, d: nat)
    requires low < 0x8000_0000_0000_0000
    ensures low % U64 + (d * 0x8000_0000_0000_0000) % U64 == (low + d * 0x8000_0000_0000_0000) % U64
  {
    var q, top := d / 2, d % 2 * 0x8000_0000_0000_0000;
    assert d * 0x8000_0000_0000_0000 == q * U64 + top;
    WholeWords(q, top);
    WholeWords(q, low + top);
  }

  lemma WholeWords(q: nat, x: nat)
    requires x < U64
    ensures (q * U64 + x) % U64 == x
  {
  }

  // ----------------------------------------------------------------- writing

  lemma ByteFilled(tmp: array<byte>, n: nat, done: Bytes)
    requires n < tmp.Length && tmp[..n] == done
    ensures tmp[..n + 1] == done + [tmp[n]]
  {
  }

  /** The digits of a varint, lowest first, into scratch space of ten bytes. */
  method FillScratch(value: nat, tmp: array<byte>) returns (n: nat)
    requires IsU64(value) && tmp.Length == 10
    modifies tmp
    ensures n <= 10 && tmp[..n] == Wire.WriteVarint(value)
  {
    U64FitsTenBytes(value);
    hide Wire.WriteVarint;
    var v: nat := value;
    n := 0;
    ghost var done: Bytes := [];
    while true
      invariant n == |done| && n + |Wire.WriteVarint(v)| <= 10
      invariant tmp[..n] == done && done + Wire.WriteVarint(v) == Wire.WriteVarint(value)
      decreases v
    {
      VarintDigits(v);
      var digit, rest := v % 128, v / 128;
      tmp[n] := if rest == 0 then digit else digit + 128;
      ByteFilled(tmp, n, done);
      if rest == 0 {
        n := n + 1;
        break;
      }
      Associative(done, [digit + 128], Wire.WriteVarint(rest));
      done := done + [digit + 128];
      v, n := rest, n + 1;
    }
  }

  class Buffer {
    var bytes: Bytes

    constructor ()
      ensures bytes == []
    {
      bytes := [];
    }

    method Push(b: byte)
      modifies this
      ensures bytes == old(bytes) + [b]
    {
      bytes := bytes + [b];
    }

    method Extend(data: Bytes)
      modifies this
      ensures bytes == old(bytes) + data
    {
      bytes := bytes + data;
    }

    method Truncate(len: nat)
      requires len <= |bytes|
      modifies this
      ensures bytes == old(bytes)[..len]
    {
      bytes := bytes[..len];
    }

    /** Small values are pushed; others are built up in ten bytes of scratch space and
        appended at once. */
    method WriteVarint(value: nat)
      requires IsU64(value)
      modifies this
      ensures bytes == old(bytes) + Wire.WriteVarint(value)
    {
      if value < 0x80 {
        Push(value);
        return;
      }
      var tmp := new byte[10](_ => 0);
      var n := FillScratch(value, tmp);
      Extend(tmp[..n]);
    }

    method WriteTag(number: nat, wire: WireType)
      requires IsU32(number)
      modifies this
      ensures bytes == old(bytes) + Wire.WriteTag(number, wire)
    {
      WriteVarint(number * 8 + wire.Code());
    }

    method WriteLenDelimited(data: Bytes)
      requires IsU64(|data|)
      modifies this
      ensures bytes == old(bytes) + Wire.WriteLenDelimited(data)
    {
      WriteVarint(|data|);
      Extend(data);
      Associative(old(bytes), Wire.WriteVarint(|data|), data);
    }

    method WritePayload(p: Payload)
      requires p.Valid()
      modifies this
      ensures bytes == old(bytes) + p.Bytes()
    {
      match p
      case PVarint(v) => WriteVarint(v);
      case PI64(v) => Extend(LittleEndian(v, 8));
      case PI32(v) => Extend(LittleEndian(v, 4));
      case PLen(data) => WriteLenDelimited(data);
    }

    /** Reserves one byte for the length of a payload about to be written in place. */
    method BeginLenPrefix() returns (slot: nat)
      modifies this
      ensures bytes == old(bytes) + [0] && slot == |old(bytes)|
    {
      Push(0);
      slot := |bytes| - 1;
    }

    /** `copy_within`: moves `n` bytes from `from` to `to`. */
    method CopyWithin(from: nat, n: nat, to: nat)
      requires from + n <= |bytes| && to + n <= |bytes|
      modifies this
      ensures bytes == old(bytes)[..to] + old(bytes)[from..from + n] + old(bytes)[to + n..]
    {
      bytes := bytes[..to] + bytes[from..from + n] + bytes[to + n..];
    }

    /** Overwrites the bytes from `slot` up to `end` with the digits of `value`. */
    method PatchVarint(slot: nat, end: nat, value: nat)
      requires slot + |Wire.WriteVarint(value)| == end <= |bytes|
      modifies this
      ensures bytes == old(bytes)[..slot] + (Wire.WriteVarint(value) + old(bytes)[end..])
    {
      hide Wire.WriteVarint;
      ghost var before, after := bytes[..slot], bytes[end..];
      var v: nat, at: nat := value, slot;
      while v >= 0x80
        invariant slot <= at < end <= |bytes| && at + |Wire.WriteVarint(v)| == end
        invariant bytes[..slot] == before && bytes[end..] == after
        invariant bytes[slot..at] + Wire.WriteVarint(v) == Wire.WriteVarint(value)
        decreases v
      {
        VarintDigits(v);
        PatchStep(bytes, slot, at, end, v % 128 + 128, Wire.WriteVarint(v / 128));
        bytes := bytes[at := v % 128 + 128];
        v, at := v / 128, at + 1;
      }
      VarintDigits(v);
      PatchStep(bytes, slot, at, end, v, []);
      bytes := bytes[at := v];
      Patched(bytes, slot, end, before, Wire.WriteVarint(value), after);
    }

    /** Patches the slot: a short length fits it, a longer one shifts the payload right and
        is written in front of it byte by byte. */
    method FinishLenPrefix(slot: nat)
      requires slot < |bytes|
      modifies this
      ensures bytes == old(bytes)[..slot] + Wire.WriteLenDelimited(old(bytes)[slot + 1..])
    {
      ghost var before, payload := bytes[..slot], bytes[slot + 1..];
      var len := |bytes| - slot - 1;
      if len < 0x80 {
        bytes := bytes[slot := len];
        assert bytes == before + ([len] + payload);
        return;
      }
      var extra := VarintLen(len) - 1;
      VarintLenIsExact(len);
      Extend(seq(extra, _ => 0));
      CopyWithin(slot + 1, len, slot + 1 + extra);
      PayloadShifted(old(bytes), slot, len, seq(extra, _ => 0), bytes);
      PatchVarint(slot, slot + 1 + extra, len);
    }
  }

  lemma VarintDigits(v: nat)
    ensures v < 128 ==> Wire.WriteVarint(v) == [v] && [v] + [] == [v]
    ensures v >= 128 ==> Wire.WriteVarint(v) == [v % 128 + 128] + Wire.WriteVarint(v / 128)
  {
  }

  /** Growing the buffer and moving the payload to its end keeps both parts. */
  lemma PayloadShifted(bytes: Bytes, slot: nat, len: nat, zeros: Bytes, moved: Bytes)
    requires slot + 1 + len == |bytes|
    requires var grown, to := bytes + zeros, slot + 1 + |zeros|;
             moved == grown[..to] + grown[slot + 1..slot + 1 + len] + grown[to + len..]
    ensures |moved| == |bytes| + |zeros|
    ensures moved[..slot] == bytes[..slot] && moved[slot + 1 + |zeros|..] == bytes[slot + 1..]
  {
    var grown, to := bytes + zeros, slot + 1 + |zeros|;
    assert grown[slot + 1..slot + 1 + len] == bytes[slot + 1..];
    assert grown[to + len..] == [];
    assert grown[..to][..slot] == bytes[..slot];
  }

  /** Writing one byte extends the patched stretch and leaves the rest alone. */
  lemma PatchStep(bytes: Bytes, slot: nat, at: nat, end: nat, b: byte, more: Bytes)
    requires slot <= at < end <= |bytes|
    ensures var next := bytes[at := b];
            && next[..slot] == bytes[..slot] && next[end..] == bytes[end..]
            && next[slot..at + 1] + more == bytes[slot..at] + ([b] + more)
  {
    var next := bytes[at := b];
    assert next[slot..at + 1] == bytes[slot..at] + [b];
    Associative(bytes[slot..at], [b], more);
  }

  lemma Patched(bytes: Bytes, slot: nat, end: nat, before: Bytes, prefix: Bytes, payload: Bytes)
    requires slot <= end <= |bytes| && bytes[..slot] == before
    requires bytes[slot..end] + [] == prefix && bytes[end..] == payload
    ensures bytes == before + (prefix + payload)
  {
    assert bytes == bytes[..slot] + (bytes[slot..end] + bytes[end..]);
    assert bytes[slot..end] + [] == bytes[slot..end];
  }
}
