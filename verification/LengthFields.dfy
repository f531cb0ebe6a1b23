/**
  The three codecs for ASN.1 style length fields: eDVBCISession's, the one of the transport layer, and the one of
  libconnection.
 */
module LengthFields {
  import opened Basics

  /** The low k bytes of a number, the highest first. */
  function BigEndian(n: nat, k: nat): (s: seq<byte>)
    ensures |s| == k
  {
    if k == 0 then [] else BigEndian(n / 256, k - 1) + [n % 256]
  }

  function Power(k: nat): nat {
    if k == 0 then 1 else 256 * Power(k - 1)
  }

  lemma {:induction false} ValueOfBigEndian(n: nat, k: nat)
    requires n < Power(k)
    ensures Value(BigEndian(n, k)) == n
  {
    if k > 0 {
      ValueOfBigEndian(n / 256, k - 1);
      assert BigEndian(n, k)[..k - 1] == BigEndian(n / 256, k - 1);
    }
  }

  // ----- eDVBCISession::buildLengthField and parseLengthField

  /** buildLengthField; it ends the program for longer lengths. */
  function Field(len: nat): (f: seq<byte>)
    requires len < 65535
    ensures 1 <= |f| <= 3
  {
    if len < 127 then [len]
    else if len < 256 then [0x81, len]
    else [0x82, len / 256, len % 256]
  }

  /** A 32-bit int with these bits. */
  function Int32(bits: int): int {
    var low := bits % TWO32;
    if low < TWO32 / 2 then low else low - TWO32
  }

  datatype Parsed = Parsed(len: int, used: nat)

  /** The length field does not run past the end of the packet. */
  predicate Holds(pkt: seq<byte>) {
    |pkt| > 0 && (pkt[0] >= 0x80 ==> |pkt| >= 1 + pkt[0] % 128)
  }

  function Parse(pkt: seq<byte>): (r: Parsed)
    requires Holds(pkt)
    ensures 1 <= r.used <= |pkt|
  {
    if pkt[0] < 0x80 then Parsed(pkt[0], 1)
    else Parsed(Int32(Value(pkt[1..1 + pkt[0] % 128])), 1 + pkt[0] % 128)
  }

  lemma Shifted(v: nat, b: byte)
    ensures Int32(Int32(v) * 256 + b) == Int32(v * 256 + b)
  {
    var q := v / TWO32;
    assert v == TWO32 * q + v % TWO32;
    if v % TWO32 < TWO32 / 2 {
      WholeTurns(Int32(v) * 256 + b, 256 * q, TWO32);
    } else {
      WholeTurns(Int32(v) * 256 + b, 256 * (q + 1), TWO32);
    }
  }

  /** parseLengthField */
  method ParseLengthField(pkt: seq<byte>) returns (used: nat, len: int)
    requires Holds(pkt)
    ensures Parsed(len, used) == Parse(pkt)
  {
    len := 0;
    if pkt[0] < 0x80 {
      len := pkt[0];
      return 1, len;
    }
    var n := pkt[0] % 128;
    var i := 0;
    while i < n
      invariant 0 <= i <= n
      invariant len == Int32(Value(pkt[1..1 + i]))
    {
      Shifted(Value(pkt[1..1 + i]), pkt[i + 1]);
      assert pkt[1..1 + (i + 1)][..i] == pkt[1..1 + i];
      len := Int32(len * 256 + pkt[i + 1]);
      i := i + 1;
    }
    used := n + 1;
  }

  // ----- asn_1_decode

  /** asn_1_decode; None where it returns -1. */
  function Decode(a: seq<byte>): (r: Option<Parsed>)
    ensures r.Some? ==> 1 <= r.value.used <= 3 && r.value.used <= |a| && 0 <= r.value.len < 65536
  {
    if |a| < 1 then None
    else if a[0] < 0x80 then Some(Parsed(a[0], 1))
    else if a[0] == 0x81 then
      if |a| < 2 then None else Some(Parsed(a[1], 2))
    else if a[0] == 0x82 then
      if |a| < 3 then None else Some(Parsed((a[1] as int) * 256 + a[2], 3))
    else None
  }

  lemma OneByte(s: seq<byte>)
    requires |s| == 1
    ensures Value(s) == s[0]
  {
    assert s[..0] == [];
  }

  /** The transport layer reads a length field just as the session layer does, wherever it accepts one. */
  lemma DecodeIsParse(a: seq<byte>)
    ensures Decode(a).Some? <==> Holds(a) && Parse(a).used <= 3 && a[0] != 0x80
    ensures Decode(a).Some? ==> Decode(a).value == Parse(a)
  {
    if |a| > 0 && a[0] == 0x81 && |a| >= 2 {
      OneByte(a[1..2]);
    } else if |a| > 0 && a[0] == 0x82 && |a| >= 3 {
      assert a[1..3][..1] == a[1..2];
      OneByte(a[1..2]);
    }
  }

  /** Both parsers undo buildLengthField and take exactly the bytes it wrote. */
  lemma FieldIsParsed(len: nat, rest: seq<byte>)
    requires len < 65535
    ensures Holds(Field(len) + rest)
    ensures Parse(Field(len) + rest) == Parsed(len, |Field(len)|)
    ensures Decode(Field(len) + rest) == Some(Parsed(len, |Field(len)|))
  {
    DecodeIsParse(Field(len) + rest);
  }

  // ----- libconnection

  /** length >> shiftby, for whole bytes */
  function Shr(n: nat, bits: nat): nat
    requires bits % 8 == 0
  {
    if bits == 0 then n else Shr(n / 256, bits - 8)
  }

  /** get_length_field_size */
  function FieldSize(length: nat): nat {
    if length < 0x80 then 1
    else if length < 0x100 then 2
    else if length < 0x1_0000 then 3
    else if length < 0x100_0000 then 4
    else 5
  }

  /** What write_length_field leaves in the buffer: the shortest big-endian form behind its byte count. */
  function Written(length: nat): (f: seq<byte>)
    requires length < 0x100_0000
    ensures |f| == FieldSize(length)
  {
    if length < 128 then [length]
    else [0x80 + FieldSize(length) - 1] + BigEndian(length, FieldSize(length) - 1)
  }

  /** The form byte by byte. */
  lemma WrittenBytes(length: nat)
    requires length < 0x100_0000
    ensures Written(length) ==
            if length < 0x80 then [length]
            else if length < 0x100 then [0x81, length]
            else if length < 0x1_0000 then [0x82, length / 0x100, length % 0x100]
            else [0x83, length / 0x1_0000, length / 0x100 % 0x100, length % 0x100]
  {
    assert BigEndian(length, 1) == BigEndian(length / 256, 0) + [length % 256];
    assert BigEndian(length, 2) == BigEndian(length / 256, 1) + [length % 256];
    assert BigEndian(length, 3) == BigEndian(length / 256, 2) + [length % 256];
    assert BigEndian(length / 256, 1) == [length / 256 % 256];
    assert BigEndian(length / 256, 2) == [length / 256 / 256 % 256, length / 256 % 256] by {
      assert BigEndian(length / 256 / 256, 1) == [length / 256 / 256 % 256];
    }
  }

  lemma {:induction false} NextByte(n: nat, k: nat, i: nat)
    requires i < k
    ensures BigEndian(n, k)[i] == Shr(n, 8 * (k - 1 - i)) % 256
  {
    if i < k - 1 {
      NextByte(n / 256, k - 1, i);
    }
  }

  lemma Remaining(length: nat, size: nat)
    requires 128 <= length < 0x100_0000 && 1 <= size <= 3
    ensures Shr(length, 8 * size) != 0 <==> size < FieldSize(length) - 1
  {
    assert Shr(length, 8) == length / 256;
    if size == 2 {
      assert Shr(length, 16) == Shr(length / 256, 8) == length / 256 / 256;
    } else if size == 3 {
      assert Shr(length, 24) == Shr(length / 256, 16) == Shr(length / 256 / 256, 8) == length / 256 / 256 / 256;
    }
  }

  /** The first loop of write_length_field: how many bytes the number takes. */
  method CountBytes(length: nat) returns (size: nat, shiftby: nat)
    requires 128 <= length < 0x100_0000
    ensures size == FieldSize(length) - 1 && shiftby == 8 * size
  {
    hide Shr;
    shiftby, size := 8, 1;
    Remaining(length, 1);
    while Shr(length, shiftby) != 0
      invariant 1 <= size <= FieldSize(length) - 1 && shiftby == 8 * size
      invariant Shr(length, shiftby) != 0 <==> size < FieldSize(length) - 1
      decreases 3 - size
    {
      size, shiftby := size + 1, shiftby + 8;
      Remaining(length, size);
    }
  }

  /** write_length_field */
  method WriteLengthField(buffer: array<byte>, length: nat) returns (pos: nat)
    requires length < 0x100_0000 && FieldSize(length) <= buffer.Length
    modifies buffer
    ensures pos == FieldSize(length)
    ensures buffer[..pos] == Written(length)
    ensures buffer[pos..] == old(buffer[pos..])
  {
    if length < 128 {
      buffer[0] := length;
      return 1;
    }
    hide Shr;
    var size, shiftby := CountBytes(length);
    buffer[0] := 0x80 + size;
    pos := 1;
    while shiftby != 0
      invariant 0 <= shiftby == 8 * (size + 1 - pos) && 1 <= pos <= size + 1
      invariant buffer[0] == 0x80 + size
      invariant buffer[1..pos] == BigEndian(length, size)[..pos - 1]
      invariant buffer[size + 1..] == old(buffer[size + 1..])
      decreases shiftby
    {
      shiftby := shiftby - 8;
      NextByte(length, size, pos - 1);
      buffer[pos] := Shr(length, shiftby) % 256;
      pos := pos + 1;
    }
    assert buffer[..pos] == [0x80 + size] + buffer[1..pos];
  }

  /** parse_length_field */
  method ReadLengthField(buffer: seq<byte>) returns (length: nat)
    requires Holds(buffer)
    ensures length == if buffer[0] < 0x80 then buffer[0] else Value(buffer[1..1 + buffer[0] % 128]) % TWO32
  {
    length := 0;
    if buffer[0] / 128 == 0 {
      length := buffer[0] % 128;
    } else {
      var n := buffer[0] % 128;
      var i := 0;
      while i < n
        invariant 0 <= i <= n
        invariant length == Value(buffer[1..1 + i]) % TWO32
      {
        assert buffer[1..1 + (i + 1)][..i] == buffer[1..1 + i];
        ShiftedUnsigned(Value(buffer[1..1 + i]), buffer[i + 1]);
        length := (length * 256 + buffer[i + 1]) % TWO32;
        i := i + 1;
      }
    }
  }

  lemma ShiftedUnsigned(v: nat, b: byte)
    ensures (v % TWO32 * 256 + b) % TWO32 == (v * 256 + b) % TWO32
  {
    WholeTurns(v % TWO32 * 256 + b, 256 * (v / TWO32), TWO32);
  }

  /** parse_length_field undoes write_length_field, whose byte count is get_length_field_size. */
  method WriteThenRead(buffer: array<byte>, length: nat) returns (size: nat, back: nat)
    requires length < 0x100_0000 && FieldSize(length) <= buffer.Length
    modifies buffer
    ensures size == FieldSize(length) && back == length
  {
    size := WriteLengthField(buffer, length);
    WrittenIsRead(length, buffer[size..]);
    assert buffer[..] == Written(length) + buffer[size..];
    back := ReadLengthField(buffer[..]);
  }

  lemma WrittenIsRead(length: nat, rest: seq<byte>)
    requires length < 0x100_0000
    ensures var buffer := Written(length) + rest;
      && Holds(buffer)
      && length == if buffer[0] < 0x80 then buffer[0] else Value(buffer[1..1 + buffer[0] % 128]) % TWO32
  {
    if length >= 128 {
      var k := FieldSize(length) - 1;
      var buffer := Written(length) + rest;
      assert buffer[0] % 128 == k;
      assert buffer[1..1 + k] == BigEndian(length, k);
      PowersOf256();
      ValueOfBigEndian(length, k);
    }
  }

  lemma PowersOf256()
    ensures Power(1) == 0x100 && Power(2) == 0x1_0000 && Power(3) == 0x100_0000
  {
    assert Power(0) == 1;
  }
}
