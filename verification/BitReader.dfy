/**
  getbits of libdvbsub: a slice of bits out of a byte buffer, and the time stamps that are read with it.
 */
module BitReader {
  import opened Basics

  function Power2(n: nat): (p: nat)
    ensures p > 0
  {
    if n == 0 then 1 else 2 * Power2(n - 1)
  }

  /** Bit i of the buffer, counted from the high-order bit of its first byte. */
  function Bit(buf: seq<byte>, i: nat): (b: nat)
    requires i < 8 * |buf|
    ensures b < 2
  {
    buf[i / 8] / Power2(7 - i % 8) % 2
  }

  /** The number that the bits from offset on spell, the high-order bit first. */
  function Slice(buf: seq<byte>, offset: nat, len: nat): (v: nat)
    requires offset + len <= 8 * |buf|
    ensures v < Power2(len)
  {
    if len == 0 then 0 else 2 * Slice(buf, offset, len - 1) + Bit(buf, offset + len - 1)
  }

  lemma {:induction false} PowerSum(m: nat, n: nat)
    ensures Power2(m + n) == Power2(m) * Power2(n)
  {
    if n > 0 {
      PowerSum(m, n - 1);
      assert Power2(m) * (2 * Power2(n - 1)) == 2 * (Power2(m) * Power2(n - 1));
    }
  }

  lemma Doubled(x: nat, p: nat, r: nat)
    ensures 2 * (x * p + r) == x * (2 * p) + 2 * r
  {
  }

  /** Two adjacent slices make one. */
  lemma {:induction false} SliceJoins(buf: seq<byte>, offset: nat, m: nat, n: nat)
    requires offset + m + n <= 8 * |buf|
    ensures Slice(buf, offset, m + n) == Slice(buf, offset, m) * Power2(n) + Slice(buf, offset + m, n)
  {
    hide Bit;
    if n > 0 {
      SliceJoins(buf, offset, m, n - 1);
      Doubled(Slice(buf, offset, m), Power2(n - 1), Slice(buf, offset + m, n - 1));
    }
  }

  lemma {:induction false} SliceOfPart(buf: seq<byte>, from: nat, to: nat, offset: nat, len: nat)
    requires from <= to <= |buf| && offset + len <= 8 * (to - from)
    ensures Slice(buf[from..to], offset, len) == Slice(buf, 8 * from + offset, len)
  {
    hide Bit;
    if len > 0 {
      SliceOfPart(buf, from, to, offset, len - 1);
      BitOfPart(buf, from, to, offset + len - 1);
    }
  }

  lemma BitOfPart(buf: seq<byte>, from: nat, to: nat, i: nat)
    requires from <= to <= |buf| && i < 8 * (to - from)
    ensures Bit(buf[from..to], i) == Bit(buf, 8 * from + i)
  {
    hide Power2;
    assert (8 * from + i) / 8 == from + i / 8 && (8 * from + i) % 8 == i % 8;
  }

  lemma AtLeast(p: nat, d: nat)
    requires d > 0
    ensures p * d >= p
  {
  }

  lemma Distribute(p: nat, a: nat, b: nat)
    ensures p * (a + b) == p * a + p * b
  {
  }

  lemma Unique(p: nat, q: nat, r: nat, q': nat, r': nat)
    requires p * q + r == p * q' + r' && r < p && r' < p
    ensures q == q' && r == r'
  {
    if q < q' {
      var d := q' - q;
      Distribute(p, q, d);
      AtLeast(p, d);
      assert false;
    } else if q > q' {
      var d := q - q';
      Distribute(p, q', d);
      AtLeast(p, d);
      assert false;
    }
  }

  lemma Quotient(x: nat, p: nat, r: nat)
    requires r < p
    ensures (x * p + r) / p == x && (x * p + r) % p == r
  {
    var n := x * p + r;
    Unique(p, n / p, n % p, x, r);
  }

  lemma Regroup(p: nat, h: nat, odd: nat)
    requires odd < 2
    ensures p * (2 * h + odd) == (2 * p) * h + p * odd && p * odd <= p
  {
  }

  lemma Halved(n: nat, p: nat)
    requires p > 0
    ensures n / (2 * p) == n / p / 2
  {
    var q, r := n / p, n % p;
    var h, odd := q / 2, q % 2;
    Regroup(p, h, odd);
    var twice := 2 * p;
    Exact(n, twice, h, p * odd + r);
  }

  lemma Exact(n: nat, p: nat, q: nat, r: nat)
    requires p > 0 && n == p * q + r && r < p
    ensures n / p == q
  {
    Unique(p, n / p, n % p, q, r);
  }

  lemma {:induction false} TopBits(b: byte, m: nat)
    requires m <= 8
    ensures Slice([b], 0, m) == b / Power2(8 - m)
  {
    if m == 0 {
      Powers();
    } else {
      TopBits(b, m - 1);
      Halved(b, Power2(8 - m));
      assert Power2(8 - (m - 1)) == 2 * Power2(8 - m);
    }
  }

  lemma ByteIsItsBits(b: byte)
    ensures Slice([b], 0, 8) == b
  {
    TopBits(b, 8);
    assert Power2(0) == 1;
  }

  lemma Powers()
    ensures Power2(0) == 1 && Power2(1) == 2 && Power2(2) == 4 && Power2(3) == 8 && Power2(4) == 16
    ensures Power2(5) == 32 && Power2(6) == 64 && Power2(7) == 128 && Power2(8) == 256
  {
    assert Power2(4) == 16;
  }

  lemma NoBits(buf: seq<byte>)
    ensures Slice(buf, 0, 0) == 0
  {
  }

  lemma {:induction false} ValueIsSlice(buf: seq<byte>)
    ensures Value(buf) == Slice(buf, 0, 8 * |buf|)
  {
    hide Slice;
    hide Power2;
    if buf == [] {
      NoBits(buf);
    } else {
      var k := |buf| - 1;
      ValueIsSlice(buf[..k]);
      SliceOfPart(buf, 0, k, 0, 8 * k);
      SliceOfPart(buf, k, k + 1, 0, 8);
      assert buf[k..k + 1] == [buf[k]];
      ByteIsItsBits(buf[k]);
      SliceJoins(buf, 0, 8 * k, 8);
      Powers();
      assert buf[0..k] == buf[..k];
    }
  }

  /** Dropping the bits behind a slice and masking the bits before it. */
  lemma ShiftAndMask(buf: seq<byte>, offset: nat, len: nat)
    requires offset + len <= 8 * |buf|
    ensures Value(buf) / Power2(8 * |buf| - offset - len) % Power2(len) == Slice(buf, offset, len)
  {
    hide Slice;
    hide Power2;
    var s := 8 * |buf| - offset - len;
    ValueIsSlice(buf);
    SliceJoins(buf, 0, offset + len, s);
    Quotient(Slice(buf, 0, offset + len), Power2(s), Slice(buf, offset + len, s));
    SliceJoins(buf, 0, offset, len);
    Quotient(Slice(buf, 0, offset), Power2(len), Slice(buf, offset, len));
  }

  /** How many bytes getbits looks at. */
  function Width(len: nat): nat {
    if len <= 8 then 2 else if len <= 16 then 3 else 4
  }

  /** getbits, for at most 24 bits. */
  method GetBits(buf: seq<byte>, offset: nat, len: nat) returns (retval: nat)
    requires 1 <= len <= 24 && offset / 8 + Width(len) <= |buf|
    ensures offset + len <= 8 * |buf| && retval == Slice(buf, offset, len)
  {
    hide Slice;
    hide Power2;
    hide Value;
    var a := offset / 8;
    ghost var part := buf[a..a + Width(len)];
    ValueOfTwo(part[..2]);
    var mask := Power2(len);
    var left := len;
    retval := (buf[a] as int) * 256 + buf[a + 1];
    if left > 8 {
      ValueOfMore(part, 2);
      retval := retval * 256 + buf[a + 2];
      left := left - 8;
    }
    if left > 8 {
      ValueOfMore(part, 3);
      retval := retval * 256 + buf[a + 3];
      left := left - 8;
    }
    assert part[..Width(len)] == part;
    retval := retval / Power2((8 - offset % 8) + (8 - left)) % mask;
    ShiftAndMask(part, offset % 8, len);
    SliceOfPart(buf, a, a + Width(len), offset % 8, len);
  }

  lemma ValueOfTwo(s: seq<byte>)
    requires |s| == 2
    ensures Value(s) == (s[0] as int) * 256 + s[1]
  {
    var t := s[..1];
    assert t[..0] == [];
    assert Value(t) == 256 * Value(t[..0]) + t[0];
  }

  lemma ValueOfMore(s: seq<byte>, n: nat)
    requires n < |s|
    ensures Value(s[..n + 1]) == Value(s[..n]) * 256 + s[n]
  {
    assert s[..n + 1][..n] == s[..n];
  }

  // ----- time stamps (sections 2.4.3.6 and 2.4.3.7 of ISO/IEC 13818-1)

  /** The five bytes of a time stamp: four bits of prefix, then 3, 15 and 15 bits, each followed by a marker. */
  function Stamp(prefix: nat, pts: nat): seq<byte>
    requires prefix < 16 && pts < 0x2_0000_0000
  {
    [prefix * 16 + pts / 0x4000_0000 * 2 + 1,
     pts / 0x40_0000 % 256,
     pts / 0x8000 % 128 * 2 + 1,
     pts / 128 % 256,
     pts % 128 * 2 + 1]
  }

  /** The three parts of the time stamp in a packet, put together. */
  function StampAt(packet: seq<byte>): nat
    requires |packet| >= 15
  {
    Slice(packet, 76, 3) * 0x4000_0000 + Slice(packet, 80, 15) * 0x8000 + Slice(packet, 96, 15)
  }

  /** The reading of the time stamp in dvbsub_thread. */
  method ReadStamp(packet: seq<byte>) returns (pts: nat)
    requires |packet| >= 9 && (Slice(packet, 56, 2) in {2, 3} ==> |packet| >= 15)
    ensures pts == if Slice(packet, 56, 2) in {2, 3} then StampAt(packet) else 0
  {
    var flags := GetBits(packet, 7 * 8, 2);
    if flags != 2 && flags != 3 {
      return 0;
    }
    var high := GetBits(packet, 9 * 8 + 4, 3);
    var middle := GetBits(packet, 10 * 8, 15);
    var low := GetBits(packet, 12 * 8, 15);
    pts := high * 0x4000_0000 + middle * 0x8000 + low;
  }

  /** Every 33-bit time stamp is read back, whatever stands around it. */
  lemma StampIsRead(packet: seq<byte>, prefix: nat, pts: nat)
    requires |packet| >= 15 && prefix < 16 && pts < 0x2_0000_0000
    requires packet[9..14] == Stamp(prefix, pts)
    ensures StampAt(packet) == pts
  {
    hide Slice;
    var s := Stamp(prefix, pts);
    assert packet[9] == packet[9..14][0] && packet[10] == packet[9..14][1] && packet[11] == packet[9..14][2];
    assert packet[12] == packet[9..14][3] && packet[13] == packet[9..14][4];
    HighBits(packet, 9);
    Fifteen(packet, 10);
    Fifteen(packet, 12);
    HighPart(pts);
    MiddlePart(pts);
    LowPart(pts);
    AllParts(pts);
  }

  lemma Field(packet: seq<byte>, at: nat, offset: nat, len: nat, k: nat)
    requires at + k <= |packet| && offset + len <= 8 * k
    ensures Slice(packet, 8 * at + offset, len)
      == Value(packet[at..at + k]) / Power2(8 * k - offset - len) % Power2(len)
  {
    ShiftAndMask(packet[at..at + k], offset, len);
    SliceOfPart(packet, at, at + k, offset, len);
  }

  lemma HighBits(packet: seq<byte>, at: nat)
    requires at < |packet|
    ensures Slice(packet, 8 * at + 4, 3) == packet[at] / 2 % 8
  {
    hide Slice;
    Field(packet, at, 4, 3, 1);
    Powers();
    var part := packet[at..at + 1];
    assert part[..0] == [];
    assert Value(part) == part[0];
  }

  lemma Fifteen(packet: seq<byte>, at: nat)
    requires at + 2 <= |packet|
    ensures Slice(packet, 8 * at, 15) == ((packet[at] as int) * 256 + packet[at + 1]) / 2 % 0x8000
  {
    hide Slice;
    Field(packet, at, 0, 15, 2);
    ValueOfTwo(packet[at..at + 2]);
    Powers();
    PowerSum(8, 7);
  }

  lemma HighPart(pts: nat)
    requires pts < 0x2_0000_0000
    ensures forall prefix: nat :: (prefix * 16 + pts / 0x4000_0000 * 2 + 1) / 2 % 8 == pts / 0x4000_0000
  {
    var h := pts / 0x4000_0000;
    forall prefix: nat ensures (prefix * 16 + h * 2 + 1) / 2 % 8 == h {
      assert (prefix * 16 + h * 2 + 1) / 2 == prefix * 8 + h;
    }
  }

  lemma MiddlePart(pts: nat)
    ensures (pts / 0x40_0000 % 256 * 256 + (pts / 0x8000 % 128 * 2 + 1)) / 2 % 0x8000 == pts / 0x8000 % 0x8000
  {
    var a := pts / 0x8000;
    assert a / 128 == pts / 0x40_0000;
    TwoHalves(a);
  }

  lemma LowPart(pts: nat)
    ensures (pts / 128 % 256 * 256 + (pts % 128 * 2 + 1)) / 2 % 0x8000 == pts % 0x8000
  {
    TwoHalves(pts);
  }

  lemma TwoHalves(a: nat)
    ensures (a / 128 % 256 * 256 + (a % 128 * 2 + 1)) / 2 % 0x8000 == a % 0x8000
  {
    var h, l := a / 128 % 256, a % 128;
    assert (h * 256 + (l * 2 + 1)) / 2 == h * 128 + l;
    var q := a / 128 / 256;
    assert a == (q * 256 + h) * 128 + l;
    assert a == q * 0x8000 + (h * 128 + l);
  }

  lemma AllParts(pts: nat)
    ensures pts == pts / 0x4000_0000 * 0x4000_0000 + pts / 0x8000 % 0x8000 * 0x8000 + pts % 0x8000
  {
    var a := pts / 0x8000;
    assert a / 0x8000 == pts / 0x4000_0000;
  }

  /** A packet whose eighth byte announces a time stamp, and what stands around it does not matter. */
  lemma AnnouncedIsRead(packet: seq<byte>)
    requires |packet| >= 8
    ensures Slice(packet, 56, 2) == packet[7] / 64
  {
    hide Slice;
    Field(packet, 7, 0, 2, 1);
    Powers();
    assert packet[7..8] == [packet[7]] && [packet[7]][..0] == [];
    assert Value([packet[7]]) == packet[7];
  }

  /** The packet header of section 2.4.3.6 with a time stamp: start code, id, length, flags, header length, stamp. */
  method StampOf(id: byte, hi: byte, lo: byte, flags: byte, announced: byte, size: byte, pts: nat, rest: seq<byte>)
    returns (r: nat)
    requires pts < 0x2_0000_0000 && announced in {0x80, 0xC0} && |rest| > 0
    ensures r == pts
  {
    var stamp := Stamp(announced / 64, pts);
    var packet := [0, 0, 1, id, hi, lo, flags, announced, size] + stamp + rest;
    assert packet[9..14] == stamp && packet[7] == announced;
    AnnouncedIsRead(packet);
    StampIsRead(packet, announced / 64, pts);
    r := ReadStamp(packet);
  }
}
