/**
  MD5 as RFC 1321 defines it: sixty-four steps that rotate four registers through the words of a block,
  and the padding of section 3.1 and 3.2 around them.
 */
module Md5Spec {
  import opened Basics

  type word = bv32

  datatype Regs = Regs(a: word, b: word, c: word, d: word)

  const BLOCK := 64
  const TWO64 := 0x1_0000_0000_0000_0000

  /** Section 3.3. */
  const INIT := Regs(0x6745_2301, 0xefcd_ab89, 0x98ba_dcfe, 0x1032_5476)

  // ----- section 3.4: the block function

  function F(x: word, y: word, z: word): word { (x & y) | (!x & z) }
  function G(x: word, y: word, z: word): word { (x & z) | (y & !z) }
  function H(x: word, y: word, z: word): word { x ^ y ^ z }
  function I(x: word, y: word, z: word): word { y ^ (x | !z) }

  function Mix(i: nat, x: word, y: word, z: word): word {
    match i / 16
    case 0 => F(x, y, z)
    case 1 => G(x, y, z)
    case 2 => H(x, y, z)
    case _ => I(x, y, z)
  }

  /** Which word of the block step i takes. */
  function Pick(i: nat): (k: nat)
    ensures k < 16
  {
    match i / 16
    case 0 => i % 16
    case 1 => (5 * i + 1) % 16
    case 2 => (3 * i + 5) % 16
    case _ => 7 * i % 16
  }

  function Shift(i: nat): (s: nat)
    ensures 0 < s < 32
  {
    match (i / 16, i % 4)
    case (0, 0) => 7 case (0, 1) => 12 case (0, 2) => 17 case (0, _) => 22
    case (1, 0) => 5 case (1, 1) => 9 case (1, 2) => 14 case (1, _) => 20
    case (2, 0) => 4 case (2, 1) => 11 case (2, 2) => 16 case (2, _) => 23
    case (_, 0) => 6 case (_, 1) => 10 case (_, 2) => 15 case (_, _) => 21
  }

  /** The table of section 3.4: the integer parts of 2^32 |sin(i + 1)|. */
  function T(i: nat): word {
    match i / 16
    case 0 => TOne(i % 16)
    case 1 => TTwo(i % 16)
    case 2 => TThree(i % 16)
    case _ => TFour(i % 16)
  }

  function TOne(j: nat): word {
    match j
    case 0 => 0xd76a_a478 case 1 => 0xe8c7_b756 case 2 => 0x2420_70db case 3 => 0xc1bd_ceee
    case 4 => 0xf57c_0faf case 5 => 0x4787_c62a case 6 => 0xa830_4613 case 7 => 0xfd46_9501
    case 8 => 0x6980_98d8 case 9 => 0x8b44_f7af case 10 => 0xffff_5bb1 case 11 => 0x895c_d7be
    case 12 => 0x6b90_1122 case 13 => 0xfd98_7193 case 14 => 0xa679_438e case _ => 0x49b4_0821
  }

  function TTwo(j: nat): word {
    match j
    case 0 => 0xf61e_2562 case 1 => 0xc040_b340 case 2 => 0x265e_5a51 case 3 => 0xe9b6_c7aa
    case 4 => 0xd62f_105d case 5 => 0x0244_1453 case 6 => 0xd8a1_e681 case 7 => 0xe7d3_fbc8
    case 8 => 0x21e1_cde6 case 9 => 0xc337_07d6 case 10 => 0xf4d5_0d87 case 11 => 0x455a_14ed
    case 12 => 0xa9e3_e905 case 13 => 0xfcef_a3f8 case 14 => 0x676f_02d9 case _ => 0x8d2a_4c8a
  }

  function TThree(j: nat): word {
    match j
    case 0 => 0xfffa_3942 case 1 => 0x8771_f681 case 2 => 0x6d9d_6122 case 3 => 0xfde5_380c
    case 4 => 0xa4be_ea44 case 5 => 0x4bde_cfa9 case 6 => 0xf6bb_4b60 case 7 => 0xbebf_bc70
    case 8 => 0x289b_7ec6 case 9 => 0xeaa1_27fa case 10 => 0xd4ef_3085 case 11 => 0x0488_1d05
    case 12 => 0xd9d4_d039 case 13 => 0xe6db_99e5 case 14 => 0x1fa2_7cf8 case _ => 0xc4ac_5665
  }

  function TFour(j: nat): word {
    match j
    case 0 => 0xf429_2244 case 1 => 0x432a_ff97 case 2 => 0xab94_23a7 case 3 => 0xfc93_a039
    case 4 => 0x655b_59c3 case 5 => 0x8f0c_cc92 case 6 => 0xffef_f47d case 7 => 0x8584_5dd1
    case 8 => 0x6fa8_7e4f case 9 => 0xfe2c_e6e0 case 10 => 0xa301_4314 case 11 => 0x4e08_11a1
    case 12 => 0xf753_7e82 case 13 => 0xbd3a_f235 case 14 => 0x2ad7_d2bb case _ => 0xeb86_d391
  }

  function Rotate(w: word, s: nat): word
    requires 0 < s < 32
  {
    (w << s) | (w >> (32 - s))
  }

  function Add(x: word, y: word): word { x + y }

  /** b + ((a + f + x + t) <<< s) */
  function Operate(a: word, b: word, f: word, x: word, s: nat, t: word): word
    requires 0 < s < 32
  {
    Add(b, Rotate(Add(Add(Add(a, f), x), t), s))
  }

  function Step(r: Regs, x: seq<word>, i: nat): Regs
    requires |x| == 16
  {
    Regs(r.d, Operate(r.a, r.b, Mix(i, r.b, r.c, r.d), x[Pick(i)], Shift(i), T(i)), r.b, r.c)
  }

  function Steps(r: Regs, x: seq<word>, n: nat): Regs
    requires |x| == 16
  {
    if n == 0 then r else Step(Steps(r, x, n - 1), x, n - 1)
  }

  function Sum(r: Regs, s: Regs): Regs {
    Regs(Add(r.a, s.a), Add(r.b, s.b), Add(r.c, s.c), Add(r.d, s.d))
  }

  function Word(b0: bv8, b1: bv8, b2: bv8, b3: bv8): word {
    (b0 as word) | ((b1 as word) << 8) | ((b2 as word) << 16) | ((b3 as word) << 24)
  }

  /** The sixteen words of a block, low-order byte first. */
  function Words(block: seq<bv8>): (x: seq<word>)
    requires |block| == BLOCK
    ensures |x| == 16
  {
    seq(16, k requires 0 <= k < 16 => Word(block[4 * k], block[4 * k + 1], block[4 * k + 2], block[4 * k + 3]))
  }

  function Block(r: Regs, block: seq<bv8>): Regs
    requires |block| == BLOCK
  {
    Sum(Steps(r, Words(block), 64), r)
  }

  function Blocks(r: Regs, bytes: seq<bv8>): Regs
    requires |bytes| % BLOCK == 0
    decreases |bytes|
  {
    if bytes == [] then r else Blocks(Block(r, bytes[..BLOCK]), bytes[BLOCK..])
  }

  lemma {:induction false} BlocksConcat(r: Regs, s: seq<bv8>, t: seq<bv8>)
    requires |s| % BLOCK == 0 && |t| % BLOCK == 0
    ensures Blocks(r, s + t) == Blocks(Blocks(r, s), t)
    decreases |s|
  {
    hide Block;
    if s == [] {
      assert s + t == t;
    } else {
      assert (s + t)[..BLOCK] == s[..BLOCK] && (s + t)[BLOCK..] == s[BLOCK..] + t;
      BlocksConcat(Block(r, s[..BLOCK]), s[BLOCK..], t);
    }
  }

  // ----- sections 3.1, 3.2 and 3.5: padding, length, output

  function Zeros(n: nat): (z: seq<bv8>)
    ensures |z| == n
  {
    seq(n, _ => 0)
  }

  function ByteOf(n: nat): bv8 { (n % 256) as bv8 }

  /** A number as four bytes, low-order byte first. */
  function LowFirst(n: nat): (b: seq<bv8>)
    ensures |b| == 4
  {
    [ByteOf(n), ByteOf(n / 0x100), ByteOf(n / 0x1_0000), ByteOf(n / 0x100_0000)]
  }

  /** The length in bits modulo 2^64, low-order word first. */
  function LengthField(bytes: nat): (b: seq<bv8>)
    ensures |b| == 8
  {
    LowFirst(8 * bytes % TWO64 % TWO32) + LowFirst(8 * bytes % TWO64 / TWO32)
  }

  function Padding(bytes: nat): (p: seq<bv8>)
    ensures |p| == 1 + (55 - bytes) % 64
  {
    [0x80] + Zeros((55 - bytes) % 64)
  }

  function Padded(message: seq<bv8>): (p: seq<bv8>)
    ensures |p| % BLOCK == 0
  {
    PaddedLength(|message|);
    message + Padding(|message|) + LengthField(|message|)
  }

  lemma PaddedLength(bytes: nat)
    ensures (bytes + (1 + (55 - bytes) % 64) + 8) % BLOCK == 0
  {
  }

  function WordBytes(w: word): seq<bv8> {
    [(w & 0xFF) as bv8, ((w >> 8) & 0xFF) as bv8, ((w >> 16) & 0xFF) as bv8, (w >> 24) as bv8]
  }

  function Output(r: Regs): seq<bv8> {
    WordBytes(r.a) + WordBytes(r.b) + WordBytes(r.c) + WordBytes(r.d)
  }

  function Digest(message: seq<bv8>): seq<bv8> {
    Output(Blocks(INIT, Padded(message)))
  }

  // ----- words and bytes as numbers

  /** Low-order byte first. */
  lemma WordIsNumber(b0: bv8, b1: bv8, b2: bv8, b3: bv8)
    ensures Word(b0, b1, b2, b3)
      == (b0 as word) + 0x100 * (b1 as word) + 0x1_0000 * (b2 as word) + 0x100_0000 * (b3 as word)
  {
  }

  lemma WordBytesAreWord(w: word)
    ensures var b := WordBytes(w); |b| == 4 && Word(b[0], b[1], b[2], b[3]) == w
  {
  }

  /** The bytes of section 3.3, in the order in which they are written there. */
  lemma InitBytes()
    ensures INIT == Regs(Word(0x01, 0x23, 0x45, 0x67), Word(0x89, 0xab, 0xcd, 0xef),
                         Word(0xfe, 0xdc, 0xba, 0x98), Word(0x76, 0x54, 0x32, 0x10))
  {
  }

  function Number(b: bv8): (n: nat)
    ensures n < 256
  {
    b as int
  }

  lemma ByteOfNumber(b: bv8, n: nat)
    requires n % 256 == Number(b)
    ensures ByteOf(n) == b
  {
    assert (b as int) as bv8 == b;
  }

  /** Four bytes are what the number has whose digits they are, the lowest first. */
  lemma LowFirstIsNumber(b0: bv8, b1: bv8, b2: bv8, b3: bv8)
    ensures var n := Number(b0) + 0x100 * Number(b1) + 0x1_0000 * Number(b2) + 0x100_0000 * Number(b3);
      n < TWO32 && LowFirst(n) == [b0, b1, b2, b3]
  {
    hide Number;
    hide ByteOf;
    var n := Number(b0) + 0x100 * Number(b1) + 0x1_0000 * Number(b2) + 0x100_0000 * Number(b3);
    FourDigits(Number(b0), Number(b1), Number(b2), Number(b3));
    ByteOfNumber(b0, n);
    ByteOfNumber(b1, n / 0x100);
    ByteOfNumber(b2, n / 0x1_0000);
    ByteOfNumber(b3, n / 0x100_0000);
  }

  lemma FourDigits(d0: nat, d1: nat, d2: nat, d3: nat)
    requires d0 < 256 && d1 < 256 && d2 < 256 && d3 < 256
    ensures var n := d0 + 0x100 * d1 + 0x1_0000 * d2 + 0x100_0000 * d3;
      && n < TWO32 && n % 0x100 == d0 && n / 0x100 % 0x100 == d1
      && n / 0x1_0000 % 0x100 == d2 && n / 0x100_0000 % 0x100 == d3
  {
  }

  /** <<< of the RFC, for its sixteen amounts. */
  lemma RotateIsRotation(w: word)
    ensures Rotate(w, 7) == w.RotateLeft(7) && Rotate(w, 12) == w.RotateLeft(12)
    ensures Rotate(w, 17) == w.RotateLeft(17) && Rotate(w, 22) == w.RotateLeft(22)
    ensures Rotate(w, 5) == w.RotateLeft(5) && Rotate(w, 9) == w.RotateLeft(9)
    ensures Rotate(w, 14) == w.RotateLeft(14) && Rotate(w, 20) == w.RotateLeft(20)
    ensures Rotate(w, 4) == w.RotateLeft(4) && Rotate(w, 11) == w.RotateLeft(11)
    ensures Rotate(w, 16) == w.RotateLeft(16) && Rotate(w, 23) == w.RotateLeft(23)
    ensures Rotate(w, 6) == w.RotateLeft(6) && Rotate(w, 10) == w.RotateLeft(10)
    ensures Rotate(w, 15) == w.RotateLeft(15) && Rotate(w, 21) == w.RotateLeft(21)
  {
  }
}
