/**
  The Hamming 24/18 decoder of tuxtxt_def.h in its two forms, the table-driven one that is compiled and
  the bit-serial one beside it, and what both owe to ETS 300 706, section 8.3.

  A decoder result is a 32-bit int kept as its bit pattern: the top bit set means a negative value.
 */
module Hamming24 {
  import opened TxtTables

  type cint = bv32

  /** Three bytes in transmission order; bit 0 of p0 is bit 0 of the 24-bit word. */
  datatype Triplet = Triplet(p0: bv8, p1: bv8, p2: bv8)

  const MINUS_ONE: cint := 0xFFFF_FFFF

  predicate Negative(x: cint) {
    x & 0x8000_0000 != 0
  }

  function Pick8(k: bv8, x0: cint, x1: cint, x2: cint, x3: cint, x4: cint, x5: cint, x6: cint, x7: cint): cint {
    match k
    case 0 => x0 case 1 => x1 case 2 => x2 case 3 => x3
    case 4 => x4 case 5 => x5 case 6 => x6 case _ => x7
  }

  // ----- the tables

  /** hamm24par[0][]: parity tests of the first byte. */
  function Par0(p: bv8): bv8 {
    match p >> 4
    case 0 => Pick(p & 15, 0, 33, 34, 3, 35, 2, 1, 32, 36, 5, 6, 39, 7, 38, 37, 4)
    case 1 => Pick(p & 15, 37, 4, 7, 38, 6, 39, 36, 5, 1, 32, 35, 2, 34, 3, 0, 33)
    case 2 => Pick(p & 15, 38, 7, 4, 37, 5, 36, 39, 6, 2, 35, 32, 1, 33, 0, 3, 34)
    case 3 => Pick(p & 15, 3, 34, 33, 0, 32, 1, 2, 35, 39, 6, 5, 36, 4, 37, 38, 7)
    case 4 => Pick(p & 15, 39, 6, 5, 36, 4, 37, 38, 7, 3, 34, 33, 0, 32, 1, 2, 35)
    case 5 => Pick(p & 15, 2, 35, 32, 1, 33, 0, 3, 34, 38, 7, 4, 37, 5, 36, 39, 6)
    case 6 => Pick(p & 15, 1, 32, 35, 2, 34, 3, 0, 33, 37, 4, 7, 38, 6, 39, 36, 5)
    case 7 => Pick(p & 15, 36, 5, 6, 39, 7, 38, 37, 4, 0, 33, 34, 3, 35, 2, 1, 32)
    case 8 => Pick(p & 15, 40, 9, 10, 43, 11, 42, 41, 8, 12, 45, 46, 15, 47, 14, 13, 44)
    case 9 => Pick(p & 15, 13, 44, 47, 14, 46, 15, 12, 45, 41, 8, 11, 42, 10, 43, 40, 9)
    case 10 => Pick(p & 15, 14, 47, 44, 13, 45, 12, 15, 46, 42, 11, 8, 41, 9, 40, 43, 10)
    case 11 => Pick(p & 15, 43, 10, 9, 40, 8, 41, 42, 11, 15, 46, 45, 12, 44, 13, 14, 47)
    case 12 => Pick(p & 15, 15, 46, 45, 12, 44, 13, 14, 47, 43, 10, 9, 40, 8, 41, 42, 11)
    case 13 => Pick(p & 15, 42, 11, 8, 41, 9, 40, 43, 10, 14, 47, 44, 13, 45, 12, 15, 46)
    case 14 => Pick(p & 15, 41, 8, 11, 42, 10, 43, 40, 9, 13, 44, 47, 14, 46, 15, 12, 45)
    case _ => Pick(p & 15, 12, 45, 46, 15, 47, 14, 13, 44, 40, 9, 10, 43, 11, 42, 41, 8)
  }

  /** hamm24par[1][]: parity tests of the second byte. */
  function Par1(p: bv8): bv8 {
    match p >> 4
    case 0 => Pick(p & 15, 0, 41, 42, 3, 43, 2, 1, 40, 44, 5, 6, 47, 7, 46, 45, 4)
    case 1 => Pick(p & 15, 45, 4, 7, 46, 6, 47, 44, 5, 1, 40, 43, 2, 42, 3, 0, 41)
    case 2 => Pick(p & 15, 46, 7, 4, 45, 5, 44, 47, 6, 2, 43, 40, 1, 41, 0, 3, 42)
    case 3 => Pick(p & 15, 3, 42, 41, 0, 40, 1, 2, 43, 47, 6, 5, 44, 4, 45, 46, 7)
    case 4 => Pick(p & 15, 47, 6, 5, 44, 4, 45, 46, 7, 3, 42, 41, 0, 40, 1, 2, 43)
    case 5 => Pick(p & 15, 2, 43, 40, 1, 41, 0, 3, 42, 46, 7, 4, 45, 5, 44, 47, 6)
    case 6 => Pick(p & 15, 1, 40, 43, 2, 42, 3, 0, 41, 45, 4, 7, 46, 6, 47, 44, 5)
    case 7 => Pick(p & 15, 44, 5, 6, 47, 7, 46, 45, 4, 0, 41, 42, 3, 43, 2, 1, 40)
    case 8 => Pick(p & 15, 48, 25, 26, 51, 27, 50, 49, 24, 28, 53, 54, 31, 55, 30, 29, 52)
    case 9 => Pick(p & 15, 29, 52, 55, 30, 54, 31, 28, 53, 49, 24, 27, 50, 26, 51, 48, 25)
    case 10 => Pick(p & 15, 30, 55, 52, 29, 53, 28, 31, 54, 50, 27, 24, 49, 25, 48, 51, 26)
    case 11 => Pick(p & 15, 51, 26, 25, 48, 24, 49, 50, 27, 31, 54, 53, 28, 52, 29, 30, 55)
    case 12 => Pick(p & 15, 31, 54, 53, 28, 52, 29, 30, 55, 51, 26, 25, 48, 24, 49, 50, 27)
    case 13 => Pick(p & 15, 50, 27, 24, 49, 25, 48, 51, 26, 30, 55, 52, 29, 53, 28, 31, 54)
    case 14 => Pick(p & 15, 49, 24, 27, 50, 26, 51, 48, 25, 29, 52, 55, 30, 54, 31, 28, 53)
    case _ => Pick(p & 15, 28, 53, 54, 31, 55, 30, 29, 52, 48, 25, 26, 51, 27, 50, 49, 24)
  }

  /** hamm24par[2][]: parity tests of the third byte. */
  function Par2(p: bv8): bv8 {
    match p >> 4
    case 0 => Pick(p & 15, 63, 14, 13, 60, 12, 61, 62, 15, 11, 58, 57, 8, 56, 9, 10, 59)
    case 1 => Pick(p & 15, 10, 59, 56, 9, 57, 8, 11, 58, 62, 15, 12, 61, 13, 60, 63, 14)
    case 2 => Pick(p & 15, 9, 56, 59, 10, 58, 11, 8, 57, 61, 12, 15, 62, 14, 63, 60, 13)
    case 3 => Pick(p & 15, 60, 13, 14, 63, 15, 62, 61, 12, 8, 57, 58, 11, 59, 10, 9, 56)
    case 4 => Pick(p & 15, 8, 57, 58, 11, 59, 10, 9, 56, 60, 13, 14, 63, 15, 62, 61, 12)
    case 5 => Pick(p & 15, 61, 12, 15, 62, 14, 63, 60, 13, 9, 56, 59, 10, 58, 11, 8, 57)
    case 6 => Pick(p & 15, 62, 15, 12, 61, 13, 60, 63, 14, 10, 59, 56, 9, 57, 8, 11, 58)
    case 7 => Pick(p & 15, 11, 58, 57, 8, 56, 9, 10, 59, 63, 14, 13, 60, 12, 61, 62, 15)
    case 8 => Pick(p & 15, 31, 46, 45, 28, 44, 29, 30, 47, 43, 26, 25, 40, 24, 41, 42, 27)
    case 9 => Pick(p & 15, 42, 27, 24, 41, 25, 40, 43, 26, 30, 47, 44, 29, 45, 28, 31, 46)
    case 10 => Pick(p & 15, 41, 24, 27, 42, 26, 43, 40, 25, 29, 44, 47, 30, 46, 31, 28, 45)
    case 11 => Pick(p & 15, 28, 45, 46, 31, 47, 30, 29, 44, 40, 25, 26, 43, 27, 42, 41, 24)
    case 12 => Pick(p & 15, 40, 25, 26, 43, 27, 42, 41, 24, 28, 45, 46, 31, 47, 30, 29, 44)
    case 13 => Pick(p & 15, 29, 44, 47, 30, 46, 31, 28, 45, 41, 24, 27, 42, 26, 43, 40, 25)
    case 14 => Pick(p & 15, 30, 47, 44, 29, 45, 28, 31, 46, 42, 27, 24, 41, 25, 40, 43, 26)
    case _ => Pick(p & 15, 43, 26, 25, 40, 24, 41, 42, 27, 31, 46, 45, 28, 44, 29, 30, 47)
  }

  /** hamm24val[]: the four data bits of the first byte. */
  function Val(p: bv8): bv8 {
    match p >> 4
    case 0 => Pick(p & 15, 0, 0, 0, 0, 1, 1, 1, 1, 0, 0, 0, 0, 1, 1, 1, 1)
    case 1 => Pick(p & 15, 2, 2, 2, 2, 3, 3, 3, 3, 2, 2, 2, 2, 3, 3, 3, 3)
    case 2 => Pick(p & 15, 4, 4, 4, 4, 5, 5, 5, 5, 4, 4, 4, 4, 5, 5, 5, 5)
    case 3 => Pick(p & 15, 6, 6, 6, 6, 7, 7, 7, 7, 6, 6, 6, 6, 7, 7, 7, 7)
    case 4 => Pick(p & 15, 8, 8, 8, 8, 9, 9, 9, 9, 8, 8, 8, 8, 9, 9, 9, 9)
    case 5 => Pick(p & 15, 10, 10, 10, 10, 11, 11, 11, 11, 10, 10, 10, 10, 11, 11, 11, 11)
    case 6 => Pick(p & 15, 12, 12, 12, 12, 13, 13, 13, 13, 12, 12, 12, 12, 13, 13, 13, 13)
    case 7 => Pick(p & 15, 14, 14, 14, 14, 15, 15, 15, 15, 14, 14, 14, 14, 15, 15, 15, 15)
    case 8 => Pick(p & 15, 0, 0, 0, 0, 1, 1, 1, 1, 0, 0, 0, 0, 1, 1, 1, 1)
    case 9 => Pick(p & 15, 2, 2, 2, 2, 3, 3, 3, 3, 2, 2, 2, 2, 3, 3, 3, 3)
    case 10 => Pick(p & 15, 4, 4, 4, 4, 5, 5, 5, 5, 4, 4, 4, 4, 5, 5, 5, 5)
    case 11 => Pick(p & 15, 6, 6, 6, 6, 7, 7, 7, 7, 6, 6, 6, 6, 7, 7, 7, 7)
    case 12 => Pick(p & 15, 8, 8, 8, 8, 9, 9, 9, 9, 8, 8, 8, 8, 9, 9, 9, 9)
    case 13 => Pick(p & 15, 10, 10, 10, 10, 11, 11, 11, 11, 10, 10, 10, 10, 11, 11, 11, 11)
    case 14 => Pick(p & 15, 12, 12, 12, 12, 13, 13, 13, 13, 12, 12, 12, 12, 13, 13, 13, 13)
    case _ => Pick(p & 15, 14, 14, 14, 14, 15, 15, 15, 15, 14, 14, 14, 14, 15, 15, 15, 15)
  }

  /** hamm24cor[]: the data bit a test result points at. */
  function Correction(e: bv8): bv32 {
    match e >> 3
    case 4 => Pick8(e & 7, 0x00000, 0x00000, 0x00000, 0x00001, 0x00000, 0x00002, 0x00004, 0x00008)
    case 5 => Pick8(e & 7, 0x00000, 0x00010, 0x00020, 0x00040, 0x00080, 0x00100, 0x00200, 0x00400)
    case 6 => Pick8(e & 7, 0x00000, 0x00800, 0x01000, 0x02000, 0x04000, 0x08000, 0x10000, 0x20000)
    case _ => 0
  }

  /** hamm24err[]: 0 for a correctable test result, -1 for any other, sign-extended to 32 bits. */
  function ErrorMask(e: bv8): bv32 {
    if e == 0 || (32 <= e < 56) then 0 else 0xFFFF_FFFF
  }

  // ----- the table-driven decoder

  /** The ^ operator on bytes. */
  function Xor(x: bv8, y: bv8): bv8 { x ^ y }

  /** The six parity tests, from the tables. */
  function Tests(t: Triplet): bv8 {
    Xor(Xor(Par0(t.p0), Par1(t.p1)), Par2(t.p2))
  }

  function Assemble(low: bv8, p1: bv8, p2: bv8): cint {
    (low as bv32) + ((p1 & 127) as bv32) * 16 + ((p2 & 127) as bv32) * 2048
  }

  /** The ^ operator on 32-bit words. */
  function Xor32(x: cint, y: cint): cint { x ^ y }

  /** The 18 data bits, from the tables. */
  function Data(t: Triplet): cint {
    Assemble(Val(t.p0), t.p1, t.p2)
  }

  /** Applies a test result to the data. The tables have 64 entries; TestsBelow64 keeps the index in bounds. */
  function Decode(data: cint, e: bv8): cint {
    Xor32(data, Correction(e)) | ErrorMask(e)
  }

  /** deh24 as compiled. */
  function Deh24(t: Triplet): cint {
    Decode(Data(t), Tests(t))
  }

  // ----- what the tables contain

  /** The six parity tests A to F as one byte, test A first. */
  function Six(a: bv8, b: bv8, c: bv8, d: bv8, e: bv8, f: bv8): bv8 {
    a | (b << 1) | (c << 2) | (d << 3) | (e << 4) | (f << 5)
  }

  /** The parity of the bits a mask selects. */
  function Masked(p: bv8, mask: bv8): bv8 {
    Parity8(p & mask)
  }

  /**
    The share of one byte in the parity tests of ETS 300 706, section 8.3. Tests A to E cover the bit
    positions whose number (from 1) has the corresponding bit set, test F covers all bits. Tests A, B and
    C cover the same bits of each byte; d and e are the bits covered by tests D and E.
   */
  function Share(p: bv8, d: bv8, e: bv8): bv8 {
    Six(Masked(p, 0x55), Masked(p, 0x66), Masked(p, 0x78), Masked(p, d), Masked(p, e), Masked(p, 0xFF))
  }

  lemma Table0(p: bv8)
    ensures Par0(p) == Share(p, 0x80, 0x00)
  {
  }

  lemma Table1(p: bv8)
    ensures Par1(p) == Share(p, 0x7F, 0x80)
  {
  }

  lemma Table2(p: bv8)
    ensures Par2(p) == Xor(Share(p, 0x00, 0x7F), 0x3F)
  {
  }

  lemma ShareBelow64(p: bv8, d: bv8, e: bv8)
    ensures Share(p, d, e) < 64
  {
    MaskedIsBit(p, 0x55);
    MaskedIsBit(p, 0x66);
    MaskedIsBit(p, 0x78);
    MaskedIsBit(p, d);
    MaskedIsBit(p, e);
    MaskedIsBit(p, 0xFF);
    hide Masked;
  }

  lemma MaskedIsBit(p: bv8, mask: bv8)
    ensures Masked(p, mask) <= 1
  {
  }

  lemma XorBelow64(x: bv8, y: bv8)
    requires x < 64 && y < 64
    ensures Xor(x, y) < 64
  {
  }

  lemma TestsBelow64(t: Triplet)
    ensures Tests(t) < 64
  {
    hide Par0;
    hide Par1;
    hide Par2;
    hide Share;
    hide Xor;
    Table0(t.p0);
    Table1(t.p1);
    Table2(t.p2);
    ShareBelow64(t.p0, 0x80, 0x00);
    ShareBelow64(t.p1, 0x7F, 0x80);
    ShareBelow64(t.p2, 0x00, 0x7F);
    XorBelow64(Share(t.p2, 0x00, 0x7F), 0x3F);
    XorBelow64(Par0(t.p0), Par1(t.p1));
    XorBelow64(Xor(Par0(t.p0), Par1(t.p1)), Par2(t.p2));
  }

  // ----- the encoder and its errors

  /** The bit that makes a test over three bytes odd. */
  function OddBit(x: bv8, y: bv8, z: bv8, mask: bv8): bv8 {
    Xor(1, Xor(Xor(Masked(x, mask), Masked(y, mask)), Masked(z, mask)))
  }

  function Byte0(d0: bv8, a: bv8, b: bv8, c: bv8, d: bv8): bv8 {
    d0 | a | (b << 1) | (c << 3) | (d << 7)
  }

  function Byte12(d1: bv8, e: bv8): bv8 {
    d1 | (e << 7)
  }

  /** Adds the six parity bits, so that every test covers an odd number of set bits. */
  function Protect(d0: bv8, d1: bv8, d2: bv8): Triplet {
    var p0 := Byte0(d0, OddBit(d0, d1, d2, 0x55), OddBit(d0, d1, d2, 0x66), OddBit(d0, d1, d2, 0x78),
                    Xor(1, Masked(d1, 0x7F)));
    var p1 := Byte12(d1, Xor(1, Masked(d2, 0x7F)));
    Triplet(p0, p1, Byte12(d2, OddBit(p0, p1, d2, 0xFF)))
  }

  function Spread0(d: cint): bv8 { (((d & 1) << 2) | ((d & 0xE) << 3)) as bv8 }
  function Spread1(d: cint): bv8 { ((d >> 4) & 0x7F) as bv8 }
  function Spread2(d: cint): bv8 { ((d >> 11) & 0x7F) as bv8 }

  /** The Hamming 24/18 encoder of ETS 300 706, section 8.3. */
  function Encode24(d: cint): Triplet
    requires d < 0x4_0000
  {
    Protect(Spread0(d), Spread1(d), Spread2(d))
  }

  /** 1 << k */
  function OneBit(k: nat): bv8
    requires k < 8
  {
    match k
    case 0 => 0x01 case 1 => 0x02 case 2 => 0x04 case 3 => 0x08
    case 4 => 0x10 case 5 => 0x20 case 6 => 0x40 case 7 => 0x80
  }

  function FlipBit(p: bv8, k: nat): bv8
    requires k < 8
  {
    p ^ OneBit(k)
  }

  /** Transmission error in bit k of the word. */
  function Flip(t: Triplet, k: nat): Triplet
    requires k < 24
  {
    if k < 8 then t.(p0 := FlipBit(t.p0, k))
    else if k < 16 then t.(p1 := FlipBit(t.p1, k - 8))
    else t.(p2 := FlipBit(t.p2, k - 16))
  }

  /** How the tests change when bit k flips: the bit's number from 1, and test F. */
  function Column(k: nat): bv8
    requires k < 24
  {
    match k
    case 0 => 33 case 1 => 34 case 2 => 35 case 3 => 36 case 4 => 37 case 5 => 38 case 6 => 39 case 7 => 40
    case 8 => 41 case 9 => 42 case 10 => 43 case 11 => 44 case 12 => 45 case 13 => 46 case 14 => 47 case 15 => 48
    case 16 => 49 case 17 => 50 case 18 => 51 case 19 => 52 case 20 => 53 case 21 => 54 case 22 => 55 case _ => 32
  }

  /** The bit a test result points at. */
  function Position(e: bv8): nat {
    match e
    case 33 => 0 case 34 => 1 case 35 => 2 case 36 => 3 case 37 => 4 case 38 => 5 case 39 => 6 case 40 => 7
    case 41 => 8 case 42 => 9 case 43 => 10 case 44 => 11 case 45 => 12 case 46 => 13 case 47 => 14 case 48 => 15
    case 49 => 16 case 50 => 17 case 51 => 18 case 52 => 19 case 53 => 20 case 54 => 21 case 55 => 22 case 32 => 23
    case _ => 24
  }

  lemma ColumnsDiffer(j: nat, k: nat)
    requires j < 24 && k < 24 && j != k
    ensures Column(j) != Column(k) && 32 <= Column(j) < 56
  {
    hide Column;
    hide Position;
    ColumnPlaced(j);
    ColumnPlaced(k);
  }

  lemma ColumnPlaced(k: nat)
    requires k < 24
    ensures Position(Column(k)) == k && 32 <= Column(k) < 56
  {
  }

  // ----- one flipped bit

  lemma FlipParity(p: bv8, k: nat)
    requires k < 8
    ensures Parity8(FlipBit(p, k)) == Parity8(p) ^ 1
  {
    match k
    case 0 => case 1 => case 2 => case 3 => case 4 => case 5 => case 6 => case _ =>
  }

  lemma MaskFlip(p: bv8, b: bv8, mask: bv8)
    requires b & (b - 1) == 0
    ensures (p ^ b) & mask == if b & mask != 0 then (p & mask) ^ b else p & mask
    ensures b & mask == if b & mask != 0 then b else 0
  {
  }

  lemma FlipMasked(p: bv8, k: nat, mask: bv8)
    requires k < 8
    ensures Masked(FlipBit(p, k), mask) == Xor(Masked(p, mask), Masked(OneBit(k), mask))
  {
    var b := OneBit(k);
    assert b & (b - 1) == 0 && b != 0 && Parity8(b) == 1 && Parity8(0) == 0;
    MaskFlip(p, b, mask);
    FlipParity(p & mask, k);
    hide Parity8;
    hide OneBit;
  }

  lemma SixAdds(a: bv8, b: bv8, c: bv8, d: bv8, e: bv8, f: bv8, a': bv8, b': bv8, c': bv8, d': bv8, e': bv8, f': bv8)
    ensures Six(Xor(a, a'), Xor(b, b'), Xor(c, c'), Xor(d, d'), Xor(e, e'), Xor(f, f'))
      == Xor(Six(a, b, c, d, e, f), Six(a', b', c', d', e', f'))
    requires a <= 1 && b <= 1 && c <= 1 && d <= 1 && e <= 1 && f <= 1
    requires a' <= 1 && b' <= 1 && c' <= 1 && d' <= 1 && e' <= 1 && f' <= 1
  {
  }

  /** Flipping one bit of a byte adds the share of that bit. */
  lemma FlipShare(p: bv8, k: nat, d: bv8, e: bv8)
    requires k < 8
    ensures Share(FlipBit(p, k), d, e) == Xor(Share(p, d, e), Share(OneBit(k), d, e))
  {
    hide OneBit;
    hide FlipBit;
    hide Masked;
    hide Xor;
    hide Six;
    var b := OneBit(k);
    FlipMaskedBits(p, k, 0x55);
    FlipMaskedBits(p, k, 0x66);
    FlipMaskedBits(p, k, 0x78);
    FlipMaskedBits(p, k, d);
    FlipMaskedBits(p, k, e);
    FlipMaskedBits(p, k, 0xFF);
    SixAdds(Masked(p, 0x55), Masked(p, 0x66), Masked(p, 0x78), Masked(p, d), Masked(p, e), Masked(p, 0xFF),
            Masked(b, 0x55), Masked(b, 0x66), Masked(b, 0x78), Masked(b, d), Masked(b, e), Masked(b, 0xFF));
  }

  lemma FlipMaskedBits(p: bv8, k: nat, mask: bv8)
    requires k < 8
    ensures Masked(FlipBit(p, k), mask) == Xor(Masked(p, mask), Masked(OneBit(k), mask))
    ensures Masked(p, mask) <= 1 && Masked(OneBit(k), mask) <= 1
  {
    MaskedIsBit(p, mask);
    MaskedIsBit(OneBit(k), mask);
    FlipMasked(p, k, mask);
    hide *;
  }

  lemma ColumnOfBit(k: nat)
    requires k < 8
    ensures Share(OneBit(k), 0x80, 0x00) == Column(k)
    ensures Share(OneBit(k), 0x7F, 0x80) == Column(k + 8)
    ensures Share(OneBit(k), 0x00, 0x7F) == Column(k + 16)
  {
    match k
    case 0 => case 1 => case 2 => case 3 => case 4 => case 5 => case 6 => case _ =>
  }

  lemma XorMoves(a: bv8, b: bv8, c: bv8)
    ensures Xor(Xor(a, c), b) == Xor(Xor(a, b), c)
    ensures Xor(a, Xor(b, c)) == Xor(Xor(a, b), c)
  {
  }

  lemma FlipPar0(p: bv8, k: nat)
    requires k < 8
    ensures Par0(FlipBit(p, k)) == Xor(Par0(p), Column(k + 0))
  {
    hide Par0;
    hide Share;
    hide OneBit;
    hide FlipBit;
    hide Xor;
    Table0(p);
    Table0(FlipBit(p, k));
    FlipShare(p, k, 0x80, 0x00);
    ColumnOfBit(k);
  }

  lemma FlipPar1(p: bv8, k: nat)
    requires k < 8
    ensures Par1(FlipBit(p, k)) == Xor(Par1(p), Column(k + 8))
  {
    hide Par1;
    hide Share;
    hide OneBit;
    hide FlipBit;
    hide Xor;
    Table1(p);
    Table1(FlipBit(p, k));
    FlipShare(p, k, 0x7F, 0x80);
    ColumnOfBit(k);
  }

  lemma FlipPar2(p: bv8, k: nat)
    requires k < 8
    ensures Par2(FlipBit(p, k)) == Xor(Par2(p), Column(k + 16))
  {
    hide Par2;
    hide Share;
    hide OneBit;
    hide FlipBit;
    hide Xor;
    Table2(p);
    Table2(FlipBit(p, k));
    FlipShare(p, k, 0x00, 0x7F);
    ColumnOfBit(k);
    XorMoves(Share(p, 0x00, 0x7F), 0x3F, Column(k + 16));
  }

  /** A flipped bit adds its column to the tests. */
  lemma FlipTests(t: Triplet, k: nat)
    requires k < 24
    ensures Tests(Flip(t, k)) == Xor(Tests(t), Column(k))
  {
    hide Par0;
    hide Par1;
    hide Par2;
    hide OneBit;
    hide Column;
    hide Xor;
    var x, y, z := Par0(t.p0), Par1(t.p1), Par2(t.p2);
    if k < 8 {
      FlipPar0(t.p0, k);
      XorMoves(x, y, Column(k));
    } else if k < 16 {
      FlipPar1(t.p1, k - 8);
      XorMoves(x, y, Column(k));
    } else {
      FlipPar2(t.p2, k - 16);
    }
    XorMoves(Xor(x, y), z, Column(k));
  }

  /** hamm24val[] gathers the data bits of the first byte. */
  lemma ValGathers(p: bv8)
    ensures Val(p) == ((p >> 2) & 1) | ((p >> 3) & 0xE)
  {
    match p >> 4
    case 0 => case 1 => case 2 => case 3 => case 4 => case 5 => case 6 => case 7 =>
    case 8 => case 9 => case 10 => case 11 => case 12 => case 13 => case 14 => case _ =>
  }

  /** The data bit at bit k of the word, 0 for the parity bits. */
  function DataBit(k: nat): cint
    requires k < 24
  {
    match k
    case 0 => 0x0 case 1 => 0x0 case 2 => 0x1 case 3 => 0x0 case 4 => 0x2 case 5 => 0x4 case 6 => 0x8 case 7 => 0x0
    case 8 => 0x10 case 9 => 0x20 case 10 => 0x40 case 11 => 0x80
    case 12 => 0x100 case 13 => 0x200 case 14 => 0x400 case 15 => 0x0
    case 16 => 0x800 case 17 => 0x1000 case 18 => 0x2000 case 19 => 0x4000
    case 20 => 0x8000 case 21 => 0x10000 case 22 => 0x20000 case _ => 0
  }

  lemma CorrectionIsDataBit(k: nat)
    requires k < 24
    ensures 32 <= Column(k) < 56 && Correction(Column(k)) == DataBit(k)
  {
  }

  // The data bits each byte contributes. They do not overlap, so + and ^ combine them alike.
  function Part0(p: bv8): cint { (((p >> 2) & 1) | ((p >> 3) & 0xE)) as bv32 }
  function Part1(p: bv8): cint { ((p & 127) as bv32) << 4 }
  function Part2(p: bv8): cint { ((p & 127) as bv32) << 11 }

  lemma AssembleIsXor(p0: bv8, p1: bv8, p2: bv8)
    ensures Assemble(((p0 >> 2) & 1) | ((p0 >> 3) & 0xE), p1, p2) == Xor32(Xor32(Part0(p0), Part1(p1)), Part2(p2))
  {
  }

  lemma DataGathers(t: Triplet)
    ensures Data(t) == Xor32(Xor32(Part0(t.p0), Part1(t.p1)), Part2(t.p2))
  {
    ValGathers(t.p0);
    AssembleIsXor(t.p0, t.p1, t.p2);
    hide Val;
    hide Part0;
    hide Part1;
    hide Part2;
    hide Xor32;
    hide Assemble;
  }

  lemma PartsAreSmall(p0: bv8, p1: bv8, p2: bv8)
    ensures Xor32(Xor32(Part0(p0), Part1(p1)), Part2(p2)) != MINUS_ONE
  {
  }

  lemma DataIsNoError(t: Triplet)
    ensures Data(t) != MINUS_ONE
  {
    hide Data;
    hide Part0;
    hide Part1;
    hide Part2;
    hide Xor32;
    DataGathers(t);
    PartsAreSmall(t.p0, t.p1, t.p2);
  }

  lemma FlipPart0(p: bv8, k: nat)
    requires k < 8
    ensures Part0(FlipBit(p, k)) == Xor32(Part0(p), DataBit(k + 0))
  {
    match k
    case 0 => case 1 => case 2 => case 3 => case 4 => case 5 => case 6 => case _ =>
  }

  lemma FlipPart1(p: bv8, k: nat)
    requires k < 8
    ensures Part1(FlipBit(p, k)) == Xor32(Part1(p), DataBit(k + 8))
  {
    match k
    case 0 => case 1 => case 2 => case 3 => case 4 => case 5 => case 6 => case _ =>
  }

  lemma FlipPart2(p: bv8, k: nat)
    requires k < 8
    ensures Part2(FlipBit(p, k)) == Xor32(Part2(p), DataBit(k + 16))
  {
    match k
    case 0 => case 1 => case 2 => case 3 => case 4 => case 5 => case 6 => case _ =>
  }

  lemma Xor32Moves(a: cint, b: cint, c: cint)
    ensures Xor32(Xor32(a, c), b) == Xor32(Xor32(a, b), c)
    ensures Xor32(a, Xor32(b, c)) == Xor32(Xor32(a, b), c)
  {
  }

  /** A flipped bit changes the data bit it carries, if it carries one. */
  lemma FlipData(t: Triplet, k: nat)
    requires k < 24
    ensures Data(Flip(t, k)) == Xor32(Data(t), DataBit(k))
  {
    hide Data;
    hide Part0;
    hide Part1;
    hide Part2;
    hide FlipBit;
    hide DataBit;
    hide Xor32;
    DataGathers(t);
    DataGathers(Flip(t, k));
    var x, y, z := Part0(t.p0), Part1(t.p1), Part2(t.p2);
    if k < 8 {
      FlipPart0(t.p0, k);
      Xor32Moves(x, y, DataBit(k));
    } else if k < 16 {
      FlipPart1(t.p1, k - 8);
      Xor32Moves(x, y, DataBit(k));
    } else {
      FlipPart2(t.p2, k - 16);
    }
    Xor32Moves(Xor32(x, y), z, DataBit(k));
  }

  // ----- encoded triplets pass all tests

  lemma ShareByte0(d0: bv8, a: bv8, b: bv8, c: bv8, d: bv8)
    requires d0 & 0x74 == d0 && a <= 1 && b <= 1 && c <= 1 && d <= 1
    ensures Masked(Byte0(d0, a, b, c, d), 0x55) == Xor(Masked(d0, 0x55), a)
    ensures Masked(Byte0(d0, a, b, c, d), 0x66) == Xor(Masked(d0, 0x66), b)
    ensures Masked(Byte0(d0, a, b, c, d), 0x78) == Xor(Masked(d0, 0x78), c)
    ensures Masked(Byte0(d0, a, b, c, d), 0x80) == d && Masked(Byte0(d0, a, b, c, d), 0) == 0
  {
  }

  lemma ShareByte12(d1: bv8, e: bv8)
    requires d1 < 0x80 && e <= 1
    ensures Masked(Byte12(d1, e), 0x55) == Masked(d1, 0x55)
    ensures Masked(Byte12(d1, e), 0x66) == Masked(d1, 0x66)
    ensures Masked(Byte12(d1, e), 0x78) == Masked(d1, 0x78)
    ensures Masked(Byte12(d1, e), 0x7F) == Masked(d1, 0x7F)
    ensures Masked(Byte12(d1, e), 0x80) == e && Masked(Byte12(d1, e), 0) == 0
    ensures Masked(Byte12(d1, e), 0xFF) == Xor(Masked(d1, 0xFF), e)
  {
  }

  /** Three bits and the one that makes them odd. */
  lemma OddSum(x: bv8, y: bv8, z: bv8)
    requires x <= 1 && y <= 1 && z <= 1
    ensures Xor(1, Xor(Xor(x, y), z)) <= 1
    ensures Xor(Xor(Xor(x, Xor(1, Xor(Xor(x, y), z))), y), z) == 1
    ensures Xor(Xor(x, y), Xor(z, Xor(1, Xor(Xor(x, y), z)))) == 1
    ensures Xor(1, x) <= 1 && Xor(Xor(Xor(1, x), x), 0) == 1 && Xor(Xor(0, Xor(1, x)), x) == 1
  {
  }

  lemma BitXor(x: bv8, y: bv8)
    requires x <= 1 && y <= 1
    ensures Xor(x, y) <= 1
  {
  }

  /** If every test is odd over three bytes together, the result is 0. */
  lemma AllOdd(a0: bv8, b0: bv8, c0: bv8, d0: bv8, e0: bv8, f0: bv8,
               a1: bv8, b1: bv8, c1: bv8, d1: bv8, e1: bv8, f1: bv8,
               a2: bv8, b2: bv8, c2: bv8, d2: bv8, e2: bv8, f2: bv8)
    requires a0 <= 1 && b0 <= 1 && c0 <= 1 && d0 <= 1 && e0 <= 1 && f0 <= 1
    requires a1 <= 1 && b1 <= 1 && c1 <= 1 && d1 <= 1 && e1 <= 1 && f1 <= 1
    requires a2 <= 1 && b2 <= 1 && c2 <= 1 && d2 <= 1 && e2 <= 1 && f2 <= 1
    requires Xor(Xor(a0, a1), a2) == 1 && Xor(Xor(b0, b1), b2) == 1 && Xor(Xor(c0, c1), c2) == 1
    requires Xor(Xor(d0, d1), d2) == 1 && Xor(Xor(e0, e1), e2) == 1 && Xor(Xor(f0, f1), f2) == 1
    ensures Xor(Xor(Six(a0, b0, c0, d0, e0, f0), Six(a1, b1, c1, d1, e1, f1)),
                Xor(Six(a2, b2, c2, d2, e2, f2), 0x3F)) == 0
  {
    BitXor(a0, a1);
    BitXor(b0, b1);
    BitXor(c0, c1);
    BitXor(d0, d1);
    BitXor(e0, e1);
    BitXor(f0, f1);
    SixAdds(a0, b0, c0, d0, e0, f0, a1, b1, c1, d1, e1, f1);
    SixAdds(Xor(a0, a1), Xor(b0, b1), Xor(c0, c1), Xor(d0, d1), Xor(e0, e1), Xor(f0, f1), a2, b2, c2, d2, e2, f2);
    XorMoves(Xor(Six(a0, b0, c0, d0, e0, f0), Six(a1, b1, c1, d1, e1, f1)), Six(a2, b2, c2, d2, e2, f2), 0x3F);
    assert Six(1, 1, 1, 1, 1, 1) == 0x3F && Xor(0x3F, 0x3F) == 0;
    hide Xor;
    hide Six;
  }

  lemma ProtectedTests(d0: bv8, d1: bv8, d2: bv8)
    requires d0 & 0x74 == d0 && d1 < 0x80 && d2 < 0x80
    ensures Tests(Protect(d0, d1, d2)) == 0
  {
    var t := Protect(d0, d1, d2);
    var a, b, c := OddBit(d0, d1, d2, 0x55), OddBit(d0, d1, d2, 0x66), OddBit(d0, d1, d2, 0x78);
    var d, e := Xor(1, Masked(d1, 0x7F)), Xor(1, Masked(d2, 0x7F));
    var f := OddBit(t.p0, t.p1, d2, 0xFF);
    forall p: bv8, m: bv8 ensures Masked(p, m) <= 1 { MaskedIsBit(p, m); }
    OddSum(Masked(d0, 0x55), Masked(d1, 0x55), Masked(d2, 0x55));
    OddSum(Masked(d0, 0x66), Masked(d1, 0x66), Masked(d2, 0x66));
    OddSum(Masked(d0, 0x78), Masked(d1, 0x78), Masked(d2, 0x78));
    OddSum(Masked(d1, 0x7F), 0, 0);
    OddSum(Masked(d2, 0x7F), 0, 0);
    OddSum(Masked(t.p0, 0xFF), Masked(t.p1, 0xFF), Masked(d2, 0xFF));
    ShareByte0(d0, a, b, c, d);
    ShareByte12(d1, e);
    ShareByte12(d2, f);
    Table0(t.p0);
    Table1(t.p1);
    Table2(t.p2);
    hide Masked;
    hide Byte0;
    hide Byte12;
    hide Par0;
    hide Par1;
    hide Par2;
    hide Xor;
    hide Six;
    AllOdd(Masked(t.p0, 0x55), Masked(t.p0, 0x66), Masked(t.p0, 0x78),
           Masked(t.p0, 0x80), Masked(t.p0, 0x00), Masked(t.p0, 0xFF),
           Masked(t.p1, 0x55), Masked(t.p1, 0x66), Masked(t.p1, 0x78),
           Masked(t.p1, 0x7F), Masked(t.p1, 0x80), Masked(t.p1, 0xFF),
           Masked(t.p2, 0x55), Masked(t.p2, 0x66), Masked(t.p2, 0x78),
           Masked(t.p2, 0x00), Masked(t.p2, 0x7F), Masked(t.p2, 0xFF));
  }

  // ----- the decoder against the encoder

  lemma DataOfBytes(d: cint, a: bv8, b: bv8, c: bv8, pd: bv8, e: bv8, f: bv8)
    requires d < 0x4_0000 && a <= 1 && b <= 1 && c <= 1 && pd <= 1 && e <= 1 && f <= 1
    ensures Xor32(Xor32(Part0(Byte0(Spread0(d), a, b, c, pd)), Part1(Byte12(Spread1(d), e))),
                  Part2(Byte12(Spread2(d), f))) == d
  {
  }

  lemma SpreadRanges(d: cint)
    ensures Spread0(d) & 0x74 == Spread0(d) && Spread1(d) < 0x80 && Spread2(d) < 0x80
  {
  }

  lemma OddBitIsBit(x: bv8, y: bv8, z: bv8, mask: bv8)
    ensures OddBit(x, y, z, mask) <= 1 && Xor(1, Masked(x, mask)) <= 1
  {
    MaskedIsBit(x, mask);
    MaskedIsBit(y, mask);
    MaskedIsBit(z, mask);
    hide Masked;
  }

  /** An encoded triplet passes all tests and carries its data. */
  lemma EncodedIsClean(d: cint)
    requires d < 0x4_0000
    ensures Tests(Encode24(d)) == 0 && Data(Encode24(d)) == d
  {
    SpreadRanges(d);
    var d0, d1, d2 := Spread0(d), Spread1(d), Spread2(d);
    ProtectedTests(d0, d1, d2);
    var t := Protect(d0, d1, d2);
    OddBitIsBit(d0, d1, d2, 0x55);
    OddBitIsBit(d0, d1, d2, 0x66);
    OddBitIsBit(d0, d1, d2, 0x78);
    OddBitIsBit(d1, d1, d2, 0x7F);
    OddBitIsBit(d2, d1, d2, 0x7F);
    OddBitIsBit(t.p0, t.p1, d2, 0xFF);
    DataOfBytes(d, OddBit(d0, d1, d2, 0x55), OddBit(d0, d1, d2, 0x66), OddBit(d0, d1, d2, 0x78),
                Xor(1, Masked(d1, 0x7F)), Xor(1, Masked(d2, 0x7F)), OddBit(t.p0, t.p1, d2, 0xFF));
    DataGathers(t);
    hide Tests;
    hide Data;
    hide OddBit;
    hide Masked;
    hide Byte0;
    hide Byte12;
    hide Xor;
    hide Xor32;
    hide Part0;
    hide Part1;
    hide Part2;
  }

  lemma XorFacts(x: bv8, y: bv8)
    ensures Xor(0, x) == x && (x != y ==> Xor(x, y) != 0)
    ensures 32 <= x < 56 && 32 <= y < 56 ==> Xor(x, y) < 32
  {
  }

  lemma DecodeCases(d: cint, k: nat, e: bv8)
    requires k < 24
    ensures Decode(d, 0) == d
    ensures Decode(Xor32(d, DataBit(k)), Column(k)) == d
    ensures 0 < e < 32 ==> Decode(d, e) == MINUS_ONE
  {
    CorrectionIsDataBit(k);
    hide Column;
    hide DataBit;
  }

  /** Without transmission errors, and with one flipped bit anywhere, the decoder returns the encoded data. */
  lemma OneErrorIsCorrected(d: cint, k: nat)
    requires d < 0x4_0000 && k < 24
    ensures Deh24(Encode24(d)) == d
    ensures Deh24(Flip(Encode24(d), k)) == d
  {
    hide Encode24;
    hide Tests;
    hide Data;
    hide Xor;
    hide Xor32;
    hide Column;
    hide DataBit;
    hide Decode;
    hide Flip;
    var t := Encode24(d);
    EncodedIsClean(d);
    FlipTests(t, k);
    FlipData(t, k);
    XorFacts(Column(k), 0);
    DecodeCases(d, k, 0);
  }

  /** Two flipped bits are always reported. */
  lemma TwoErrorsAreDetected(d: cint, j: nat, k: nat)
    requires d < 0x4_0000 && j < 24 && k < 24 && j != k
    ensures Deh24(Flip(Flip(Encode24(d), j), k)) == MINUS_ONE
  {
    hide Encode24;
    hide Tests;
    hide Data;
    hide Xor;
    hide Column;
    hide Decode;
    hide Flip;
    var t := Encode24(d);
    EncodedIsClean(d);
    FlipTests(t, j);
    FlipTests(Flip(t, j), k);
    ColumnsDiffer(j, k);
    ColumnsDiffer(k, j);
    XorFacts(Column(j), 0);
    XorFacts(Column(j), Column(k));
    var t' := Flip(Flip(t, j), k);
    DecodeCases(Data(t'), j, Tests(t'));
  }

  // ----- the bit-serial decoder

  function Word(t: Triplet): cint {
    (t.p0 as bv32) | ((t.p1 as bv32) << 8) | ((t.p2 as bv32) << 16)
  }

  function Low(c: cint): bv8 { (c & 0xFF) as bv8 }
  function Mid(c: cint): bv8 { ((c >> 8) & 0xFF) as bv8 }
  function High(c: cint): bv8 { ((c >> 16) & 0xFF) as bv8 }

  /** The parity of a 24-bit word. */
  function WordParity(c: cint): bv8 {
    Xor(Xor(Parity8(Low(c)), Parity8(Mid(c))), Parity8(High(c)))
  }

  predicate Is24(c: cint) { c & 0xFF00_0000 == 0 }

  function ClearLowest(c: cint): cint { c & (c - 1) }
  function ClearLowest8(p: bv8): bv8 { p & (p - 1) }

  lemma ClearLowestBit(p: bv8)
    requires p != 0
    ensures Parity8(ClearLowest8(p)) == Xor(Parity8(p), 1)
  {
  }

  lemma ClearLowestByte(c: cint)
    requires c != 0 && Is24(c)
    ensures ClearLowest(c) < c && Is24(ClearLowest(c))
    ensures Low(c) != 0 ==>
      Low(ClearLowest(c)) == ClearLowest8(Low(c)) && Mid(ClearLowest(c)) == Mid(c) && High(ClearLowest(c)) == High(c)
    ensures Low(c) == 0 && Mid(c) != 0 ==>
      Low(ClearLowest(c)) == Low(c) && Mid(ClearLowest(c)) == ClearLowest8(Mid(c)) && High(ClearLowest(c)) == High(c)
    ensures Low(c) == 0 && Mid(c) == 0 ==> High(c) != 0
    ensures Low(c) == 0 && Mid(c) == 0 ==>
      Low(ClearLowest(c)) == Low(c) && Mid(ClearLowest(c)) == Mid(c) && High(ClearLowest(c)) == ClearLowest8(High(c))
  {
  }

  /** Resetting the least significant set bit flips the parity. */
  lemma ClearLowestFlips(c: cint)
    requires c != 0 && Is24(c)
    ensures WordParity(ClearLowest(c)) == Xor(WordParity(c), 1)
    ensures ClearLowest(c) < c && Is24(ClearLowest(c))
  {
    hide Is24;
    hide Parity8;
    hide ClearLowest;
    hide ClearLowest8;
    hide Xor;
    hide Low;
    hide Mid;
    hide High;
    ClearLowestByte(c);
    var x, y, z := Parity8(Low(c)), Parity8(Mid(c)), Parity8(High(c));
    if Low(c) != 0 {
      ClearLowestBit(Low(c));
      XorMoves(x, y, 1);
    } else if Mid(c) != 0 {
      ClearLowestBit(Mid(c));
      XorMoves(x, y, 1);
    } else {
      ClearLowestBit(High(c));
    }
    XorMoves(Xor(x, y), z, 1);
  }

  /** What the parity loop keeps: the bits counted so far and the rest make up the whole. */
  predicate ParitySplit(n: bv8, rest: cint, c: cint) {
    Is24(rest) && Xor(n, WordParity(rest)) == WordParity(c)
  }

  lemma ParityStep(n: bv8, rest: cint, c: cint)
    requires rest != 0 && ParitySplit(n, rest, c)
    ensures ParitySplit(Xor(n, 1), ClearLowest(rest), c) && ClearLowest(rest) < rest
  {
    hide WordParity;
    hide ClearLowest;
    hide Xor;
    hide Is24;
    ClearLowestFlips(rest);
    XorCancels(n, WordParity(rest));
  }

  /** parity: n flips once for each set bit of c. */
  method CountParity(c: cint) returns (n: bv8)
    requires Is24(c)
    ensures n == WordParity(c)
  {
    hide *;
    n := 0;
    var rest := c;
    ParityEnds(n, c);
    while rest != 0
      invariant ParitySplit(n, rest, c)
      decreases rest
    {
      ParityStep(n, rest, c);
      n := Xor(n, 1);
      rest := ClearLowest(rest);
    }
    ParityEnds(n, c);
  }

  lemma ParityEnds(n: bv8, c: cint)
    ensures Is24(c) ==> ParitySplit(0, c, c)
    ensures ParitySplit(n, 0, c) ==> n == WordParity(c)
  {
    assert WordParity(0) == 0;
    hide WordParity;
  }

  lemma XorCancels(a: bv8, b: bv8)
    ensures Xor(Xor(a, 1), Xor(b, 1)) == Xor(a, b)
  {
  }

  /** The data bits of a word, as the serial decoder picks them. */
  function Extract(h24: cint): cint {
    ((h24 & 0x000004) >> 2) | ((h24 & 0x000070) >> 3) | ((h24 & 0x007F00) >> 4) | ((h24 & 0x7F0000) >> 5)
  }

  /** parity(h24 & mask) */
  function ParityOf(h24: cint, mask: cint): bv8 {
    WordParity(h24 & mask)
  }

  /** deh24 without tables. */
  function Serial(t: Triplet): cint {
    var h24 := Word(t);
    var a0 := ParityOf(h24, 0x555555);
    var f := Xor(ParityOf(h24, 0xAAAAAA), a0);
    var a := Six(a0, ParityOf(h24, 0x666666), ParityOf(h24, 0x787878),
                 ParityOf(h24, 0x007F80), ParityOf(h24, 0x7F8000), 0);
    if a != 0x1F then
      if f != 0 then MINUS_ONE else Extract(FlipWord(h24, Xor(a, 0x1F)))
    else Extract(h24)
  }

  /** h24 ^ (1 << (p - 1)) */
  function FlipWord(h24: cint, p: bv8): cint {
    Xor32(h24, Shifted(p - 1))
  }

  /** 1 << n, for the shift distances below 32 that occur. */
  function Shifted(n: bv8): cint {
    if n < 32 then 1 << n else 0
  }

  /** The parity of the selected bits of a word, byte by byte. */
  lemma WordShares(t: Triplet, m0: bv8, m1: bv8, m2: bv8)
    ensures ParityOf(Word(t), Word(Triplet(m0, m1, m2)))
      == Xor(Xor(Masked(t.p0, m0), Masked(t.p1, m1)), Masked(t.p2, m2))
  {
    WordBytes(t.p0, t.p1, t.p2, m0, m1, m2);
    hide Parity8;
    hide Word;
    hide Low;
    hide Mid;
    hide High;
    hide Xor;
  }

  lemma WordBytes(p0: bv8, p1: bv8, p2: bv8, m0: bv8, m1: bv8, m2: bv8)
    ensures var w := Word(Triplet(p0, p1, p2)) & Word(Triplet(m0, m1, m2));
            Low(w) == p0 & m0 && Mid(w) == p1 & m1 && High(w) == p2 & m2
  {
  }

  function Xor3(x: bv8, y: bv8, z: bv8): bv8 { Xor(Xor(x, y), z) }

  /** One parity test over a whole word. */
  function Test(t: Triplet, m0: bv8, m1: bv8, m2: bv8): bv8 {
    Xor3(Masked(t.p0, m0), Masked(t.p1, m1), Masked(t.p2, m2))
  }

  lemma SixAdds3(a0: bv8, b0: bv8, c0: bv8, d0: bv8, e0: bv8, f0: bv8,
                 a1: bv8, b1: bv8, c1: bv8, d1: bv8, e1: bv8, f1: bv8,
                 a2: bv8, b2: bv8, c2: bv8, d2: bv8, e2: bv8, f2: bv8)
    requires a0 <= 1 && b0 <= 1 && c0 <= 1 && d0 <= 1 && e0 <= 1 && f0 <= 1
    requires a1 <= 1 && b1 <= 1 && c1 <= 1 && d1 <= 1 && e1 <= 1 && f1 <= 1
    requires a2 <= 1 && b2 <= 1 && c2 <= 1 && d2 <= 1 && e2 <= 1 && f2 <= 1
    ensures Xor(Xor(Six(a0, b0, c0, d0, e0, f0), Six(a1, b1, c1, d1, e1, f1)), Six(a2, b2, c2, d2, e2, f2))
      == Six(Xor3(a0, a1, a2), Xor3(b0, b1, b2), Xor3(c0, c1, c2), Xor3(d0, d1, d2), Xor3(e0, e1, e2), Xor3(f0, f1, f2))
  {
    hide Xor;
    hide Six;
    BitXor(a0, a1);
    BitXor(b0, b1);
    BitXor(c0, c1);
    BitXor(d0, d1);
    BitXor(e0, e1);
    BitXor(f0, f1);
    SixAdds(a0, b0, c0, d0, e0, f0, a1, b1, c1, d1, e1, f1);
    SixAdds(Xor(a0, a1), Xor(b0, b1), Xor(c0, c1), Xor(d0, d1), Xor(e0, e1), Xor(f0, f1), a2, b2, c2, d2, e2, f2);
  }

  /** The table result is the complement of the six parity tests. */
  lemma TestsComplement(t: Triplet)
    ensures Tests(t) == Xor(Six(Test(t, 0x55, 0x55, 0x55), Test(t, 0x66, 0x66, 0x66), Test(t, 0x78, 0x78, 0x78),
                                Test(t, 0x80, 0x7F, 0x00), Test(t, 0x00, 0x80, 0x7F), Test(t, 0xFF, 0xFF, 0xFF)), 0x3F)
  {
    hide Par0;
    hide Par1;
    hide Par2;
    hide Xor;
    hide Six;
    hide Masked;
    Table0(t.p0);
    Table1(t.p1);
    Table2(t.p2);
    forall p: bv8, m: bv8 ensures Masked(p, m) <= 1 { MaskedIsBit(p, m); }
    SixAdds3(Masked(t.p0, 0x55), Masked(t.p0, 0x66), Masked(t.p0, 0x78),
             Masked(t.p0, 0x80), Masked(t.p0, 0x00), Masked(t.p0, 0xFF),
             Masked(t.p1, 0x55), Masked(t.p1, 0x66), Masked(t.p1, 0x78),
             Masked(t.p1, 0x7F), Masked(t.p1, 0x80), Masked(t.p1, 0xFF),
             Masked(t.p2, 0x55), Masked(t.p2, 0x66), Masked(t.p2, 0x78),
             Masked(t.p2, 0x00), Masked(t.p2, 0x7F), Masked(t.p2, 0xFF));
    XorMoves(Xor(Share(t.p0, 0x80, 0x00), Share(t.p1, 0x7F, 0x80)), Share(t.p2, 0x00, 0x7F), 0x3F);
  }

  lemma MaskedSplits(p: bv8)
    ensures Xor(Masked(p, 0xAA), Masked(p, 0x55)) == Masked(p, 0xFF)
  {
  }

  lemma XorPairs(a: bv8, b: bv8, c: bv8, d: bv8)
    ensures Xor(Xor(a, b), Xor(c, d)) == Xor(Xor(a, c), Xor(b, d))
  {
    hide Xor;
    XorMoves(Xor(a, b), c, d);
    XorMoves(a, c, b);
    XorMoves(Xor(a, c), b, d);
  }

  lemma Xor3Pairs(x: bv8, y: bv8, z: bv8, x': bv8, y': bv8, z': bv8)
    ensures Xor(Xor3(x, y, z), Xor3(x', y', z')) == Xor3(Xor(x, x'), Xor(y, y'), Xor(z, z'))
  {
    hide Xor;
    XorPairs(Xor(x, y), z, Xor(x', y'), z');
    XorPairs(x, y, x', y');
  }

  /** Even and odd bits together are all bits. */
  lemma TestSplits(t: Triplet)
    ensures Xor(Test(t, 0xAA, 0xAA, 0xAA), Test(t, 0x55, 0x55, 0x55)) == Test(t, 0xFF, 0xFF, 0xFF)
  {
    hide Xor;
    hide Xor3;
    hide Masked;
    MaskedSplits(t.p0);
    MaskedSplits(t.p1);
    MaskedSplits(t.p2);
    Xor3Pairs(Masked(t.p0, 0xAA), Masked(t.p1, 0xAA), Masked(t.p2, 0xAA),
              Masked(t.p0, 0x55), Masked(t.p1, 0x55), Masked(t.p2, 0x55));
  }

  lemma TestIsBit(t: Triplet, m0: bv8, m1: bv8, m2: bv8)
    ensures Test(t, m0, m1, m2) <= 1
  {
    hide Xor;
    hide Masked;
    MaskedIsBit(t.p0, m0);
    MaskedIsBit(t.p1, m1);
    MaskedIsBit(t.p2, m2);
    BitXor(Masked(t.p0, m0), Masked(t.p1, m1));
    BitXor(Xor(Masked(t.p0, m0), Masked(t.p1, m1)), Masked(t.p2, m2));
  }

  /** The bit number a table result points at. */
  function Pointer(tests: bv8): bv8 { tests & 0x1F }

  /** Test F of a table result: an odd number of flipped bits. */
  predicate Odd(tests: bv8) { tests & 0x20 != 0 }

  /** What the serial decoder sees of the table result e: its low five bits and the complement of the sixth. */
  lemma TestBits(a: bv8, b: bv8, c: bv8, d: bv8, e: bv8, f: bv8)
    requires a <= 1 && b <= 1 && c <= 1 && d <= 1 && e <= 1 && f <= 1
    ensures var tests := Xor(Six(a, b, c, d, e, f), 0x3F);
            && Xor(Six(a, b, c, d, e, 0), 0x1F) == Pointer(tests)
            && (Six(a, b, c, d, e, 0) == 0x1F <==> Pointer(tests) == 0)
            && (f != 0 <==> !Odd(tests))
  {
  }

  lemma SerialByTests(t: Triplet)
    ensures Serial(t)
      == if Pointer(Tests(t)) == 0 then Extract(Word(t))
         else if !Odd(Tests(t)) then MINUS_ONE
         else Extract(FlipWord(Word(t), Pointer(Tests(t))))
  {
    WordShares(t, 0x55, 0x55, 0x55);
    WordShares(t, 0xAA, 0xAA, 0xAA);
    WordShares(t, 0x66, 0x66, 0x66);
    WordShares(t, 0x78, 0x78, 0x78);
    WordShares(t, 0x80, 0x7F, 0x00);
    WordShares(t, 0x00, 0x80, 0x7F);
    assert Word(Triplet(0x55, 0x55, 0x55)) == 0x555555 && Word(Triplet(0xAA, 0xAA, 0xAA)) == 0xAAAAAA
      && Word(Triplet(0x66, 0x66, 0x66)) == 0x666666 && Word(Triplet(0x78, 0x78, 0x78)) == 0x787878
      && Word(Triplet(0x80, 0x7F, 0x00)) == 0x007F80 && Word(Triplet(0x00, 0x80, 0x7F)) == 0x7F8000;
    hide Word;
    hide ParityOf;
    hide Masked;
    hide Xor;
    hide Six;
    hide Tests;
    hide Extract;
    hide FlipWord;
    hide Pointer;
    hide Odd;
    TestsComplement(t);
    TestSplits(t);
    var a, b, c := Test(t, 0x55, 0x55, 0x55), Test(t, 0x66, 0x66, 0x66), Test(t, 0x78, 0x78, 0x78);
    var d, e, f := Test(t, 0x80, 0x7F, 0x00), Test(t, 0x00, 0x80, 0x7F), Test(t, 0xFF, 0xFF, 0xFF);
    TestIsBit(t, 0x55, 0x55, 0x55);
    TestIsBit(t, 0x66, 0x66, 0x66);
    TestIsBit(t, 0x78, 0x78, 0x78);
    TestIsBit(t, 0x80, 0x7F, 0x00);
    TestIsBit(t, 0x00, 0x80, 0x7F);
    TestIsBit(t, 0xFF, 0xFF, 0xFF);
    TestBits(a, b, c, d, e, f);
  }

  lemma ExtractIsData(t: Triplet)
    ensures Extract(Word(t)) == Data(t)
  {
    DataGathers(t);
    hide Data;
    WordParts(t.p0, t.p1, t.p2);
    hide Part0;
    hide Part1;
    hide Part2;
    hide Xor32;
    hide Extract;
    hide Word;
  }

  lemma WordParts(p0: bv8, p1: bv8, p2: bv8)
    ensures Extract(Word(Triplet(p0, p1, p2))) == Xor32(Xor32(Part0(p0), Part1(p1)), Part2(p2))
  {
  }

  lemma ExtractAdds(h24: cint, m: cint)
    ensures Extract(Xor32(h24, m)) == Xor32(Extract(h24), Extract(m))
  {
  }

  /** Where flipping a bit of the word leads, against the correction table. */
  lemma FlipWordCorrects(h24: cint, e: bv8)
    requires Odd(e) && Pointer(e) != 0 && e < 64
    ensures e < 56 ==> Decode(Extract(h24), e) == Extract(FlipWord(h24, Pointer(e)))
    ensures e >= 56 ==> Extract(FlipWord(h24, Pointer(e))) == Extract(h24)
  {
    ShiftedData(e);
    ExtractAdds(h24, Shifted(Pointer(e) - 1));
    DecodeOdd(Extract(h24), e);
    hide Extract;
    hide Shifted;
    hide Correction;
    hide Xor32;
    hide Decode;
    hide Pointer;
  }

  lemma DecodeOdd(data: cint, e: bv8)
    requires Odd(e)
    ensures e < 56 ==> Decode(data, e) == Xor32(data, Correction(e))
    ensures Xor32(data, 0) == data
  {
    hide Correction;
  }

  lemma ShiftedData(e: bv8)
    requires Odd(e) && Pointer(e) != 0 && e < 64
    ensures Extract(Shifted(Pointer(e) - 1)) == Correction(e)
    ensures e >= 56 ==> Correction(e) == 0
  {
  }

  lemma DecodeSpecial(data: cint, e: bv8)
    requires e < 64
    ensures Pointer(e) == 0 ==> Decode(data, e) == data && e < 56
    ensures Pointer(e) != 0 && !Odd(e) ==> Decode(data, e) == MINUS_ONE && e < 56
    ensures e >= 56 ==> Decode(data, e) == MINUS_ONE && Odd(e)
  {
  }

  /**
    The two decoders differ exactly on the triplets whose tests point beyond the word: the table decoder
    reports those, the serial one returns the data unchanged. So whenever the table decoder returns data, the
    serial decoder returns the same.
   */
  lemma DecodersAgree(t: Triplet)
    ensures Deh24(t) == Serial(t) <==> Tests(t) < 56
    ensures Tests(t) >= 56 ==> Deh24(t) == MINUS_ONE && Serial(t) == Data(t)
  {
    hide Tests;
    hide Data;
    hide Serial;
    hide Extract;
    hide FlipWord;
    hide Word;
    hide Decode;
    hide Pointer;
    hide Odd;
    TestsBelow64(t);
    SerialByTests(t);
    ExtractIsData(t);
    DataIsNoError(t);
    DecodeSpecial(Data(t), Tests(t));
    if Odd(Tests(t)) && Pointer(Tests(t)) != 0 {
      FlipWordCorrects(Word(t), Tests(t));
    }
  }

  lemma ThreeColumns()
    ensures Xor(Xor(Xor(0, Column(7)), Column(15)), Column(23)) == 56
    ensures DataBit(7) == 0 && DataBit(15) == 0 && DataBit(23) == 0
  {
  }

  lemma XorZero(d: cint)
    ensures Xor32(d, 0) == d
  {
  }

  /** Three flipped bits on which they differ, whatever the data: the table decoder rejects what the serial one gets
      right. */
  lemma ThreeErrorsDivide(d: cint)
    requires d < 0x4_0000
    ensures var t := Flip(Flip(Flip(Encode24(d), 7), 15), 23);
      Tests(t) == 56 && Deh24(t) == MINUS_ONE && Serial(t) == d && d != MINUS_ONE
  {
    hide Encode24;
    hide Flip;
    hide Tests;
    hide Data;
    hide Xor;
    hide Xor32;
    hide Column;
    hide DataBit;
    hide Deh24;
    hide Serial;
    var t1 := Flip(Encode24(d), 7);
    var t2 := Flip(t1, 15);
    EncodedIsClean(d);
    FlipTests(Encode24(d), 7);
    FlipTests(t1, 15);
    FlipTests(t2, 23);
    FlipData(Encode24(d), 7);
    FlipData(t1, 15);
    FlipData(t2, 23);
    ThreeColumns();
    XorZero(d);
    DecodersAgree(Flip(t2, 23));
    DataIsNoError(Flip(t2, 23));
  }

  lemma FewColumns(j: nat, k: nat)
    requires j < 24 && k < 24
    ensures Xor(0, Column(j)) < 56 && Xor(Xor(0, Column(j)), Column(k)) < 56
  {
    hide Xor;
    ColumnRange(j);
    ColumnRange(k);
    XorFacts(Column(j), Column(k));
  }

  lemma ColumnRange(k: nat)
    requires k < 24
    ensures 32 <= Column(k) < 56
  {
  }

  /** With at most two flipped bits they agree. */
  lemma FewErrorsAgree(d: cint, j: nat, k: nat)
    requires d < 0x4_0000 && j < 24 && k < 24
    ensures Deh24(Encode24(d)) == Serial(Encode24(d))
    ensures Deh24(Flip(Encode24(d), j)) == Serial(Flip(Encode24(d), j))
    ensures Deh24(Flip(Flip(Encode24(d), j), k)) == Serial(Flip(Flip(Encode24(d), j), k))
  {
    hide Encode24;
    hide Flip;
    hide Tests;
    hide Xor;
    hide Column;
    hide Deh24;
    hide Serial;
    var t := Encode24(d);
    EncodedIsClean(d);
    FlipTests(t, j);
    FlipTests(Flip(t, j), k);
    FewColumns(j, k);
    DecodersAgree(t);
    DecodersAgree(Flip(t, j));
    DecodersAgree(Flip(Flip(t, j), k));
  }
}
