/**
  The lookup tables of tuxtxt_def.h that every teletext packet goes through, and what they compute.
  A table of 256 bytes is a function with one row of sixteen values for each upper nibble.
 */
module TxtTables {
  /** The bytes of a packet behind its clock run-in and framing code. */
  const ROW_BYTES := 42

  /** The k-th entry of a table row. */
  function Pick(k: bv8, x0: bv8, x1: bv8, x2: bv8, x3: bv8, x4: bv8, x5: bv8, x6: bv8, x7: bv8,
                x8: bv8, x9: bv8, x10: bv8, x11: bv8, x12: bv8, x13: bv8, x14: bv8, x15: bv8): bv8
  {
    match k
    case 0 => x0 case 1 => x1 case 2 => x2 case 3 => x3
    case 4 => x4 case 5 => x5 case 6 => x6 case 7 => x7
    case 8 => x8 case 9 => x9 case 10 => x10 case 11 => x11
    case 12 => x12 case 13 => x13 case 14 => x14 case _ => x15
  }

  /** dehamming[]: decodes a Hamming 8/4 byte, 0xFF for an uncorrectable one. */
  function Dehamming(b: bv8): bv8 {
    match b >> 4
    case 0 =>
      Pick(b & 15, 0x01, 0xFF, 0x01, 0x01, 0xFF, 0x00, 0x01, 0xFF, 0xFF, 0x02, 0x01, 0xFF, 0x0A, 0xFF, 0xFF, 0x07)
    case 1 =>
      Pick(b & 15, 0xFF, 0x00, 0x01, 0xFF, 0x00, 0x00, 0xFF, 0x00, 0x06, 0xFF, 0xFF, 0x0B, 0xFF, 0x00, 0x03, 0xFF)
    case 2 =>
      Pick(b & 15, 0xFF, 0x0C, 0x01, 0xFF, 0x04, 0xFF, 0xFF, 0x07, 0x06, 0xFF, 0xFF, 0x07, 0xFF, 0x07, 0x07, 0x07)
    case 3 =>
      Pick(b & 15, 0x06, 0xFF, 0xFF, 0x05, 0xFF, 0x00, 0x0D, 0xFF, 0x06, 0x06, 0x06, 0xFF, 0x06, 0xFF, 0xFF, 0x07)
    case 4 =>
      Pick(b & 15, 0xFF, 0x02, 0x01, 0xFF, 0x04, 0xFF, 0xFF, 0x09, 0x02, 0x02, 0xFF, 0x02, 0xFF, 0x02, 0x03, 0xFF)
    case 5 =>
      Pick(b & 15, 0x08, 0xFF, 0xFF, 0x05, 0xFF, 0x00, 0x03, 0xFF, 0xFF, 0x02, 0x03, 0xFF, 0x03, 0xFF, 0x03, 0x03)
    case 6 =>
      Pick(b & 15, 0x04, 0xFF, 0xFF, 0x05, 0x04, 0x04, 0x04, 0xFF, 0xFF, 0x02, 0x0F, 0xFF, 0x04, 0xFF, 0xFF, 0x07)
    case 7 =>
      Pick(b & 15, 0xFF, 0x05, 0x05, 0x05, 0x04, 0xFF, 0xFF, 0x05, 0x06, 0xFF, 0xFF, 0x05, 0xFF, 0x0E, 0x03, 0xFF)
    case 8 =>
      Pick(b & 15, 0xFF, 0x0C, 0x01, 0xFF, 0x0A, 0xFF, 0xFF, 0x09, 0x0A, 0xFF, 0xFF, 0x0B, 0x0A, 0x0A, 0x0A, 0xFF)
    case 9 =>
      Pick(b & 15, 0x08, 0xFF, 0xFF, 0x0B, 0xFF, 0x00, 0x0D, 0xFF, 0xFF, 0x0B, 0x0B, 0x0B, 0x0A, 0xFF, 0xFF, 0x0B)
    case 10 =>
      Pick(b & 15, 0x0C, 0x0C, 0xFF, 0x0C, 0xFF, 0x0C, 0x0D, 0xFF, 0xFF, 0x0C, 0x0F, 0xFF, 0x0A, 0xFF, 0xFF, 0x07)
    case 11 =>
      Pick(b & 15, 0xFF, 0x0C, 0x0D, 0xFF, 0x0D, 0xFF, 0x0D, 0x0D, 0x06, 0xFF, 0xFF, 0x0B, 0xFF, 0x0E, 0x0D, 0xFF)
    case 12 =>
      Pick(b & 15, 0x08, 0xFF, 0xFF, 0x09, 0xFF, 0x09, 0x09, 0x09, 0xFF, 0x02, 0x0F, 0xFF, 0x0A, 0xFF, 0xFF, 0x09)
    case 13 =>
      Pick(b & 15, 0x08, 0x08, 0x08, 0xFF, 0x08, 0xFF, 0xFF, 0x09, 0x08, 0xFF, 0xFF, 0x0B, 0xFF, 0x0E, 0x03, 0xFF)
    case 14 =>
      Pick(b & 15, 0xFF, 0x0C, 0x0F, 0xFF, 0x04, 0xFF, 0xFF, 0x09, 0x0F, 0xFF, 0x0F, 0x0F, 0xFF, 0x0E, 0x0F, 0xFF)
    case _ =>
      Pick(b & 15, 0x08, 0xFF, 0xFF, 0x05, 0xFF, 0x0E, 0x0D, 0xFF, 0xFF, 0x0E, 0x0F, 0xFF, 0x0E, 0x0E, 0xFF, 0x0E)
  }

  /** deparity[]: strips an odd parity bit, a space for a parity error. */
  function Deparity(b: bv8): bv8 {
    match b >> 4
    case 0 =>
      Pick(b & 15, 0x20, 0x01, 0x02, 0x20, 0x04, 0x20, 0x20, 0x07, 0x08, 0x20, 0x20, 0x0b, 0x20, 0x0d, 0x0e, 0x20)
    case 1 =>
      Pick(b & 15, 0x10, 0x20, 0x20, 0x13, 0x20, 0x15, 0x16, 0x20, 0x20, 0x19, 0x1a, 0x20, 0x1c, 0x20, 0x20, 0x1f)
    case 2 =>
      Pick(b & 15, 0x20, 0x20, 0x20, 0x23, 0x20, 0x25, 0x26, 0x20, 0x20, 0x29, 0x2a, 0x20, 0x2c, 0x20, 0x20, 0x2f)
    case 3 =>
      Pick(b & 15, 0x20, 0x31, 0x32, 0x20, 0x34, 0x20, 0x20, 0x37, 0x38, 0x20, 0x20, 0x3b, 0x20, 0x3d, 0x3e, 0x20)
    case 4 =>
      Pick(b & 15, 0x40, 0x20, 0x20, 0x43, 0x20, 0x45, 0x46, 0x20, 0x20, 0x49, 0x4a, 0x20, 0x4c, 0x20, 0x20, 0x4f)
    case 5 =>
      Pick(b & 15, 0x20, 0x51, 0x52, 0x20, 0x54, 0x20, 0x20, 0x57, 0x58, 0x20, 0x20, 0x5b, 0x20, 0x5d, 0x5e, 0x20)
    case 6 =>
      Pick(b & 15, 0x20, 0x61, 0x62, 0x20, 0x64, 0x20, 0x20, 0x67, 0x68, 0x20, 0x20, 0x6b, 0x20, 0x6d, 0x6e, 0x20)
    case 7 =>
      Pick(b & 15, 0x70, 0x20, 0x20, 0x73, 0x20, 0x75, 0x76, 0x20, 0x20, 0x79, 0x7a, 0x20, 0x7c, 0x20, 0x20, 0x7f)
    case 8 =>
      Pick(b & 15, 0x00, 0x20, 0x20, 0x03, 0x20, 0x05, 0x06, 0x20, 0x20, 0x09, 0x0a, 0x20, 0x0c, 0x20, 0x20, 0x0f)
    case 9 =>
      Pick(b & 15, 0x20, 0x11, 0x12, 0x20, 0x14, 0x20, 0x20, 0x17, 0x18, 0x20, 0x20, 0x1b, 0x20, 0x1d, 0x1e, 0x20)
    case 10 =>
      Pick(b & 15, 0x20, 0x21, 0x22, 0x20, 0x24, 0x20, 0x20, 0x27, 0x28, 0x20, 0x20, 0x2b, 0x20, 0x2d, 0x2e, 0x20)
    case 11 =>
      Pick(b & 15, 0x30, 0x20, 0x20, 0x33, 0x20, 0x35, 0x36, 0x20, 0x20, 0x39, 0x3a, 0x20, 0x3c, 0x20, 0x20, 0x3f)
    case 12 =>
      Pick(b & 15, 0x20, 0x41, 0x42, 0x20, 0x44, 0x20, 0x20, 0x47, 0x48, 0x20, 0x20, 0x4b, 0x20, 0x4d, 0x4e, 0x20)
    case 13 =>
      Pick(b & 15, 0x50, 0x20, 0x20, 0x53, 0x20, 0x55, 0x56, 0x20, 0x20, 0x59, 0x5a, 0x20, 0x5c, 0x20, 0x20, 0x5f)
    case 14 =>
      Pick(b & 15, 0x60, 0x20, 0x20, 0x63, 0x20, 0x65, 0x66, 0x20, 0x20, 0x69, 0x6a, 0x20, 0x6c, 0x20, 0x20, 0x6f)
    case _ =>
      Pick(b & 15, 0x20, 0x71, 0x72, 0x20, 0x74, 0x20, 0x20, 0x77, 0x78, 0x20, 0x20, 0x7b, 0x20, 0x7d, 0x7e, 0x20)
  }

  /** One bit of a byte. */
  function Bit(b: bv8, k: bv3): bv8 {
    (b >> k) & 1
  }

  /** The sum of all bits modulo 2. */
  function Parity8(b: bv8): bv8 {
    var h := b ^ (b >> 4);
    var q := h ^ (h >> 2);
    (q ^ (q >> 1)) & 1
  }

  /**
    The Hamming 8/4 encoder of ETS 300 706, section 8.2: data bits at the odd positions, three parity
    bits and an overall parity bit at the even ones.
   */
  function Encode84(d: bv8): bv8
    requires d < 16
  {
    var d1, d2, d3, d4 := Bit(d, 0), Bit(d, 1), Bit(d, 2), Bit(d, 3);
    var p1, p2, p3 := 1 ^ d1 ^ d3 ^ d4, 1 ^ d1 ^ d2 ^ d4, 1 ^ d1 ^ d2 ^ d3;
    var p4 := 1 ^ p1 ^ d1 ^ p2 ^ d2 ^ p3 ^ d3 ^ d4;
    p1 | (d1 << 1) | (p2 << 2) | (d2 << 3) | (p3 << 4) | (d3 << 5) | (p4 << 6) | (d4 << 7)
  }

  /** At most one bit is set. */
  predicate AtMostOne(e: bv8) {
    e & (e - 1) == 0
  }

  /** A code word with at most one flipped bit decodes to its value. */
  lemma DehammingCorrects(e: bv8, d: bv8)
    requires d < 16 && AtMostOne(e)
    ensures Dehamming(Encode84(d) ^ e) == d
  {
    match d
    case 0 => case 1 => case 2 => case 3 => case 4 => case 5 => case 6 => case 7 =>
    case 8 => case 9 => case 10 => case 11 => case 12 => case 13 => case 14 => case _ =>
  }

  lemma DehammingAccepts0To3(b: bv8, d: bv8)
    requires 0 <= d < 4 && Dehamming(b) == d
    ensures AtMostOne(b ^ Encode84(d))
  {
    match d
    case 0 => case 1 => case 2 => case _ =>
  }

  lemma DehammingAccepts4To7(b: bv8, d: bv8)
    requires 4 <= d < 8 && Dehamming(b) == d
    ensures AtMostOne(b ^ Encode84(d))
  {
    match d
    case 4 => case 5 => case 6 => case _ =>
  }

  lemma DehammingAccepts8To11(b: bv8, d: bv8)
    requires 8 <= d < 12 && Dehamming(b) == d
    ensures AtMostOne(b ^ Encode84(d))
  {
    match d
    case 8 => case 9 => case 10 => case _ =>
  }

  lemma DehammingAccepts12To15(b: bv8, d: bv8)
    requires 12 <= d < 16 && Dehamming(b) == d
    ensures AtMostOne(b ^ Encode84(d))
  {
    match d
    case 12 => case 13 => case 14 => case _ =>
  }

  /** Every byte the table accepts is the code word of its value with at most one flipped bit. */
  lemma DehammingAccepts(b: bv8, d: bv8)
    requires d < 16 && Dehamming(b) == d
    ensures AtMostOne(b ^ Encode84(d))
  {
    match d >> 2
    case 0 => DehammingAccepts0To3(b, d);
    case 1 => DehammingAccepts4To7(b, d);
    case 2 => DehammingAccepts8To11(b, d);
    case _ => DehammingAccepts12To15(b, d);
  }

  lemma DehammingDetects0To3(d: bv8, e: bv8)
    requires 0 <= d < 4 && !AtMostOne(e) && AtMostOne(e & (e - 1))
    ensures Dehamming(Encode84(d) ^ e) == 0xFF
  {
    match d
    case 0 => case 1 => case 2 => case _ =>
  }

  lemma DehammingDetects4To7(d: bv8, e: bv8)
    requires 4 <= d < 8 && !AtMostOne(e) && AtMostOne(e & (e - 1))
    ensures Dehamming(Encode84(d) ^ e) == 0xFF
  {
    match d
    case 4 => case 5 => case 6 => case _ =>
  }

  lemma DehammingDetects8To11(d: bv8, e: bv8)
    requires 8 <= d < 12 && !AtMostOne(e) && AtMostOne(e & (e - 1))
    ensures Dehamming(Encode84(d) ^ e) == 0xFF
  {
    match d
    case 8 => case 9 => case 10 => case _ =>
  }

  lemma DehammingDetects12To15(d: bv8, e: bv8)
    requires 12 <= d < 16 && !AtMostOne(e) && AtMostOne(e & (e - 1))
    ensures Dehamming(Encode84(d) ^ e) == 0xFF
  {
    match d
    case 12 => case 13 => case 14 => case _ =>
  }

  /** Two flipped bits are always reported. */
  lemma DehammingDetects(d: bv8, e: bv8)
    requires d < 16
    requires !AtMostOne(e) && AtMostOne(e & (e - 1))
    ensures Dehamming(Encode84(d) ^ e) == 0xFF
  {
    match d >> 2
    case 0 => DehammingDetects0To3(d, e);
    case 1 => DehammingDetects4To7(d, e);
    case 2 => DehammingDetects8To11(d, e);
    case _ => DehammingDetects12To15(d, e);
  }

  lemma DehammingRange(b: bv8)
    ensures Dehamming(b) < 16 || Dehamming(b) == 0xFF
  {
    match b >> 4
    case 0 => case 1 => case 2 => case 3 => case 4 => case 5 => case 6 => case 7 =>
    case 8 => case 9 => case 10 => case 11 => case 12 => case 13 => case 14 => case _ =>
  }

  /** deparity[] strips the parity bit of a byte of odd parity, and maps every other byte to a space. */
  lemma DeparityChecks(b: bv8)
    ensures Deparity(b) == if Parity8(b) == 1 then b & 0x7F else 0x20
  {
  }

  /** A table value as an int: 0 to 15, or 255 for an uncorrectable byte. */
  function Ham(b: bv8): (r: int)
    ensures 0 <= r < 16 || r == 0xFF
  {
    DehammingRange(b);
    NibbleAsInt(Dehamming(b));
    Dehamming(b) as int
  }

  lemma NibbleAsInt(b: bv8)
    requires b < 16 || b == 0xFF
    ensures 0 <= b as int < 16 || b as int == 0xFF
  {
  }

  // ----- transmission order

  /** rev_lut[]: the first half reverses the upper nibble of a byte into the lower one, the second half the lower. */
  function RevUpper(nibble: bv8): bv8 {
    Pick(nibble, 0x00, 0x08, 0x04, 0x0C, 0x02, 0x0A, 0x06, 0x0E, 0x01, 0x09, 0x05, 0x0D, 0x03, 0x0B, 0x07, 0x0F)
  }

  function RevLower(nibble: bv8): bv8 {
    Pick(nibble, 0x00, 0x80, 0x40, 0xC0, 0x20, 0xA0, 0x60, 0xE0, 0x10, 0x90, 0x50, 0xD0, 0x30, 0xB0, 0x70, 0xF0)
  }

  /** A byte in the other bit order. */
  function Reversed(b: bv8): bv8 {
    RevUpper((b >> 4) & 0xF) | RevLower(b & 0xF)
  }

  /** Bit k moves to position 7 - k. */
  lemma ReversedMirrors(b: bv8, k: bv3)
    ensures Bit(Reversed(b), k) == Bit(b, 7 - k)
  {
    match k
    case 0 => case 1 => case 2 => case 3 => case 4 => case 5 => case 6 => case 7 =>
  }

  /** Reversing twice changes nothing. */
  lemma ReversedTwice(b: bv8)
    ensures Reversed(Reversed(b)) == b
  {
  }

  // ----- page numbers

  /** tuxtxt_is_dec: the last two of the three hexadecimal digits are decimal ones. */
  predicate IsDec(page: int) {
    page % 16 <= 9 && page / 16 % 16 <= 9
  }
}
