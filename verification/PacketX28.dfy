/**
  Packets X/28/0 and X/29/0: thirteen Hamming 24/18 triplets that carry the presentation data of a page or
  of a whole magazine (ETS 300 706, section 9.4.2), among them sixteen 12-bit colours that are cut across
  the 18-bit triplets.
 */
module PacketX28 {
  import opened Hamming24
  import opened TxtTables

  const TRIPLETS := 13
  const COLOURS := 16

  predicate Is12Bit(c: cint) { c < 0x1000 }
  predicate Is18Bit(c: cint) { c < 0x4_0000 }

  /** The presentation data. Numbers are 32-bit ints within the widths of struct tstExtData. */
  datatype Fields = Fields(
    defaultCharset: cint, secondCharset: cint, lsp: bool, rsp: bool, spl25: bool, lspColumns: cint,
    bgr: seq<cint>,
    defScreenColor: cint, defRowColor: cint, blackBgSubst: bool, colorTableRemapping: cint)
  {
    predicate Valid() {
      && defaultCharset < 0x80 && secondCharset < 0x80 && lspColumns < 0x10
      && |bgr| == COLOURS && (forall k :: 0 <= k < COLOURS ==> Is12Bit(bgr[k]))
      && defScreenColor < 0x20 && defRowColor < 0x20 && colorTableRemapping < 8
    }
  }

  // ----- the layout of section 9.4.2, as an encoder

  function BitOf(b: bool, bit: cint): cint {
    if b then bit else 0
  }

  /** The 18 bits of the first triplet: page function and coding, then the character sets. */
  function First(mode: cint, f: Fields): cint {
    mode | (f.defaultCharset << 7) | ((f.secondCharset & 0xF) << 14)
  }

  function Second(f: Fields, c: cint): cint {
    (f.secondCharset >> 4) | BitOf(f.lsp, 0x08) | BitOf(f.rsp, 0x10) | BitOf(f.spl25, 0x20)
    | (f.lspColumns << 6) | ((c & 0xFF) << 10)
  }

  /** Colours 3q, 3q + 1 and 3q + 2 share the triplets 2q + 1, 2q + 2 and 2q + 3. */
  function Upper(c: cint, c': cint, c'': cint): cint {
    (c >> 8) | (c' << 4) | ((c'' & 3) << 16)
  }

  function Lower(c'': cint, c: cint): cint {
    (c'' >> 2) | ((c & 0xFF) << 10)
  }

  function Last(c: cint, f: Fields): cint {
    (c >> 8) | (f.defScreenColor << 4) | (f.defRowColor << 9) | BitOf(f.blackBgSubst, 0x4000)
    | (f.colorTableRemapping << 15)
  }

  /** The contents of triplet n. */
  function Content(mode: cint, f: Fields, n: nat): cint
    requires f.Valid() && mode < 0x80 && n < TRIPLETS
  {
    if n == 0 then First(mode, f)
    else if n == 1 then Second(f, f.bgr[0])
    else if n == 12 then Last(f.bgr[15], f)
    else
      var k := (n / 2 - 1) * 3;
      if n % 2 == 0 then Upper(f.bgr[k], f.bgr[k + 1], f.bgr[k + 2]) else Lower(f.bgr[k + 2], f.bgr[k + 3])
  }

  // ----- reading it back

  function ColourA(below: cint, upper: cint): cint { (below >> 10) | ((upper & 0xF) << 8) }
  function ColourB(upper: cint): cint { (upper >> 4) & 0xFFF }
  function ColourC(upper: cint, lower: cint): cint { (upper >> 16) | ((lower & 0x3FF) << 2) }

  /** Colour k of a packet with the triplet contents d. */
  function ColourOf(d: seq<cint>, k: nat): cint
    requires |d| == TRIPLETS && k < COLOURS
  {
    var n := k / 3 * 2 + 2;
    match k % 3
    case 0 => ColourA(d[n - 1], d[n])
    case 1 => ColourB(d[n])
    case _ => ColourC(d[n], d[n + 1])
  }

  /** t >> n */
  function Shr(t: cint, n: nat): cint
    requires n < 32
  {
    t >> n
  }

  /** (t >> n) & mask */
  function Field(t: cint, n: nat, mask: cint): cint
    requires n < 32
  {
    Shr(t, n) & mask
  }

  /** !!(t & mask) */
  predicate Flag(t: cint, mask: cint) { t & mask != 0 }

  function SecondCharsetOf(t1: cint, t2: cint): cint { ((t1 >> 14) & 0xF) | ((t2 << 4) & 0x70) }

  function FieldsOf(d: seq<cint>): Fields
    requires |d| == TRIPLETS
  {
    var last := Shr(d[12], 4);
    Fields(Field(d[0], 7, 0x7F), SecondCharsetOf(d[0], d[1]),
           Flag(d[1], 0x08), Flag(d[1], 0x10), Flag(d[1], 0x20), Field(d[1], 6, 0xF),
           seq(COLOURS, k requires 0 <= k < COLOURS => ColourOf(d, k)),
           Field(last, 0, 0x1F), Field(Shr(last, 5), 0, 0x1F), Flag(Shr(last, 5), 0x20),
           Field(Shr(Shr(last, 5), 6), 0, 7))
  }

  /** How many triplets have been read when colour k is stored. */
  function Needed(k: nat): nat {
    k / 3 * 2 + if k % 3 == 2 then 4 else 3
  }

  predicate AllGood(d: seq<cint>, n: nat) {
    forall i :: 0 <= i < n && i < |d| ==> !Negative(d[i])
  }

  /** The structure that calloc gives. */
  const CLEAR := Fields(0, 0, false, false, false, 0, seq(COLOURS, k => 0 as cint), 0, 0, false, 0)

  /**
    What is in the structure afterwards, if the first two triplets are good: their fields, the colours in front of
    the first damaged triplet, and the rest only if there is none.
   */
  function Stored(before: Fields, d: seq<cint>): Fields
    requires |before.bgr| == COLOURS && |d| == TRIPLETS
  {
    var f := FieldsOf(d);
    f.(bgr := seq(COLOURS, k requires 0 <= k < COLOURS => if AllGood(d, Needed(k)) then f.bgr[k] else before.bgr[k]),
       defScreenColor := if AllGood(d, TRIPLETS) then f.defScreenColor else before.defScreenColor,
       defRowColor := if AllGood(d, TRIPLETS) then f.defRowColor else before.defRowColor,
       blackBgSubst := if AllGood(d, TRIPLETS) then f.blackBgSubst else before.blackBgSubst,
       colorTableRemapping := if AllGood(d, TRIPLETS) then f.colorTableRemapping else before.colorTableRemapping)
  }

  /** Without damage it is what the packet says, whatever was there before. */
  lemma StoredWhole(before: Fields, d: seq<cint>)
    requires |before.bgr| == COLOURS && |d| == TRIPLETS && AllGood(d, TRIPLETS)
    ensures Stored(before, d) == FieldsOf(d)
  {
    hide Negative;
    hide ColourOf;
    assert forall k :: 0 <= k < COLOURS ==> Needed(k) <= TRIPLETS;
    assert Stored(before, d).bgr == FieldsOf(d).bgr;
  }

  /**
    A packet whose first damaged triplet is number n: exactly the colours below FirstLost(n) are replaced, and the
    fields of the last triplet stay as they were.
   */
  lemma StoredPart(before: Fields, d: seq<cint>, n: nat)
    requires |before.bgr| == COLOURS && |d| == TRIPLETS && 2 <= n < TRIPLETS && AllGood(d, n) && Negative(d[n])
    ensures var r := Stored(before, d);
      && (forall k :: 0 <= k < COLOURS ==> r.bgr[k] == if k < FirstLost(n) then ColourOf(d, k) else before.bgr[k])
      && r.defScreenColor == before.defScreenColor && r.defRowColor == before.defRowColor
      && r.blackBgSubst == before.blackBgSubst && r.colorTableRemapping == before.colorTableRemapping
      && r.defaultCharset == FieldsOf(d).defaultCharset && r.secondCharset == FieldsOf(d).secondCharset
  {
    hide Negative;
    hide ColourOf;
    hide Needed;
    hide FirstLost;
    forall k | 0 <= k < COLOURS ensures AllGood(d, Needed(k)) <==> k < FirstLost(n) {
      NeededBefore(k, n);
    }
  }

  /** The colour that triplet n is read for. */
  function FirstLost(n: nat): int {
    if n % 2 == 0 then n / 2 * 3 - 3 else n / 2 * 3 - 1
  }

  lemma NeededBefore(k: nat, n: nat)
    requires 2 <= n
    ensures Needed(k) <= n <==> k < FirstLost(n)
  {
  }

  /** What the reader takes from the first two triplets. */
  predicate HeadReads(t1: cint, t2: cint, f: Fields, c: cint) {
    && (t1 >> 7) & 0x7F == f.defaultCharset && SecondCharsetOf(t1, t2) == f.secondCharset
    && (t2 & 0x08 != 0 <==> f.lsp) && (t2 & 0x10 != 0 <==> f.rsp) && (t2 & 0x20 != 0 <==> f.spl25)
    && (t2 >> 6) & 0xF == f.lspColumns && t2 >> 10 == c & 0xFF
  }

  lemma HeadFits(mode: cint, f: Fields, c: cint)
    requires mode < 0x80 && f.defaultCharset < 0x80 && f.secondCharset < 0x80 && f.lspColumns < 0x10
    ensures Is18Bit(First(mode, f)) && Is18Bit(Second(f, c))
  {
  }

  lemma HeadCharsets(mode: cint, f: Fields, c: cint)
    requires mode < 0x80 && f.defaultCharset < 0x80 && f.secondCharset < 0x80 && f.lspColumns < 0x10
    ensures (First(mode, f) >> 7) & 0x7F == f.defaultCharset
    ensures SecondCharsetOf(First(mode, f), Second(f, c)) == f.secondCharset
  {
  }

  lemma HeadPanels(f: Fields, c: cint)
    requires f.secondCharset < 0x80 && f.lspColumns < 0x10
    ensures (Second(f, c) & 0x08 != 0 <==> f.lsp) && (Second(f, c) & 0x10 != 0 <==> f.rsp)
    ensures Second(f, c) & 0x20 != 0 <==> f.spl25
  {
  }

  lemma HeadColumns(f: Fields, c: cint)
    requires f.secondCharset < 0x80 && f.lspColumns < 0x10
    ensures (Second(f, c) >> 6) & 0xF == f.lspColumns && Second(f, c) >> 10 == c & 0xFF
  {
  }

  lemma HeadRoundTrip(mode: cint, f: Fields, c: cint)
    requires mode < 0x80 && f.defaultCharset < 0x80 && f.secondCharset < 0x80 && f.lspColumns < 0x10
    ensures Is18Bit(First(mode, f)) && Is18Bit(Second(f, c))
    ensures HeadReads(First(mode, f), Second(f, c), f, c)
  {
    hide First;
    hide Second;
    hide SecondCharsetOf;
    hide Is18Bit;
    HeadFits(mode, f, c);
    HeadCharsets(mode, f, c);
    HeadPanels(f, c);
    HeadColumns(f, c);
  }

  /** What the reader takes from the last triplet. */
  predicate TailReads(t: cint, f: Fields, c: cint) {
    && t & 0xF == c >> 8
    && (t >> 4) & 0x1F == f.defScreenColor && ((t >> 4) >> 5) & 0x1F == f.defRowColor
    && (((t >> 4) >> 5) & 0x20 != 0 <==> f.blackBgSubst) && (((t >> 4) >> 5) >> 6) & 7 == f.colorTableRemapping
  }

  lemma TailRoundTrip(f: Fields, c: cint)
    requires f.defScreenColor < 0x20 && f.defRowColor < 0x20 && f.colorTableRemapping < 8 && Is12Bit(c)
    ensures Is18Bit(Last(c, f)) && TailReads(Last(c, f), f, c)
  {
  }

  lemma ColourBits(a: cint, b: cint, c: cint, d: cint)
    requires Is12Bit(a) && Is12Bit(b) && Is12Bit(c) && Is12Bit(d)
    ensures Upper(a, b, c) & 0xF == a >> 8 && Lower(c, d) >> 10 == d & 0xFF
  {
  }

  lemma ColoursFit(a: cint, b: cint, c: cint, d: cint)
    requires Is12Bit(a) && Is12Bit(b) && Is12Bit(c) && Is12Bit(d)
    ensures Is18Bit(Upper(a, b, c)) && Is18Bit(Lower(c, d))
  {
  }

  lemma WholeColours(a: cint, b: cint, c: cint, d: cint)
    requires Is12Bit(a) && Is12Bit(b) && Is12Bit(c) && Is12Bit(d)
    ensures ColourB(Upper(a, b, c)) == b && ColourC(Upper(a, b, c), Lower(c, d)) == c
  {
  }

  /** The low eight bits of a colour end one triplet, its high four start the next. */
  predicate Halves(below: cint, upper: cint, c: cint) {
    below >> 10 == c & 0xFF && upper & 0xF == c >> 8
  }

  lemma ColourJoins(below: cint, upper: cint, c: cint)
    requires Is12Bit(c) && Halves(below, upper, c)
    ensures ColourA(below, upper) == c
  {
  }

  function Contents(mode: cint, f: Fields): (d: seq<cint>)
    requires f.Valid() && mode < 0x80
    ensures |d| == TRIPLETS
  {
    seq(TRIPLETS, n requires 0 <= n < TRIPLETS => Content(mode, f, n))
  }

  /** Every content fits 18 bits. */
  lemma ContentFits(mode: cint, f: Fields, n: nat)
    requires f.Valid() && mode < 0x80 && n < TRIPLETS
    ensures Is18Bit(Content(mode, f, n))
  {
    hide First;
    hide Second;
    hide Last;
    hide Upper;
    hide Lower;
    hide Is18Bit;
    hide TailReads;
    HeadFits(mode, f, f.bgr[0]);
    TailRoundTrip(f, f.bgr[15]);
    if 2 <= n < 12 {
      var k := (n / 2 - 1) * 3;
      ColoursFit(f.bgr[k], f.bgr[k + 1], f.bgr[k + 2], f.bgr[k + 3]);
    }
  }

  lemma SeamBelow(mode: cint, f: Fields, q: nat)
    requires f.Valid() && mode < 0x80 && q <= 5
    ensures Content(mode, f, 2 * q + 1) >> 10 == f.bgr[3 * q] & 0xFF
  {
    if q == 0 {
      HeadRoundTrip(mode, f, f.bgr[0]);
    } else {
      ColourBits(f.bgr[3 * q - 3], f.bgr[3 * q - 2], f.bgr[3 * q - 1], f.bgr[3 * q]);
    }
    hide First;
    hide Second;
    hide Last;
    hide Upper;
    hide Lower;
  }

  lemma SeamAbove(mode: cint, f: Fields, q: nat)
    requires f.Valid() && mode < 0x80 && q <= 5
    ensures Content(mode, f, 2 * q + 2) & 0xF == f.bgr[3 * q] >> 8
  {
    if q == 5 {
      TailRoundTrip(f, f.bgr[15]);
    } else {
      ColourBits(f.bgr[3 * q], f.bgr[3 * q + 1], f.bgr[3 * q + 2], f.bgr[3 * q + 3]);
    }
    hide First;
    hide Second;
    hide Last;
    hide Upper;
    hide Lower;
  }

  /** Colour 3q is cut between two triplets. */
  lemma Seam(mode: cint, f: Fields, q: nat)
    requires f.Valid() && mode < 0x80 && q <= 5
    ensures Halves(Content(mode, f, 2 * q + 1), Content(mode, f, 2 * q + 2), f.bgr[3 * q])
  {
    SeamBelow(mode, f, q);
    SeamAbove(mode, f, q);
    hide Content;
  }

  lemma CutColour(mode: cint, f: Fields, q: nat)
    requires f.Valid() && mode < 0x80 && q <= 5
    ensures ColourA(Content(mode, f, 2 * q + 1), Content(mode, f, 2 * q + 2)) == f.bgr[3 * q]
  {
    hide First;
    hide Second;
    hide Last;
    hide Upper;
    hide Lower;
    hide ColourA;
    hide ColourB;
    hide ColourC;
    hide Halves;
    hide Is12Bit;
    Seam(mode, f, q);
    ColourJoins(Content(mode, f, 2 * q + 1), Content(mode, f, 2 * q + 2), f.bgr[3 * q]);
  }

  lemma PairOfColours(mode: cint, f: Fields, q: nat)
    requires f.Valid() && mode < 0x80 && q < 5
    ensures ColourB(Content(mode, f, 2 * q + 2)) == f.bgr[3 * q + 1]
    ensures ColourC(Content(mode, f, 2 * q + 2), Content(mode, f, 2 * q + 3)) == f.bgr[3 * q + 2]
  {
    hide First;
    hide Second;
    hide Last;
    hide Upper;
    hide Lower;
    hide ColourA;
    hide ColourB;
    hide ColourC;
    hide Halves;
    hide Is12Bit;
    WholeColours(f.bgr[3 * q], f.bgr[3 * q + 1], f.bgr[3 * q + 2], f.bgr[3 * q + 3]);
  }

  /** Colour k comes back from the triplets it was cut into. */
  lemma ColourRoundTrip(mode: cint, f: Fields, k: nat)
    requires f.Valid() && mode < 0x80 && k < COLOURS
    ensures ColourOf(Contents(mode, f), k) == f.bgr[k]
  {
    hide Content;
    hide ColourA;
    hide ColourB;
    hide ColourC;
    if k % 3 == 0 {
      CutColour(mode, f, k / 3);
    } else {
      PairOfColours(mode, f, k / 3);
    }
  }

  /** The reader undoes the section 9.4.2 layout. */
  lemma FieldsRoundTrip(mode: cint, f: Fields)
    requires f.Valid() && mode < 0x80
    ensures FieldsOf(Contents(mode, f)) == f
  {
    hide First;
    hide Second;
    hide Last;
    HeadRoundTrip(mode, f, f.bgr[0]);
    TailRoundTrip(f, f.bgr[15]);
    var d := Contents(mode, f);
    forall k | 0 <= k < COLOURS
      ensures ColourOf(d, k) == f.bgr[k]
    {
      ColourRoundTrip(mode, f, k);
    }
    hide ColourOf;
    assert FieldsOf(d).bgr == f.bgr;
  }

  // ----- the packet decoder

  function TripletAt(row: seq<bv8>, n: nat): Triplet
    requires |row| == ROW_BYTES && n < TRIPLETS
  {
    Triplet(row[3 * n + 3], row[3 * n + 4], row[3 * n + 5])
  }

  /** The decoded triplets of a packet. */
  function Decoded(row: seq<bv8>): (d: seq<cint>)
    requires |row| == ROW_BYTES
    ensures |d| == TRIPLETS
  {
    seq(TRIPLETS, n requires 0 <= n < TRIPLETS => Deh24(TripletAt(row, n)))
  }

  /** Struct tstExtData, without the links of packets 26 and 27. */
  class ExtData {
    var p28Received: bool
    var defaultCharset: cint
    var secondCharset: cint
    var lsp: bool
    var rsp: bool
    var spl25: bool
    var lspColumns: cint
    const bgr: array<cint>
    var defScreenColor: cint
    var defRowColor: cint
    var blackBgSubst: bool
    var colorTableRemapping: cint

    ghost predicate Valid()
      reads this
    {
      bgr.Length == COLOURS
    }

    ghost function View(): Fields
      reads this, bgr
    {
      Fields(defaultCharset, secondCharset, lsp, rsp, spl25, lspColumns, bgr[..],
             defScreenColor, defRowColor, blackBgSubst, colorTableRemapping)
    }

    /** calloc */
    constructor ()
      ensures Valid() && fresh(bgr) && !p28Received && View() == CLEAR
    {
      p28Received := false;
      defaultCharset, secondCharset, lspColumns := 0, 0, 0;
      lsp, rsp, spl25, blackBgSubst := false, false, false, false;
      defScreenColor, defRowColor, colorTableRemapping := 0, 0, 0;
      bgr := new cint[COLOURS](_ => 0);
    }
  }

  /** Decoder results are -1 or 18 bits. */
  lemma DecodedRange(data: cint, e: bv8)
    requires data < 0x4_0000
    ensures Negative(Decode(data, e)) ==> Decode(data, e) == MINUS_ONE
    ensures !Negative(Decode(data, e)) ==> Is18Bit(Decode(data, e))
  {
  }

  lemma DataRange(low: bv8, p1: bv8, p2: bv8)
    requires low < 16
    ensures Assemble(low, p1, p2) < 0x4_0000
  {
  }

  lemma ValBelow16(p: bv8)
    ensures Val(p) < 16
  {
    ValGathers(p);
    hide Val;
  }

  lemma Deh24Range(t: Triplet)
    ensures Negative(Deh24(t)) ==> Deh24(t) == MINUS_ONE
    ensures !Negative(Deh24(t)) ==> Is18Bit(Deh24(t))
  {
    hide Val;
    hide Assemble;
    hide Decode;
    hide Negative;
    hide Is18Bit;
    hide Tests;
    ValBelow16(t.p0);
    DataRange(Val(t.p0), t.p1, t.p2);
    DecodedRange(Data(t), Tests(t));
  }

  // The steps of the colour loop: t2 |= triplet << bitsleft, t2 & 0x0fff, t2 >>= 12.
  function Load(t2: cint, triplet: cint, bitsleft: nat): cint
    requires bitsleft < 32
  {
    t2 | (triplet << bitsleft)
  }
  function Low12(t2: cint): cint { t2 & 0xFFF }
  function Drop12(t2: cint): cint { t2 >> 12 }

  lemma LoadA(below: cint, upper: cint)
    requires Is18Bit(below) && Is18Bit(upper)
    ensures var t2 := Load(Shr(below, 10), upper, 8);
            !Negative(t2) && Low12(t2) == ColourA(below, upper) && Drop12(t2) == Shr(upper, 4)
  {
  }

  lemma TakeB(upper: cint)
    requires Is18Bit(upper)
    ensures Low12(Shr(upper, 4)) == ColourB(upper) && Drop12(Shr(upper, 4)) == Shr(upper, 16)
    ensures !Negative(Shr(upper, 4))
  {
  }

  lemma LoadC(upper: cint, lower: cint)
    requires Is18Bit(upper) && Is18Bit(lower)
    ensures var t2 := Load(Shr(upper, 16), lower, 2);
            !Negative(t2) && Low12(t2) == ColourC(upper, lower) && Drop12(t2) == Shr(lower, 10)
  {
  }

  lemma LoadError(t2: cint)
    ensures Negative(Load(t2, MINUS_ONE, 8)) && Negative(Load(t2, MINUS_ONE, 2))
  {
  }

  /** The loop variables in front of colour k: the unread bits, and the number of the next triplet. */
  predicate AtColour(d: seq<cint>, k: nat, t2: cint, bitsleft: int, next: nat)
    requires |d| == TRIPLETS && k <= COLOURS
  {
    var n := k / 3 * 2 + 2;
    match k % 3
    case 0 => bitsleft == 8 && next == n && t2 == Shr(d[n - 1], 10)
    case 1 => bitsleft == 14 && next == n + 1 && t2 == Shr(d[n], 4)
    case _ => bitsleft == 2 && next == n + 1 && t2 == Shr(d[n], 16)
  }

  lemma ColourLoads(d: seq<cint>, k: nat, t2: cint, bitsleft: int, next: nat)
    requires |d| == TRIPLETS && k < COLOURS && AtColour(d, k, t2, bitsleft, next)
    ensures bitsleft < 12 ==> 2 <= next < TRIPLETS && (bitsleft == 2 || bitsleft == 8)
    ensures bitsleft >= 12 ==> bitsleft == 14
  {
    hide Shr;
  }

  lemma NeededGrows(d: seq<cint>, k: nat, t2: cint, bitsleft: int, next: nat)
    requires |d| == TRIPLETS && k < COLOURS && AtColour(d, k, t2, bitsleft, next)
    ensures Needed(k) == next + if bitsleft < 12 then 1 else 0
    ensures forall j :: k <= j < COLOURS ==> Needed(k) <= Needed(j)
  {
    hide Shr;
  }

  lemma ColourEnds(d: seq<cint>, t2: cint, bitsleft: int, next: nat)
    requires |d| == TRIPLETS
    ensures AtColour(d, 0, Shr(d[1], 10), 8, 2)
    ensures AtColour(d, COLOURS, t2, bitsleft, next) ==> bitsleft == 14 && next == TRIPLETS && t2 == Shr(d[12], 4)
    ensures Is18Bit(d[12]) ==> !Negative(Shr(d[12], 4))
  {
    hide Shr;
    hide Is18Bit;
    hide Negative;
    TailPositive(d[12]);
  }

  lemma TailPositive(t: cint)
    ensures Is18Bit(t) ==> !Negative(Shr(t, 4))
  {
  }

  /** One pass of the loop without a decoding error. */
  lemma ColourStep(d: seq<cint>, k: nat, t2: cint, bitsleft: int, next: nat)
    requires |d| == TRIPLETS && k < COLOURS && AtColour(d, k, t2, bitsleft, next)
    requires forall n :: 0 <= n < TRIPLETS && n < next + (if bitsleft < 12 then 1 else 0) ==> Is18Bit(d[n])
    ensures bitsleft < 12 ==> next < TRIPLETS && (bitsleft == 2 || bitsleft == 8)
    ensures var t' := if bitsleft < 12 then Load(t2, d[next], bitsleft) else t2;
            var n' := if bitsleft < 12 then next + 1 else next;
            var b' := if bitsleft < 12 then bitsleft + 18 else bitsleft;
            !Negative(t') && Low12(t') == ColourOf(d, k) && AtColour(d, k + 1, Drop12(t'), b' - 12, n')
  {
    hide Load;
    hide Low12;
    hide Drop12;
    hide Shr;
    hide Negative;
    hide ColourA;
    hide ColourB;
    hide ColourC;
    hide Is18Bit;
    var n := k / 3 * 2 + 2;
    match k % 3
    case 0 => LoadA(d[n - 1], d[n]);
    case 1 => TakeB(d[n]);
    case _ => LoadC(d[n], d[n + 1]);
  }

  /** The colour loop: 18-bit triplets in, 12-bit colours out. */
  method DecodeColours(row: array<bv8>, bgr: array<cint>, start: cint, ghost d: seq<cint>)
    returns (t2: cint, bitsleft: int)
    requires row.Length == ROW_BYTES && bgr.Length == COLOURS && d == Decoded(row[..])
    requires !Negative(d[0]) && !Negative(d[1]) && start == Shr(d[1], 10)
    requires forall n :: 0 <= n < TRIPLETS ==> if Negative(d[n]) then d[n] == MINUS_ONE else Is18Bit(d[n])
    modifies bgr
    ensures if AllGood(d, TRIPLETS) then !Negative(t2) && bitsleft == 14 && t2 == Shr(d[12], 4) else Negative(t2)
    ensures forall k :: 0 <= k < COLOURS ==>
      bgr[k] == if AllGood(d, Needed(k)) then ColourOf(d, k) else old(bgr[k])
  {
    hide Deh24;
    hide Is18Bit;
    hide Negative;
    hide Load;
    hide Low12;
    hide Drop12;
    hide Shr;
    hide ColourOf;
    hide AtColour;
    hide Needed;
    t2, bitsleft := start, 8;
    var next := 2;
    var colorindex := 0;
    ColourEnds(d, t2, bitsleft, next);
    while colorindex < COLOURS
      invariant 0 <= colorindex <= COLOURS && 2 <= next <= TRIPLETS
      invariant AtColour(d, colorindex, t2, bitsleft, next)
      invariant forall n :: 0 <= n < next ==> !Negative(d[n])
      invariant forall k :: 0 <= k < colorindex ==> Needed(k) <= next && bgr[k] == ColourOf(d, k)
      invariant forall k :: colorindex <= k < COLOURS ==> bgr[k] == old(bgr[k])
      invariant row[..] == old(row[..])
    {
      ColourLoads(d, colorindex, t2, bitsleft, next);
      NeededGrows(d, colorindex, t2, bitsleft, next);
      ghost var passed := next + if bitsleft < 12 then 1 else 0;
      if forall n :: 0 <= n < passed ==> !Negative(d[n]) {
        ColourStep(d, colorindex, t2, bitsleft, next);
      }
      if bitsleft < 12 {
        var triplet := Deh24(Triplet(row[3 * next + 3], row[3 * next + 4], row[3 * next + 5]));
        assert triplet == d[next];
        LoadError(t2);
        t2 := Load(t2, triplet, bitsleft);
        if Negative(t2) {
          return;
        }
        next := next + 1;
        bitsleft := bitsleft + 18;
      }
      bgr[colorindex] := Low12(t2);
      bitsleft := bitsleft - 12;
      t2 := Drop12(t2);
      colorindex := colorindex + 1;
    }
    ColourEnds(d, t2, bitsleft, next);
  }

  ghost predicate HeadStored(d: seq<cint>, f: Fields)
    requires |d| == TRIPLETS
  {
    && f.defaultCharset == Field(d[0], 7, 0x7F) && f.secondCharset == SecondCharsetOf(d[0], d[1])
    && f.lsp == Flag(d[1], 0x08) && f.rsp == Flag(d[1], 0x10) && f.spl25 == Flag(d[1], 0x20)
    && f.lspColumns == Field(d[1], 6, 0xF)
  }

  ghost predicate ColoursStored(before: Fields, d: seq<cint>, f: Fields)
    requires |d| == TRIPLETS
  {
    && |f.bgr| == |before.bgr| == COLOURS
    && forall k :: 0 <= k < COLOURS ==>
         f.bgr[k] == if AllGood(d, Needed(k)) then ColourOf(d, k) else before.bgr[k]
  }

  ghost predicate TailStored(before: Fields, d: seq<cint>, f: Fields)
    requires |d| == TRIPLETS
  {
    if AllGood(d, TRIPLETS) then
      var last := Shr(d[12], 4);
      && f.defScreenColor == Field(last, 0, 0x1F) && f.defRowColor == Field(Shr(last, 5), 0, 0x1F)
      && f.blackBgSubst == Flag(Shr(last, 5), 0x20) && f.colorTableRemapping == Field(Shr(Shr(last, 5), 6), 0, 7)
    else
      && f.defScreenColor == before.defScreenColor && f.defRowColor == before.defRowColor
      && f.blackBgSubst == before.blackBgSubst && f.colorTableRemapping == before.colorTableRemapping
  }

  /** The fields of the structure, one by one. */
  lemma StoredOne(before: Fields, d: seq<cint>, f: Fields)
    requires |d| == TRIPLETS && HeadStored(d, f) && ColoursStored(before, d, f) && TailStored(before, d, f)
    ensures f == Stored(before, d)
  {
    hide Field;
    hide Flag;
    hide Shr;
    hide SecondCharsetOf;
    hide ColourOf;
    hide AllGood;
    hide Needed;
    assert f.bgr == Stored(before, d).bgr;
  }

  method DecodeP2829(row: array<bv8>, ext: ExtData?) returns (e: ExtData?)
    requires row.Length == ROW_BYTES && (ext != null ==> ext.Valid())
    modifies if ext == null then {} else {ext, ext.bgr}
    ensures var d := Decoded(old(row[..]));
      if Negative(d[0]) || Negative(d[1]) then
        e == ext && (ext != null ==> unchanged(ext, ext.bgr))
      else
        && e != null && e.Valid()
        && (if ext == null then fresh(e) && fresh(e.bgr) else e == ext)
        && (e.p28Received <==> AllGood(d, TRIPLETS))
        && e.View() == Stored(if ext == null then CLEAR else old(ext.View()), d)
        && (e.p28Received ==> e.View() == FieldsOf(d))
  {
    hide Deh24;
    hide Negative;
    hide FieldsOf;
    hide Stored;
    e := ext;
    var t1 := Deh24(Triplet(row[3], row[4], row[5]));
    var t2 := Deh24(Triplet(row[6], row[7], row[8]));
    ghost var d := Decoded(row[..]);
    assert t1 == d[0] && t2 == d[1];
    if Negative(t1) || Negative(t2) {
      return;
    }
    if e == null {
      e := new ExtData();
    }
    ghost var before := e.View();
    StoreFields(row, e, t1, t2);
    if e.p28Received {
      StoredWhole(before, d);
    }
  }

  /** The part of tuxtxt_decode_p2829 behind the checks and the allocation. */
  method StoreFields(row: array<bv8>, e: ExtData, t1: cint, secondTriplet: cint)
    requires row.Length == ROW_BYTES && e.Valid()
    requires t1 == Decoded(row[..])[0] && secondTriplet == Decoded(row[..])[1]
    requires !Negative(t1) && !Negative(secondTriplet)
    modifies e, e.bgr
    ensures var d := Decoded(old(row[..]));
      && (e.p28Received <==> AllGood(d, TRIPLETS))
      && e.View() == Stored(old(e.View()), d)
  {
    hide Deh24;
    hide Negative;
    hide Is18Bit;
    hide Field;
    hide Flag;
    hide Shr;
    hide SecondCharsetOf;
    hide ColourOf;
    hide FieldsOf;
    hide AllGood;
    hide Needed;
    hide Stored;
    hide Decoded;
    ghost var d, before := Decoded(row[..]), e.View();
    DecodedAre(row[..]);
    StoreHead(e, t1, secondTriplet);
    var t2, bitsleft := DecodeColours(row, e.bgr, Shr(secondTriplet, 10), d);
    if Negative(t2) || bitsleft != 14 {
      e.p28Received := false;
    } else {
      StoreTail(e, t2);
    }
    ghost var f := e.View();
    assert HeadStored(d, f);
    assert ColoursStored(before, d, f);
    assert TailStored(before, d, f);
    StoredOne(before, d, f);
  }

  method StoreHead(e: ExtData, t1: cint, t2: cint)
    modifies e`p28Received, e`defaultCharset, e`secondCharset, e`lsp, e`rsp, e`spl25, e`lspColumns
    ensures e.p28Received
    ensures e.defaultCharset == Field(t1, 7, 0x7F) && e.secondCharset == SecondCharsetOf(t1, t2)
    ensures e.lsp == Flag(t2, 0x08) && e.rsp == Flag(t2, 0x10) && e.spl25 == Flag(t2, 0x20)
    ensures e.lspColumns == Field(t2, 6, 0xF)
  {
    hide *;
    e.p28Received := true;
    e.defaultCharset := Field(t1, 7, 0x7F);
    e.secondCharset := SecondCharsetOf(t1, t2);
    e.lsp := Flag(t2, 0x08);
    e.rsp := Flag(t2, 0x10);
    e.spl25 := Flag(t2, 0x20);
    e.lspColumns := Field(t2, 6, 0xF);
  }

  method StoreTail(e: ExtData, last: cint)
    modifies e`defScreenColor, e`defRowColor, e`blackBgSubst, e`colorTableRemapping
    ensures e.defScreenColor == Field(last, 0, 0x1F)
    ensures e.defRowColor == Field(Shr(last, 5), 0, 0x1F)
    ensures e.blackBgSubst == Flag(Shr(last, 5), 0x20)
    ensures e.colorTableRemapping == Field(Shr(Shr(last, 5), 6), 0, 7)
  {
    hide *;
    e.defScreenColor := Field(last, 0, 0x1F);
    var t2 := Shr(last, 5);
    e.defRowColor := Field(t2, 0, 0x1F);
    e.blackBgSubst := Flag(t2, 0x20);
    t2 := Shr(t2, 6);
    e.colorTableRemapping := Field(t2, 0, 7);
  }

  lemma DecodedAre(row: seq<bv8>)
    requires |row| == ROW_BYTES
    ensures forall n :: 0 <= n < TRIPLETS ==>
      if Negative(Decoded(row)[n]) then Decoded(row)[n] == MINUS_ONE else Is18Bit(Decoded(row)[n])
  {
    hide Deh24;
    hide Negative;
    hide Is18Bit;
    forall n | 0 <= n < TRIPLETS
      ensures if Negative(Decoded(row)[n]) then Decoded(row)[n] == MINUS_ONE else Is18Bit(Decoded(row)[n])
    {
      Deh24Range(TripletAt(row, n));
    }
  }

  // ----- transmission errors

  /** t is the encoded triplet d with at most one flipped bit. */
  ghost predicate AtMostOneError(t: Triplet, d: cint) {
    Is18Bit(d) && (t == Encode24(d) || exists k: nat :: k < 24 && t == Flip(Encode24(d), k))
  }

  /** t is the encoded triplet d with two flipped bits. */
  ghost predicate TwoErrors(t: Triplet, d: cint) {
    Is18Bit(d) && exists j: nat, k: nat :: j < 24 && k < 24 && j != k && t == Flip(Flip(Encode24(d), j), k)
  }

  lemma TripletRecovered(t: Triplet, d: cint)
    ensures AtMostOneError(t, d) ==> Deh24(t) == d
    ensures TwoErrors(t, d) ==> Deh24(t) == MINUS_ONE
  {
    hide Encode24;
    hide Flip;
    hide Deh24;
    if AtMostOneError(t, d) {
      if t == Encode24(d) {
        OneErrorIsCorrected(d, 0);
      } else {
        var k: nat :| k < 24 && t == Flip(Encode24(d), k);
        OneErrorIsCorrected(d, k);
      }
    }
    if TwoErrors(t, d) {
      var j: nat, k: nat :| j < 24 && k < 24 && j != k && t == Flip(Flip(Encode24(d), j), k);
      TwoErrorsAreDetected(d, j, k);
    }
  }

  lemma Positive18(d: cint)
    ensures Is18Bit(d) ==> !Negative(d)
    ensures Negative(MINUS_ONE)
  {
  }

  /**
    With at most one flipped bit in each triplet, every field and all sixteen colours of the transmitted
    packet are recovered.
   */
  lemma PacketRecovered(row: seq<bv8>, mode: cint, f: Fields)
    requires |row| == ROW_BYTES && f.Valid() && mode < 0x80
    requires forall n :: 0 <= n < 13 ==>
      AtMostOneError(Triplet(row[3 + 3 * n], row[4 + 3 * n], row[5 + 3 * n]), Content(mode, f, n))
    ensures forall n :: 0 <= n < TRIPLETS ==> !Negative(Decoded(row)[n])
    ensures FieldsOf(Decoded(row)) == f
  {
    forall n | 0 <= n < TRIPLETS
      ensures Decoded(row)[n] == Content(mode, f, n) && !Negative(Decoded(row)[n])
    {
      ContentFits(mode, f, n);
      TripletRecovered(TripletAt(row, n), Content(mode, f, n));
      Positive18(Content(mode, f, n));
      hide *;
    }
    assert Decoded(row) == Contents(mode, f);
    FieldsRoundTrip(mode, f);
  }

  /** Two flipped bits in some triplet make the packet fail, whatever the other triplets hold. */
  lemma PacketRejected(row: seq<bv8>, n: nat, d: cint)
    requires |row| == ROW_BYTES && n < TRIPLETS
    requires TwoErrors(Triplet(row[3 + 3 * n], row[4 + 3 * n], row[5 + 3 * n]), d)
    ensures Negative(Decoded(row)[n])
  {
    hide Deh24;
    hide Negative;
    hide TwoErrors;
    TripletRecovered(TripletAt(row, n), d);
    Positive18(d);
  }
}
