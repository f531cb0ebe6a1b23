/**
  The sending side of teletext: headers, text packets and PES lines as ETS 300 706 and EN 300 472 lay them out, and
  what the decoder makes of them, spelled out in the digits and characters that were sent.
 */
module TxtSent {
  import opened Basics
  import opened PageCodec
  import opened TxtTables
  import opened TxtPlain
  import opened TxtCache
  import TopTable

  // ----- bytes

  /** A number below 16 as a nibble. */
  function Nibble(d: int): (b: bv8)
    requires 0 <= d < 16
    ensures b < 16
  {
    match d
    case 0 => 0 case 1 => 1 case 2 => 2 case 3 => 3 case 4 => 4 case 5 => 5 case 6 => 6 case 7 => 7
    case 8 => 8 case 9 => 9 case 10 => 10 case 11 => 11 case 12 => 12 case 13 => 13 case 14 => 14 case _ => 15
  }

  lemma NibbleIsNumber(d: int)
    requires 0 <= d < 16
    ensures Nibble(d) as int == d
  {
  }

  /** The bits in which two bytes differ. */
  function Difference(b: bv8, c: bv8): bv8 {
    b ^ c
  }

  predicate AtMostTwo(e: bv8) {
    AtMostOne(e & (e - 1))
  }

  predicate OneError(b: bv8, d: bv8)
    requires d < 16
  {
    AtMostOne(Difference(b, Encode84(d)))
  }

  predicate TwoErrors(b: bv8, d: bv8)
    requires d < 16
  {
    !AtMostOne(Difference(b, Encode84(d))) && AtMostTwo(Difference(b, Encode84(d)))
  }

  /** A number in Hamming 8/4 with at most one flipped bit. */
  predicate Sent(b: bv8, d: int) {
    0 <= d < 16 && OneError(b, Nibble(d))
  }

  /** A number in Hamming 8/4 with exactly two flipped bits. */
  predicate Spoiled(b: bv8, d: int) {
    0 <= d < 16 && TwoErrors(b, Nibble(d))
  }

  /** What is shown for a byte with odd parity in its top bit, and for one without. */
  function Shown(b: bv8): bv8 {
    if Parity8(b) == 1 then b & 0x7F else 0x20
  }

  lemma ErrorsDecode(b: bv8, d: bv8)
    requires d < 16
    ensures OneError(b, d) ==> Dehamming(b) == d
    ensures TwoErrors(b, d) ==> Dehamming(b) == 0xFF
  {
    hide Dehamming;
    hide Encode84;
    hide AtMostOne;
    hide AtMostTwo;
    hide Difference;
    DifferenceDecodes(b, d, Difference(b, Encode84(d)));
  }

  lemma DifferenceDecodes(b: bv8, d: bv8, e: bv8)
    requires d < 16 && e == Difference(b, Encode84(d))
    ensures AtMostOne(e) ==> Dehamming(b) == d
    ensures !AtMostOne(e) && AtMostTwo(e) ==> Dehamming(b) == 0xFF
  {
    hide Dehamming;
    hide Encode84;
    hide AtMostOne;
    hide AtMostTwo;
    hide Difference;
    Flipped(b, Encode84(d), e);
    if AtMostOne(e) {
      Corrected(b, d, e);
    } else if AtMostTwo(e) {
      Detected(b, d, e);
    }
  }

  lemma Corrected(b: bv8, d: bv8, e: bv8)
    requires d < 16 && AtMostOne(e) && b == Encode84(d) ^ e
    ensures Dehamming(b) == d
  {
    hide Dehamming;
    hide Encode84;
    hide AtMostOne;
    DehammingCorrects(e, d);
  }

  lemma Detected(b: bv8, d: bv8, e: bv8)
    requires d < 16 && !AtMostOne(e) && AtMostTwo(e) && b == Encode84(d) ^ e
    ensures Dehamming(b) == 0xFF
  {
    hide Dehamming;
    hide Encode84;
    hide AtMostOne;
    DehammingDetects(d, e);
  }

  lemma Flipped(b: bv8, c: bv8, e: bv8)
    requires e == Difference(b, c)
    ensures c ^ e == b
  {
  }

  lemma HamIs(b: bv8, d: int)
    ensures 0 <= d < 16 && Dehamming(b) == Nibble(d) ==> Ham(b) == d
    ensures Dehamming(b) == 0xFF ==> Ham(b) == 0xFF
  {
    hide Dehamming;
    hide Nibble;
    if 0 <= d < 16 {
      NibbleIsNumber(d);
    }
  }

  lemma SentIsRead(b: bv8, d: int)
    requires Sent(b, d)
    ensures Ham(b) == d && Dehamming(b) == Nibble(d)
  {
    hide OneError;
    hide Dehamming;
    hide Ham;
    hide Nibble;
    ErrorsDecode(b, Nibble(d));
    HamIs(b, d);
  }

  lemma SpoiledIsRead(b: bv8, d: int)
    requires Spoiled(b, d)
    ensures Ham(b) == 0xFF
  {
    hide TwoErrors;
    hide Dehamming;
    hide Ham;
    hide Nibble;
    ErrorsDecode(b, Nibble(d));
    HamIs(b, d);
  }

  lemma ShownIsDeparity(b: bv8)
    ensures Deparity(b) == Shown(b)
  {
    hide Deparity;
    hide Parity8;
    DeparityChecks(b);
  }

  // ----- rows

  /** The packet address of section 7.1.2: magazine 8 is sent as 0. */
  predicate Addressed(row: seq<bv8>, m: int, n: int)
    requires |row| == ROW_BYTES
  {
    1 <= m <= 8 && 0 <= n <= 31 && Sent(row[0], m % 8 + 8 * (n % 2)) && Sent(row[1], n / 2)
  }

  lemma AddressIsRead(row: seq<bv8>, m: int, n: int)
    requires |row| == ROW_BYTES && Addressed(row, m, n)
    ensures AddressOk(row) && Magazine(row) == m && PacketNumber(row) == n
  {
    hide Sent;
    hide Ham;
    SentIsRead(row[0], m % 8 + 8 * (n % 2));
    SentIsRead(row[1], n / 2);
    AddressParts(m % 8, n % 2, m % 8 + 8 * (n % 2));
    assert n == n % 2 + 2 * (n / 2);
  }

  lemma AddressParts(k: int, odd: int, a: int)
    requires 0 <= k < 8 && 0 <= odd < 2 && a == k + 8 * odd
    ensures a % 8 == k && a / 8 % 2 == odd
  {
  }

  /**
    The page header of section 9.3.1: page digits, then subcode S1 to S4, with the control bit C4 above S2 and C5, C6
    above S4.
   */
  predicate HeaderSent(row: seq<bv8>, m: int, tens: int, units: int, s1: int, s2: int, c4: bool, s3: int, s4: int)
    requires |row| == ROW_BYTES
  {
    && Addressed(row, m, 0)
    && Sent(row[2], units) && Sent(row[3], tens)
    && 0 <= s2 < 8 && Sent(row[4], s1) && Sent(row[5], s2 + if c4 then 8 else 0)
    && Sent(row[6], s3) && Sent(row[7], s4)
  }

  lemma HeaderIsRead(row: seq<bv8>, m: int, tens: int, units: int, s1: int, s2: int, c4: bool, s3: int, s4: int)
    requires |row| == ROW_BYTES && HeaderSent(row, m, tens, units, s1, s2, c4, s3, s4)
    ensures AddressOk(row) && Magazine(row) == m && PacketNumber(row) == 0
    ensures HeaderOk(row) <==> !(tens == 15 && units == 15)
    ensures HeaderKey(row) ==
            (m * 0x100 + tens * 16 + units, if tens <= 9 && units <= 9 then s2 * 16 + s1 else s1)
    ensures Erases(row) <==> c4
  {
    hide Sent;
    hide Ham;
    hide Addressed;
    hide AddressOk;
    hide Magazine;
    hide PacketNumber;
    var low := s2 + if c4 then 8 else 0;
    AddressIsRead(row, m, 0);
    DigitIsRead(row[2], units);
    DigitIsRead(row[3], tens);
    DigitIsRead(row[4], s1);
    DigitIsRead(row[5], low);
    DigitIsRead(row[6], s3);
    DigitIsRead(row[7], s4);
    assert low % 8 == s2 && (low / 8 % 2 == 1 <==> c4);
    Digits(m, tens, units);
  }

  lemma DigitIsRead(b: bv8, d: int)
    requires Sent(b, d)
    ensures Ham(b) == d && 0 <= d < 16
  {
    hide Ham;
    SentIsRead(b, d);
  }

  lemma Digits(m: int, tens: int, units: int)
    requires 0 <= tens < 16 && 0 <= units < 16
    ensures IsDec(m * 0x100 + tens * 16 + units) <==> tens <= 9 && units <= 9
  {
    var page := m * 0x100 + tens * 16 + units;
    assert page % 16 == units && page / 16 % 16 == tens;
  }

  /**
    A header opens the page that it names, with both subcode digits on decimal pages and the lower one on others.
    The page becomes blank exactly if C4 is set, its headline is what was sent, and no other page changes.
   */
  lemma HeaderOpensPage(s: Plain, row: seq<bv8>, m: int, tens: int, units: int, s1: int, s2: int, c4: bool,
                        s3: int, s4: int)
    requires WellFormed(s) && |row| == ROW_BYTES && HeaderSent(row, m, tens, units, s1, s2, c4, s3, s4)
    requires !(tens == 15 && units == 15)
    ensures var k := (m * 0x100 + tens * 16 + units, if tens <= 9 && units <= 9 then s2 * 16 + s1 else s1);
      var s' := Step(s, row);
      && s'.open == s.open[m := k] && k in s'.pages
      && (forall i :: 0 <= i < 920 ==>
            s'.pages[k].body[i] == if k in s.pages && !c4 then s.pages[k].body[i] else 0x20)
      && (forall i :: 0 <= i < 24 ==> s'.pages[k].headline[i] == Shown(row[10 + i]))
      && s'.pages[k].extra == (if k in s.pages then s.pages[k].extra else [])
      && (forall l :: l != k ==> (l in s'.pages <==> l in s.pages) && (l in s.pages ==> s'.pages[l] == s.pages[l]))
  {
    hide Ham;
    hide Deparity;
    hide Shown;
    hide HeaderSent;
    hide HeaderOk;
    hide HeaderKey;
    hide Erases;
    hide Headline;
    hide AddressOk;
    hide Magazine;
    hide PacketNumber;
    HeaderIsRead(row, m, tens, units, s1, s2, c4, s3, s4);
    HeadlineIsShown(row);
  }

  lemma HeadlineIsShown(row: seq<bv8>)
    requires |row| == ROW_BYTES
    ensures forall i :: 0 <= i < 24 ==> Headline(row)[i] == Shown(row[10 + i])
  {
    hide Deparity;
    hide Shown;
    forall i | 0 <= i < 24 ensures Headline(row)[i] == Shown(row[10 + i]) {
      ShownIsDeparity(row[10 + i]);
    }
  }

  /** A header with two bit errors in one of its numbers, or for page FF, ends what its magazine was receiving. */
  lemma HeaderCloses(s: Plain, row: seq<bv8>, m: int, i: nat, d: int)
    requires WellFormed(s) && |row| == ROW_BYTES && Addressed(row, m, 0)
    requires (2 <= i <= 7 && Spoiled(row[i], d)) || (Sent(row[2], 15) && Sent(row[3], 15))
    ensures Step(s, row) == s.(open := s.open - {m})
  {
    hide Ham;
    hide Sent;
    hide Spoiled;
    hide Addressed;
    hide AddressOk;
    hide Magazine;
    hide PacketNumber;
    AddressIsRead(row, m, 0);
    if 2 <= i <= 7 && Spoiled(row[i], d) {
      SpoiledIsRead(row[i], d);
    } else {
      DigitIsRead(row[2], 15);
      DigitIsRead(row[3], 15);
    }
  }

  /** Two bit errors in the address, a packet above 25, or a magazine that receives no page: nothing happens. */
  lemma PassedOver(s: Plain, row: seq<bv8>, m: int, n: int, d: int)
    requires WellFormed(s) && |row| == ROW_BYTES
    requires Spoiled(row[0], d) || Spoiled(row[1], d) || (Addressed(row, m, n) && n > 0 && (n > 25 || m !in s.open))
    ensures Step(s, row) == s
  {
    hide Ham;
    hide Spoiled;
    hide Addressed;
    hide Magazine;
    hide PacketNumber;
    hide Text;
    hide Header;
    if Spoiled(row[0], d) {
      SpoiledIsRead(row[0], d);
    } else if Spoiled(row[1], d) {
      SpoiledIsRead(row[1], d);
    } else {
      AddressIsRead(row, m, n);
    }
  }

  /** What is kept of a byte of text: a character, a decoded number on pages FE, the byte itself on other hex pages. */
  ghost predicate Kept(page: int, sent: bv8, kept: bv8) {
    var tens, units := page / 16 % 16, page % 16;
    if tens <= 9 && units <= 9 then kept == Shown(sent)
    else if tens == 15 && units == 14 then
      (forall d :: Sent(sent, d) ==> kept == Nibble(d)) && (forall d :: Spoiled(sent, d) ==> kept == 0xFF)
    else kept == sent
  }

  lemma PayloadIsKept(page: int, row: seq<bv8>)
    requires |row| == ROW_BYTES
    ensures forall i :: 0 <= i < 40 ==> Kept(page, row[2 + i], Payload(page, row)[i])
  {
    hide Sent;
    hide Spoiled;
    hide Shown;
    hide Nibble;
    hide Deparity;
    hide Dehamming;
    forall i | 0 <= i < 40 ensures Kept(page, row[2 + i], Payload(page, row)[i]) {
      var b := row[2 + i];
      ShownIsDeparity(b);
      NumberIsKept(b);
      PageKinds(page);
    }
  }

  lemma NumberIsKept(b: bv8)
    ensures forall d :: Sent(b, d) ==> Dehamming(b) == Nibble(d)
    ensures forall d :: Spoiled(b, d) ==> Dehamming(b) == 0xFF
  {
    hide OneError;
    hide TwoErrors;
    hide Dehamming;
    hide Nibble;
    forall d | 0 <= d < 16
      ensures (Sent(b, d) ==> Dehamming(b) == Nibble(d)) && (Spoiled(b, d) ==> Dehamming(b) == 0xFF)
    {
      ErrorsDecode(b, Nibble(d));
    }
  }

  lemma PageKinds(page: int)
    ensures IsDec(page) <==> page / 16 % 16 <= 9 && page % 16 <= 9
    ensures page % 0x100 == 0xFE <==> page / 16 % 16 == 15 && page % 16 == 14
  {
  }

  /**
    Packet n of an open page puts its forty bytes into row n of that page, or into row n - 24 of the two extra ones,
    which are zero before; all else stays.
   */
  lemma TextArrives(s: Plain, row: seq<bv8>, m: int, n: int)
    requires WellFormed(s) && |row| == ROW_BYTES && Addressed(row, m, n) && 1 <= n <= 25 && m in s.open
    ensures var k := s.open[m];
      var s' := Step(s, row);
      var p, p' := s.pages[k], s'.pages[k];
      && s'.open == s.open && s'.pages.Keys == s.pages.Keys
      && (forall l :: l in s.pages && l != k ==> s'.pages[l] == s.pages[l])
      && p'.headline == p.headline
      && (if n < 24 then p'.extra == p.extra else p'.body == p.body && |p'.extra| == 80)
      && (n < 24 ==> forall i :: 0 <= i < 920 ==>
            if 40 * (n - 1) <= i < 40 * n then Kept(k.0, row[2 + i - 40 * (n - 1)], p'.body[i])
            else p'.body[i] == p.body[i])
      && (n >= 24 ==> forall i :: 0 <= i < 80 ==>
            if 40 * (n - 24) <= i < 40 * (n - 23) then Kept(k.0, row[2 + i - 40 * (n - 24)], p'.extra[i])
            else p'.extra[i] == if p.extra == [] then 0 else p.extra[i])
  {
    hide Ham;
    hide Addressed;
    hide AddressOk;
    hide Magazine;
    hide PacketNumber;
    hide Payload;
    hide Kept;
    AddressIsRead(row, m, n);
    PayloadIsKept(s.open[m].0, row);
  }

  // ----- references to pages

  /** The magazine of a link, relative to that of its page: 0 where they are the same. */
  predicate Relative(m: int, target: int, relative: int) {
    1 <= m <= 8 && 1 <= target <= 8 && 0 <= relative < 8 && Nibble(relative) == Nibble(m % 8) ^ Nibble(target % 8)
  }

  /**
    Link i of packet 27/0 after section 9.6.1: page digits, then the subcode, with the relative magazine's bits above
    S2 and S4.
   */
  predicate LinkSent(row: seq<bv8>, i: nat, tens: int, units: int, relative: int, s2: int, s4: int)
    requires |row| == ROW_BYTES && i < 4
  {
    && Sent(row[3 + 6 * i], units) && Sent(row[4 + 6 * i], tens)
    && 0 <= s2 < 8 && 0 <= s4 < 4 && 0 <= relative < 8
    && Sent(row[6 + 6 * i], s2 + 8 * (relative % 2)) && Sent(row[8 + 6 * i], s4 + 4 * (relative / 2))
  }

  lemma LinkBits(relative: int, s2: int, s4: int)
    requires 0 <= relative < 8 && 0 <= s2 < 8 && 0 <= s4 < 4
    ensures Nibble(s2 + 8 * (relative % 2)) == ((Nibble(relative) & 1) << 3) | Nibble(s2)
    ensures Nibble(s4 + 4 * (relative / 2)) == ((Nibble(relative) & 6) << 1) | Nibble(s4)
    ensures Nibble(relative) < 8 && Nibble(s2) < 8 && Nibble(s4) < 4
  {
    LowBits(relative, s2);
    HighBits(relative, s4);
  }

  lemma LowBits(relative: int, s2: int)
    requires 0 <= relative < 8 && 0 <= s2 < 8
    ensures Nibble(s2 + 8 * (relative % 2)) == ((Nibble(relative) & 1) << 3) | Nibble(s2)
    ensures Nibble(relative) < 8 && Nibble(s2) < 8
  {
    match relative
    case 0 => case 1 => case 2 => case 3 => case 4 => case 5 => case 6 => case _ =>
  }

  lemma HighBits(relative: int, s4: int)
    requires 0 <= relative < 8 && 0 <= s4 < 4
    ensures Nibble(s4 + 4 * (relative / 2)) == ((Nibble(relative) & 6) << 1) | Nibble(s4)
    ensures Nibble(s4) < 4
  {
    match relative
    case 0 => case 1 => case 2 => case 3 => case 4 => case 5 => case 6 => case _ =>
  }

  /** The magazine number that goes with three bits. */
  lemma MagazineBits(m: int)
    requires 1 <= m <= 8
    ensures Nibble(m % 8) < 8 && TopTable.Magazine(Nibble(m % 8)) == m
    ensures Nibble(m % 8 + 8) & 7 == Nibble(m % 8)
  {
    match m
    case 1 => case 2 => case 3 => case 4 => case 5 => case 6 => case 7 => case _ =>
  }

  /** A decimal link that was sent is stored as its page. */
  lemma LinkArrives(row: seq<bv8>, links: seq<int>, i: nat, m: int, target: int, relative: int, tens: int, units: int,
                    s2: int, s4: int)
    requires |row| == ROW_BYTES && |links| == 4 && i < 4
    requires Addressed(row, m, 27) && Relative(m, target, relative)
    requires LinkSent(row, i, tens, units, relative, s2, s4) && tens <= 9 && units <= 9
    ensures TopTable.LinksAfter(row, links)[i] == target * 0x100 + tens * 16 + units
  {
    hide OneError;
    hide Ham;
    hide Dehamming;
    hide Nibble;
    hide TopTable.Magazine;
    hide TopTable.LinkMagazine;
    SentIsRead(row[0], m % 8 + 8);
    SentIsRead(row[3 + 6 * i], units);
    SentIsRead(row[4 + 6 * i], tens);
    SentIsRead(row[6 + 6 * i], s2 + 8 * (relative % 2));
    SentIsRead(row[8 + 6 * i], s4 + 4 * (relative / 2));
    LinkBits(relative, s2, s4);
    MagazineBits(m);
    MagazineBits(target);
    TopTable.LinkIsRead(Nibble(m % 8), Nibble(target % 8), Nibble(s2), Nibble(s4));
    TopTable.LinkIs(row, links, i);
  }

  /** An entry of the basic TOP table: a number, or 0 where the byte is a space. */
  lemma EntryIsRead(b: bv8, d: int)
    ensures Sent(b, d) ==> TopTable.Entry(b) == d
    ensures TopTable.Entry(0x20) == 0
    ensures Spoiled(b, d) && b != 0x20 ==> TopTable.Entry(b) == 0xFF
  {
    hide OneError;
    hide TwoErrors;
    hide Ham;
    SpaceIsNoNumber();
    if Sent(b, d) {
      SentIsRead(b, d);
    }
    if Spoiled(b, d) {
      SpoiledIsRead(b, d);
    }
  }

  lemma SpaceIsNoNumber()
    ensures Ham(0x20) == 0xFF
  {
  }

  /** A link of the table behind the basic TOP table, type 2 and undamaged, is collected as its three digits. */
  lemma TopLinkIsRead(btt: seq<bv8>, j: nat, d1: int, d2: int, d3: int)
    requires |btt| == 920 && j < 10 && d1 <= 13
    requires Sent(btt[800 + 8 * j], d1) && Sent(btt[801 + 8 * j], d2) && Sent(btt[802 + 8 * j], d3)
    requires Sent(btt[807 + 8 * j], 2)
    ensures var pages := TopTable.LinksFrom(btt, j).pages;
      pages != [] && pages[0] == d1 * 0x100 + d2 * 0x10 + d3
  {
    hide OneError;
    hide Ham;
    hide Nibble;
    DigitIsRead(btt[800 + 8 * j], d1);
    DigitIsRead(btt[801 + 8 * j], d2);
    DigitIsRead(btt[802 + 8 * j], d3);
    DigitIsRead(btt[807 + 8 * j], 2);
  }

  /** The end mark F, an unused link E, and a link of another type. */
  lemma TopLinkIsSkipped(btt: seq<bv8>, j: nat, d: int, kind: int)
    requires |btt| == 920 && j < 10 && Sent(btt[800 + 8 * j], d)
    ensures d == 15 ==> TopTable.LinksFrom(btt, j) == TopTable.Links([], true)
    ensures d == 14 || (d < 14 && kind != 2 && Sent(btt[807 + 8 * j], kind)) ==>
      TopTable.LinksFrom(btt, j) == TopTable.LinksFrom(btt, j + 1)
  {
    hide OneError;
    hide Ham;
    hide Nibble;
    DigitIsRead(btt[800 + 8 * j], d);
    if Sent(btt[807 + 8 * j], kind) {
      DigitIsRead(btt[807 + 8 * j], kind);
    }
  }

  // ----- PES lines

  /**
    A data unit of EN 300 472: EBU teletext with or without subtitles, 44 bytes long, two bytes about the line and its
    framing code, then the row with the bits of every byte in the order of transmission.
   */
  ghost predicate LineSent(line: seq<bv8>, row: seq<bv8>) {
    && |line| == 46 && |row| == 42
    && (line[0] == 0x02 || line[0] == 0x03) && line[1] == 0x2C
    && forall i, k: bv3 :: 0 <= i < 42 ==> Bit(line[4 + i], 7 - k) == Bit(row[i], k)
  }

  /** A data unit of another kind or length. */
  predicate OtherUnit(line: seq<bv8>) {
    |line| == 46 && !((line[0] == 0x02 || line[0] == 0x03) && line[1] == 0x2C)
  }

  lemma BitsDecide(b: bv8, c: bv8)
    requires forall k: bv3 :: Bit(b, k) == Bit(c, k)
    ensures b == c
  {
    assert Bit(b, 0) == Bit(c, 0) && Bit(b, 1) == Bit(c, 1) && Bit(b, 2) == Bit(c, 2) && Bit(b, 3) == Bit(c, 3);
    assert Bit(b, 4) == Bit(c, 4) && Bit(b, 5) == Bit(c, 5) && Bit(b, 6) == Bit(c, 6) && Bit(b, 7) == Bit(c, 7);
  }

  lemma MirrorIsRead(sent: bv8, b: bv8)
    requires forall k: bv3 :: Bit(sent, 7 - k) == Bit(b, k)
    ensures Reversed(sent) == b
  {
    hide Bit;
    hide Reversed;
    forall k: bv3 ensures Bit(Reversed(sent), k) == Bit(b, k) {
      ReversedMirrors(sent, k);
    }
    BitsDecide(Reversed(sent), b);
  }

  lemma LineIsRead(line: seq<bv8>, row: seq<bv8>)
    requires LineSent(line, row)
    ensures |line| == 46 && IsTeletext(line) && RowOf(line) == row
  {
    hide Bit;
    hide Reversed;
    forall i | 0 <= i < 42 ensures RowOf(line)[i] == row[i] {
      MirrorIsRead(line[4 + i], row[i]);
    }
  }

  /** The lines of a PES packet and the rows among them. */
  ghost predicate Carry(lines: seq<seq<bv8>>, rows: seq<seq<bv8>>)
    decreases |lines|
  {
    if lines == [] then rows == []
    else
      var front, line := lines[..|lines| - 1], lines[|lines| - 1];
      || (OtherUnit(line) && Carry(front, rows))
      || (rows != [] && LineSent(line, rows[|rows| - 1]) && Carry(front, rows[..|rows| - 1]))
  }

  /** The rows that a PES packet carries are found, in order, between data units of other kinds. */
  lemma {:induction false} PesIsRead(lines: seq<seq<bv8>>, rows: seq<seq<bv8>>)
    requires Carry(lines, rows)
    ensures |Concat(lines)| == 46 * |lines| && RowsOf(Concat(lines), |lines|) == rows
    decreases |lines|
  {
    hide LineSent;
    hide RowOf;
    if lines != [] {
      var front, line := lines[..|lines| - 1], lines[|lines| - 1];
      if OtherUnit(line) && Carry(front, rows) {
        PesIsRead(front, rows);
        LastLine(front, line);
      } else {
        var last := rows[|rows| - 1];
        PesIsRead(front, rows[..|rows| - 1]);
        LineIsRead(line, last);
        LastLine(front, line);
        assert rows == rows[..|rows| - 1] + [last];
      }
      assert lines == front + [line];
    }
  }

  lemma LastLine(front: seq<seq<bv8>>, line: seq<bv8>)
    requires |line| == 46 && |Concat(front)| == 46 * |front|
    ensures Concat(front + [line]) == Concat(front) + line
    ensures RowsOf(Concat(front) + line, |front| + 1)
      == RowsOf(Concat(front), |front|) + if IsTeletext(line) then [RowOf(line)] else []
  {
    hide RowOf;
    hide IsTeletext;
    hide RowsOf;
    assert (front + [line])[..|front|] == front;
    var c := Concat(front);
    NextRow(c, line, |front|);
    SameFront(c, c + line, |front|);
  }

  lemma NextRow(d: seq<bv8>, line: seq<bv8>, n: nat)
    requires |line| == 46 && |d| == 46 * n
    ensures RowsOf(d + line, n + 1) == RowsOf(d + line, n) + if IsTeletext(line) then [RowOf(line)] else []
  {
    hide RowOf;
    hide IsTeletext;
    assert (d + line)[n * LINE_BYTES..(n + 1) * LINE_BYTES] == line;
  }

  lemma {:induction false} SameFront(d: seq<bv8>, e: seq<bv8>, n: nat)
    requires 46 * n <= |d| && d <= e
    ensures RowsOf(d, n) == RowsOf(e, n)
  {
    hide RowOf;
    hide IsTeletext;
    if n > 0 {
      SameFront(d, e, n - 1);
      assert d[46 * (n - 1)..46 * n] == e[46 * (n - 1)..46 * n];
    }
  }
}
