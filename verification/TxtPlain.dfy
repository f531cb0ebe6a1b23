/**
  What the teletext decoder is for, said without a cache: a map from page and subpage number to the rows
  last received for it, and for each magazine the page that is being received.
 */
module TxtPlain {
  import opened PageCodec
  import opened TxtTables


  /** Page number and subpage number. */
  type Key = (int, int)

  /** Packets 1..23, the centre of the headline, and packets 24 and 25 ([] until one is received). */
  datatype PlainPage = PlainPage(body: seq<bv8>, headline: seq<bv8>, extra: seq<bv8>)

  datatype Plain = Plain(open: map<int, Key>, pages: map<Key, PlainPage>)

  /** calloc(2, 40) */
  function EmptyExtra(): seq<bv8> { seq(EXTRA_BYTES, _ => 0) }

  function EmptyHeadline(): seq<bv8> { seq(HEADLINE_BYTES, _ => SPACE) }

  const EMPTY_PAGE := PlainPage(Blank(), EmptyHeadline(), [])
  const NOTHING := Plain(map[], map[])

  // ----- reading a row

  function Magazine(row: seq<bv8>): int
    requires |row| == ROW_BYTES
  {
    if Ham(row[0]) % 8 == 0 then 8 else Ham(row[0]) % 8
  }

  function PacketNumber(row: seq<bv8>): int
    requires |row| == ROW_BYTES
  {
    Ham(row[0]) / 8 % 2 + 2 * Ham(row[1])
  }

  predicate AddressOk(row: seq<bv8>)
    requires |row| == ROW_BYTES
  {
    Ham(row[0]) != 0xFF && Ham(row[1]) != 0xFF
  }

  /** A header that names a page: no bit error in its numbers, and not page FF. */
  predicate HeaderOk(row: seq<bv8>)
    requires |row| == ROW_BYTES
  {
    && Ham(row[2]) != 0xFF && Ham(row[3]) != 0xFF
    && !(Ham(row[2]) == 0xF && Ham(row[3]) == 0xF)
    && Ham(row[4]) != 0xFF && Ham(row[5]) != 0xFF && Ham(row[6]) != 0xFF && Ham(row[7]) != 0xFF
  }

  function HeaderPage(row: seq<bv8>): int
    requires |row| == ROW_BYTES
  {
    Magazine(row) * 0x100 + Ham(row[3]) * 16 + Ham(row[2])
  }

  /** The named page: hex pages have 16 subpages, decimal ones 128. */
  function HeaderKey(row: seq<bv8>): Key
    requires |row| == ROW_BYTES
  {
    (HeaderPage(row), if IsDec(HeaderPage(row)) then Ham(row[5]) % 8 * 16 + Ham(row[4]) else Ham(row[4]))
  }

  /** Control bit C4. */
  predicate Erases(row: seq<bv8>)
    requires |row| == ROW_BYTES
  {
    Ham(row[5]) / 8 % 2 == 1
  }

  function Headline(row: seq<bv8>): (h: seq<bv8>)
    requires |row| == ROW_BYTES
    ensures |h| == HEADLINE_BYTES
  {
    seq(HEADLINE_BYTES, i requires 0 <= i < HEADLINE_BYTES => Deparity(row[10 + i]))
  }

  /** The 40 bytes a text packet stores: parity checked on decimal pages, Hamming decoded on pages FE, raw otherwise. */
  function Payload(page: int, row: seq<bv8>): (p: seq<bv8>)
    requires |row| == ROW_BYTES
    ensures |p| == 40
  {
    seq(40, i requires 0 <= i < 40 =>
      if IsDec(page) then Deparity(row[2 + i])
      else if page % 0x100 == 0xFE then Dehamming(row[2 + i])
      else row[2 + i])
  }

  function Overwrite(s: seq<bv8>, at: nat, part: seq<bv8>): (r: seq<bv8>)
    requires at + |part| <= |s|
    ensures |r| == |s|
  {
    s[..at] + part + s[at + |part|..]
  }

  // ----- the meaning of a packet

  function Header(s: Plain, row: seq<bv8>): Plain
    requires |row| == ROW_BYTES
  {
    var m := Magazine(row);
    if !HeaderOk(row) then s.(open := s.open - {m})
    else
      var key := HeaderKey(row);
      var page := if key in s.pages then s.pages[key] else EMPTY_PAGE;
      var body := if Erases(row) then Blank() else page.body;
      Plain(s.open[m := key], s.pages[key := page.(body := body, headline := Headline(row))])
  }

  function Text(s: Plain, row: seq<bv8>): Plain
    requires |row| == ROW_BYTES && WellFormed(s) && Magazine(row) in s.open && 1 <= PacketNumber(row) <= 25
  {
    var key := s.open[Magazine(row)];
    var page := s.pages[key];
    var n := PacketNumber(row);
    var payload := Payload(key.0, row);
    if n < 24 then s.(pages := s.pages[key := page.(body := Overwrite(page.body, 40 * (n - 1), payload))])
    else
      var extra := if page.extra == [] then EmptyExtra() else page.extra;
      s.(pages := s.pages[key := page.(extra := Overwrite(extra, 40 * (n - 24), payload))])
  }

  predicate WellFormed(s: Plain) {
    && (forall m :: m in s.open ==> s.open[m] in s.pages)
    && (forall k :: k in s.pages ==>
      |s.pages[k].body| == PAGE_BYTES && |s.pages[k].headline| == HEADLINE_BYTES
      && (s.pages[k].extra == [] || |s.pages[k].extra| == EXTRA_BYTES))
  }

  /** One packet. Packets 26 to 31 leave the text alone. */
  function Step(s: Plain, row: seq<bv8>): (s': Plain)
    requires |row| == ROW_BYTES && WellFormed(s)
    ensures WellFormed(s')
  {
    if !AddressOk(row) then s
    else if PacketNumber(row) == 0 then Header(s, row)
    else if PacketNumber(row) <= 25 && Magazine(row) in s.open then Text(s, row)
    else s
  }

  predicate IsRows(rows: seq<seq<bv8>>) {
    forall i :: 0 <= i < |rows| ==> |rows[i]| == ROW_BYTES
  }

  /** A whole packet sequence. */
  function Replay(s: Plain, rows: seq<seq<bv8>>): (s': Plain)
    requires IsRows(rows) && WellFormed(s)
    ensures WellFormed(s')
  {
    if rows == [] then s else Step(Replay(s, rows[..|rows| - 1]), rows[|rows| - 1])
  }
}
