/**
  Where pages refer to other pages: the basic TOP table of page 1F0, and the FLOF links of packet 27.
 */
module TopTable {
  import opened Basics
  import opened TxtTables
  import opened PageWalk

  // ----- the basic TOP table

  const BLANK: bv8 := 0x20

  /** What decode_btt makes of one byte of the table; 0xFF is a bit error. */
  function Entry(b: bv8): int {
    if b == BLANK then 0 else Ham(b)
  }

  /** The first byte with a bit error, 800 if there is none. */
  function FirstError(btt: seq<bv8>, n: nat): (k: nat)
    requires |btt| == 920 && n <= 800
    ensures n <= k <= 800
    ensures forall j :: n <= j < k ==> Entry(btt[j]) != 0xFF
    ensures k < 800 ==> Entry(btt[k]) == 0xFF
    decreases 800 - n
  {
    if n == 800 || Entry(btt[n]) == 0xFF then n else FirstError(btt, n + 1)
  }

  datatype Links = Links(pages: seq<int>, ok: bool)

  /** The page linking table behind it: the pages with additional information, up to an end mark or an error. */
  function LinksFrom(btt: seq<bv8>, i: nat): Links
    requires |btt| == 920 && i <= 10
    decreases 10 - i
  {
    if i == 10 then Links([], true)
    else
      var at := 800 + 8 * i;
      var b1, b2, b3 := Ham(btt[at]), Ham(btt[at + 1]), Ham(btt[at + 2]);
      if b1 == 0xE then LinksFrom(btt, i + 1)
      else if b1 == 0xF then Links([], true)
      else if Ham(btt[at + 7]) != 2 then LinksFrom(btt, i + 1)
      else if b1 == 0xFF || b2 == 0xFF || b3 == 0xFF then Links([], false)
      else
        var more := LinksFrom(btt, i + 1);
        Links([b1 * 256 + b2 * 16 + b3] + more.pages, more.ok)
  }

  class BasicTop {
    const basictop: array<int>
    var adippg: seq<int>
    var bttok: bool

    ghost predicate Valid() {
      basictop.Length == 0x900
    }

    constructor ()
      ensures Valid() && fresh(basictop) && adippg == [] && !bttok
      ensures forall i :: 0 <= i < 0x900 ==> basictop[i] == 0
    {
      basictop := new int[0x900](_ => 0);
      adippg, bttok := [], false;
    }

    /**
      tuxtxt_decode_btt on page 1F0, None if it is not in the cache: every decimal page gets its own byte, up to the
      first bit error, and no other entry changes.
     */
    method DecodeBtt(page: Option<seq<bv8>>)
      requires Valid() && (page.Some? ==> |page.value| == 920)
      modifies this, basictop
      ensures page.None? ==> basictop[..] == old(basictop[..]) && adippg == old(adippg) && bttok == old(bttok)
      ensures page.Some? ==>
        var btt := page.value;
        var k := if btt[799] == BLANK then 0 else FirstError(btt, 0);
        && (forall n :: 0 <= n < k ==> basictop[PageOf(n)] == Entry(btt[n]))
        && (forall i :: 0 <= i < 0x900 && !(Decimal(i) && NumberOf(i) < k) ==> basictop[i] == old(basictop[i]))
        && (k < 800 ==> adippg == old(adippg) && bttok == old(bttok))
        && (k == 800 ==> adippg == LinksFrom(btt, 0).pages && bttok == (old(bttok) || LinksFrom(btt, 0).ok))
    {
      hide PageOf;
      hide NumberOf;
      hide Decimal;
      hide Ham;
      if page.None? {
        return;
      }
      var btt := page.value;
      if btt[799] == BLANK {
        return;
      }
      var whole := DecodeEntries(btt);
      if whole {
        DecodeLinks(btt);
      }
    }

    method DecodeEntries(btt: seq<bv8>) returns (whole: bool)
      requires Valid() && |btt| == 920
      modifies basictop
      ensures var k := FirstError(btt, 0);
        && (forall n :: 0 <= n < k ==> basictop[PageOf(n)] == Entry(btt[n]))
        && (forall i :: 0 <= i < 0x900 && !(Decimal(i) && NumberOf(i) < k) ==> basictop[i] == old(basictop[i]))
        && whole == (k == 800)
    {
      hide PageOf;
      hide NumberOf;
      hide Decimal;
      hide Ham;
      hide FirstError;
      Hundred();
      NumberIs(1, 0, 0, 0);
      var current, i := 0x100, 0;
      while i < 800
        invariant 0 <= i <= 800
        invariant FirstError(btt, 0) == FirstError(btt, i)
        invariant i < 800 ==> current == PageOf(i)
        invariant forall n :: 0 <= n < i ==> basictop[PageOf(n)] == Entry(btt[n])
        invariant forall j :: 0 <= j < 0x900 && !(Decimal(j) && NumberOf(j) < i) ==> basictop[j] == old(basictop[j])
      {
        NextError(btt, i);
        PagesAreNumbered(i);
        OtherPages(i);
        var b1 := 0;
        if btt[i] != BLANK {
          b1 := Ham(btt[i]);
          if b1 == 0xFF {
            return false;
          }
        }
        basictop[current] := b1;
        current := NextDec(current);
        i := i + 1;
      }
      NextError(btt, 800);
      whole := true;
    }

    method DecodeLinks(btt: seq<bv8>)
      requires Valid() && |btt| == 920
      modifies this
      ensures adippg == LinksFrom(btt, 0).pages && bttok == (old(bttok) || LinksFrom(btt, 0).ok)
    {
      hide Ham;
      hide LinksFrom;
      var pages: seq<int> := [];
      var i := 0;
      var ok := true;
      while i < 10
        modifies {}
        invariant 0 <= i <= 10 && ok
        invariant LinksFrom(btt, 0) == Links(pages + LinksFrom(btt, i).pages, LinksFrom(btt, i).ok)
      {
        LinksAt(btt, i, pages);
        var b1 := Ham(btt[800 + 8 * i]);
        if b1 == 0xE {
          i := i + 1;
          continue;
        } else if b1 == 0xF {
          break;
        }
        var b4 := Ham(btt[800 + 8 * i + 7]);
        if b4 != 2 {
          i := i + 1;
          continue;
        }
        var b2, b3 := Ham(btt[800 + 8 * i + 1]), Ham(btt[800 + 8 * i + 2]);
        if b1 == 0xFF || b2 == 0xFF || b3 == 0xFF {
          ok := false;
          break;
        }
        pages := pages + [b1 * 256 + b2 * 16 + b3];
        i := i + 1;
      }
      LinksEnd(btt, pages);
      adippg := pages;
      if ok {
        bttok := true;
      }
    }
  }

  lemma LinksEnd(btt: seq<bv8>, pages: seq<int>)
    requires |btt| == 920
    ensures LinksFrom(btt, 10) == Links([], true) && pages + [] == pages
  {
  }

  lemma LinksAt(btt: seq<bv8>, i: nat, pages: seq<int>)
    requires |btt| == 920 && i < 10
    ensures var at := 800 + 8 * i;
      var b1, b2, b3 := Ham(btt[at]), Ham(btt[at + 1]), Ham(btt[at + 2]);
      var links := LinksFrom(btt, i);
      if b1 == 0xE then links == LinksFrom(btt, i + 1)
      else if b1 == 0xF then links == Links([], true)
      else if Ham(btt[at + 7]) != 2 then links == LinksFrom(btt, i + 1)
      else if b1 == 0xFF || b2 == 0xFF || b3 == 0xFF then links == Links([], false)
      else
        && links.ok == LinksFrom(btt, i + 1).ok
        && pages + links.pages == (pages + [b1 * 256 + b2 * 16 + b3]) + LinksFrom(btt, i + 1).pages
  {
    hide Ham;
    var at := 800 + 8 * i;
    var page := Ham(btt[at]) * 256 + Ham(btt[at + 1]) * 16 + Ham(btt[at + 2]);
    var more := LinksFrom(btt, i + 1).pages;
    assert pages + ([page] + more) == (pages + [page]) + more;
  }

  /** Link j names a page with additional information. */
  predicate IsLink(btt: seq<bv8>, j: nat)
    requires |btt| == 920 && j < 10
  {
    Ham(btt[800 + 8 * j]) != 0xE && Ham(btt[800 + 8 * j]) != 0xF && Ham(btt[800 + 8 * j + 7]) == 2
  }

  /** Reading ends at link j: it is the end mark, or its page number is damaged. */
  predicate Stops(btt: seq<bv8>, j: nat)
    requires |btt| == 920 && j < 10
  {
    var at := 800 + 8 * j;
    || Ham(btt[at]) == 0xF
    || (IsLink(btt, j) && (Ham(btt[at]) == 0xFF || Ham(btt[at + 1]) == 0xFF || Ham(btt[at + 2]) == 0xFF))
  }

  /** Link j is collected by a reader that starts at link i. */
  predicate Collected(btt: seq<bv8>, i: nat, j: nat)
    requires |btt| == 920 && i <= j < 10
  {
    IsLink(btt, j) && forall k :: i <= k <= j ==> !Stops(btt, k)
  }

  /** The first digit of every collected link is at most 8. */
  predicate LowDigits(btt: seq<bv8>, i: nat)
    requires |btt| == 920 && i <= 10
  {
    forall j :: i <= j < 10 && Collected(btt, i, j) ==> Ham(btt[800 + 8 * j]) <= 8
  }

  predicate AllBelow(pages: seq<int>, bound: int) {
    forall n :: 0 <= n < |pages| ==> 0 <= pages[n] < bound
  }

  /**
    The numbers collected fit the table of ten. They are page numbers of the cache, whose tables end at 8FF, exactly
    if the first digit of every collected link is at most 8; the code takes digits up to D.
   */
  lemma {:induction false} LinksInBounds(btt: seq<bv8>, i: nat)
    requires |btt| == 920 && i <= 10
    ensures var pages := LinksFrom(btt, i).pages;
      |pages| <= 10 - i && AllBelow(pages, 0xE00) && (AllBelow(pages, 0x900) <==> LowDigits(btt, i))
    decreases 10 - i
  {
    hide Ham;
    hide Collected;
    hide IsLink;
    hide Stops;
    hide LinksFrom;
    hide LowDigits;
    LinksEnd(btt, []);
    if i == 10 {
      LowNext(btt, 10);
    } else {
      LinksInBounds(btt, i + 1);
      LowNext(btt, i);
      LinkDigits(btt, i);
      PagesNext(btt, i);
      if IsLink(btt, i) && !Stops(btt, i) {
        var page := LinksFrom(btt, i).pages[0];
        OneMoreBelow(page, LinksFrom(btt, i + 1).pages, 0x900);
        OneMoreBelow(page, LinksFrom(btt, i + 1).pages, 0xE00);
      }
    }
  }

  lemma OneMoreBelow(page: int, more: seq<int>, bound: int)
    ensures AllBelow([page] + more, bound) <==> 0 <= page < bound && AllBelow(more, bound)
  {
    var pages := [page] + more;
    assert pages[0] == page;
    assert forall n :: 0 <= n < |more| ==> more[n] == pages[n + 1];
  }

  lemma LowNext(btt: seq<bv8>, i: nat)
    requires |btt| == 920 && i <= 10
    ensures i == 10 ==> LowDigits(btt, i)
    ensures i < 10 ==>
      (LowDigits(btt, i) <==>
        Stops(btt, i) || (LowDigits(btt, i + 1) && (IsLink(btt, i) ==> Ham(btt[800 + 8 * i]) <= 8)))
  {
    hide Ham;
    hide IsLink;
    hide Stops;
    hide Collected;
    if i < 10 {
      CollectedNext(btt, i);
      if LowDigits(btt, i) && !Stops(btt, i) {
        forall j | i + 1 <= j < 10 && Collected(btt, i + 1, j) ensures Ham(btt[800 + 8 * j]) <= 8 {
          assert Collected(btt, i, j);
        }
      }
    }
  }

  lemma PagesNext(btt: seq<bv8>, i: nat)
    requires |btt| == 920 && i < 10
    ensures var at := 800 + 8 * i;
      LinksFrom(btt, i).pages ==
        if Stops(btt, i) then []
        else if !IsLink(btt, i) then LinksFrom(btt, i + 1).pages
        else [Ham(btt[at]) * 256 + Ham(btt[at + 1]) * 16 + Ham(btt[at + 2])] + LinksFrom(btt, i + 1).pages
  {
    hide Ham;
  }

  lemma CollectedNext(btt: seq<bv8>, i: nat)
    requires |btt| == 920 && i < 10
    ensures Collected(btt, i, i) <==> IsLink(btt, i) && !Stops(btt, i)
    ensures forall j :: i < j < 10 ==> (Collected(btt, i, j) <==> !Stops(btt, i) && Collected(btt, i + 1, j))
  {
    hide Ham;
    hide IsLink;
    hide Stops;
  }

  lemma LinkDigits(btt: seq<bv8>, i: nat)
    requires |btt| == 920 && i < 10
    ensures var at := 800 + 8 * i;
      var b1, b2, b3 := Ham(btt[at]), Ham(btt[at + 1]), Ham(btt[at + 2]);
      IsLink(btt, i) && !Stops(btt, i) ==>
        0 <= b1 <= 0xD && 0 <= b2 <= 0xF && 0 <= b3 <= 0xF && (b1 * 256 + b2 * 16 + b3 < 0x900 <==> b1 <= 8)
  {
    hide Ham;
  }

  /** An undamaged link whose first digit is 9 to D is collected as a page that does not exist. */
  lemma LinkBeyond(btt: seq<bv8>, d: bv8)
    requires |btt| == 920 && 9 <= d <= 0xD
    requires btt[800] == Encode84(d) && btt[801] == btt[802] == Encode84(0) && btt[807] == Encode84(2)
    ensures LinksFrom(btt, 0).pages != [] && LinksFrom(btt, 0).pages[0] >= 0x900
  {
    Undamaged(d);
    Undamaged(0);
    Undamaged(2);
    hide Dehamming;
    hide Encode84;
  }

  lemma Undamaged(d: bv8)
    requires d < 16
    ensures Dehamming(Encode84(d)) == d
  {
    assert AtMostOne(0);
    DehammingCorrects(0, d);
    assert Encode84(d) ^ 0 == Encode84(d);
  }

  lemma NextError(btt: seq<bv8>, i: nat)
    requires |btt| == 920 && i <= 800
    ensures FirstError(btt, i) == if i == 800 || Entry(btt[i]) == 0xFF then i else FirstError(btt, i + 1)
  {
    hide Entry;
  }

  lemma OtherPages(i: nat)
    requires i < 800
    ensures PageOf(i) < 0x900
    ensures forall n :: 0 <= n < 800 && n != i ==> PageOf(n) != PageOf(i)
    ensures forall j :: Decimal(j) && NumberOf(j) == i ==> j == PageOf(i)
  {
    hide PageOf;
    hide NumberOf;
    PagesAreNumbered(i);
    forall n | 0 <= n < 800 && n != i ensures PageOf(n) != PageOf(i) {
      PagesAreNumbered(n);
    }
    forall j | Decimal(j) && NumberOf(j) == i ensures j == PageOf(i) {
      NumbersArePages(j);
    }
  }

  // ----- FLOF links

  const FLOFSIZE := 4

  /** The magazine that a link names: relative to the page's own, three bits spread over two bytes. */
  function LinkMagazine(own: bv8, d6: bv8, d8: bv8): (b: bv8)
    ensures b < 8
  {
    ((own ^ (d8 >> 1)) & 6) | ((own ^ (d6 >> 3)) & 1)
  }

  /** As a number: magazine 8 is sent as 0. */
  function Magazine(b: bv8): (m: nat)
    requires b < 8
    ensures 1 <= m <= 8
  {
    match b
    case 1 => 1
    case 2 => 2
    case 3 => 3
    case 4 => 4
    case 5 => 5
    case 6 => 6
    case 7 => 7
    case _ => 8
  }

  /** A link coded after section 9.6.1 of ETS 300 706 names its page's magazine, whatever subcode comes along. */
  lemma LinkIsRead(own: bv8, target: bv8, s2: bv8, s4: bv8)
    requires own < 8 && target < 8 && s2 < 8 && s4 < 4
    ensures var relative := own ^ target;
      LinkMagazine(own, ((relative & 1) << 3) | s2, ((relative & 6) << 1) | s4) == target
  {
  }

  /**
    The two bytes with the magazine are not examined for bit errors: an uncorrectable one counts as 0xFF, and the
    link comes out right exactly if its relative magazine has all the bits that the byte stands for.
   */
  lemma DamagedMagazine(own: bv8, target: bv8, s2: bv8, s4: bv8)
    requires own < 8 && target < 8 && s2 < 8 && s4 < 4
    ensures var relative := own ^ target;
      && (LinkMagazine(own, 0xFF, ((relative & 6) << 1) | s4) == target <==> relative & 1 == 1)
      && (LinkMagazine(own, ((relative & 1) << 3) | s2, 0xFF) == target <==> relative & 6 == 6)
      && (LinkMagazine(own, 0xFF, 0xFF) == target <==> relative == 7)
  {
  }

  /** 0, or a decimal page that a user can call up. */
  predicate LinkValid(link: int) {
    link == 0 || Decimal(link)
  }

  lemma LinkIsDecimal(m: nat, b2: int, b3: int)
    requires 1 <= m <= 8 && 0 <= b2 <= 9 && 0 <= b3 <= 9
    ensures Decimal(m * 256 + b2 * 16 + b3)
  {
    DigitsAre(m, b2, b3);
  }

  /** A link of the page after packet 27/0. */
  function LinkAfter(row: seq<bv8>, i: nat, before: int): (link: int)
    requires |row| == ROW_BYTES && i < FLOFSIZE
    ensures LinkValid(before) ==> LinkValid(link)
  {
    var b2, b3 := Ham(row[4 + i * 6]), Ham(row[3 + i * 6]);
    if Dehamming(row[0]) != 0xFF && b2 <= 9 && b3 <= 9 then
      var m := Magazine(LinkMagazine(Dehamming(row[0]) & 7, Dehamming(row[6 + i * 6]), Dehamming(row[8 + i * 6])));
      LinkIsDecimal(m, b2, b3);
      m * 256 + b2 * 16 + b3
    else before
  }

  function LinksAfter(row: seq<bv8>, links: seq<int>): (r: seq<int>)
    requires |row| == ROW_BYTES && |links| == FLOFSIZE
    ensures |r| == FLOFSIZE && forall i :: 0 <= i < FLOFSIZE ==> r[i] == LinkAfter(row, i, links[i])
  {
    seq(FLOFSIZE, i requires 0 <= i < FLOFSIZE => LinkAfter(row, i, links[i]))
  }

  lemma LinkIs(row: seq<bv8>, links: seq<int>, i: nat)
    requires |row| == ROW_BYTES && |links| == FLOFSIZE && i < FLOFSIZE
    ensures var b2, b3 := Ham(row[4 + i * 6]), Ham(row[3 + i * 6]);
      var b4 := LinkMagazine(Dehamming(row[0]) & 7, Dehamming(row[6 + i * 6]), Dehamming(row[8 + i * 6]));
      LinksAfter(row, links)[i] ==
        if Dehamming(row[0]) != 0xFF && b2 <= 9 && b3 <= 9 then Magazine(b4) * 256 + b2 * 16 + b3 else links[i]
  {
    hide Ham;
    hide Dehamming;
    hide LinkMagazine;
    hide Magazine;
  }

  /** The link table of all pages. */
  predicate SoundLinks(table: seq<seq<int>>) {
    forall p :: 0 <= p < |table| ==> |table[p]| == FLOFSIZE && forall i :: 0 <= i < FLOFSIZE ==> LinkValid(table[p][i])
  }

  lemma LinksStaySound(table: seq<seq<int>>, p: nat, row: seq<bv8>)
    requires SoundLinks(table) && p < |table| && |row| == ROW_BYTES
    ensures |table[p]| == FLOFSIZE && SoundLinks(table[p := LinksAfter(row, table[p])])
  {
    hide LinkValid;
    hide LinkAfter;
  }

  /**
    The links of one page as packet 27/0 changes them: a link stays as it was exactly if byte 0 or one of its two
    digits is damaged, or a digit is not decimal. Errors in the bytes with the magazine go unnoticed.
   */
  method DecodeFlof(row: seq<bv8>, links: seq<int>) returns (links': seq<int>)
    requires |row| == ROW_BYTES && |links| == FLOFSIZE
    ensures links' == LinksAfter(row, links)
  {
    hide Dehamming;
    hide Ham;
    hide LinkMagazine;
    hide Magazine;
    links' := links;
    var own := Dehamming(row[0]);
    if own == 0xFF {
      return;
    }
    own := own & 7;
    var i := 0;
    while i < FLOFSIZE
      invariant 0 <= i <= FLOFSIZE && |links'| == FLOFSIZE
      invariant forall j :: i <= j < FLOFSIZE ==> links'[j] == links[j]
      invariant forall j :: 0 <= j < i ==> links'[j] == LinkAfter(row, j, links[j])
    {
      var b2, b3 := Ham(row[4 + i * 6]), Ham(row[3 + i * 6]);
      if b2 != 0xFF && b3 != 0xFF {
        var b4 := LinkMagazine(own, Dehamming(row[6 + i * 6]), Dehamming(row[8 + i * 6]));
        if b2 <= 9 && b3 <= 9 {
          links' := links'[i := Magazine(b4) * 256 + b2 * 16 + b3];
        }
      }
      i := i + 1;
    }
  }
}
