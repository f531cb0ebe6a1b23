/**
  Page numbers of teletext: three hexadecimal digits, of which the broadcaster's pages use decimal ones only. How
  the cache steps through them, and the basic TOP table that lists them in order.
 */
module PageWalk {
  import opened TxtTables

  /** A decimal page between 100 and 899. */
  predicate Decimal(i: int) {
    0x100 <= i <= 0x899 && IsDec(i)
  }

  function Digits(h: nat, t: nat, u: nat): nat {
    h * 256 + t * 16 + u
  }

  /** The n-th decimal page. */
  function PageOf(n: nat): (i: nat)
    requires n < 800
    ensures 0x100 <= i <= 0x899
  {
    Digits(n / 100 + 1, n / 10 % 10, n % 10)
  }

  function NumberOf(i: nat): (n: nat)
    requires Decimal(i)
  {
    (i / 256 - 1) * 100 + i / 16 % 16 * 10 + i % 16
  }

  lemma DigitsAre(h: nat, t: nat, u: nat)
    requires t < 16 && u < 16
    ensures var i := Digits(h, t, u);
      i % 16 == u && i / 16 == h * 16 + t && i / 16 % 16 == t && i / 256 == h
  {
    var i := Digits(h, t, u);
    assert i == (h * 16 + t) * 16 + u;
    assert i / 16 == h * 16 + t;
    assert i == h * 256 + (t * 16 + u);
  }

  lemma ThreeDigits(i: nat)
    ensures i == Digits(i / 256, i / 16 % 16, i % 16)
  {
    assert i / 16 / 16 == i / 256;
  }

  lemma NumberIs(h: nat, t: nat, u: nat, n: nat)
    requires 1 <= h <= 8 && t <= 9 && u <= 9 && n == (h - 1) * 100 + t * 10 + u
    ensures n < 800 && PageOf(n) == Digits(h, t, u)
    ensures Decimal(Digits(h, t, u)) && NumberOf(Digits(h, t, u)) == n
  {
    hide PageOf;
    PageIs(h, t, u, n);
    DigitsAre(h, t, u);
  }

  lemma PageIs(h: nat, t: nat, u: nat, n: nat)
    requires 1 <= h <= 8 && t <= 9 && u <= 9 && n == (h - 1) * 100 + t * 10 + u
    ensures n < 800 && PageOf(n) == Digits(h, t, u)
  {
    hide Digits;
    assert n == ((h - 1) * 10 + t) * 10 + u;
    assert n / 10 == (h - 1) * 10 + t;
    assert n == (h - 1) * 100 + (t * 10 + u);
  }

  lemma DecimalDigits(i: nat)
    requires Decimal(i)
    ensures 1 <= i / 256 <= 8 && i / 16 % 16 <= 9 && i % 16 <= 9
  {
  }

  /** The decimal pages and the numbers below 800 correspond to each other. */
  lemma PagesAreNumbered(n: nat)
    requires n < 800
    ensures Decimal(PageOf(n)) && NumberOf(PageOf(n)) == n
  {
    hide Decimal;
    hide NumberOf;
    assert n == (n / 100 + 1 - 1) * 100 + n / 10 % 10 * 10 + n % 10;
    NumberIs(n / 100 + 1, n / 10 % 10, n % 10, n);
  }

  lemma NumbersArePages(i: nat)
    requires Decimal(i)
    ensures NumberOf(i) < 800 && PageOf(NumberOf(i)) == i
  {
    hide PageOf;
    DecimalDigits(i);
    ThreeDigits(i);
    NumberIs(i / 256, i / 16 % 16, i % 16, NumberOf(i));
  }

  lemma Wrapped(n: nat)
    requires n < 800
    ensures (n + 1) % 800 == (if n == 799 then 0 else n + 1) && (n + 799) % 800 == (if n == 0 then 799 else n - 1)
  {
  }

  lemma Hundred()
    ensures Digits(1, 0, 0) == 0x100 && Digits(8, 9, 9) == 0x899
  {
  }

  /** The arithmetic of tuxtxt_next_dec. */
  function Up(i: nat): nat {
    var a := i + 1;
    var b := if a % 16 > 0x09 then a + 0x06 else a;
    var c := if b / 16 % 16 * 16 > 0x90 then b + 0x60 else b;
    if c > 0x899 then 0x100 else c
  }

  /** tuxtxt_next_dec */
  method NextDec(i: nat) returns (r: nat)
    ensures Decimal(i) ==> r == PageOf((NumberOf(i) + 1) % 800)
  {
    hide PageOf;
    hide NumberOf;
    r := i + 1;
    if r % 16 > 0x09 {
      r := r + 0x06;
    }
    if r / 16 % 16 * 16 > 0x90 {
      r := r + 0x60;
    }
    if r > 0x899 {
      r := 0x100;
    }
    assert r == Up(i);
    if Decimal(i) {
      UpIsNext(i);
    }
  }

  lemma UpDigits(h: nat, t: nat, u: nat)
    requires 1 <= h <= 8 && t <= 9 && u <= 9
    ensures Up(Digits(h, t, u)) ==
            if u < 9 then Digits(h, t, u + 1) else if t < 9 then Digits(h, t + 1, 0)
            else if h < 8 then Digits(h + 1, 0, 0) else 0x100
  {
    DigitsAre(h, t, u + 1);
    DigitsAre(h, t + 1, 0);
  }

  lemma UpIsNextAt(h: nat, t: nat, u: nat)
    requires 1 <= h <= 8 && t <= 9 && u <= 9
    ensures Decimal(Digits(h, t, u))
    ensures Up(Digits(h, t, u)) == PageOf((NumberOf(Digits(h, t, u)) + 1) % 800)
  {
    hide Up;
    hide PageOf;
    hide NumberOf;
    hide Digits;
    hide Decimal;
    UpDigits(h, t, u);
    var n := (h - 1) * 100 + t * 10 + u;
    NumberIs(h, t, u, n);
    Wrapped(n);
    if u < 9 {
      NumberIs(h, t, u + 1, n + 1);
    } else if t < 9 {
      NumberIs(h, t + 1, 0, n + 1);
    } else if h < 8 {
      NumberIs(h + 1, 0, 0, n + 1);
    } else {
      NumberIs(1, 0, 0, 0);
      Hundred();
    }
  }

  lemma UpIsNext(i: nat)
    requires Decimal(i)
    ensures Up(i) == PageOf((NumberOf(i) + 1) % 800)
  {
    hide Up;
    hide PageOf;
    hide NumberOf;
    hide Digits;
    DecimalDigits(i);
    ThreeDigits(i);
    UpIsNextAt(i / 256, i / 16 % 16, i % 16);
  }

  /** The arithmetic of tuxtxt_prev_dec; the result of a subtraction below 0 is replaced like any below 0x100. */
  function Down(i: nat): nat
    requires i > 0
  {
    var a := i - 1;
    var b := if a % 16 > 0x09 then a - 0x06 else a;
    var c: int := if b / 16 % 16 * 16 > 0x90 then b - 0x60 else b;
    if c < 0x100 then 0x899 else c
  }

  /** tuxtxt_prev_dec */
  method PrevDec(i: nat) returns (r: int)
    requires i > 0
    ensures Decimal(i) ==> r == PageOf((NumberOf(i) + 799) % 800)
  {
    hide PageOf;
    hide NumberOf;
    r := i - 1;
    if r % 16 > 0x09 {
      r := r - 0x06;
    }
    if r / 16 % 16 * 16 > 0x90 {
      r := r - 0x60;
    }
    if r < 0x100 {
      r := 0x899;
    }
    assert r == Down(i);
    if Decimal(i) {
      DownIsPrevious(i);
    }
  }

  lemma DownDigits(h: nat, t: nat, u: nat)
    requires 1 <= h <= 8 && t <= 9 && u <= 9
    ensures Down(Digits(h, t, u)) ==
            if u > 0 then Digits(h, t, u - 1) else if t > 0 then Digits(h, t - 1, 9)
            else if h > 1 then Digits(h - 1, 9, 9) else 0x899
  {
    if u > 0 {
      DigitsAre(h, t, u - 1);
    } else if t > 0 {
      DigitsAre(h, t - 1, 15);
      DigitsAre(h, t - 1, 9);
    } else {
      DigitsAre(h - 1, 15, 15);
      DigitsAre(h - 1, 15, 9);
    }
  }

  lemma DownIsPreviousAt(h: nat, t: nat, u: nat)
    requires 1 <= h <= 8 && t <= 9 && u <= 9
    ensures Decimal(Digits(h, t, u))
    ensures Down(Digits(h, t, u)) == PageOf((NumberOf(Digits(h, t, u)) + 799) % 800)
  {
    hide Down;
    hide PageOf;
    hide NumberOf;
    hide Digits;
    hide Decimal;
    DownDigits(h, t, u);
    var n := (h - 1) * 100 + t * 10 + u;
    NumberIs(h, t, u, n);
    Wrapped(n);
    if u > 0 {
      NumberIs(h, t, u - 1, n - 1);
    } else if t > 0 {
      NumberIs(h, t - 1, 9, n - 1);
    } else if h > 1 {
      NumberIs(h - 1, 9, 9, n - 1);
    } else {
      NumberIs(8, 9, 9, 799);
      Hundred();
    }
  }

  lemma DownIsPrevious(i: nat)
    requires Decimal(i)
    ensures Down(i) == PageOf((NumberOf(i) + 799) % 800)
  {
    hide Down;
    hide PageOf;
    hide NumberOf;
    hide Digits;
    DecimalDigits(i);
    ThreeDigits(i);
    DownIsPreviousAt(i / 256, i / 16 % 16, i % 16);
  }

  lemma Back(n: nat)
    requires n < 800
    ensures ((n + 1) % 800 + 799) % 800 == n && ((n + 799) % 800 + 1) % 800 == n
  {
  }

  /** Stepping forward and back again comes to the same page, from every decimal page and in either order. */
  method ThereAndBack(i: nat) returns (a: int, b: int)
    requires Decimal(i)
    ensures a == i && b == i
  {
    hide PageOf;
    hide NumberOf;
    hide Decimal;
    NumbersArePages(i);
    ghost var n := NumberOf(i);
    Back(n);
    var up := NextDec(i);
    PagesAreNumbered((n + 1) % 800);
    Positive(up);
    a := PrevDec(up);
    Positive(i);
    var down := PrevDec(i);
    PagesAreNumbered((n + 799) % 800);
    b := NextDec(down);
  }

  lemma Positive(i: nat)
    requires Decimal(i)
    ensures i > 0
  {
  }

  // ----- pages with other digits, and subpages

  /** The page k steps further in the ring of all pages from 0x100 to 0x8FF. */
  function Ring(i: nat, k: nat): (r: nat)
    requires 0x100 <= i <= 0x8FF
    ensures 0x100 <= r <= 0x8FF
  {
    0x100 + (i - 0x100 + k) % 0x800
  }

  predicate CachedHex(table: seq<nat>, i: nat)
    requires |table| == 0x900
  {
    i < 0x900 && table[i] != 0xFF && !IsDec(i)
  }

  /** So many steps lead to the first such page, or all the way round because there is none before the page itself. */
  predicate NearestHex(table: seq<nat>, page: nat, steps: nat)
    requires |table| == 0x900 && 0x100 <= page <= 0x8FF
  {
    && 1 <= steps <= 0x800
    && (CachedHex(table, Ring(page, steps)) || steps == 0x800)
    && forall k :: 1 <= k < steps ==> !CachedHex(table, Ring(page, k))
  }

  /** tuxtxt_next_hex: the next page in the ring that is cached and not decimal, or the page itself. */
  method NextHex(table: seq<nat>, page: nat) returns (r: nat)
    requires |table| == 0x900 && page <= 0x8FF
    ensures page >= 0x100 ==> exists steps :: NearestHex(table, page, steps) && r == Ring(page, steps)
    ensures page >= 0x100 && r != page ==> CachedHex(table, r)
    ensures page < 0x100 ==> page < r <= 0x100 && (r < 0x100 ==> CachedHex(table, r))
    ensures page < 0x100 ==> forall i :: page < i < r ==> !CachedHex(table, i)
  {
    hide Ring;
    hide IsDec;
    var startpage, i := page, page;
    if startpage < 0x100 {
      startpage := 0x100;
    } else {
      RingStarts(page);
    }
    var again := true;
    ghost var steps := 0;
    while again
      invariant 0 <= steps <= 0x800 && 0 <= i
      invariant again ==> steps < 0x800
      invariant page < 0x100 ==> i == page + steps <= 0x100 && (again ==> i < 0x100)
      invariant page < 0x100 ==> forall k :: page < k < i || (again && page < k == i) ==> !CachedHex(table, k)
      invariant page < 0x100 && !again ==> page < i && (i < 0x100 ==> CachedHex(table, i))
      invariant page >= 0x100 ==> 0x100 <= i == Ring(page, steps)
      invariant page >= 0x100 && again ==> forall k :: 1 <= k <= steps ==> !CachedHex(table, Ring(page, k))
      invariant page >= 0x100 && !again ==> 1 <= steps && (CachedHex(table, i) || steps == 0x800)
      invariant page >= 0x100 && !again ==> forall k :: 1 <= k < steps ==> !CachedHex(table, Ring(page, k))
      decreases 0x800 - steps, again
    {
      if page >= 0x100 {
        NextInRing(page, steps);
      }
      i := i + 1;
      if i > 0x8FF {
        i := 0x100;
      }
      steps := steps + 1;
      if i == startpage {
        break;
      }
      again := table[i] == 0xFF || IsDec(i);
    }
    assert page >= 0x100 ==> NearestHex(table, page, steps);
    r := i;
  }

  lemma RingStarts(page: nat)
    requires 0x100 <= page <= 0x8FF
    ensures Ring(page, 0) == page && Ring(page, 0x800) == page
  {
  }

  lemma NextInRing(page: nat, steps: nat)
    requires 0x100 <= page <= 0x8FF && steps < 0x800
    ensures Ring(page, steps + 1) == if Ring(page, steps) == 0x8FF then 0x100 else Ring(page, steps) + 1
    ensures Ring(page, steps + 1) == page <==> steps + 1 == 0x800
  {
  }

  const SUBPAGES := 0x7A

  /** Beyond either end the walk through the subpages goes on at the other one. */
  function Wrap(loop: int): (r: nat)
    ensures r < SUBPAGES
  {
    if loop < 0 then 0x79 else if loop > 0x79 then 0 else loop
  }

  /** The loop variable of tuxtxt_GetSubPage when its condition is tested for the n-th time, counted from 0. */
  function Loop(subpage: nat, offset: int, n: nat): int {
    if n == 0 then subpage + offset else Wrap(Loop(subpage, offset, n - 1)) + offset
  }

  /** The walk ends there: back at the subpage itself, before or after wrapping, or at a cached one. */
  predicate EndsAt(cached: seq<bool>, subpage: nat, offset: int, n: nat)
    requires |cached| >= SUBPAGES
  {
    var loop := Loop(subpage, offset, n);
    loop == subpage || Wrap(loop) == subpage || cached[Wrap(loop)]
  }

  ghost predicate Ends(cached: seq<bool>, subpage: nat, offset: int)
    requires |cached| >= SUBPAGES
  {
    exists n: nat :: EndsAt(cached, subpage, offset, n)
  }

  predicate NoneCached(cached: seq<bool>)
    requires |cached| >= SUBPAGES
  {
    forall k :: 0 <= k < SUBPAGES ==> !cached[k]
  }

  /** The n-th subpage met on the way up or down, from the one beside the given subpage. */
  function Visit(subpage: nat, offset: int, n: nat): (r: nat)
    ensures r < SUBPAGES
  {
    (if offset > 0 then Wrap(subpage + offset) + n else Wrap(subpage + offset) - n) % SUBPAGES
  }

  /** The first cached subpage in the given direction, all the way round; the subpage itself if none is cached. */
  ghost predicate Nearest(cached: seq<bool>, subpage: nat, offset: int, r: nat)
    requires |cached| >= SUBPAGES
  {
    if NoneCached(cached) then r == subpage
    else exists n: nat :: FirstVisit(cached, subpage, offset, n) && r == Visit(subpage, offset, n)
  }

  predicate FirstVisit(cached: seq<bool>, subpage: nat, offset: int, n: nat)
    requires |cached| >= SUBPAGES
  {
    n < SUBPAGES && cached[Visit(subpage, offset, n)]
    && forall k: nat :: k < n ==> !cached[Visit(subpage, offset, k)]
  }

  predicate OneStep(subpage: nat, offset: int) {
    subpage <= 0x7F && (offset == 1 || offset == -1)
  }

  lemma {:induction false} LoopVisits(subpage: nat, offset: int, n: nat)
    requires OneStep(subpage, offset)
    ensures Wrap(Loop(subpage, offset, n)) == Visit(subpage, offset, n)
  {
    hide Visit;
    FirstVisited(subpage, offset);
    if n > 0 {
      LoopVisits(subpage, offset, n - 1);
      VisitStep(subpage, offset, n);
      WrapStep(Visit(subpage, offset, n - 1), offset);
      hide Wrap;
    }
  }

  lemma FirstVisited(subpage: nat, offset: int)
    requires OneStep(subpage, offset)
    ensures Visit(subpage, offset, 0) == Wrap(subpage + offset)
  {
    hide Wrap;
  }

  lemma VisitStep(subpage: nat, offset: int, n: nat)
    requires OneStep(subpage, offset) && n > 0
    ensures Visit(subpage, offset, n) == (Visit(subpage, offset, n - 1) + offset) % SUBPAGES
  {
    hide Wrap;
  }

  lemma WrapStep(k: nat, offset: int)
    requires k < SUBPAGES && (offset == 1 || offset == -1)
    ensures Wrap(k + offset) == (k + offset) % SUBPAGES
  {
  }

  lemma LoopStep(subpage: nat, offset: int, n: nat)
    requires n > 0
    ensures Loop(subpage, offset, n) == Wrap(Loop(subpage, offset, n - 1)) + offset
  {
  }

  /** Where the walk ends other than at a cached subpage. */
  lemma EndsUncached(subpage: nat, offset: int, n: nat)
    requires OneStep(subpage, offset)
    ensures var loop := Loop(subpage, offset, n);
      loop == subpage || Wrap(loop) == subpage ==> subpage <= 0x79 || (subpage == 0x7A && offset == 1)
    ensures var loop := Loop(subpage, offset, n);
      (loop == subpage || Wrap(loop) == subpage) && n < SUBPAGES ==> n == 0x79 && subpage <= 0x79
  {
    LoopVisits(subpage, offset, n);
    if n > 0 {
      LoopVisits(subpage, offset, n - 1);
    }
  }

  lemma FullTurn(subpage: nat, offset: int)
    requires OneStep(subpage, offset)
    ensures subpage <= 0x79 ==> Wrap(Loop(subpage, offset, 0x79)) == subpage
    ensures subpage == 0x7A && offset == 1 ==> Loop(subpage, offset, 0x7A) == subpage
  {
    hide Loop;
    LoopVisits(subpage, offset, 0x79);
    LoopStep(subpage, offset, 0x7A);
  }

  /** Every subpage is met within one turn. */
  lemma Meets(subpage: nat, offset: int, k: nat) returns (n: nat)
    requires OneStep(subpage, offset) && k < SUBPAGES
    ensures n < SUBPAGES && Visit(subpage, offset, n) == k
  {
    var start := Wrap(subpage + offset);
    n := (if offset > 0 then k - start else start - k) % SUBPAGES;
  }

  /** With steps of one the loop ends from every subpage up to 79; beyond it needs a cached one, with one exception. */
  lemma EndsExactlyWhen(cached: seq<bool>, subpage: nat, offset: int)
    requires |cached| >= SUBPAGES && OneStep(subpage, offset)
    ensures Ends(cached, subpage, offset)
            <==> subpage <= 0x79 || (subpage == 0x7A && offset == 1) || !NoneCached(cached)
  {
    if Ends(cached, subpage, offset) {
      var n: nat :| EndsAt(cached, subpage, offset, n);
      EndsUncached(subpage, offset, n);
    }
    FullTurn(subpage, offset);
    if subpage <= 0x79 {
      assert EndsAt(cached, subpage, offset, 0x79);
    } else if subpage == 0x7A && offset == 1 {
      assert EndsAt(cached, subpage, offset, 0x7A);
    } else if !NoneCached(cached) {
      var k :| 0 <= k < SUBPAGES && cached[k];
      var n := Meets(subpage, offset, k);
      LoopVisits(subpage, offset, n);
      assert EndsAt(cached, subpage, offset, n);
    }
  }

  /** Where the walk ends first is the nearest cached subpage. */
  lemma FirstEndIsNearest(cached: seq<bool>, subpage: nat, offset: int, n: nat, r: nat)
    requires |cached| >= SUBPAGES && OneStep(subpage, offset)
    requires EndsAt(cached, subpage, offset, n) && forall k: nat :: k < n ==> !EndsAt(cached, subpage, offset, k)
    requires var loop := Loop(subpage, offset, n);
      r == if loop == subpage || Wrap(loop) == subpage then subpage else Wrap(loop)
    ensures Nearest(cached, subpage, offset, r)
  {
    hide Loop;
    LoopVisits(subpage, offset, n);
    EndsUncached(subpage, offset, n);
    forall k: nat | k < n ensures !cached[Visit(subpage, offset, k)] {
      LoopVisits(subpage, offset, k);
      assert !EndsAt(cached, subpage, offset, k);
    }
    if !NoneCached(cached) {
      var k :| 0 <= k < SUBPAGES && cached[k];
      var m := Meets(subpage, offset, k);
      assert n <= m;
      FullTurn(subpage, offset);
      assert FirstVisit(cached, subpage, offset, n);
    }
  }

  /** tuxtxt_GetSubPage, from wherever its loop ends. */
  method GetSubPage(cached: seq<bool>, subpage: nat, offset: int) returns (r: nat)
    requires |cached| >= SUBPAGES && Ends(cached, subpage, offset)
    ensures r == subpage || (r < SUBPAGES && cached[r])
    ensures OneStep(subpage, offset) ==> Nearest(cached, subpage, offset, r)
  {
    hide Nearest;
    hide Wrap;
    ghost var last: nat :| EndsAt(cached, subpage, offset, last);
    ghost var n: nat := 0;
    var loop := subpage + offset;
    r := subpage;
    while loop != subpage
      invariant loop == Loop(subpage, offset, n) && r == subpage
      invariant forall k: nat :: k < n ==> !EndsAt(cached, subpage, offset, k)
      invariant n <= last
      decreases last - n
    {
      WrapIs(loop);
      if loop < 0 {
        loop := 0x79;
      } else if loop > 0x79 {
        loop := 0;
      }
      if loop == subpage {
        break;
      }
      if cached[loop] {
        r := loop;
        break;
      }
      assert !EndsAt(cached, subpage, offset, n);
      loop := loop + offset;
      n := n + 1;
    }
    assert EndsAt(cached, subpage, offset, n);
    if OneStep(subpage, offset) {
      FirstEndIsNearest(cached, subpage, offset, n, r);
    }
  }

  lemma WrapIs(loop: int)
    ensures Wrap(loop) == if loop < 0 then 0x79 else if loop > 0x79 then 0 else loop
  {
  }
}
