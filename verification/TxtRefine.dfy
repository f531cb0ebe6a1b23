/**
  The teletext cache as values: what every packet does to the table of decompressed entries, the live
  buffers and the index tables, and why a reader of the cache cannot tell it from the plain map of TxtPlain.
 */
module TxtRefine {
  import opened PageCodec
  import opened TxtTables
  import opened TxtPlain
  import TopTable

  const PAGES := 0x900
  const SUBPAGES := 0x80
  const MAGAZINES := 9
  const UNSET := 0xFF

  /**
    entries: the allocated table entries, decompressed; cur and sub: current_page and current_subpage;
    subs: subpagetable; buffers: pagedata; links: flofpages; cached: cached_pages; shown: the page on display.
   */
  datatype State = State(
    entries: map<Key, PlainPage>, cur: seq<int>, sub: seq<int>, subs: seq<int>,
    buffers: map<int, seq<bv8>>, links: seq<seq<int>>, cached: int, shown: int)

  predicate IsKey(k: Key) {
    0x100 <= k.0 < PAGES && 0 <= k.1 < SUBPAGES
  }

  predicate IsPage(page: PlainPage) {
    && |page.body| == PAGE_BYTES && |page.headline| == HEADLINE_BYTES
    && (page.extra == [] || |page.extra| == EXTRA_BYTES)
  }

  /** The sizes of the tables, and keys within the tables' bounds. */
  predicate Sized(st: State) {
    && |st.cur| == MAGAZINES && |st.sub| == MAGAZINES && |st.subs| == PAGES && |st.links| == PAGES
    && 0 <= st.shown < PAGES
    && (forall m :: 0 <= m < MAGAZINES ==> m in st.buffers && |st.buffers[m]| == PAGE_BYTES)
    && (forall k :: k in st.entries ==> IsKey(k) && IsPage(st.entries[k]))
  }

  predicate IsOpen(st: State, m: int)
    requires Sized(st) && 1 <= m < MAGAZINES
  {
    st.cur[m] != -1 && st.sub[m] != -1
  }

  function Current(st: State, m: int): Key
    requires Sized(st) && 1 <= m < MAGAZINES
  {
    (st.cur[m], st.sub[m])
  }

  // ----- the reachable states

  /** An open magazine has its entry allocated, and the entry's page number names the magazine. */
  predicate OpenAllocated(st: State)
    requires Sized(st)
  {
    forall m :: 1 <= m < MAGAZINES && IsOpen(st, m) ==>
      Current(st, m) in st.entries && st.cur[m] / 0x100 == m
  }

  /**
    cached_pages counts the allocated entries; a set subpagetable entry names an allocated one; every FLOF link is
    0 or a decimal page.
   */
  predicate IndexExact(st: State)
    requires Sized(st)
  {
    && st.cached == |st.entries| && TopTable.SoundLinks(st.links)
    && forall p :: 0 <= p < PAGES && st.subs[p] != UNSET ==> (p, st.subs[p]) in st.entries
  }

  predicate Reachable(st: State) {
    Sized(st) && OpenAllocated(st) && IndexExact(st)
  }

  // ----- what a reader sees

  /** The live buffer of an open page, the decompressed entry of any other, spaces if there is none. */
  function Read(st: State, k: Key): PlainPage
    requires Sized(st)
  {
    if k !in st.entries then EMPTY_PAGE
    else if Live(st, k) then st.entries[k].(body := st.buffers[k.0 / 0x100])
    else st.entries[k]
  }

  predicate Live(st: State, k: Key)
    requires Sized(st)
  {
    1 <= k.0 / 0x100 < MAGAZINES && IsOpen(st, k.0 / 0x100) && Current(st, k.0 / 0x100) == k
  }

  /** The plain state s lists the same pages, with the contents a reader sees. */
  predicate SamePages(st: State, s: Plain)
    requires Sized(st)
  {
    s.pages.Keys == st.entries.Keys && forall k :: k in st.entries ==> s.pages[k] == Read(st, k)
  }

  ghost predicate SameOpen(st: State, s: Plain)
    requires Sized(st)
  {
    && (forall m :: m in s.open <==> 1 <= m < MAGAZINES && IsOpen(st, m))
    && (forall m :: m in s.open ==> s.open[m] == Current(st, m))
  }

  /** The cache state st stands for the plain state s. */
  ghost predicate Means(st: State, s: Plain) {
    Reachable(st) && SamePages(st, s) && SameOpen(st, s)
  }

  /** The plain state every sound cache state stands for. */
  ghost function Meaning(st: State): (s: Plain)
    requires Reachable(st)
    ensures Means(st, s) && WellFormed(s)
  {
    Plain(map m | 1 <= m < MAGAZINES && IsOpen(st, m) :: Current(st, m), map k | k in st.entries :: Read(st, k))
  }

  /** A cache state stands for one plain state only. */
  lemma MeaningIsUnique(st: State, s: Plain, t: Plain)
    requires Means(st, s) && Means(st, t)
    ensures s == t
  {
    assert s.pages == t.pages;
    forall m | m in s.open.Keys
      ensures m in t.open.Keys && s.open[m] == t.open[m]
    {
    }
    forall m | m in t.open.Keys
      ensures m in s.open.Keys
    {
    }
    assert s.open.Keys == t.open.Keys;
    assert s.open == t.open;
  }

  // ----- the steps of the packet loop

  /** tuxtxt_compress_page on the current page of m. */
  function Flush(st: State, m: int): State
    requires Sized(st) && 1 <= m < MAGAZINES && IsOpen(st, m) && Current(st, m) in st.entries
  {
    var k := Current(st, m);
    st.(entries := st.entries[k := st.entries[k].(body := st.buffers[m])])
  }

  /** Sets current_page and current_subpage. */
  function Address(st: State, m: int, page: int, sub: int): State
    requires Sized(st) && 1 <= m < MAGAZINES
  {
    st.(cur := st.cur[m := page], sub := st.sub[m := sub])
  }

  /** tuxtxt_allocate_cache, and the note in subpagetable before it. */
  function Allocate(st: State, k: Key): State
    requires Sized(st) && IsKey(k)
  {
    var st' := st.(subs := st.subs[k.0 := k.1]);
    if k in st.entries then st'
    else st'.(entries := st.entries[k := EMPTY_PAGE], cached := st.cached + 1)
  }

  /** tuxtxt_decompress_page into the buffer of m. */
  function Load(st: State, m: int, k: Key): State
    requires Sized(st) && k in st.entries && 0 <= m < MAGAZINES
  {
    st.(buffers := st.buffers[m := st.entries[k].body])
  }

  /** The erase bit and the headline. */
  function StoreHeader(st: State, m: int, k: Key, row: seq<bv8>): State
    requires Sized(st) && k in st.entries && 0 <= m < MAGAZINES && |row| == ROW_BYTES
  {
    var erased := if Erases(row) then st.(entries := st.entries[k := st.entries[k].(body := Blank())],
                                          buffers := st.buffers[m := Blank()]) else st;
    erased.(entries := erased.entries[k := erased.entries[k].(headline := Headline(row))])
  }

  /** The page on display is written back after every packet of its magazine. */
  function Watch(st: State, m: int): State
    requires Sized(st) && 1 <= m < MAGAZINES && OpenAllocated(st)
  {
    if st.cur[m] == st.shown && st.sub[m] != -1 then Flush(st, m) else st
  }

  /** Behind the write-back: the numbers of a header, in the order they are checked. */
  function OpenHeader(st: State, m: int, row: seq<bv8>): State
    requires Sized(st) && |row| == ROW_BYTES && AddressOk(row) && m == Magazine(row)
  {
    if Ham(row[3]) == 0xFF || Ham(row[2]) == 0xFF then Address(st, m, -1, st.sub[m])
    else if Ham(row[3]) == 0xF && Ham(row[2]) == 0xF then Address(st, m, HeaderPage(row), -1)
    else if Ham(row[7]) == 0xFF || Ham(row[6]) == 0xFF || Ham(row[5]) == 0xFF || Ham(row[4]) == 0xFF then
      Address(st, m, HeaderPage(row), -1)
    else
      var k := HeaderKey(row);
      HeaderKeyInBounds(row);
      var st1 := Allocate(Address(st, m, k.0, k.1), k);
      StoreHeader(Load(st1, m, k), m, k, row)
  }

  lemma HeaderKeyInBounds(row: seq<bv8>)
    requires |row| == ROW_BYTES && AddressOk(row) && HeaderOk(row)
    ensures IsKey(HeaderKey(row)) && HeaderKey(row).0 / 0x100 == Magazine(row)
  {
  }

  function CacheText(st: State, row: seq<bv8>): State
    requires Reachable(st) && |row| == ROW_BYTES && AddressOk(row)
    requires IsOpen(st, Magazine(row)) && 1 <= PacketNumber(row) <= 25
  {
    var m, n := Magazine(row), PacketNumber(row);
    var k := Current(st, m);
    if n < 24 then st.(buffers := st.buffers[m := Overwrite(st.buffers[m], 40 * (n - 1), Payload(k.0, row))])
    else
      var extra := if st.entries[k].extra == [] then EmptyExtra() else st.entries[k].extra;
      st.(entries := st.entries[k := st.entries[k].(extra := Overwrite(extra, 40 * (n - 24), Payload(k.0, row)))])
  }

  // ----- every step keeps the table sound and means what the plain map does

  /** m's entry is up to date, or m has no page. */
  predicate Flushed(st: State, m: int)
    requires Reachable(st) && 1 <= m < MAGAZINES
  {
    IsOpen(st, m) ==> st.entries[Current(st, m)].body == st.buffers[m]
  }

  lemma FlushReachable(st: State, m: int)
    requires Reachable(st) && 1 <= m < MAGAZINES && IsOpen(st, m)
    ensures Reachable(Flush(st, m)) && Flushed(Flush(st, m), m)
  {
    assert Flush(st, m).entries.Keys == st.entries.Keys;
  }

  /** Writing a buffer back changes nothing a reader sees. */
  lemma FlushKeeps(st: State, m: int, s: Plain)
    requires Means(st, s) && 1 <= m < MAGAZINES && IsOpen(st, m)
    ensures Means(Flush(st, m), s)
  {
    FlushReachable(st, m);
    var st' := Flush(st, m);
    assert st'.entries.Keys == st.entries.Keys;
    assert SamePages(st', s);
  }

  lemma WatchKeeps(st: State, m: int, s: Plain)
    requires Means(st, s) && 1 <= m < MAGAZINES
    ensures Means(Watch(st, m), s)
  {
    if st.cur[m] == st.shown && st.sub[m] != -1 {
      FlushKeeps(st, m, s);
    }
  }

  lemma ClosesReachable(st: State, m: int, page: int, sub: int)
    requires Reachable(st) && 1 <= m < MAGAZINES && (page == -1 || sub == -1)
    ensures Reachable(Address(st, m, page, sub))
  {
  }

  /** What a change of magazine m leaves of the pages of other magazines, and of closed or flushed ones. */
  lemma ReadElsewhere(st: State, st': State, m: int, k: Key)
    requires Reachable(st) && Sized(st') && 1 <= m < MAGAZINES && Flushed(st, m) && k in st.entries && k in st'.entries
    requires st'.entries[k] == st.entries[k]
    requires forall i :: 1 <= i < MAGAZINES && i != m ==>
      st'.cur[i] == st.cur[i] && st'.sub[i] == st.sub[i] && st'.buffers[i] == st.buffers[i]
    requires st'.cur[m] == -1 || st'.sub[m] == -1 || (st'.cur[m], st'.sub[m]) != k
    ensures Read(st', k) == Read(st, k)
  {
  }

  lemma ClosesPages(st: State, m: int, page: int, sub: int, s: Plain)
    requires Reachable(st) && SamePages(st, s) && 1 <= m < MAGAZINES && Flushed(st, m) && (page == -1 || sub == -1)
    ensures Sized(Address(st, m, page, sub)) && SamePages(Address(st, m, page, sub), s)
  {
    var st' := Address(st, m, page, sub);
    forall k | k in st.entries
      ensures Read(st', k) == Read(st, k)
    {
      ReadElsewhere(st, st', m, k);
    }
  }

  lemma ClosesMagazine(st: State, m: int, page: int, sub: int, s: Plain)
    requires Sized(st) && SameOpen(st, s) && 1 <= m < MAGAZINES && (page == -1 || sub == -1)
    ensures SameOpen(Address(st, m, page, sub), s.(open := s.open - {m}))
  {
  }

  /** Closing a magazine whose entry is up to date only closes it. */
  lemma Closes(st: State, m: int, page: int, sub: int, s: Plain)
    requires Means(st, s) && 1 <= m < MAGAZINES && Flushed(st, m) && (page == -1 || sub == -1)
    ensures Means(Address(st, m, page, sub), s.(open := s.open - {m}))
  {
    ClosesReachable(st, m, page, sub);
    ClosesPages(st, m, page, sub, s);
    ClosesMagazine(st, m, page, sub, s);
    assert SamePages(Address(st, m, page, sub), s.(open := s.open - {m}));
    hide SameOpen;
  }

  function OpenedPage(st: State, k: Key, row: seq<bv8>): PlainPage
    requires Sized(st) && |row| == ROW_BYTES
  {
    var page := if k in st.entries then st.entries[k] else EMPTY_PAGE;
    page.(body := if Erases(row) then Blank() else page.body, headline := Headline(row))
  }

  /** The steps of opening, as one update. */
  function Opened(st: State, m: int, k: Key, row: seq<bv8>): State
    requires Sized(st) && 1 <= m < MAGAZINES && IsKey(k) && |row| == ROW_BYTES
  {
    var page := OpenedPage(st, k, row);
    State(st.entries[k := page], st.cur[m := k.0], st.sub[m := k.1], st.subs[k.0 := k.1], st.buffers[m := page.body],
          st.links, st.cached + (if k in st.entries then 0 else 1), st.shown)
  }

  lemma StepsOpen(st: State, m: int, k: Key, row: seq<bv8>)
    requires Sized(st) && 1 <= m < MAGAZINES && IsKey(k) && |row| == ROW_BYTES
    ensures StoreHeader(Load(Allocate(Address(st, m, k.0, k.1), k), m, k), m, k, row) == Opened(st, m, k, row)
  {
    hide Erases;
    hide Headline;
    hide Blank;
  }

  lemma CountWith<K, V>(m: map<K, V>, k: K, v: V)
    ensures |m[k := v]| == |m| + if k in m then 0 else 1
  {
    assert m[k := v].Keys == m.Keys + {k};
    assert |m[k := v]| == |m[k := v].Keys| && |m| == |m.Keys|;
  }

  lemma OpenedReachable(st: State, m: int, k: Key, row: seq<bv8>)
    requires Reachable(st) && 1 <= m < MAGAZINES && IsKey(k) && k.0 / 0x100 == m && |row| == ROW_BYTES
    ensures Reachable(Opened(st, m, k, row))
  {
    CountWith(st.entries, k, OpenedPage(st, k, row));
    assert Sized(Opened(st, m, k, row));
  }

  lemma OthersStay(st: State, m: int, k: Key, row: seq<bv8>, l: Key)
    requires Reachable(st) && 1 <= m < MAGAZINES && IsKey(k) && k.0 / 0x100 == m && |row| == ROW_BYTES && Flushed(st, m)
    requires l in st.entries && l != k
    ensures Sized(Opened(st, m, k, row)) && Read(Opened(st, m, k, row), l) == Read(st, l)
  {
    OpenedReachable(st, m, k, row);
    hide OpenedPage;
    ReadElsewhere(st, Opened(st, m, k, row), m, l);
  }

  /** The page a plain header leaves. */
  function HeaderPageOf(s: Plain, k: Key, row: seq<bv8>): PlainPage
    requires |row| == ROW_BYTES
  {
    var page := if k in s.pages then s.pages[k] else EMPTY_PAGE;
    page.(body := if Erases(row) then Blank() else page.body, headline := Headline(row))
  }

  lemma OpenedRead(st: State, m: int, k: Key, row: seq<bv8>, s: Plain)
    requires Reachable(st) && SamePages(st, s) && 1 <= m < MAGAZINES && IsKey(k) && k.0 / 0x100 == m
    requires |row| == ROW_BYTES && Flushed(st, m)
    ensures Sized(Opened(st, m, k, row)) && Read(Opened(st, m, k, row), k) == HeaderPageOf(s, k, row)
  {
    OpenedReachable(st, m, k, row);
    assert k in st.entries ==> Read(st, k) == st.entries[k];
  }

  lemma OpenedPages(st: State, m: int, k: Key, row: seq<bv8>, s: Plain, s': Plain)
    requires Reachable(st) && SamePages(st, s) && 1 <= m < MAGAZINES && IsKey(k) && k.0 / 0x100 == m
    requires |row| == ROW_BYTES && Flushed(st, m) && s'.pages == s.pages[k := HeaderPageOf(s, k, row)]
    ensures Sized(Opened(st, m, k, row)) && SamePages(Opened(st, m, k, row), s')
  {
    hide Read;
    hide HeaderPageOf;
    hide OpenedPage;
    hide Flushed;
    OpenedRead(st, m, k, row, s);
    var st' := Opened(st, m, k, row);
    assert st'.entries.Keys == st.entries.Keys + {k};
    forall l | l in st'.entries
      ensures s'.pages[l] == Read(st', l)
    {
      if l != k {
        OthersStay(st, m, k, row, l);
      }
    }
    assert s'.pages.Keys == s.pages.Keys + {k};
  }

  lemma OpensMagazine(st: State, m: int, k: Key, row: seq<bv8>, s: Plain, s': Plain)
    requires Reachable(st) && SameOpen(st, s) && 1 <= m < MAGAZINES
    requires IsKey(k) && k.0 / 0x100 == m && |row| == ROW_BYTES
    requires s'.open == s.open[m := k]
    ensures Sized(Opened(st, m, k, row)) && SameOpen(Opened(st, m, k, row), s')
  {
    OpenedReachable(st, m, k, row);
    hide OpenedPage;
  }

  /** A valid header opens its page, erased or as it was last received. */
  lemma Opens(st: State, m: int, row: seq<bv8>, s: Plain)
    requires Means(st, s) && |row| == ROW_BYTES && AddressOk(row) && HeaderOk(row) && m == Magazine(row)
    requires Flushed(st, m)
    ensures IsKey(HeaderKey(row))
    ensures Means(Opened(st, m, HeaderKey(row), row), Header(s, row))
  {
    var k := HeaderKey(row);
    HeaderKeyInBounds(row);
    OpenedReachable(st, m, k, row);
    OpenedPages(st, m, k, row, s, Header(s, row));
    OpensMagazine(st, m, k, row, s, Header(s, row));
    hide SameOpen;
    hide SamePages;
    hide Reachable;
    hide Opened;
  }

  // ----- the packet loop

  /** A header: write back, open or close, and write back again if a decimal page is on display. */
  function CacheHeader(st: State, row: seq<bv8>): State
    requires Reachable(st) && |row| == ROW_BYTES && AddressOk(row)
  {
    var m := Magazine(row);
    var st1 := if IsOpen(st, m) then Flush(st, m) else st;
    HeaderReachable(st, row);
    var st2 := OpenHeader(st1, m, row);
    if HeaderOk(row) && IsDec(HeaderPage(row)) then Watch(st2, m) else st2
  }

  /** One row of 42 bytes in the body of the loop in tuxtxt_CacheThread. */
  function CacheStep(st: State, row: seq<bv8>): State
    requires Reachable(st) && |row| == ROW_BYTES
  {
    if !AddressOk(row) then st
    else
      var m, n := Magazine(row), PacketNumber(row);
      if n == 0 then CacheHeader(st, row)
      else if n == 29 && Ham(row[2]) == 0 then Watch(st, m)
      else if IsOpen(st, m) && n <= 25 then WatchText(st, row)
      else if IsOpen(st, m) && 26 <= n <= 28 && Ham(row[2]) == 0xFF then st
      else if IsOpen(st, m) && n == 27 && Ham(row[2]) == 0 then WatchLinks(st, row)
      else Watch(st, m)
  }

  /** Packet 27/0: the links of the page that the magazine is receiving. */
  function CacheLinks(st: State, row: seq<bv8>): State
    requires Reachable(st) && |row| == ROW_BYTES && IsOpen(st, Magazine(row))
  {
    var p := st.cur[Magazine(row)];
    OpenPageInBounds(st, Magazine(row));
    TopTable.LinksStaySound(st.links, p, row);
    st.(links := st.links[p := TopTable.LinksAfter(row, st.links[p])])
  }

  lemma OpenPageInBounds(st: State, m: int)
    requires Reachable(st) && 1 <= m < MAGAZINES && IsOpen(st, m)
    ensures 0x100 <= st.cur[m] < PAGES
  {
    assert IsKey(Current(st, m));
  }

  function WatchLinks(st: State, row: seq<bv8>): State
    requires Reachable(st) && |row| == ROW_BYTES && IsOpen(st, Magazine(row))
  {
    LinksReachable(st, row);
    Watch(CacheLinks(st, row), Magazine(row))
  }

  lemma LinksReachable(st: State, row: seq<bv8>)
    requires Reachable(st) && |row| == ROW_BYTES && IsOpen(st, Magazine(row))
    ensures Reachable(CacheLinks(st, row))
  {
    hide TopTable.SoundLinks;
    hide TopTable.LinksAfter;
    var p := st.cur[Magazine(row)];
    OpenPageInBounds(st, Magazine(row));
    TopTable.LinksStaySound(st.links, p, row);
  }

  lemma LinksKeep(st: State, st': State, s: Plain)
    requires Means(st, s) && Reachable(st') && st' == st.(links := st'.links)
    ensures Means(st', s)
  {
    hide TopTable.SoundLinks;
    assert forall k :: Read(st', k) == Read(st, k);
  }

  /** The links are no part of the pages' text. */
  lemma WatchLinksKeeps(st: State, row: seq<bv8>, s: Plain)
    requires Means(st, s) && |row| == ROW_BYTES && IsOpen(st, Magazine(row))
    ensures Reachable(st) && Means(WatchLinks(st, row), s)
  {
    hide Means;
    hide Reachable;
    MeansReachable(st, s);
    LinksReachable(st, row);
    LinksKeep(st, CacheLinks(st, row), s);
    var st' := CacheLinks(st, row);
    WatchKeeps(st', Magazine(row), s);
  }

  function WatchText(st: State, row: seq<bv8>): State
    requires Reachable(st) && |row| == ROW_BYTES && AddressOk(row)
    requires IsOpen(st, Magazine(row)) && 1 <= PacketNumber(row) <= 25
  {
    TextReachable(st, row);
    Watch(CacheText(st, row), Magazine(row))
  }

  lemma TextReachable(st: State, row: seq<bv8>)
    requires Reachable(st) && |row| == ROW_BYTES && AddressOk(row)
    requires IsOpen(st, Magazine(row)) && 1 <= PacketNumber(row) <= 25
    ensures Reachable(CacheText(st, row))
  {
    assert CacheText(st, row).entries.Keys == st.entries.Keys;
  }

  lemma HeaderReachable(st: State, row: seq<bv8>)
    requires Reachable(st) && |row| == ROW_BYTES && AddressOk(row)
    ensures var m := Magazine(row);
      var st1 := if IsOpen(st, m) then Flush(st, m) else st;
      Reachable(st1) && Flushed(st1, m) && Reachable(OpenHeader(st1, m, row))
  {
    var m := Magazine(row);
    var st1 := if IsOpen(st, m) then Flush(st, m) else st;
    if IsOpen(st, m) {
      FlushReachable(st, m);
    }
    OpenHeaderReachable(st1, row);
  }

  lemma OpenHeaderReachable(st: State, row: seq<bv8>)
    requires Reachable(st) && |row| == ROW_BYTES && AddressOk(row) && Flushed(st, Magazine(row))
    ensures Reachable(OpenHeader(st, Magazine(row), row))
    ensures var m := Magazine(row);
      if HeaderOk(row) then
        IsKey(HeaderKey(row)) && OpenHeader(st, m, row) == Opened(st, m, HeaderKey(row), row)
      else
        exists page, sub :: (page == -1 || sub == -1) && OpenHeader(st, m, row) == Address(st, m, page, sub)
  {
    var m := Magazine(row);
    if HeaderOk(row) {
      HeaderKeyInBounds(row);
      StepsOpen(st, m, HeaderKey(row), row);
      OpenedReachable(st, m, HeaderKey(row), row);
      hide Opened;
      hide StoreHeader;
      hide Load;
      hide Allocate;
    } else {
      ClosesReachable(st, m, -1, st.sub[m]);
      ClosesReachable(st, m, HeaderPage(row), -1);
      hide Reachable;
    }
  }

  /** A header means what it means to the plain map. */
  lemma HeaderRefines(st: State, row: seq<bv8>, s: Plain)
    requires Means(st, s) && |row| == ROW_BYTES && AddressOk(row)
    ensures Means(CacheHeader(st, row), Header(s, row))
  {
    var m := Magazine(row);
    HeaderReachable(st, row);
    var st1 := if IsOpen(st, m) then Flush(st, m) else st;
    if IsOpen(st, m) {
      FlushKeeps(st, m, s);
    }
    OpenHeaderReachable(st1, row);
    hide Flush;
    hide OpenHeader;
    hide Means;
    hide Header;
    OpenHeaderRefines(st1, row, s);
    if HeaderOk(row) && IsDec(HeaderPage(row)) {
      MeansReachable(OpenHeader(st1, m, row), Header(s, row));
      WatchKeeps(OpenHeader(st1, m, row), m, Header(s, row));
    }
    hide Watch;
  }

  lemma MeansReachable(st: State, s: Plain)
    requires Means(st, s)
    ensures Reachable(st)
  {
  }

  lemma OpenHeaderRefines(st: State, row: seq<bv8>, s: Plain)
    requires Means(st, s) && |row| == ROW_BYTES && AddressOk(row) && Flushed(st, Magazine(row))
    ensures Means(OpenHeader(st, Magazine(row), row), Header(s, row))
  {
    var m := Magazine(row);
    OpenHeaderReachable(st, row);
    if HeaderOk(row) {
      Opens(st, m, row, s);
    } else {
      Closes(st, m, -1, st.sub[m], s);
      Closes(st, m, HeaderPage(row), -1, s);
    }
    hide Means;
    hide Opened;
  }

  /** A text packet means what it means to the plain map. */
  lemma TextRefines(st: State, row: seq<bv8>, s: Plain)
    requires Means(st, s) && WellFormed(s) && |row| == ROW_BYTES && AddressOk(row)
    requires IsOpen(st, Magazine(row)) && 1 <= PacketNumber(row) <= 25
    ensures Magazine(row) in s.open
    ensures Means(CacheText(st, row), Text(s, row))
  {
    var m := Magazine(row);
    var k := Current(st, m);
    var st' := CacheText(st, row);
    TextReachable(st, row);
    assert m in s.open && s.open[m] == k && k in st.entries && Live(st, k);
    assert SameOpen(st', Text(s, row));
    TextPages(st, row, s);
  }

  lemma TextOthers(st: State, row: seq<bv8>, l: Key)
    requires Reachable(st) && |row| == ROW_BYTES && AddressOk(row)
    requires IsOpen(st, Magazine(row)) && 1 <= PacketNumber(row) <= 25
    requires l in st.entries && l != Current(st, Magazine(row))
    ensures Reachable(CacheText(st, row)) && CacheText(st, row).entries.Keys == st.entries.Keys
    ensures Read(CacheText(st, row), l) == Read(st, l)
  {
    TextReachable(st, row);
  }

  lemma TextOwn(st: State, row: seq<bv8>, s: Plain)
    requires Means(st, s) && WellFormed(s) && |row| == ROW_BYTES && AddressOk(row)
    requires IsOpen(st, Magazine(row)) && 1 <= PacketNumber(row) <= 25 && Magazine(row) in s.open
    ensures Reachable(CacheText(st, row))
    ensures var k := Current(st, Magazine(row));
      Text(s, row) == s.(pages := s.pages[k := Read(CacheText(st, row), k)])
  {
    TextReachable(st, row);
    var m := Magazine(row);
    var k := Current(st, m);
    assert s.pages[k] == Read(st, k) == st.entries[k].(body := st.buffers[m]);
    assert Live(CacheText(st, row), k);
  }

  lemma TextPages(st: State, row: seq<bv8>, s: Plain)
    requires Means(st, s) && WellFormed(s) && |row| == ROW_BYTES && AddressOk(row)
    requires IsOpen(st, Magazine(row)) && 1 <= PacketNumber(row) <= 25 && Magazine(row) in s.open
    ensures Sized(CacheText(st, row)) && SamePages(CacheText(st, row), Text(s, row))
  {
    hide CacheText;
    hide Text;
    hide Read;
    var k := Current(st, Magazine(row));
    TextReachable(st, row);
    TextKeys(st, row);
    TextOwn(st, row, s);
    forall l | l in st.entries && l != k
      ensures Read(CacheText(st, row), l) == Read(st, l)
    {
      TextOthers(st, row, l);
    }
  }

  lemma TextKeys(st: State, row: seq<bv8>)
    requires Reachable(st) && |row| == ROW_BYTES && AddressOk(row)
    requires IsOpen(st, Magazine(row)) && 1 <= PacketNumber(row) <= 25
    ensures CacheText(st, row).entries.Keys == st.entries.Keys
  {
  }

  lemma WatchTextRefines(st: State, row: seq<bv8>, s: Plain)
    requires Means(st, s) && WellFormed(s) && |row| == ROW_BYTES && AddressOk(row)
    requires IsOpen(st, Magazine(row)) && 1 <= PacketNumber(row) <= 25
    ensures Magazine(row) in s.open && Means(WatchText(st, row), Text(s, row))
  {
    TextRefines(st, row, s);
    hide Means;
    hide CacheText;
    hide Text;
    TextReachable(st, row);
    WatchKeeps(CacheText(st, row), Magazine(row), Text(s, row));
  }

  lemma SameMagazines(st: State, s: Plain, m: int)
    requires Means(st, s) && 1 <= m < MAGAZINES
    ensures Reachable(st) && (m in s.open <==> IsOpen(st, m))
  {
  }

  /** The central step: whatever the packet, the cache keeps standing for the plain state. */
  lemma StepRefines(st: State, row: seq<bv8>, s: Plain)
    requires Means(st, s) && WellFormed(s) && |row| == ROW_BYTES
    ensures Means(CacheStep(st, row), Step(s, row))
  {
    MeansReachable(st, s);
    hide Means;
    hide CacheHeader;
    hide WatchText;
    hide WatchLinks;
    hide Text;
    hide Header;
    hide Watch;
    hide Reachable;
    if AddressOk(row) {
      var m, n := Magazine(row), PacketNumber(row);
      SameMagazines(st, s, m);
      if n == 0 {
        HeaderRefines(st, row, s);
      } else if !(n == 29 && Ham(row[2]) == 0) && IsOpen(st, m) && n <= 25 {
        WatchTextRefines(st, row, s);
      } else if IsOpen(st, m) && n == 27 && Ham(row[2]) == 0 {
        WatchLinksKeeps(st, row, s);
      } else {
        WatchKeeps(st, m, s);
      }
    }
  }

  // ----- whole runs

  /** What happens to the cache: a packet arrives, or the viewer shows another page. */
  datatype Event = Packet(row: seq<bv8>) | Show(page: int)

  predicate IsEvent(e: Event) {
    match e
    case Packet(row) => |row| == ROW_BYTES
    case Show(page) => 0 <= page < PAGES
  }

  function CacheEvent(st: State, e: Event): (st': State)
    requires Reachable(st) && IsEvent(e)
  {
    match e
    case Packet(row) => CacheStep(st, row)
    case Show(page) => st.(shown := page)
  }

  function PlainEvent(s: Plain, e: Event): (s': Plain)
    requires WellFormed(s) && IsEvent(e)
    ensures WellFormed(s')
  {
    match e
    case Packet(row) => Step(s, row)
    case Show(_) => s
  }

  /** The cleared cache. */
  predicate Cleared(st: State) {
    && Sized(st) && st.entries == map[] && st.cached == 0
    && (forall m :: 0 <= m < MAGAZINES ==> st.cur[m] == -1 && st.sub[m] == -1)
    && (forall p :: 0 <= p < PAGES ==> st.subs[p] == UNSET && st.links[p] == [0, 0, 0, 0])
  }

  predicate AreEvents(events: seq<Event>) {
    forall i :: 0 <= i < |events| ==> IsEvent(events[i])
  }

  function PlainRun(s: Plain, events: seq<Event>): (s': Plain)
    requires WellFormed(s) && AreEvents(events)
    ensures WellFormed(s')
  {
    if events == [] then s else PlainEvent(PlainRun(s, events[..|events| - 1]), events[|events| - 1])
  }

  lemma ClearedMeansNothing(st: State)
    requires Cleared(st)
    ensures Means(st, NOTHING)
  {
  }

  lemma ClearedIsReachable(st: State)
    requires Cleared(st)
    ensures Reachable(st)
  {
  }

  lemma ShowReachable(st: State, page: int)
    requires Reachable(st) && 0 <= page < PAGES
    ensures Reachable(st.(shown := page))
  {
    assert OpenAllocated(st.(shown := page)) && IndexExact(st.(shown := page));
  }

  lemma ShowKeeps(st: State, page: int, s: Plain)
    requires Means(st, s) && 0 <= page < PAGES
    ensures Means(st.(shown := page), s)
  {
    hide Reachable;
    MeansReachable(st, s);
    ShowReachable(st, page);
    var st' := st.(shown := page);
    ShowSame(st, page, s);
  }

  lemma ShowSame(st: State, page: int, s: Plain)
    requires Sized(st) && SamePages(st, s) && SameOpen(st, s) && 0 <= page < PAGES
    ensures Sized(st.(shown := page)) && SamePages(st.(shown := page), s) && SameOpen(st.(shown := page), s)
  {
    var st' := st.(shown := page);
    assert forall k :: k in st.entries ==> Read(st', k) == Read(st, k);
  }

  lemma EventRefines(st: State, e: Event, s: Plain)
    requires Means(st, s) && WellFormed(s) && IsEvent(e)
    ensures Reachable(st) && Means(CacheEvent(st, e), PlainEvent(s, e))
  {
    MeansReachable(st, s);
    hide Means;
    hide CacheStep;
    hide Step;
    hide Reachable;
    match e
    case Packet(row) => StepRefines(st, row, s);
    case Show(page) => ShowKeeps(st, page, s);
  }

  lemma EventReachable(st: State, e: Event)
    requires Reachable(st) && IsEvent(e)
    ensures Reachable(CacheEvent(st, e))
  {
    EventRefines(st, e, Meaning(st));
    MeansReachable(CacheEvent(st, e), PlainEvent(Meaning(st), e));
    hide Means;
    hide CacheEvent;
    hide PlainEvent;
  }

  ghost function CacheRun(st: State, events: seq<Event>): (st': State)
    requires Reachable(st) && AreEvents(events)
    ensures Reachable(st')
  {
    if events == [] then st
    else
      var front := CacheRun(st, events[..|events| - 1]);
      EventReachable(front, events[|events| - 1]);
      CacheEvent(front, events[|events| - 1])
  }

  /**
    For every sequence of packets and of pages shown in between, starting from a cleared cache: the tables
    stay sound, and what a reader of the cache sees is what the plain map holds.
   */
  lemma {:induction false} RunRefines(st: State, events: seq<Event>)
    requires Cleared(st) && AreEvents(events)
    ensures Reachable(st) && Means(CacheRun(st, events), PlainRun(NOTHING, events))
  {
    ClearedMeansNothing(st);
    MeansReachable(st, NOTHING);
    hide Means;
    hide Reachable;
    hide CacheEvent;
    hide PlainEvent;
    if events != [] {
      var front := events[..|events| - 1];
      RunRefines(st, front);
      EventRefines(CacheRun(st, front), events[|events| - 1], PlainRun(NOTHING, front));
    }
  }

  /** In particular every page reads as the plain map has it, and pages never received read as spaces. */
  lemma RunReads(st: State, events: seq<Event>, k: Key)
    requires Cleared(st) && AreEvents(events)
    ensures Reachable(st)
    ensures var s := PlainRun(NOTHING, events);
      Read(CacheRun(st, events), k) == if k in s.pages then s.pages[k] else EMPTY_PAGE
  {
    RunRefines(st, events);
    hide CacheRun;
    hide PlainRun;
  }
}
