/**
  The teletext cache as the program holds it: struct tuxtxt_cache_struct together with the row buffers of
  tuxtxt_CacheThread. Every method is proved against the function of TxtRefine it implements.
 */
module TxtCache {
  import opened PageCodec
  import opened TxtTables
  import opened CachedPages
  import opened TxtPlain
  import opened TxtRefine
  import TopTable

  class Cache {
    var table: map<Key, CachedPage>        // astCachetable; an absent key is a null pointer
    const subpagetable: array<int>
    const currentPage: array<int>
    const currentSubpage: array<int>
    const pagedata: seq<array<bv8>>       // the live row buffers, one per magazine
    var flofpages: seq<seq<int>>
    var cachedPages: int
    var page: int                          // the page on display

    ghost var Repr: set<object>

    ghost predicate Shape()
      reads this, Repr
    {
      && this in Repr && subpagetable in Repr && currentPage in Repr && currentSubpage in Repr
      && subpagetable.Length == PAGES && currentPage.Length == MAGAZINES && currentSubpage.Length == MAGAZINES
      && currentPage != currentSubpage && currentPage != subpagetable && currentSubpage != subpagetable
      && 0 <= page < PAGES && |flofpages| == PAGES
      && |pagedata| == MAGAZINES
      && (forall i :: 0 <= i < MAGAZINES ==> pagedata[i] in Repr && pagedata[i].Length == PAGE_BYTES)
      && (forall i, j :: 0 <= i < j < MAGAZINES ==> pagedata[i] != pagedata[j])
      && (forall k :: k in table ==> IsKey(k) && table[k] in Repr && table[k].Valid())
      && (forall k, l :: k in table && l in table && k != l ==> table[k] != table[l])
    }

    /** The table with every page decompressed. */
    ghost function Entries(): (entries: map<Key, PlainPage>)
      requires Shape()
      reads this, Repr
      ensures entries.Keys == table.Keys
      ensures forall k :: k in entries ==> IsKey(k) && IsPage(entries[k])
    {
      map k | k in table :: Content(table[k])
    }

    ghost function Buffers(): map<int, seq<bv8>>
      requires Shape()
      reads this, Repr
    {
      map m | 0 <= m < MAGAZINES :: pagedata[m][..]
    }

    /** The state as values. */
    ghost function Snap(): (st: State)
      requires Shape()
      reads this, Repr
      ensures Sized(st)
    {
      State(Entries(), currentPage[..], currentSubpage[..], subpagetable[..], Buffers(), flofpages, cachedPages, page)
    }

    ghost predicate Valid()
      reads this, Repr
    {
      Shape() && Reachable(Snap())
    }

    /** tuxtxt_clear_cache */
    constructor ()
      ensures Valid() && fresh(Repr) && Cleared(Snap())
    {
      table := map[];
      subpagetable := new int[PAGES](_ => UNSET);
      currentPage := new int[MAGAZINES](_ => -1);
      currentSubpage := new int[MAGAZINES](_ => -1);
      var buffers, own := NewBuffers();
      pagedata := buffers;
      flofpages := seq(PAGES, _ => [0, 0, 0, 0]);
      cachedPages := 0;
      page := 0x100;
      Repr := {this, subpagetable, currentPage, currentSubpage} + own;
      new;
      EmptyIsCleared();
      hide Shape;
      hide Snap;
      hide Cleared;
      ClearedMeansNothing(Snap());
    }

    /** tuxtxt_clear_cache on a cache in use; the thread keeps its row buffers. */
    method Clear()
      requires Valid()
      modifies this`table, this`cachedPages, this`flofpages, subpagetable, currentPage, currentSubpage
      ensures Valid() && Cleared(Snap()) && page == old(page)
    {
      hide CachedPage.Valid;
      hide Reachable;
      cachedPages := 0;
      forall p | 0 <= p < PAGES {
        subpagetable[p] := UNSET;
      }
      forall m | 0 <= m < MAGAZINES {
        currentPage[m] := -1;
      }
      forall m | 0 <= m < MAGAZINES {
        currentSubpage[m] := -1;
      }
      table := map[];
      flofpages := seq(PAGES, _ => [0, 0, 0, 0]);
      EmptyIsCleared();
      ClearedIsReachable(Snap());
    }

    lemma EmptyIsCleared()
      requires Shape() && table == map[] && cachedPages == 0 && flofpages == seq(PAGES, _ => [0, 0, 0, 0])
      requires forall m :: 0 <= m < MAGAZINES ==> currentPage[m] == -1 && currentSubpage[m] == -1
      requires forall p :: 0 <= p < PAGES ==> subpagetable[p] == UNSET
      ensures Cleared(Snap())
    {
    }

    twostate lemma EntryShape(k: Key)
      requires old(Shape()) && k in table && table == old(table) && Repr == old(Repr) && page == old(page)
      requires flofpages == old(flofpages)
      requires forall l :: l in table && l != k ==> unchanged(table[l])
      requires table[k].Valid()
      ensures Shape()
    {
      hide CachedPage.Valid;
    }

    /** A change of one entry changes that entry of the snapshot. */
    twostate lemma EntryChanged(k: Key)
      requires old(Shape()) && Shape() && k in table && table == old(table)
      requires forall l :: l in table && l != k ==> unchanged(table[l])
      ensures Entries() == old(Entries())[k := Content(table[k])]
    {
      hide CachedPage.Valid;
      hide CachedPage.Page;
      forall l | l in table && l != k
        ensures Content(table[l]) == old(Content(table[l]))
      {
      }
    }

    twostate lemma BuffersKept()
      requires old(Shape()) && Shape()
      requires forall i :: 0 <= i < MAGAZINES ==> unchanged(pagedata[i])
      ensures Buffers() == old(Buffers())
    {
      assert forall i :: 0 <= i < MAGAZINES ==> pagedata[i][..] == old(pagedata[i][..]);
      hide Shape;
    }

    /** tuxtxt_compress_page on the current page of a magazine */
    method WriteBack(m: int)
      requires Valid() && 1 <= m < MAGAZINES && IsOpen(Snap(), m)
      modifies Repr
      ensures Valid() && Repr == old(Repr) && Snap() == Flush(old(Snap()), m)
    {
      hide CachedPage.Valid;
      hide CachedPage.Page;
      FlushReachable(Snap(), m);
      var k := (currentPage[m], currentSubpage[m]);
      assert k in Snap().entries;
      CompressEntry(k, pagedata[m]);
      assert Buffers()[m] == pagedata[m][..];
      hide Shape;
      hide Entries;
      hide Buffers;
    }

    method CompressEntry(k: Key, buffer: array<bv8>)
      requires Shape() && k in table && buffer in pagedata
      modifies table[k]
      ensures Shape()
      ensures Entries() == old(Entries())[k := old(Entries())[k].(body := buffer[..])]
      ensures Buffers() == old(Buffers()) && unchanged(currentPage, currentSubpage, subpagetable)
    {
      hide CachedPage.Valid;
      hide CachedPage.Page;
      table[k].Compress(buffer);
      EntryShape(k);
      EntryChanged(k);
      BuffersKept();
      hide Shape;
    }

    method SetAddress(m: int, page: int, sub: int)
      requires Shape() && 1 <= m < MAGAZINES
      modifies currentPage, currentSubpage
      ensures Shape() && Snap() == Address(old(Snap()), m, page, sub)
    {
      currentPage[m] := page;
      currentSubpage[m] := sub;
      hide CachedPage.Valid;
      EntriesKept();
      BuffersKept();
    }

    /** subpagetable and tuxtxt_allocate_cache */
    method AllocateCache(k: Key)
      requires Shape() && IsKey(k)
      modifies this`table, this`cachedPages, this`Repr, subpagetable
      ensures Shape() && fresh(Repr - old(Repr)) && k in table && Snap() == Allocate(old(Snap()), k)
    {
      NoteSubpage(k);
      if k !in table {
        AddEntry(k);
      }
      hide Shape;
      hide Entries;
      hide Buffers;
    }

    method NoteSubpage(k: Key)
      requires Shape() && IsKey(k)
      modifies subpagetable
      ensures Shape() && Snap() == old(Snap()).(subs := old(Snap()).subs[k.0 := k.1])
    {
      subpagetable[k.0] := k.1;
      hide CachedPage.Valid;
      EntriesKept();
      BuffersKept();
    }

    method AddEntry(k: Key)
      requires Shape() && IsKey(k) && k !in table
      modifies this`table, this`cachedPages, this`Repr
      ensures Shape() && fresh(Repr - old(Repr)) && k in table
      ensures Entries() == old(Entries())[k := EMPTY_PAGE] && Buffers() == old(Buffers())
      ensures cachedPages == old(cachedPages) + 1
    {
      var pg := new CachedPage();
      table := table[k := pg];
      Repr := Repr + {pg};
      cachedPages := cachedPages + 1;
      assert Content(pg) == EMPTY_PAGE;
      hide CachedPage.Valid;
      hide Content;
      EntryAddedShape(k, pg);
      EntryAdded(k, pg);
      BuffersKept();
      hide Shape;
      hide Buffers;
      hide Entries;
    }

    twostate lemma EntryAddedShape(k: Key, new pg: CachedPage)
      requires old(Shape()) && IsKey(k) && table == old(table)[k := pg] && Repr == old(Repr) + {pg} && page == old(page)
      requires flofpages == old(flofpages)
      requires pg !in old(Repr) && pg.Valid()
      requires forall l :: l in old(table) ==> unchanged(old(table)[l])
      ensures Shape()
    {
      hide CachedPage.Valid;
    }

    twostate lemma EntryAdded(k: Key, new pg: CachedPage)
      requires old(Shape()) && Shape() && k !in old(table) && table == old(table)[k := pg] && pg.Valid()
      requires forall l :: l in old(table) ==> unchanged(old(table)[l])
      ensures Entries() == old(Entries())[k := Content(pg)]
    {
      hide CachedPage.Valid;
      hide CachedPage.Page;
      forall l | l in old(table)
        ensures Content(table[l]) == old(Content(table[l]))
      {
      }
    }

    twostate lemma EntriesKept()
      requires old(Shape()) && Shape() && table == old(table)
      requires forall l :: l in table ==> unchanged(table[l])
      ensures Entries() == old(Entries())
    {
      hide CachedPage.Valid;
      hide CachedPage.Page;
      forall l | l in table
        ensures Content(table[l]) == old(Content(table[l]))
      {
      }
    }

    /** tuxtxt_decompress_page into a live buffer */
    method LoadPage(m: int, k: Key)
      requires Shape() && 0 <= m < MAGAZINES && k in table
      modifies pagedata[m]
      ensures Shape() && Snap() == Load(old(Snap()), m, k)
    {
      hide CachedPage.Valid;
      hide CachedPage.Page;
      table[k].Decompress(pagedata[m]);
      BufferChanged(m);
    }

    /** A change of one buffer changes that buffer of the snapshot. */
    twostate lemma BufferChanged(m: int)
      requires old(Shape()) && Repr == old(Repr) && table == old(table) && page == old(page) && 0 <= m < MAGAZINES
      requires flofpages == old(flofpages)
      requires forall o :: o in Repr && o != pagedata[m] ==> unchanged(o)
      ensures Shape() && Entries() == old(Entries()) && Buffers() == old(Buffers())[m := pagedata[m][..]]
    {
      hide CachedPage.Valid;
      hide CachedPage.Page;
      assert Shape();
      forall l | l in table
        ensures Content(table[l]) == old(Content(table[l]))
      {
      }
      assert forall i :: 0 <= i < MAGAZINES && i != m ==> pagedata[i][..] == old(pagedata[i][..]);
    }

    /** Control bit C4 and the centre of line 0. */
    method StoreHeaderRow(m: int, k: Key, row: seq<bv8>)
      requires Shape() && 0 <= m < MAGAZINES && k in table && |row| == ROW_BYTES
      modifies Repr
      ensures Shape() && Repr == old(Repr) && table == old(table)
      ensures Snap() == StoreHeader(old(Snap()), m, k, row)
    {
      hide Ham;
      hide Shape;
      hide Snap;
      Frames();
      if Ham(row[5]) / 8 % 2 == 1 {
        ErasePage(m, k);
      }
      StoreHeadline(k, row);
    }

    method ErasePage(m: int, k: Key)
      requires Shape() && 0 <= m < MAGAZINES && k in table
      modifies table[k], pagedata[m]
      ensures Shape() && k in Snap().entries
      ensures Snap() == old(Snap()).(entries := old(Snap()).entries[k := old(Snap()).entries[k].(body := Blank())],
                                     buffers := old(Snap()).buffers[m := Blank()])
    {
      EraseEntry(k);
      label between:
      FillBlank(pagedata[m]);
      BufferChanged@between(m);
      hide Shape;
      hide Entries;
      hide Buffers;
    }

    method EraseEntry(k: Key)
      requires Shape() && k in table
      modifies table[k]
      ensures Shape()
      ensures Entries() == old(Entries())[k := old(Entries())[k].(body := Blank())] && Buffers() == old(Buffers())
    {
      table[k].Erase();
      hide CachedPage.Valid;
      hide CachedPage.Page;
      EntryShape(k);
      EntryChanged(k);
      BuffersKept();
      hide Shape;
    }

    method StoreHeadline(k: Key, row: seq<bv8>)
      requires Shape() && k in table && |row| == ROW_BYTES
      modifies table[k]
      ensures Shape() && k in old(Snap()).entries
      ensures var st := old(Snap());
        Snap() == st.(entries := st.entries[k := st.entries[k].(headline := Headline(row))])
    {
      var p := HeadlineBytes(row);
      SetHeadline(table[k], p);
      hide CachedPage.Valid;
      hide CachedPage.Page;
      EntryShape(k);
      EntryChanged(k);
      BuffersKept();
      hide Shape;
      hide Entries;
      hide Buffers;
    }

    // What the methods below need to know of the heap.

    lemma Frames()
      requires Shape()
      ensures this in Repr && currentPage in Repr && currentSubpage in Repr && subpagetable in Repr
      ensures currentPage.Length == MAGAZINES && currentSubpage.Length == MAGAZINES && |pagedata| == MAGAZINES
      ensures forall m :: 0 <= m < MAGAZINES ==> pagedata[m] in Repr
      ensures forall k :: k in table ==> table[k] in Repr
      ensures Snap().entries.Keys == table.Keys
      ensures forall m :: 0 <= m < MAGAZINES ==> Snap().cur[m] == currentPage[m] && Snap().sub[m] == currentSubpage[m]
      ensures Snap().shown == page
    {
    }

    lemma OpenEntry(m: int)
      requires Valid() && 1 <= m < MAGAZINES && IsOpen(Snap(), m)
      ensures Current(Snap(), m) in table
    {
    }

    /** Packets 1 to 25 of an open page. */
    method StoreText(m: int, n: int, row: seq<bv8>)
      requires Valid() && |row| == ROW_BYTES && AddressOk(row) && m == Magazine(row) && n == PacketNumber(row)
      requires IsOpen(Snap(), m) && 1 <= n <= 25
      modifies Repr
      ensures Valid() && Repr == old(Repr) && Snap() == CacheText(old(Snap()), row)
    {
      hide Ham;
      hide Shape;
      hide Snap;
      hide Reachable;
      hide Payload;
      hide Overwrite;
      TextReachable(Snap(), row);
      Frames();
      OpenEntry(m);
      var k := (currentPage[m], currentSubpage[m]);
      if n < 24 {
        WriteBuffer(m, 40 * (n - 1), k.0, row);
      } else {
        WriteExtra(k, 40 * (n - 24), row);
      }
    }

    method WriteBuffer(m: int, at: nat, page: int, row: seq<bv8>)
      requires Shape() && 0 <= m < MAGAZINES && |row| == ROW_BYTES && at + 40 <= PAGE_BYTES
      modifies pagedata[m]
      ensures Shape() && m in old(Snap()).buffers
      ensures var st := old(Snap());
        Snap() == st.(buffers := st.buffers[m := Overwrite(st.buffers[m], at, Payload(page, row))])
    {
      WriteRow(pagedata[m], at, page, row);
      BufferChanged(m);
      hide Shape;
      hide Entries;
    }

    method WriteExtra(k: Key, at: nat, row: seq<bv8>)
      requires Shape() && k in table && |row| == ROW_BYTES && at + 40 <= EXTRA_BYTES
      modifies table[k]
      ensures Shape() && k in old(Snap()).entries
      ensures var st := old(Snap());
        var page := st.entries[k];
        var extra := if page.extra == [] then EmptyExtra() else page.extra;
        Snap() == st.(entries := st.entries[k := page.(extra := Overwrite(extra, at, Payload(k.0, row)))])
    {
      SetExtra(table[k], at, k.0, row);
      hide CachedPage.Valid;
      hide CachedPage.Page;
      EntryShape(k);
      EntryChanged(k);
      BuffersKept();
      hide Shape;
      hide Entries;
      hide Buffers;
    }

    /** The update check at the end of the loop body. */
    method WatchDisplay(m: int)
      requires Valid() && 1 <= m < MAGAZINES
      modifies Repr
      ensures Valid() && Repr == old(Repr) && Snap() == Watch(old(Snap()), m)
    {
      if currentPage[m] == page && currentSubpage[m] != -1 {
        WriteBack(m);
      }
    }

    /** Packet 0: the write-back, then the page number, the subpage number, and the page they open. */
    method ProcessHeader(m: int, row: seq<bv8>)
      requires Valid() && |row| == ROW_BYTES && AddressOk(row) && m == Magazine(row)
      modifies Repr
      ensures Valid() && fresh(Repr - old(Repr)) && Snap() == CacheHeader(old(Snap()), row)
    {
      hide Ham;
      hide Shape;
      hide Snap;
      hide Reachable;
      hide OpenHeader;
      hide Flush;
      hide Watch;
      HeaderReachable(Snap(), row);
      FlushOpen(m);
      ReadHeader(m, row);
      if HeaderOk(row) && IsDec(HeaderPage(row)) {
        WatchDisplay(m);
      }
    }

    method FlushOpen(m: int)
      requires Valid() && 1 <= m < MAGAZINES
      modifies Repr
      ensures Valid() && Repr == old(Repr) && Flushed(Snap(), m)
      ensures Snap() == if IsOpen(old(Snap()), m) then Flush(old(Snap()), m) else old(Snap())
    {
      hide Shape;
      hide Snap;
      hide Reachable;
      Frames();
      if currentPage[m] != -1 && currentSubpage[m] != -1 {
        FlushReachable(Snap(), m);
        WriteBack(m);
      }
    }

    method ReadHeader(m: int, row: seq<bv8>)
      requires Valid() && |row| == ROW_BYTES && AddressOk(row) && m == Magazine(row) && Flushed(Snap(), m)
      modifies Repr
      ensures Valid() && fresh(Repr - old(Repr)) && Snap() == OpenHeader(old(Snap()), m, row)
    {
      hide Shape;
      hide Snap;
      hide Reachable;
      hide Opened;
      hide Ham;
      hide Address;
      hide Allocate;
      hide Load;
      hide StoreHeader;
      OpenHeaderReachable(Snap(), row);
      Frames();
      var b2, b3 := Ham(row[3]), Ham(row[2]);
      if b2 == 0xFF || b3 == 0xFF {
        SetAddress(m, -1, currentSubpage[m]);
      } else if b2 == 0xF && b3 == 0xF {
        SetAddress(m, m * 0x100 + b2 * 16 + b3, -1);
      } else if Ham(row[7]) == 0xFF || Ham(row[6]) == 0xFF || Ham(row[5]) == 0xFF || Ham(row[4]) == 0xFF {
        SetAddress(m, m * 0x100 + b2 * 16 + b3, -1);
      } else {
        HeaderKeyInBounds(row);
        OpenPage(m, HeaderKey(row), row);
      }
    }

    method OpenPage(m: int, k: Key, row: seq<bv8>)
      requires Shape() && 1 <= m < MAGAZINES && IsKey(k) && |row| == ROW_BYTES
      modifies Repr
      ensures Shape() && fresh(Repr - old(Repr)) && Snap() == Opened(old(Snap()), m, k, row)
    {
      hide Shape;
      hide Snap;
      hide Opened;
      hide Address;
      hide Allocate;
      hide Load;
      hide StoreHeader;
      Frames();
      StepsOpen(Snap(), m, k, row);
      SetAddress(m, k.0, k.1);
      AllocateCache(k);
      LoadPage(m, k);
      StoreHeaderRow(m, k, row);
    }

    /** One row of a packet, as in the body of the line loop of tuxtxt_CacheThread. */
    method ProcessRow(row: seq<bv8>)
      requires Valid() && |row| == ROW_BYTES
      modifies Repr
      ensures Valid() && fresh(Repr - old(Repr)) && Snap() == CacheStep(old(Snap()), row)
    {
      hide Ham;
      hide Shape;
      hide Snap;
      hide Reachable;
      hide CacheHeader;
      hide CacheText;
      hide Watch;
      Frames();
      var b1, b2 := Ham(row[0]), Ham(row[1]);
      if b1 == 0xFF || b2 == 0xFF {
        return;
      }
      var n := b1 / 8 % 2 + 2 * b2;
      var m := if b1 % 8 == 0 then 8 else b1 % 8;
      if n == 0 {
        ProcessHeader(m, row);
      } else if n == 29 && Ham(row[2]) == 0 {
        WatchDisplay(m);
      } else if currentPage[m] != -1 && currentSubpage[m] != -1 && n <= 25 {
        StoreText(m, n, row);
        WatchDisplay(m);
      } else if currentPage[m] != -1 && currentSubpage[m] != -1 && 26 <= n <= 28 && Ham(row[2]) == 0xFF {
      } else if currentPage[m] != -1 && currentSubpage[m] != -1 && n == 27 && Ham(row[2]) == 0 {
        StoreLinks(m, row);
        WatchDisplay(m);
      } else {
        WatchDisplay(m);
      }
    }

    /** Packet 27/0 of an open page. */
    method StoreLinks(m: int, row: seq<bv8>)
      requires Valid() && |row| == ROW_BYTES && m == Magazine(row) && IsOpen(Snap(), m)
      modifies this`flofpages
      ensures Valid() && Snap() == CacheLinks(old(Snap()), row)
    {
      hide Shape;
      hide Snap;
      hide Reachable;
      hide TopTable.LinksAfter;
      LinksReachable(Snap(), row);
      OpenPageInBounds(Snap(), m);
      Frames();
      PageLinks(m);
      var p := currentPage[m];
      var links := TopTable.DecodeFlof(row, flofpages[p]);
      flofpages := flofpages[p := links];
      LinksStored();
    }

    lemma PageLinks(m: int)
      requires Valid() && 1 <= m < MAGAZINES && IsOpen(Snap(), m)
      ensures |flofpages| == PAGES && 0 <= currentPage[m] < PAGES && |flofpages[currentPage[m]]| == TopTable.FLOFSIZE
      ensures Snap().links == flofpages
    {
      OpenPageInBounds(Snap(), m);
    }

    twostate lemma LinksStored()
      requires old(Shape()) && |flofpages| == PAGES && table == old(table) && Repr == old(Repr) && page == old(page)
      requires cachedPages == old(cachedPages) && forall o :: o in Repr && o != this ==> unchanged(o)
      ensures Shape() && Snap() == old(Snap()).(links := flofpages)
    {
      hide CachedPage.Valid;
      LinksStoredShape();
      EntriesKept();
      BuffersKept();
      hide Entries;
      hide Buffers;
    }

    twostate lemma LinksStoredShape()
      requires old(Shape()) && |flofpages| == PAGES && table == old(table) && Repr == old(Repr) && page == old(page)
      requires forall o :: o in Repr && o != this ==> unchanged(o)
      ensures Shape()
    {
      hide CachedPage.Valid;
    }

    /** The viewer turns to another page. */
    method ShowPage(p: int)
      requires Valid() && 0 <= p < PAGES
      modifies this`page
      ensures Valid() && Snap() == old(Snap()).(shown := p)
    {
      hide Shape;
      hide Snap;
      hide Reachable;
      ShowReachable(Snap(), p);
      page := p;
      Shown(p);
    }

    twostate lemma Shown(p: int)
      requires old(Shape()) && 0 <= p < PAGES && page == p
      requires table == old(table) && Repr == old(Repr)
      requires cachedPages == old(cachedPages) && flofpages == old(flofpages)
      requires forall o :: o in Repr && o != this ==> unchanged(o)
      ensures Shape() && Snap() == old(Snap()).(shown := p)
    {
      hide CachedPage.Valid;
      ShownShape(p);
      EntriesKept();
      BuffersKept();
      hide Entries;
      hide Buffers;
    }

    twostate lemma ShownShape(p: int)
      requires old(Shape()) && 0 <= p < PAGES && page == p && table == old(table) && Repr == old(Repr)
      requires flofpages == old(flofpages)
      requires forall o :: o in Repr && o != this ==> unchanged(o)
      ensures Shape()
    {
      hide CachedPage.Valid;
    }

    /** One line of a PES packet: bytes with the other bit order behind a four-byte header. */
    method ProcessLine(line: seq<bv8>)
      requires Valid() && |line| == LINE_BYTES
      modifies Repr
      ensures Valid() && fresh(Repr - old(Repr))
      ensures Snap() == if IsTeletext(line) then CacheStep(old(Snap()), RowOf(line)) else old(Snap())
    {
      hide Shape;
      hide Snap;
      hide Reachable;
      hide CacheStep;
      hide Reversed;
      if line[1] == 0x2C && (line[0] == 0x02 || line[0] == 0x03) {
        var row: seq<bv8> := [];
        for i := 4 to 46
          invariant row == RowOf(line)[..i - 4]
        {
          row := row + [Reversed(line[i])];
        }
        assert row == RowOf(line);
        ProcessRow(row);
      }
    }

    /**
      One read from the demultiplexer, s being what has been received before: afterwards the cache stands
      for s with the teletext lines of the packet replayed.
     */
    method ProcessPes(packet: seq<bv8>, ghost s: Plain)
      requires Valid() && WellFormed(s) && Means(Snap(), s)
      modifies Repr
      ensures Valid() && fresh(Repr - old(Repr))
      ensures Means(Snap(), if |packet| % 184 != 0 then s else Replay(s, RowsOf(packet, |packet| / LINE_BYTES)))
    {
      hide Shape;
      hide Snap;
      hide Reachable;
      hide Means;
      hide CacheStep;
      hide Step;
      hide RowOf;
      hide IsTeletext;
      if |packet| % 184 != 0 {
        return;
      }
      for line := 0 to |packet| / LINE_BYTES
        invariant Valid() && fresh(Repr - old(Repr))
        invariant Means(Snap(), Replay(s, RowsOf(packet, line)))
      {
        ghost var received := Replay(s, RowsOf(packet, line));
        var bytes := packet[line * LINE_BYTES..(line + 1) * LINE_BYTES];
        ReplayLine(packet, line, s);
        StepRefines(Snap(), RowOf(bytes), received);
        ProcessLine(bytes);
      }
    }
  }

  lemma ReplayLine(packet: seq<bv8>, n: nat, s: Plain)
    requires (n + 1) * LINE_BYTES <= |packet| && WellFormed(s)
    ensures var bytes := packet[n * LINE_BYTES..(n + 1) * LINE_BYTES]; var received := Replay(s, RowsOf(packet, n));
      Replay(s, RowsOf(packet, n + 1)) == if IsTeletext(bytes) then Step(received, RowOf(bytes)) else received
  {
    hide Step;
    hide IsTeletext;
    hide RowOf;
    var bytes := packet[n * LINE_BYTES..(n + 1) * LINE_BYTES];
    var front := RowsOf(packet, n);
    if IsTeletext(bytes) {
      assert RowsOf(packet, n + 1) == front + [RowOf(bytes)];
      assert (front + [RowOf(bytes)])[..|front|] == front;
    } else {
      assert RowsOf(packet, n + 1) == front + [] == front;
    }
  }

  /** The rows of the teletext lines among the first n of a packet. */
  function RowsOf(packet: seq<bv8>, n: nat): (rows: seq<seq<bv8>>)
    requires n * LINE_BYTES <= |packet|
    ensures IsRows(rows)
  {
    if n == 0 then []
    else
      var bytes := packet[(n - 1) * LINE_BYTES..n * LINE_BYTES];
      RowsOf(packet, n - 1) + if IsTeletext(bytes) then [RowOf(bytes)] else []
  }

  const LINE_BYTES := 46

  predicate IsTeletext(line: seq<bv8>)
    requires |line| == LINE_BYTES
  {
    line[1] == 0x2C && (line[0] == 0x02 || line[0] == 0x03)
  }

  /** The 42 bytes of a line in the order the tables expect. */
  function RowOf(line: seq<bv8>): (row: seq<bv8>)
    requires |line| == LINE_BYTES
    ensures |row| == ROW_BYTES
  {
    seq(ROW_BYTES, i requires 0 <= i < ROW_BYTES => Reversed(line[i + 4]))
  }

  method SetExtra(pg: CachedPage, at: nat, page: int, row: seq<bv8>)
    requires pg.Valid() && |row| == ROW_BYTES && at + 40 <= EXTRA_BYTES
    modifies pg`p24
    ensures pg.Valid()
    ensures var extra := if old(pg.p24) == [] then EmptyExtra() else old(pg.p24);
      Content(pg) == old(Content(pg)).(extra := Overwrite(extra, at, Payload(page, row)))
  {
    var p := if pg.p24 == [] then EmptyExtra() else pg.p24;
    pg.p24 := Overwrite(p, at, Payload(page, row));
  }

  /** The three ways a text row is stored: parity checked, Hamming decoded, or as it is. */
  method WriteRow(buffer: array<bv8>, at: nat, page: int, row: seq<bv8>)
    requires |row| == ROW_BYTES && at + 40 <= buffer.Length
    modifies buffer
    ensures buffer[..] == Overwrite(old(buffer[..]), at, Payload(page, row))
  {
    hide Deparity;
    hide Dehamming;
    ghost var payload := Payload(page, row);
    for i := 2 to 42
      invariant forall j :: 0 <= j < buffer.Length ==>
        buffer[j] == if at <= j < at + i - 2 then payload[j - at] else old(buffer[j])
    {
      buffer[at + i - 2] :=
        if IsDec(page) then Deparity(row[i]) else if page % 0x100 == 0xFE then Dehamming(row[i]) else row[i];
    }
  }

  method SetHeadline(pg: CachedPage, p: seq<bv8>)
    requires pg.Valid() && |p| == HEADLINE_BYTES
    modifies pg`p0
    ensures pg.Valid() && Content(pg) == old(Content(pg)).(headline := p)
  {
    pg.p0 := p;
  }

  method HeadlineBytes(row: seq<bv8>) returns (p: seq<bv8>)
    requires |row| == ROW_BYTES
    ensures p == Headline(row)
  {
    hide Deparity;
    p := [];
    for i := 10 to 42 - 8
      invariant p == Headline(row)[..i - 10]
    {
      p := p + [Deparity(row[i])];
    }
  }

  method FillBlank(buffer: array<bv8>)
    requires buffer.Length == PAGE_BYTES
    modifies buffer
    ensures buffer[..] == Blank()
  {
    forall i | 0 <= i < buffer.Length {
      buffer[i] := SPACE;
    }
    assert buffer[..] == Blank();
  }

  ghost function Content(p: CachedPage): (c: PlainPage)
    requires p.Valid()
    reads p
    ensures IsPage(c)
  {
    PlainPage(p.Page(), p.p0, p.p24)
  }

  method NewBuffers() returns (buffers: seq<array<bv8>>, ghost own: set<object>)
    ensures |buffers| == MAGAZINES && fresh(own)
    ensures forall i :: 0 <= i < MAGAZINES ==> buffers[i] in own && buffers[i].Length == PAGE_BYTES
    ensures forall i, j :: 0 <= i < j < MAGAZINES ==> buffers[i] != buffers[j]
  {
    buffers, own := [], {};
    while |buffers| < MAGAZINES
      invariant |buffers| <= MAGAZINES && fresh(own)
      invariant forall i :: 0 <= i < |buffers| ==> buffers[i] in own && buffers[i].Length == PAGE_BYTES
      invariant forall i, j :: 0 <= i < j < |buffers| ==> buffers[i] != buffers[j]
      decreases MAGAZINES - |buffers|
    {
      var buffer := new bv8[PAGE_BYTES];
      buffers, own := buffers + [buffer], own + {buffer};
    }
  }
}
