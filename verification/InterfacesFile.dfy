/**
  The reader and the list editor of lib/libnet on the file itself, each proved equal to its function on lines.
 */
module InterfacesFile {
  import opened Basics
  import opened NetLines
  import opened Interfaces

  /** remove_interface_from_line */
  method RemoveInterfaceFromLine(name: string, line: Line) returns (shorter: string)
    ensures shorter == RemovedFrom(name, line)
  {
    hide Words;
    var words := Words(line);
    shorter := "";
    var any := false;
    if |words| > 0 {
      var out := words[0];
      var i := 1;
      while i < |words|
        invariant 1 <= i <= |words|
        invariant any <==> Without(name, words[1..i]) != []
        invariant out == words[0] + Joined(Without(name, words[1..i]))
      {
        OneWordMore(name, words[1..i], words[i]);
        assert words[1..i] + [words[i]] == words[1..i + 1];
        if words[i] != name {
          out := out + " " + words[i];
          any := true;
        }
        i := i + 1;
      }
      assert words[1..|words|] == words[1..];
      if any {
        shorter := out;
      }
    }
  }

  lemma OneWordMore(name: string, names: seq<string>, w: string)
    ensures Without(name, names + [w]) == Without(name, names) + (if w == name then [] else [w])
    ensures Joined(Without(name, names + [w])) == Joined(Without(name, names)) + (if w == name then "" else " " + w)
  {
    WithoutConcat(name, names, [w]);
    assert Without(name, [w]) == if w == name then [] else [w];
    JoinedConcat(Without(name, names), Without(name, [w]));
    JoinedMore(w, []);
    assert [w] + [] == [w];
  }

  lemma {:induction false} WithoutConcat(name: string, a: seq<string>, b: seq<string>)
    ensures Without(name, a + b) == Without(name, a) + Without(name, b)
  {
    if a == [] {
      assert a + b == b;
    } else {
      assert (a + b)[1..] == a[1..] + b;
      WithoutConcat(name, a[1..], b);
    }
  }

  /** The search loop over the names of an auto line. */
  method Names(words: seq<string>, name: string) returns (yes: bool)
    requires |words| > 0
    ensures yes == (name in words[1..])
  {
    var i := 1;
    yes := false;
    while i < |words|
      invariant 1 <= i <= |words|
      invariant name !in words[1..i]
    {
      if words[i] == name {
        assert words[1..][i - 1] == name;
        return true;
      }
      assert words[1..i + 1] == words[1..i] + [words[i]];
      i := i + 1;
    }
    assert words[1..i] == words[1..];
  }

  lemma RewriteStep(e: Entry, lines: seq<Line>, i: nat, removing: bool)
    requires i < |lines|
    ensures Rewrite(e, lines[i..], removing)
      == Emit(e, lines[i], removing) + Rewrite(e, lines[i + 1..], Removing(e, lines[i], removing))
  {
    hide Emit;
    hide Removing;
    assert lines[i..][1..] == lines[i + 1..];
  }

  lemma NotRemoving(e: Entry, line: Line)
    requires !Heads(Words(line), e.name)
    ensures !Removing(e, line, false)
  {
  }

  lemma StanzaHere(e: Entry, line: Line)
    requires Heads(Words(line), e.name)
    ensures Emit(e, line, false) == Stanza(e) && Removing(e, line, false)
  {
  }

  lemma RewriteEnd(e: Entry)
    ensures Rewrite(e, [], true) == Rewrite(e, [], false)
  {
  }

  /** A line that ends a stanza is treated alike in both loops. */
  lemma SameFromHere(e: Entry, lines: seq<Line>, i: nat)
    requires i < |lines| && KindOf(Words(lines[i])) in {Iface, Auto, Mapping}
    ensures Rewrite(e, lines[i..], true) == Rewrite(e, lines[i..], false)
  {
    hide Words;
    RewriteStep(e, lines, i, true);
    RewriteStep(e, lines, i, false);
  }

  lemma FoundUpTo(name: string, lines: seq<Line>, i: nat, j: nat)
    requires i <= j <= |lines| && forall k :: i <= k < j ==> !Heads(Words(lines[k]), name)
    ensures Found(name, lines[..j]) <==> Found(name, lines[..i])
  {
    hide Words;
    if Found(name, lines[..i]) {
      var k :| 0 <= k < i && Heads(Words(lines[..i][k]), name);
      assert lines[..j][k] == lines[..i][k];
    }
    if Found(name, lines[..j]) {
      var k :| 0 <= k < j && Heads(Words(lines[..j][k]), name);
      assert lines[..i][k] == lines[k];
    }
  }

  lemma FoundHere(name: string, lines: seq<Line>, i: nat)
    requires i < |lines| && Heads(Words(lines[i]), name)
    ensures Found(name, lines[..i + 1])
  {
    hide Words;
    assert lines[..i + 1][i] == lines[i];
  }

  /** add_attributes: insert before the position here. */
  method AddAttributes(attributes: seq<Pair>, lines: seq<Line>, here: nat) returns (lines': seq<Line>, here': nat)
    requires here <= |lines|
    ensures here' <= |lines'|
    ensures lines'[..here'] == lines[..here] + AttributeLines(attributes)
    ensures lines'[here'..] == lines[here..]
  {
    hide AttributeLine;
    lines', here' := lines, here;
    var i := 0;
    while i < |attributes|
      invariant 0 <= i <= |attributes| && 0 <= here' <= |lines'|
      invariant lines'[..here'] == lines[..here] + AttributeLines(attributes[..i])
      invariant lines'[here'..] == lines[here..]
    {
      AttributeLinesMore(attributes, i);
      lines' := lines'[..here'] + [AttributeLine(attributes[i])] + lines'[here'..];
      here', i := here' + 1, i + 1;
    }
    assert attributes[..i] == attributes;
  }

  lemma {:induction false} AttributeLinesMore(attributes: seq<Pair>, i: nat)
    requires i < |attributes|
    ensures AttributeLines(attributes[..i + 1]) == AttributeLines(attributes[..i]) + [AttributeLine(attributes[i])]
  {
    hide AttributeLine;
    if i == 0 {
      assert attributes[..1] == [attributes[0]];
    } else {
      AttributeLinesMore(attributes[1..], i - 1);
      assert attributes[..i + 1][1..] == attributes[1..][..i] && attributes[..i][1..] == attributes[1..][..i - 1];
    }
  }

  /** The outer loop of write_interface at a line that does not start a stanza of the interface. */
  method EditOther(e: Entry, lines: seq<Line>, it: nat) returns (lines': seq<Line>, it': nat)
    requires it < |lines| && !Heads(Words(lines[it]), e.name)
    ensures it' <= |lines'|
    ensures lines'[..it'] == lines[..it] + Emit(e, lines[it], false)
    ensures lines'[it'..] == lines[it + 1..]
  {
    hide Words;
    hide Stanza;
    lines', it' := lines, it + 1;
    var words := Words(lines[it]);
    if |words| == 0 {
      return;
    }
    assert IsWord(words[0]);
    if words[0] != "iface" {
      if words[0] == "auto" {
        var named := Names(words, e.name);
        if named {
          var shorter := RemoveInterfaceFromLine(e.name, lines[it]);
          if shorter == "" {
            lines', it' := lines[..it] + lines[it + 1..], it;
          } else {
            lines' := lines[it := shorter];
          }
        }
      }
    }
  }

  /** Replace the iface line and put the auto line and the attributes around it. */
  method PutStanza(e: Entry, lines: seq<Line>, it: nat) returns (lines': seq<Line>, it': nat)
    requires it < |lines|
    ensures it' <= |lines'|
    ensures lines'[..it'] == lines[..it] + Stanza(e)
    ensures lines'[it'..] == lines[it + 1..]
  {
    hide HeadLine;
    lines', it' := lines[it := HeadLine(e)], it;
    if e.automatic {
      lines' := lines'[..it'] + ["auto " + e.name] + lines'[it'..];
      it' := it' + 1;
    }
    it' := it' + 1;
    assert lines'[..it'] == lines[..it] + AutoLines(e) + [HeadLine(e)];
    lines', it' := AddAttributes(e.attributes, lines', it');
    assert lines'[..it'] == lines[..it] + (AutoLines(e) + [HeadLine(e)] + AttributeLines(e.attributes));
  }

  /** The inner loop of write_interface, which removes the old settings. */
  method RemoveSettings(e: Entry, lines: seq<Line>, it: nat, ghost before: seq<Line>, ghost i: nat)
    returns (lines': seq<Line>, it': nat, ghost j: nat)
    requires it <= |lines| && i <= |before| && lines[it..] == before[i..]
    ensures it' <= |lines'| && i <= j <= |before| && lines'[it'..] == before[j..]
    ensures lines'[..it'] + Rewrite(e, before[j..], false) == lines[..it] + Rewrite(e, before[i..], true)
    ensures forall k :: i <= k < j ==> !Heads(Words(before[k]), e.name)
  {
    hide Words;
    hide Rewrite;
    hide Stanza;
    hide AutoKept;
    lines', it', j := lines, it, i;
    while it' < |lines'|
      invariant 0 <= it' <= |lines'| && i <= j <= |before| && lines'[it'..] == before[j..]
      invariant lines'[..it'] + Rewrite(e, before[j..], true) == lines[..it] + Rewrite(e, before[i..], true)
      invariant forall k :: i <= k < j ==> !Heads(Words(before[k]), e.name)
      decreases |lines'| - it'
    {
      assert lines'[it'] == before[j];
      RewriteStep(e, before, j, true);
      ghost var front := lines'[..it'];
      var words := Words(lines'[it']);
      if |words| == 0 {
        assert lines'[..it' + 1] == front + [before[j]];
        it', j := it' + 1, j + 1;
        continue;
      }
      assert IsWord(words[0]);
      if words[0][0] == '#' {
        assert lines'[..it' + 1] == front + [before[j]];
        it', j := it' + 1, j + 1;
        continue;
      }
      if words[0] == "iface" || words[0] == "auto" || words[0] == "mapping" {
        SameFromHere(e, before, j);
        return;
      }
      lines' := lines'[..it'] + lines'[it' + 1..];
      var rest := Rewrite(e, before[j + 1..], true);
      assert lines'[..it'] == front && front + ([] + rest) == front + rest;
      j := j + 1;
    }
    assert before[j..] == [];
    RewriteEnd(e);
  }

  /** write_interface between reading the file and writing it. */
  method EditLines(e: Entry, before: seq<Line>) returns (lines: seq<Line>)
    ensures lines == Written(e, before)
  {
    hide Words;
    hide Rewrite;
    hide Emit;
    hide Removing;
    hide Stanza;
    hide Found;
    NotFoundYet(e.name);
    lines := before;
    ghost var i := 0;
    var found, it := false, 0;
    assert lines[..0] + Rewrite(e, before[0..], false) == Rewrite(e, before, false) by {
      assert before[0..] == before;
    }
    while it < |lines|
      invariant 0 <= it <= |lines| && 0 <= i <= |before| && lines[it..] == before[i..]
      invariant lines[..it] + Rewrite(e, before[i..], false) == Rewrite(e, before, false)
      invariant found <==> Found(e.name, before[..i])
      decreases |before| - i
    {
      var heads := Heads(Words(lines[it]), e.name);
      assert lines[it] == before[i];
      RewriteStep(e, before, i, false);
      ghost var front := lines[..it];
      if !heads {
        lines, it := EditOther(e, lines, it);
        FoundUpTo(e.name, before, i, i + 1);
        NotRemoving(e, before[i]);
        i := i + 1;
        assert lines[..it] + Rewrite(e, before[i..], false)
          == front + (Emit(e, before[i - 1], false) + Rewrite(e, before[i..], false));
      } else {
        found := true;
        lines, it := PutStanza(e, lines, it);
        StanzaHere(e, before[i]);
        FoundHere(e.name, before, i);
        assert lines[..it] + Rewrite(e, before[i + 1..], true)
          == front + (Emit(e, before[i], false) + Rewrite(e, before[i + 1..], true));
        ghost var j;
        lines, it, j := RemoveSettings(e, lines, it, before, i + 1);
        FoundUpTo(e.name, before, i + 1, j);
        i := j;
      }
    }
    assert before[..i] == before && before[i..] == [];
    EndOfRewrite(e);
    assert lines == Rewrite(e, before, false);
    if !found {
      lines := lines + Stanza(e);
    }
  }

  lemma NotFoundYet(name: string)
    ensures !Found(name, [])
  {
  }

  lemma EndOfRewrite(e: Entry)
    ensures Rewrite(e, [], false) == []
  {
  }

  /** read_interface on the lines of the file. */
  method ReadStanzas(name: string, lines: seq<Line>, family: string, how: string)
    returns (automatic: bool, family': string, how': string, attributes: map<string, string>)
    ensures var report := ReportOf(name, lines);
      && automatic == report.automatic && attributes == report.attributes
      && Header(family', how') == if report.header.Some? then report.header.value else Header(family, how)
  {
    hide Words;
    hide ReadLine;
    hide Read;
    automatic, family', how', attributes := false, family, how, map[];
    ghost var report := NOTHING;
    var i, advance := 0, true;
    var s: Line := "";
    assert [] + lines[0..] == lines;
    while true
      invariant 0 <= i <= |lines|
      invariant Read(name, Reader(report, false), (if advance then [] else [s]) + lines[i..]).report
        == ReportOf(name, lines)
      invariant automatic == report.automatic && attributes == report.attributes
      invariant Header(family', how') == if report.header.Some? then report.header.value else Header(family, how)
      decreases |lines| - i, !advance
    {
      if advance {
        if i == |lines| {
          assert [] + lines[i..] == [];
          ReadNone(name, Reader(report, false));
          break;
        }
        s := lines[i];
        i := i + 1;
        assert [] + lines[i - 1..] == [s] + lines[i..];
      } else {
        advance := true;
      }
      assert Read(name, Reader(report, false), [s] + lines[i..]).report == ReportOf(name, lines);
      ReadNext(name, Reader(report, false), s, lines[i..]);
      assert [] + lines[i..] == lines[i..];
      var stanza;
      stanza, automatic, family', how', report := ReadTopLine(name, s, report, automatic, family', how');
      if !stanza {
        continue;
      }
      var more;
      i, s, attributes, more := ReadSettings(name, lines, i, report, attributes);
      report := report.(attributes := attributes);
      if !more {
        assert [] + lines[i..] == [];
        ReadNone(name, Reader(report, true));
        return automatic, family', how', attributes;
      }
      advance := false;
    }
  }

  /** A file that may be missing (None) or closed to writing. */
  class TextFile {
    var content: Option<string>
    const writable: bool

    constructor (content: Option<string>, writable: bool)
      ensures this.content == content && this.writable == writable
    {
      this.content, this.writable := content, writable;
    }

    /** read_file */
    method ReadFile() returns (ok: bool, lines: seq<Line>)
      ensures ok == content.Some?
      ensures lines == LinesIn(content)
    {
      if content.None? {
        return false, [];
      }
      return true, Lines(content.value);
    }

    /** write_file */
    method WriteFile(lines: seq<Line>) returns (ok: bool)
      modifies this
      ensures ok == writable
      ensures content == if writable then Some(Text(lines)) else old(content)
    {
      if writable {
        content := Some(Text(lines));
      }
      return writable;
    }

    /** read_interface; the caller's family and method stay as they were where no stanza is found. */
    method ReadInterface(name: string, family: string, how: string)
      returns (ok: bool, automatic: bool, family': string, how': string, attributes: map<string, string>)
      ensures ok == content.Some?
      ensures var report := ReportOf(name, LinesIn(content));
        && automatic == report.automatic && attributes == report.attributes
        && Header(family', how') == if report.header.Some? then report.header.value else Header(family, how)
    {
      hide Read;
      hide Lines;
      ReadNone(name, Reader(NOTHING, false));
      if content.None? {
        return false, false, family, how, map[];
      }
      automatic, family', how', attributes := ReadStanzas(name, Lines(content.value), family, how);
      ok := true;
    }

    /** write_interface */
    method WriteInterface(e: Entry) returns (ok: bool)
      modifies this
      ensures ok == writable
      ensures content == if writable then Some(Text(Written(e, LinesIn(old(content))))) else old(content)
    {
      hide Written;
      var _, lines := ReadFile();
      lines := EditLines(e, lines);
      ok := WriteFile(lines);
    }
  }

  function LinesIn(content: Option<string>): seq<Line> {
    if content.None? then [] else Lines(content.value)
  }

  lemma ReadNext(who: string, s: Reader, line: Line, rest: seq<Line>)
    ensures Read(who, s, [line] + rest) == Read(who, ReadLine(who, s, line), rest)
  {
    assert ([line] + rest)[1..] == rest;
  }

  /** One line in the outer loop of read_interface; stanza: a stanza of the interface begins with it. */
  method ReadTopLine(name: string, line: Line, ghost report: Report, automatic: bool, family: string, how: string)
    returns (stanza: bool, automatic': bool, family': string, how': string, ghost report': Report)
    requires automatic == report.automatic
    ensures ReadLine(name, Reader(report, false), line) == Reader(report', stanza)
    ensures automatic' == report'.automatic && report'.attributes == report.attributes
    ensures report'.header == if stanza then Some(Header(family', how')) else report.header
    ensures !stanza ==> family' == family && how' == how
  {
    hide Words;
    stanza, automatic', family', how', report' := false, automatic, family, how, report;
    var words := Words(line);
    if |words| == 0 {
      return;
    }
    assert IsWord(words[0]);
    if words[0] != "iface" {
      if words[0] == "auto" {
        var named := Names(words, name);
        if named {
          automatic' := true;
          report' := report.(automatic := true);
        }
      }
      return;
    }
    if |words| < 2 || words[1] != name || |words| < 3 || |words| < 4 {
      return;
    }
    family', how' := words[2], words[3];
    report' := report.(header := Some(Header(family', how')));
    stanza := true;
  }

  /** The inner loop of read_interface: it ends at the line that starts something else, or at the end of the file. */
  method ReadSettings(ghost name: string, lines: seq<Line>, from: nat, ghost report: Report,
                      before: map<string, string>)
    returns (i: nat, s: Line, attributes: map<string, string>, more: bool)
    requires from <= |lines| && report.attributes == before
    ensures from <= i <= |lines|
    ensures more ==> from < i
    ensures Read(name, Reader(report.(attributes := attributes), !more), (if more then [s] else []) + lines[i..]).report
      == Read(name, Reader(report, true), lines[from..]).report
    ensures !more ==> i == |lines|
  {
    hide Words;
    i, attributes := from, before;
    s := "";
    while true
      invariant from <= i <= |lines|
      invariant Read(name, Reader(report.(attributes := attributes), true), lines[i..]).report
        == Read(name, Reader(report, true), lines[from..]).report
      decreases |lines| - i
    {
      if i == |lines| {
        assert [] + lines[i..] == lines[i..];
        return i, s, attributes, false;
      }
      s := lines[i];
      i := i + 1;
      assert lines[i - 1..] == [s] + lines[i..];
      ReadNext(name, Reader(report.(attributes := attributes), true), s, lines[i..]);
      ReadNext(name, Reader(report.(attributes := attributes), false), s, lines[i..]);
      var words := Words(s);
      if |words| == 0 {
        continue;
      }
      assert IsWord(words[0]);
      if words[0][0] == '#' {
        continue;
      }
      if words[0] == "iface" || words[0] == "auto" || words[0] == "mapping" {
        return i, s, attributes, true;
      }
      if |words| < 2 {
        continue;
      }
      attributes := attributes[words[0] := words[1]];
    }
  }

  /** The file after write_interface; LinesIn is what ReadFile and ReadInterface see of a file. */
  function Updated(e: Entry, content: Option<string>): Option<string> {
    Some(Text(Written(e, LinesIn(content))))
  }

  /**
    In a file whose settings stand in iface and mapping stanzas only, an entry that fits the format is read back
    as written, no other interface changes, and writing it again leaves the file as it is.
   */
  lemma WriteThenRead(e: Entry, who: string, content: Option<string>)
    requires Fits(e) && Orderly(LinesIn(content), false)
    ensures ReportOf(e.name, LinesIn(Updated(e, content))) == Wanted(e)
    ensures who != e.name ==> ReportOf(who, LinesIn(Updated(e, content))) == ReportOf(who, LinesIn(content))
    ensures Updated(e, Updated(e, content)) == Updated(e, content)
  {
    hide Written;
    hide Fits;
    var lines := LinesIn(content);
    WrittenTextIsRead(e, lines);
    OrderlyHasNoStrays(e.name, e.name, lines, Outside, false, 2);
    OrderlyHasNoStrays(e.name, e.name, lines, Outside, false, 1);
    WrittenIsRead(e, lines);
    WritingTwice(e, lines);
    if who != e.name {
      OrderlyHasNoStrays(e.name, who, lines, Outside, false, 2);
      NoStraysNoHarm(e.name, who, lines, Outside);
      OthersReadAsBefore(e, who, lines);
    }
  }

  // ----- static addresses

  /**
    The entry that setStaticAttributes writes, its map walked in key order: an empty broadcast address or gateway is
    left out, an empty address or netmask is not.
   */
  function StaticEntry(name: string, automatic: bool, address: string, netmask: string, broadcast: string,
                       gateway: string): Entry
  {
    Entry(name, automatic, "inet", "static",
          [Pair("address", address)] + Given("broadcast", broadcast) + Given("gateway", gateway)
          + [Pair("netmask", netmask)])
  }

  function Given(key: string, value: string): seq<Pair> {
    if value == "" then [] else [Pair(key, value)]
  }

  datatype Inet = Inet(automatic: bool, address: string, netmask: string, broadcast: string, gateway: string)

  function Lookup(m: map<string, string>, key: string): string {
    if key in m then m[key] else ""
  }

  /** What getInetAttributes reports; None where it returns false. */
  function InetOf(report: Report): Option<Inet> {
    if report.header == Some(Header("inet", "static")) then
      var m := report.attributes;
      Some(Inet(report.automatic, Lookup(m, "address"), Lookup(m, "netmask"),
                Lookup(m, "broadcast"), Lookup(m, "gateway")))
    else None
  }

  lemma {:induction false} MapOfConcat(a: seq<Pair>, b: seq<Pair>)
    ensures MapOf(a + b) == MapOf(a) + MapOf(b)
  {
    if b == [] {
      assert a + b == a && MapOf(a) + map[] == MapOf(a);
    } else {
      assert (a + b)[..|a + b| - 1] == a + b[..|b| - 1];
      MapOfConcat(a, b[..|b| - 1]);
    }
  }

  lemma MapOfOne(p: Pair)
    ensures MapOf([p]) == map[p.key := p.value] && MapOf([]) == map[]
  {
    assert [p][..0] == [];
  }

  lemma {:induction false} KeptConcat(a: seq<Pair>, b: seq<Pair>)
    ensures Kept(a + b) == Kept(a) + Kept(b)
  {
    if b == [] {
      assert a + b == a;
    } else {
      assert (a + b)[..|a + b| - 1] == a + b[..|b| - 1];
      KeptConcat(a, b[..|b| - 1]);
    }
  }

  lemma KeptOne(p: Pair)
    ensures MapOf(Kept([p])) == Entered(p.key, p.value)
    ensures MapOf(Kept(Given(p.key, p.value))) == MapOf(Kept([p]))
  {
    assert [p][..0] == [];
    MapOfOne(p);
    assert Kept([p]) == if p.value == "" then [] else [p];
  }

  function Entered(key: string, value: string): map<string, string> {
    if value == "" then map[] else map[key := value]
  }

  lemma LookupFour(address: string, netmask: string, broadcast: string, gateway: string)
    ensures var m := Entered("address", address) + Entered("broadcast", broadcast) + Entered("gateway", gateway)
                     + Entered("netmask", netmask);
      && Lookup(m, "address") == address && Lookup(m, "netmask") == netmask
      && Lookup(m, "broadcast") == broadcast && Lookup(m, "gateway") == gateway
  {
  }

  lemma MapOfStatic(address: string, netmask: string, broadcast: string, gateway: string)
    ensures var m := MapOf(Kept(StaticEntry("", false, address, netmask, broadcast, gateway).attributes));
      && Lookup(m, "address") == address && Lookup(m, "netmask") == netmask
      && Lookup(m, "broadcast") == broadcast && Lookup(m, "gateway") == gateway
  {
    hide Kept;
    hide MapOf;
    hide Given;
    hide Lookup;
    hide Entered;
    var a, b, c, d := [Pair("address", address)], Given("broadcast", broadcast), Given("gateway", gateway),
                      [Pair("netmask", netmask)];
    KeptConcat(a + b + c, d);
    KeptConcat(a + b, c);
    KeptConcat(a, b);
    MapOfConcat(Kept(a) + Kept(b) + Kept(c), Kept(d));
    MapOfConcat(Kept(a) + Kept(b), Kept(c));
    MapOfConcat(Kept(a), Kept(b));
    KeptOne(Pair("address", address));
    KeptOne(Pair("broadcast", broadcast));
    KeptOne(Pair("gateway", gateway));
    KeptOne(Pair("netmask", netmask));
    LookupFour(address, netmask, broadcast, gateway);
  }

  lemma StaticKeys()
    ensures IsWord("inet") && IsWord("static")
    ensures IsKey("address") && IsKey("netmask") && IsKey("broadcast") && IsKey("gateway")
  {
  }

  lemma StaticFits(name: string, automatic: bool, address: string, netmask: string, broadcast: string, gateway: string)
    requires IsWord(name) && (address == "" || IsWord(address)) && (netmask == "" || IsWord(netmask))
    requires (broadcast == "" || IsWord(broadcast)) && (gateway == "" || IsWord(gateway))
    ensures Fits(StaticEntry(name, automatic, address, netmask, broadcast, gateway))
  {
    hide IsKey;
    hide IsWord;
    StaticKeys();
  }

  /**
    getInetAttributes after setStaticAttributes: the same addresses, with the empty ones still empty,
    and every other interface has the addresses it had.
   */
  lemma StaticAttributesComeBack(name: string, automatic: bool, address: string, netmask: string, broadcast: string,
                                 gateway: string, who: string, content: Option<string>)
    requires IsWord(name) && (address == "" || IsWord(address)) && (netmask == "" || IsWord(netmask))
    requires (broadcast == "" || IsWord(broadcast)) && (gateway == "" || IsWord(gateway))
    requires Orderly(LinesIn(content), false)
    ensures var after := LinesIn(Updated(StaticEntry(name, automatic, address, netmask, broadcast, gateway), content));
      && InetOf(ReportOf(name, after)) == Some(Inet(automatic, address, netmask, broadcast, gateway))
      && (who != name ==> InetOf(ReportOf(who, after)) == InetOf(ReportOf(who, LinesIn(content))))
  {
    hide Updated;
    hide Fits;
    hide MapOf;
    hide Given;
    StaticFits(name, automatic, address, netmask, broadcast, gateway);
    MapOfStatic(address, netmask, broadcast, gateway);
    WriteThenRead(StaticEntry(name, automatic, address, netmask, broadcast, gateway), who, content);
  }
}
