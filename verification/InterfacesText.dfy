/**
  The interfaces file on its characters: comments and blank lines, the stanzas that are nobody's, and the text that
  a new entry is written as.
 */
module InterfacesText {
  import opened Basics
  import opened NetLines
  import opened Interfaces
  import opened InterfacesFile

  // ----- comments and blank lines

  /** White space, character by character. */
  predicate White(c: char) {
    c == ' ' || c == '\t' || c == '\n' || c == '\U{0b}' || c == '\U{0c}' || c == '\r'
  }

  /** Behind white space comes a '#', the end of the line, or the NUL that ends it for C. */
  predicate Remark(line: string) {
    line == "" || line[0] == '#' || line[0] == '\0'
    || (White(line[0]) && Remark(line[1..]))
  }

  /** The first word, told by its characters. */
  predicate Begins(line: string, word: string) {
    || (word <= line && (|line| == |word| || White(line[|word|]) || line[|word|] == '\0'))
    || (line != "" && White(line[0]) && Begins(line[1..], word))
  }

  lemma {:induction false} RemarkHasNoKeyword(line: Line)
    ensures Remark(line) <==> Words(line) == [] || Words(line)[0][0] == '#'
    decreases |line|
  {
    if line != "" && line[0] != '\0' {
      if Space(line[0]) {
        RemarkHasNoKeyword(line[1..]);
        assert Words(line) == Words(line[1..]);
      } else {
        assert Words(line)[0] == FirstWord(line) && FirstWord(line)[0] == line[0];
      }
    }
  }

  lemma RemarkIsRead(who: string, s: Reader, c: Line)
    requires Remark(c)
    ensures ReadLine(who, s, c) == s
  {
    hide Words;
    RemarkHasNoKeyword(c);
  }

  /** No comment and no blank line, wherever it stands, makes a difference to any reader. */
  lemma RemarksAreNotRead(who: string, a: seq<Line>, c: Line, b: seq<Line>)
    requires Remark(c)
    ensures ReportOf(who, a + [c] + b) == ReportOf(who, a + b)
  {
    hide ReadLine;
    var s := Reader(NOTHING, false);
    ReadConcat(who, s, a + [c], b);
    ReadConcat(who, s, a, [c]);
    ReadConcat(who, s, a, b);
    var t := Read(who, s, a);
    ReadOne(who, t, c);
    RemarkIsRead(who, t, c);
  }

  function Remarks(lines: seq<Line>): seq<Line> {
    if lines == [] then [] else (if Remark(lines[0]) then [lines[0]] else []) + Remarks(lines[1..])
  }

  lemma {:induction false} RemarksConcat(a: seq<Line>, b: seq<Line>)
    ensures Remarks(a + b) == Remarks(a) + Remarks(b)
  {
    if a == [] {
      assert a + b == b;
    } else {
      assert (a + b)[1..] == a[1..] + b;
      RemarksConcat(a[1..], b);
    }
  }

  lemma NoRemark(line: Line)
    requires Words(line) != [] && Words(line)[0][0] != '#'
    ensures Remarks([line]) == [] && !Remark(line)
  {
    hide Words;
    RemarkHasNoKeyword(line);
    assert [line][1..] == [];
  }

  lemma {:induction false} AttributesAreNoRemarks(attributes: seq<Pair>)
    requires FitAttributes(attributes)
    ensures Remarks(AttributeLines(attributes)) == []
  {
    hide Words;
    if attributes != [] {
      var p := attributes[0];
      AttributesAreNoRemarks(attributes[1..]);
      AttributeWords(p);
      assert KindOf([p.key]) == Setting;
      NoRemark(AttributeLine(p));
      assert AttributeLines(attributes) == [AttributeLine(p)] + AttributeLines(attributes[1..]);
      RemarksConcat([AttributeLine(p)], AttributeLines(attributes[1..]));
    }
  }

  lemma StanzaHasNoRemarks(e: Entry)
    requires Fits(e)
    ensures Remarks(Stanza(e)) == []
  {
    hide Words;
    hide Remarks;
    HeadWords(e);
    AutoWords(e.name);
    NoRemark(HeadLine(e));
    AttributesAreNoRemarks(e.attributes);
    RemarksConcat(AutoLines(e) + [HeadLine(e)], AttributeLines(e.attributes));
    RemarksConcat(AutoLines(e), [HeadLine(e)]);
    if e.automatic {
      NoRemark("auto " + e.name);
    } else {
      NothingIsNoRemark();
    }
  }

  lemma NothingIsNoRemark()
    ensures Remarks([]) == []
  {
  }

  /** One line, and what becomes of it. */
  lemma RemarkIsKept(e: Entry, line: Line, removing: bool)
    requires Fits(e)
    ensures Remarks(Emit(e, line, removing)) == Remarks([line])
  {
    hide Words;
    hide Stanza;
    hide RemovedFrom;
    RemarkHasNoKeyword(line);
    StanzaHasNoRemarks(e);
    NothingIsNoRemark();
    if !Remark(line) {
      NoRemark(line);
      if KindOf(Words(line)) == Auto && RemovedFrom(e.name, line) != "" {
        RemovedWords(e.name, line);
        NoRemark(RemovedFrom(e.name, line));
      }
    }
  }

  lemma {:induction false} RemarksAreRewritten(e: Entry, lines: seq<Line>, removing: bool)
    requires Fits(e)
    ensures Remarks(Rewrite(e, lines, removing)) == Remarks(lines)
    decreases |lines|
  {
    hide Emit;
    hide Removing;
    hide Remarks;
    NothingIsNoRemark();
    if lines != [] {
      var removing' := Removing(e, lines[0], removing);
      RemarkIsKept(e, lines[0], removing);
      RemarksAreRewritten(e, lines[1..], removing');
      RemarksConcat(Emit(e, lines[0], removing), Rewrite(e, lines[1..], removing'));
      RemarksConcat([lines[0]], lines[1..]);
      assert lines == [lines[0]] + lines[1..];
    }
  }

  /** All comments and blank lines are in the written file, in their order, and no others. */
  lemma RemarksStay(e: Entry, lines: seq<Line>)
    requires Fits(e)
    ensures Remarks(Written(e, lines)) == Remarks(lines)
  {
    hide Rewrite;
    hide Stanza;
    hide Remarks;
    RemarksAreRewritten(e, lines, false);
    StanzaHasNoRemarks(e);
    NothingIsNoRemark();
    RemarksConcat(Rewrite(e, lines, false), if Found(e.name, lines) then [] else Stanza(e));
  }

  // ----- stanzas

  lemma {:induction false} BeginsIsFirstWord(line: Line, word: string)
    requires IsWord(word)
    ensures Begins(line, word) <==> Words(line) != [] && Words(line)[0] == word
    decreases |line|
  {
    if line != "" {
      if Space(line[0]) {
        BeginsIsFirstWord(line[1..], word);
        assert Words(line) == Words(line[1..]);
        assert !(word <= line);
      } else if line[0] != '\0' {
        var w := FirstWord(line);
        if word <= line && (|line| == |word| || White(line[|word|]) || line[|word|] == '\0') {
          assert line == word + line[|word|..];
          FirstWordOf(word, line[|word|..]);
        }
        if w == word && |w| < |line| {
          assert line[|w|] in line;
        }
      }
    }
  }

  /** The line opens the stanza of this interface. */
  predicate StanzaOf(line: Line, name: string) {
    |Words(line)| >= 2 && Words(line)[0] == "iface" && Words(line)[1] == name
  }

  predicate Foreign(c: Line, b: seq<Line>, name: string) {
    && (Begins(c, "mapping") || (Begins(c, "iface") && !StanzaOf(c, name)))
    && forall i :: 0 <= i < |b| ==> !StanzaOf(b[i], name)
  }

  /** Lines that stay, but for the name in auto lines. */
  function AutosOnly(name: string, lines: seq<Line>): seq<Line> {
    if lines == [] then []
    else (if Begins(lines[0], "auto") then AutoKept(name, lines[0]) else [lines[0]]) + AutosOnly(name, lines[1..])
  }

  lemma Keywords(line: Line)
    ensures KindOf(Words(line)) == Iface <==> Begins(line, "iface")
    ensures KindOf(Words(line)) == Auto <==> Begins(line, "auto")
    ensures KindOf(Words(line)) == Mapping <==> Begins(line, "mapping")
    ensures KindOf(Words(line)) in {Blank, Comment} <==> Remark(line)
  {
    hide Words;
    hide Begins;
    hide Remark;
    BeginsIsFirstWord(line, "iface");
    BeginsIsFirstWord(line, "auto");
    BeginsIsFirstWord(line, "mapping");
    RemarkHasNoKeyword(line);
  }

  lemma {:induction false} BehindStays(e: Entry, b: seq<Line>)
    requires forall i :: 0 <= i < |b| ==> !StanzaOf(b[i], e.name)
    ensures Rewrite(e, b, false) == AutosOnly(e.name, b)
    decreases |b|
  {
    hide Words;
    hide Begins;
    hide AutoKept;
    hide Stanza;
    if b != [] {
      Keywords(b[0]);
      BehindStays(e, b[1..]);
    }
  }

  /**
    A mapping stanza, or one of another interface, survives with everything behind it up to the next stanza of the
    interface that is written, except for that interface's name in auto lines.
   */
  lemma ForeignStanzaStays(e: Entry, c: Line, b: seq<Line>, removing: bool)
    requires Foreign(c, b, e.name)
    ensures Rewrite(e, [c] + b, removing) == [c] + AutosOnly(e.name, b)
  {
    hide Words;
    hide Begins;
    hide AutoKept;
    hide Stanza;
    Keywords(c);
    BehindStays(e, b);
    assert ([c] + b)[1..] == b;
  }

  /** The name stands behind the first word. */
  predicate IsNamed(line: Line, name: string) {
    Words(line) != [] && name in Words(line)[1..]
  }

  /** Of such lines a reader takes nothing but its name in auto lines. */
  lemma {:induction false} BehindIsNotRead(who: string, r: Report, b: seq<Line>)
    requires forall i :: 0 <= i < |b| ==> !StanzaOf(b[i], who)
    ensures var s := Read(who, Reader(r, false), b);
      && !s.inside && s.report.header == r.header && s.report.attributes == r.attributes
      && (s.report.automatic <==>
            r.automatic || exists i :: 0 <= i < |b| && Begins(b[i], "auto") && IsNamed(b[i], who))
    decreases |b|
  {
    hide Words;
    hide Begins;
    if b != [] {
      Keywords(b[0]);
      BeginsIsFirstWord(b[0], "auto");
      var t := ReadLine(who, Reader(r, false), b[0]);
      BehindIsNotRead(who, t.report, b[1..]);
      assert forall i :: 0 <= i < |b| - 1 ==> b[1..][i] == b[i + 1];
    }
  }

  lemma ForeignStanzaIsNotRead(who: string, s: Reader, c: Line, b: seq<Line>)
    requires Foreign(c, b, who)
    ensures var t := Read(who, s, [c] + b);
      && t.report.header == s.report.header && t.report.attributes == s.report.attributes
  {
    hide Words;
    hide Begins;
    Keywords(c);
    ReadConcat(who, s, [c], b);
    ReadOne(who, s, c);
    BehindIsNotRead(who, s.report, b);
  }

  /** Key and value of each line that has them, comments passed over. */
  function Settings(m: map<string, string>, lines: seq<Line>): map<string, string>
    decreases |lines|
  {
    if lines == [] then m
    else
      var w := Words(lines[0]);
      Settings(if Remark(lines[0]) || |w| < 2 then m else m[w[0] := w[1]], lines[1..])
  }

  /** The stanza of an interface is read: family, method, and the settings up to the next stanza or auto line. */
  lemma StanzaIsRead(who: string, s: Reader, c: Line, b: seq<Line>, family: string, how: string)
    requires |Words(c)| >= 4 && Words(c)[..4] == ["iface", who, family, how]
    requires forall i :: 0 <= i < |b| ==>
      !Begins(b[i], "iface") && !Begins(b[i], "auto") && !Begins(b[i], "mapping")
    ensures var t := Read(who, s, [c] + b);
      t.report == Report(s.report.automatic, Some(Header(family, how)), Settings(s.report.attributes, b))
  {
    hide Begins;
    var w := Words(c);
    hide Words;
    assert w[0] == w[..4][0] && w[1] == w[..4][1] && w[2] == w[..4][2] && w[3] == w[..4][3];
    Keywords(c);
    BeginsIsFirstWord(c, "iface");
    ReadConcat(who, s, [c], b);
    ReadOne(who, s, c);
    SettingsAreRead(who, Report(s.report.automatic, Some(Header(family, how)), s.report.attributes), b);
  }

  lemma {:induction false} SettingsAreRead(who: string, r: Report, b: seq<Line>)
    requires forall i :: 0 <= i < |b| ==>
      !Begins(b[i], "iface") && !Begins(b[i], "auto") && !Begins(b[i], "mapping")
    ensures Read(who, Reader(r, true), b) == Reader(r.(attributes := Settings(r.attributes, b)), true)
    decreases |b|
  {
    hide Words;
    hide Begins;
    hide Remark;
    if b != [] {
      Keywords(b[0]);
      var t := ReadLine(who, Reader(r, true), b[0]);
      assert forall i :: 0 <= i < |b| - 1 ==> b[1..][i] == b[i + 1];
      SettingsAreRead(who, t.report, b[1..]);
    }
  }

  // ----- a new file

  /** What setStaticAttributes writes where there was no file. */
  lemma StaticText(name: string, address: string, netmask: string, broadcast: string, gateway: string)
    requires broadcast != "" && gateway != ""
    ensures Updated(StaticEntry(name, true, address, netmask, broadcast, gateway), None) == Some(
      ("auto " + name) + "\n" + ("iface " + name + " inet static") + "\n" + ("\taddress " + address) + "\n"
      + ("\tbroadcast " + broadcast) + "\n" + ("\tgateway " + gateway) + "\n" + ("\tnetmask " + netmask) + "\n")
  {
    hide Text;
    hide AttributeLines;
    hide Updated;
    var a, b, g, n := Pair("address", address), Pair("broadcast", broadcast), Pair("gateway", gateway),
                      Pair("netmask", netmask);
    var e := StaticEntry(name, true, address, netmask, broadcast, gateway);
    assert e.attributes == [a, b, g, n];
    FourLines(a, b, g, n);
    SixLines("auto " + name, HeadLine(e), AttributeLine(a), AttributeLine(b), AttributeLine(g), AttributeLine(n));
    assert Stanza(e) == ["auto " + name, HeadLine(e), AttributeLine(a), AttributeLine(b), AttributeLine(g),
                         AttributeLine(n)];
    StanzaOnly(e);
    assert AttributeLine(a) == "\taddress " + address && AttributeLine(b) == "\tbroadcast " + broadcast;
    assert AttributeLine(g) == "\tgateway " + gateway && AttributeLine(n) == "\tnetmask " + netmask;
    assert HeadLine(e) == "iface " + name + " inet static";
  }

  lemma StanzaOnly(e: Entry)
    ensures Updated(e, None) == Some(Text(Stanza(e)))
  {
    hide Text;
    hide Stanza;
    assert [] + Stanza(e) == Stanza(e);
  }

  lemma FourLines(a: Pair, b: Pair, c: Pair, d: Pair)
    ensures AttributeLines([a, b, c, d]) == [AttributeLine(a), AttributeLine(b), AttributeLine(c), AttributeLine(d)]
  {
    hide AttributeLine;
    assert [a, b, c, d][1..] == [b, c, d] && [b, c, d][1..] == [c, d] && [c, d][1..] == [d] && [d][1..] == [];
    assert AttributeLines([c, d]) == [AttributeLine(c), AttributeLine(d)];
  }

  lemma SixLines(a: Line, b: Line, c: Line, d: Line, e: Line, f: Line)
    ensures Text([a, b, c, d, e, f])
      == a + "\n" + b + "\n" + c + "\n" + d + "\n" + e + "\n" + f + "\n"
  {
    TwoLines(e, f, []);
    TwoLines(c, d, [e, f]);
    TwoLines(a, b, [c, d, e, f]);
    assert [e, f] + [] == [e, f] && [c, d] + [e, f] == [c, d, e, f] && [a, b] + [c, d, e, f] == [a, b, c, d, e, f];
  }

  lemma TwoLines(a: Line, b: Line, rest: seq<Line>)
    ensures Text([a, b] + rest) == a + "\n" + b + "\n" + Text(rest)
    ensures Text([]) == ""
  {
    assert ([a, b] + rest)[1..] == [b] + rest && ([b] + rest)[1..] == rest;
  }
}
