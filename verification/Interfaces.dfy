/**
  /etc/network/interfaces: what read_interface finds out about one interface, what write_interface makes of the
  lines, and how the two belong together.
 */
module Interfaces {
  import opened Basics
  import opened NetLines

  datatype Header = Header(family: string, how: string)

  datatype Pair = Pair(key: string, value: string)

  // ----- lines

  datatype Kind = Blank | Comment | Iface | Auto | Mapping | Setting

  function KindOf(words: seq<string>): Kind {
    if words == [] then Blank
    else if words[0] != "" && words[0][0] == '#' then Comment
    else if words[0] == "iface" then Iface
    else if words[0] == "auto" then Auto
    else if words[0] == "mapping" then Mapping
    else Setting
  }

  predicate Heads(words: seq<string>, name: string) {
    KindOf(words) == Iface && |words| >= 2 && words[1] == name
  }

  // ----- reading

  /** What read_interface reports; header is None where it leaves family and method as the caller had them. */
  datatype Report = Report(automatic: bool, header: Option<Header>, attributes: map<string, string>)

  const NOTHING := Report(false, None, map[])

  /** inside: in the inner loop, among the settings of a stanza. */
  datatype Reader = Reader(report: Report, inside: bool)

  function ReadTop(who: string, report: Report, words: seq<string>): Reader {
    match KindOf(words)
    case Iface =>
      if |words| >= 4 && words[1] == who then
        Reader(report.(header := Some(Header(words[2], words[3]))), true)
      else Reader(report, false)
    case Auto => Reader(if who in words[1..] then report.(automatic := true) else report, false)
    case _ => Reader(report, false)
  }

  function ReadLine(who: string, s: Reader, line: Line): Reader {
    var words := Words(line);
    if !s.inside then ReadTop(who, s.report, words)
    else
      match KindOf(words)
      case Blank => s
      case Comment => s
      case Setting =>
        if |words| < 2 then s
        else s.(report := s.report.(attributes := s.report.attributes[words[0] := words[1]]))
      case _ => ReadTop(who, s.report, words)
  }

  function Read(who: string, s: Reader, lines: seq<Line>): Reader
    decreases |lines|
  {
    if lines == [] then s else Read(who, ReadLine(who, s, lines[0]), lines[1..])
  }

  function ReportOf(who: string, lines: seq<Line>): Report {
    Read(who, Reader(NOTHING, false), lines).report
  }

  lemma {:induction false} ReadConcat(who: string, s: Reader, a: seq<Line>, b: seq<Line>)
    ensures Read(who, s, a + b) == Read(who, Read(who, s, a), b)
    decreases |a|
  {
    if a == [] {
      assert a + b == b;
    } else {
      assert (a + b)[1..] == a[1..] + b;
      ReadConcat(who, ReadLine(who, s, a[0]), a[1..], b);
    }
  }

  // ----- writing

  /** The arguments of write_interface; the attributes in the order in which the map is walked. */
  datatype Entry = Entry(name: string, automatic: bool, family: string, how: string, attributes: seq<Pair>)

  function HeadLine(e: Entry): string {
    "iface " + e.name + " " + e.family + " " + e.how
  }

  function AttributeLine(p: Pair): string {
    "\t" + p.key + " " + p.value
  }

  /** remove_interface_from_line */
  function Without(name: string, names: seq<string>): seq<string> {
    if names == [] then []
    else (if names[0] == name then [] else [names[0]]) + Without(name, names[1..])
  }

  function RemovedFrom(name: string, line: string): string {
    var words := Words(line);
    if words == [] || Without(name, words[1..]) == [] then ""
    else words[0] + Joined(Without(name, words[1..]))
  }

  /** A word that can start a setting of a stanza. */
  predicate IsKey(key: string) {
    IsWord(key) && KindOf([key]) == Setting
  }

  /** The arguments that the file format can hold; an attribute may be empty, but then it is not read. */
  predicate Fits(e: Entry) {
    && IsWord(e.name) && IsWord(e.family) && IsWord(e.how)
    && FitAttributes(e.attributes)
  }

  predicate FitAttributes(attributes: seq<Pair>) {
    forall i :: 0 <= i < |attributes| ==> FitPair(attributes[i])
  }

  predicate FitPair(p: Pair) {
    IsKey(p.key) && (p.value == "" || IsWord(p.value))
  }

  lemma HeadWords(e: Entry)
    requires IsWord(e.name) && IsWord(e.family) && IsWord(e.how)
    ensures OneLine(HeadLine(e))
    ensures Words(HeadLine(e)) == ["iface", e.name, e.family, e.how]
  {
    hide Words;
    var names := [e.name, e.family, e.how];
    WordsOfJoined(names);
    JoinedIsOneLine(names);
    JoinedMore(e.name, [e.family, e.how]);
    JoinedMore(e.family, [e.how]);
    JoinedMore(e.how, []);
    assert [e.family] + [e.how] == [e.family, e.how] && [e.how] + [] == [e.how];
    assert [e.name] + [e.family, e.how] == names;
    assert Joined(names) == " " + e.name + (" " + e.family + (" " + e.how));
    assert HeadLine(e) == "iface" + Joined(names);
    WordThenRest("iface", Joined(names));
  }

  lemma AttributeWords(p: Pair)
    requires FitPair(p)
    ensures OneLine(AttributeLine(p))
    ensures Words(AttributeLine(p)) == [p.key] + (if p.value == "" then [] else [p.value])
  {
    hide Words;
    var tail := " " + p.value;
    if p.value == "" {
      SpaceFirst(' ', "");
      NoWords();
      assert tail == [' '] + "";
    } else {
      WordsOfJoined([p.value]);
      JoinedMore(p.value, []);
      assert [p.value] + [] == [p.value] && tail == Joined([p.value]);
      JoinedIsOneLine([p.value]);
      assert [p.key] + Words(tail) == [p.key, p.value];
    }
    WordThenRest(p.key, tail);
    assert AttributeLine(p) == "\t" + (p.key + tail);
    SpaceFirst('\t', p.key + tail);
    assert '\n' !in p.key && '\n' !in tail;
  }

  lemma AutoWords(name: string)
    requires IsWord(name)
    ensures OneLine("auto " + name)
    ensures Words("auto " + name) == ["auto", name]
  {
    hide Words;
    WordsOfJoined([name]);
    assert "auto " + name == "auto" + Joined([name]);
    WordThenRest("auto", Joined([name]));
  }

  lemma {:induction false} WithoutKeeps(name: string, names: seq<string>)
    ensures name !in Without(name, names)
    ensures forall w :: w in Without(name, names) <==> w in names && w != name
    ensures Without(name, names) == [] <==> forall i :: 0 <= i < |names| ==> names[i] == name
  {
    if names != [] {
      WithoutKeeps(name, names[1..]);
      assert names == [names[0]] + names[1..];
      if Without(name, names) == [] {
        forall i | 0 <= i < |names| ensures names[i] == name {
          if i > 0 {
            assert names[i] == names[1..][i - 1];
          }
        }
      }
    }
  }

  lemma RemovedWords(name: string, line: Line)
    requires RemovedFrom(name, line) != ""
    ensures OneLine(RemovedFrom(name, line))
    ensures Words(line) != []
    ensures Words(RemovedFrom(name, line)) == [Words(line)[0]] + Without(name, Words(line)[1..])
  {
    var words := Words(line);
    var kept := Without(name, words[1..]);
    WithoutKeeps(name, words[1..]);
    forall i | 0 <= i < |kept| ensures IsWord(kept[i]) {
      assert kept[i] in kept;
    }
    WordsOfJoined(kept);
    JoinedIsOneLine(kept);
    assert IsWord(words[0]) && '\n' !in words[0];
    WordThenRest(words[0], Joined(kept));
  }

  function AttributeLines(attributes: seq<Pair>): (lines: seq<Line>)
    ensures |lines| == |attributes|
  {
    if attributes == [] then []
    else
      [AttributeLine(attributes[0])] + AttributeLines(attributes[1..])
  }

  function AutoLines(e: Entry): seq<Line>
  {
    if e.automatic then ["auto " + e.name] else []
  }

  function Stanza(e: Entry): seq<Line>
  {
    AutoLines(e) + [HeadLine(e)] + AttributeLines(e.attributes)
  }

  /** Whether the auto line disappears: it names this interface and no other. */
  predicate Erased(name: string, words: seq<string>) {
    KindOf(words) == Auto && name in words[1..] && forall i :: 1 <= i < |words| ==> words[i] == name
  }

  function AutoKept(name: string, line: Line): seq<Line> {
    var words := Words(line);
    if words == [] || name !in words[1..] then [line]
    else
      var shorter := RemovedFrom(name, line);
      if shorter == "" then [] else [shorter]
  }

  /** What becomes of one line; removing: in the loop that removes the settings of the interface. */
  function Emit(e: Entry, line: Line, removing: bool): seq<Line>
  {
    var words := Words(line);
    match KindOf(words)
    case Iface => if Heads(words, e.name) then Stanza(e) else [line]
    case Auto => AutoKept(e.name, line)
    case Setting => if removing then [] else [line]
    case _ => [line]
  }

  function Removing(e: Entry, line: Line, removing: bool): bool {
    var words := Words(line);
    match KindOf(words)
    case Iface => Heads(words, e.name)
    case Auto => false
    case Mapping => false
    case _ => removing
  }

  function Rewrite(e: Entry, lines: seq<Line>, removing: bool): seq<Line>
  {
    if lines == [] then []
    else Emit(e, lines[0], removing) + Rewrite(e, lines[1..], Removing(e, lines[0], removing))
  }

  predicate Found(name: string, lines: seq<Line>) {
    exists i :: 0 <= i < |lines| && Heads(Words(lines[i]), name)
  }

  function Written(e: Entry, lines: seq<Line>): seq<Line>
  {
    Rewrite(e, lines, false) + if Found(e.name, lines) then [] else Stanza(e)
  }

  // ----- where settings go astray

  /** Where a reader of the written file stands, as far as the stanzas of one interface are concerned. */
  datatype Place = Outside | Inside | Hanging

  /**
    Hanging: the auto line that ended the stanza has been erased, so that a reader is still among its settings.
   */
  function Move(name: string, who: string, place: Place, words: seq<string>): Place {
    match KindOf(words)
    case Iface => if Heads(words, who) && (who == name || |words| >= 4) then Inside else Outside
    case Auto => if !Erased(name, words) || place == Outside then Outside else Hanging
    case Mapping => Outside
    case _ => place
  }

  /** A setting of at least so many words follows an auto line whose removal attaches it to a stanza of who. */
  predicate Strays(name: string, who: string, lines: seq<Line>, place: Place, least: nat) {
    lines != [] &&
    var words := Words(lines[0]);
    || (place == Hanging && KindOf(words) == Setting && |words| >= least)
    || Strays(name, who, lines[1..], Move(name, who, place, words), least)
  }

  /** The settings of the file stand inside iface and mapping stanzas only: none follows an auto line directly. */
  predicate Orderly(lines: seq<Line>, afterAuto: bool) {
    lines == [] ||
    var kind := KindOf(Words(lines[0]));
    && !(afterAuto && kind == Setting)
    && Orderly(lines[1..], if kind == Auto then true else if kind == Iface || kind == Mapping then false else afterAuto)
  }

  lemma {:induction false} OrderlyHasNoStrays(name: string, who: string, lines: seq<Line>, place: Place,
                                              afterAuto: bool, least: nat)
    requires Orderly(lines, afterAuto) && (place == Hanging ==> afterAuto)
    ensures !Strays(name, who, lines, place, least)
  {
    if lines != [] {
      var words := Words(lines[0]);
      var kind := KindOf(words);
      OrderlyHasNoStrays(name, who, lines[1..], Move(name, who, place, words),
                         if kind == Auto then true else if kind == Iface || kind == Mapping then false else afterAuto,
                         least);
    }
  }

  // ----- reading what was written

  function MapOf(attributes: seq<Pair>): map<string, string> {
    if attributes == [] then map[]
    else MapOf(attributes[..|attributes| - 1])[Last(attributes).key := Last(attributes).value]
  }

  function Last(attributes: seq<Pair>): Pair
    requires attributes != []
  {
    attributes[|attributes| - 1]
  }

  /** The attributes that are read: a key without a value is passed over. */
  function Kept(attributes: seq<Pair>): seq<Pair> {
    if attributes == [] then []
    else Kept(attributes[..|attributes| - 1]) + if Last(attributes).value == "" then [] else [Last(attributes)]
  }

  lemma MapOfMore(attributes: seq<Pair>, p: Pair)
    ensures MapOf(attributes + [p]) == MapOf(attributes)[p.key := p.value]
  {
    assert (attributes + [p])[..|attributes|] == attributes;
  }

  lemma KeptMore(m: map<string, string>, front: seq<Pair>, p: Pair)
    ensures m + MapOf(Kept(front + [p])) ==
            if p.value == "" then m + MapOf(Kept(front)) else (m + MapOf(Kept(front)))[p.key := p.value]
  {
    assert (front + [p])[..|front|] == front;
    MapOfMore(Kept(front), p);
    assert Kept(front) + [] == Kept(front);
  }

  /** What a report becomes by one stanza of the entry. */
  function With(r: Report, e: Entry): Report {
    Report(r.automatic || e.automatic, Some(Header(e.family, e.how)), r.attributes + MapOf(Kept(e.attributes)))
  }

  lemma {:induction false} AttributeLinesConcat(a: seq<Pair>, b: seq<Pair>)
    requires FitAttributes(a) && FitAttributes(b)
    ensures FitAttributes(a + b) && AttributeLines(a + b) == AttributeLines(a) + AttributeLines(b)
  {
    if a == [] {
      assert a + b == b;
    } else {
      assert (a + b)[1..] == a[1..] + b;
      AttributeLinesConcat(a[1..], b);
    }
  }

  lemma {:induction false} ReadAttributes(who: string, s: Reader, attributes: seq<Pair>)
    requires FitAttributes(attributes)
    ensures Read(who, s, AttributeLines(attributes)) ==
            if s.inside then s.(report := s.report.(attributes := s.report.attributes + MapOf(Kept(attributes)))) else s
  {
    hide Words;
    hide Read;
    hide AttributeLines;
    hide MapOf;
    hide IsKey;
    NoAttributes(who, s);
    if attributes == [] {
      assert s.report.attributes + map[] == s.report.attributes;
    } else {
      var front, p := attributes[..|attributes| - 1], Last(attributes);
      assert attributes == front + [p];
      AttributeLinesConcat(front, [p]);
      ReadAttributes(who, s, front);
      ReadConcat(who, s, AttributeLines(front), AttributeLines([p]));
      ReadAttribute(who, Read(who, s, AttributeLines(front)), p);
      KeptMore(s.report.attributes, front, p);
    }
  }

  lemma NoAttributes(who: string, s: Reader)
    ensures Read(who, s, AttributeLines([])) == s && MapOf(Kept([])) == map[]
  {
  }

  lemma ReadAttribute(who: string, s: Reader, p: Pair)
    requires FitAttributes([p])
    ensures Read(who, s, AttributeLines([p])) ==
            if s.inside && p.value != "" then
              s.(report := s.report.(attributes := s.report.attributes[p.key := p.value]))
            else s
  {
    hide Words;
    assert FitPair(p) by {
      assert p == [p][0];
    }
    AttributeWords(p);
    var line: Line := AttributeLine(p);
    assert AttributeLines([p]) == [line];
    assert Read(who, s, [line]) == ReadLine(who, s, line);
  }

  lemma ReadStanza(who: string, s: Reader, e: Entry)
    requires Fits(e)
    ensures Read(who, s, Stanza(e)) == Reader(if who == e.name then With(s.report, e) else s.report, who == e.name)
  {
    hide Words;
    HeadWords(e);
    AutoWords(e.name);
    var head: Line := HeadLine(e);
    var auto := AutoLines(e);
    var s1 := Read(who, s, auto);
    assert s1.report == if e.automatic && who == e.name then s.report.(automatic := true) else s.report by {
      if e.automatic {
        assert Read(who, s, auto) == ReadLine(who, s, auto[0]);
      }
    }
    var s2 := ReadLine(who, s1, head);
    assert Read(who, s1, [head]) == s2;
    ReadConcat(who, s, auto, [head]);
    ReadConcat(who, s, auto + [head], AttributeLines(e.attributes));
    ReadAttributes(who, s2, e.attributes);
  }

  /** The report of the entry itself: the lines put out for one line change nothing but by a stanza. */
  lemma ReadOwn(e: Entry, line: Line, place: Place, s: Reader)
    requires Fits(e) && (s.inside <==> place != Outside)
    requires !(place == Hanging && KindOf(Words(line)) == Setting && |Words(line)| >= 2)
    ensures var s' := Read(e.name, s, Emit(e, line, place == Inside));
      && (s'.inside <==> Move(e.name, e.name, place, Words(line)) != Outside)
      && s'.report == (if Heads(Words(line), e.name) then With(s.report, e) else s.report)
  {
    hide Words;
    hide Stanza;
    ReadOne(e.name, s, line);
    match KindOf(Words(line))
    case Iface =>
      ReadStanza(e.name, s, e);
    case Auto =>
      ReadAuto(e.name, e.name, s, line);
    case _ =>
  }

  lemma ReadOne(who: string, s: Reader, line: Line)
    ensures Read(who, s, [line]) == ReadLine(who, s, line) && Read(who, s, []) == s
  {
  }

  /** An auto line reads as before, but for the interface that is taken out, unless it is erased. */
  lemma ReadAuto(name: string, who: string, s: Reader, line: Line)
    requires KindOf(Words(line)) == Auto
    ensures var s' := Read(who, s, AutoKept(name, line));
      if Erased(name, Words(line)) then s' == s
      else
        s' == Reader(if who != name && who in Words(line)[1..] then s.report.(automatic := true) else s.report, false)
  {
    hide Words;
    hide RemovedFrom;
    var words := Words(line);
    WithoutKeeps(name, words[1..]);
    assert forall i :: 1 <= i < |words| ==> words[i] == words[1..][i - 1];
    ReadOne(who, s, line);
    if name in words[1..] {
      RemovedIsEmpty(name, line);
      if RemovedFrom(name, line) != "" {
        RemovedWords(name, line);
        ReadOne(who, s, RemovedFrom(name, line));
        assert KindOf(Words(RemovedFrom(name, line))) == Auto;
        assert Words(RemovedFrom(name, line))[1..] == Without(name, words[1..]);
      }
    }
  }

  lemma RemovedIsEmpty(name: string, line: Line)
    requires Words(line) != []
    ensures RemovedFrom(name, line) == "" <==> Without(name, Words(line)[1..]) == []
  {
    assert IsWord(Words(line)[0]);
  }

  predicate FoundIn(name: string, lines: seq<Line>) {
    lines != [] && (Heads(Words(lines[0]), name) || FoundIn(name, lines[1..]))
  }

  lemma {:induction false} FoundIsFoundIn(name: string, lines: seq<Line>)
    ensures Found(name, lines) <==> FoundIn(name, lines)
  {
    hide Words;
    if lines != [] {
      FoundIsFoundIn(name, lines[1..]);
      assert forall i :: 1 <= i < |lines| ==> lines[i] == lines[1..][i - 1];
    }
  }

  lemma {:induction false} ReadRewritten(e: Entry, lines: seq<Line>, place: Place, s: Reader)
    requires Fits(e) && (s.inside <==> place != Outside)
    requires !Strays(e.name, e.name, lines, place, 2)
    ensures Read(e.name, s, Rewrite(e, lines, place == Inside)).report ==
            if FoundIn(e.name, lines) then With(s.report, e) else s.report
    decreases |lines|
  {
    hide Words;
    hide Emit;
    hide Fits;
    if lines != [] {
      var words := Words(lines[0]);
      var out := Emit(e, lines[0], place == Inside);
      ReadOwn(e, lines[0], place, s);
      ReadConcat(e.name, s, out, Rewrite(e, lines[1..], Removing(e, lines[0], place == Inside)));
      ReadRewritten(e, lines[1..], Move(e.name, e.name, place, words), Read(e.name, s, out));
      WithTwice(s.report, e);
    }
  }

  lemma WithTwice(r: Report, e: Entry)
    ensures With(With(r, e), e) == With(r, e)
  {
    var m := MapOf(Kept(e.attributes));
    assert r.attributes + m + m == r.attributes + m;
  }

  /** The report the caller of write_interface asked for, as far as attributes have a value. */
  function Wanted(e: Entry): Report {
    Report(e.automatic, Some(Header(e.family, e.how)), MapOf(Kept(e.attributes)))
  }

  lemma WithNothing(e: Entry)
    ensures With(NOTHING, e) == Wanted(e)
  {
    assert map[] + MapOf(Kept(e.attributes)) == MapOf(Kept(e.attributes));
  }

  /** What was written is read back. */
  lemma WrittenIsRead(e: Entry, lines: seq<Line>)
    requires Fits(e) && !Strays(e.name, e.name, lines, Outside, 2)
    ensures ReportOf(e.name, Written(e, lines)) == Wanted(e)
  {
    hide Words;
    hide Rewrite;
    hide Stanza;
    hide Fits;
    var s := Reader(NOTHING, false);
    ReadRewritten(e, lines, Outside, s);
    FoundIsFoundIn(e.name, lines);
    WithNothing(e);
    if !Found(e.name, lines) {
      ReadConcat(e.name, s, Rewrite(e, lines, false), Stanza(e));
      ReadStanza(e.name, Read(e.name, s, Rewrite(e, lines, false)), e);
    } else {
      assert Rewrite(e, lines, false) + [] == Rewrite(e, lines, false);
    }
  }

  // ----- what other interfaces read

  /** An assignment that a reader makes in the new file; stray: the reader of the old file does not make it. */
  datatype Mark = Mark(key: string, value: string, stray: bool)

  /** The assignment at one line, for an interface other than the one that is written. */
  function MarkAt(place: Place, words: seq<string>): seq<Mark> {
    if place != Outside && KindOf(words) == Setting && |words| >= 2 then
      [Mark(words[0], words[1], place == Hanging)]
    else []
  }

  function Marks(name: string, who: string, lines: seq<Line>, place: Place): seq<Mark> {
    if lines == [] then []
    else MarkAt(place, Words(lines[0])) + Marks(name, who, lines[1..], Move(name, who, place, Words(lines[0])))
  }

  /** The map after all assignments, or after those that are not stray. */
  function Assigned(m: map<string, string>, marks: seq<Mark>, strays: bool): map<string, string> {
    if marks == [] then m
    else
      var front, last := Assigned(m, marks[..|marks| - 1], strays), marks[|marks| - 1];
      if last.stray && !strays then front else front[last.key := last.value]
  }

  /** The value that the last assignment of the key gives it. */
  function LastValue(marks: seq<Mark>, key: string, strays: bool): Option<string> {
    if marks == [] then None
    else
      var last := marks[|marks| - 1];
      if last.key == key && (strays || !last.stray) then Some(last.value)
      else LastValue(marks[..|marks| - 1], key, strays)
  }

  predicate LastForKey(marks: seq<Mark>, i: nat)
    requires i < |marks|
  {
    forall j :: i < j < |marks| ==> marks[j].key != marks[i].key
  }

  /** Every stray assignment that is the last one for its key repeats the last assignment that is not stray. */
  predicate Harmless(marks: seq<Mark>) {
    forall i :: 0 <= i < |marks| && marks[i].stray && LastForKey(marks, i) ==>
      LastValue(marks, marks[i].key, false) == Some(marks[i].value)
  }

  lemma {:induction false} AssignedIsLast(marks: seq<Mark>, key: string, strays: bool)
    ensures var m := Assigned(map[], marks, strays);
      LastValue(marks, key, strays) == if key in m then Some(m[key]) else None
  {
    if marks != [] {
      AssignedIsLast(marks[..|marks| - 1], key, strays);
    }
  }

  /** The last value comes from the last assignment of the key. */
  lemma {:induction false} LastIsSomewhere(marks: seq<Mark>, key: string)
    ensures LastValue(marks, key, true).None? ==> LastValue(marks, key, false).None?
    ensures LastValue(marks, key, true).Some? ==>
      exists i :: 0 <= i < |marks| && marks[i].key == key && LastForKey(marks, i)
        && LastValue(marks, key, true) == Some(marks[i].value)
        && (!marks[i].stray ==> LastValue(marks, key, false) == Some(marks[i].value))
  {
    if marks != [] {
      var front, n := marks[..|marks| - 1], |marks| - 1;
      if marks[n].key == key {
        assert LastForKey(marks, n);
      } else {
        LastIsSomewhere(front, key);
        if LastValue(front, key, true).Some? {
          var i :| 0 <= i < |front| && front[i].key == key && LastForKey(front, i)
            && LastValue(front, key, true) == Some(front[i].value)
            && (!front[i].stray ==> LastValue(front, key, false) == Some(front[i].value));
          assert marks[i] == front[i];
          assert LastForKey(marks, i) by {
            assert forall j :: i < j < |front| ==> marks[j] == front[j];
          }
        }
      }
    }
  }

  lemma {:induction false} LastValueAt(marks: seq<Mark>, i: nat)
    requires i < |marks| && LastForKey(marks, i)
    ensures LastValue(marks, marks[i].key, true) == Some(marks[i].value)
  {
    var front := marks[..|marks| - 1];
    if i < |front| {
      assert front[i] == marks[i];
      assert forall j :: i < j < |front| ==> front[j] == marks[j];
      LastValueAt(front, i);
    }
  }

  /** Stray assignments make no difference exactly if they are harmless. */
  lemma HarmlessIsExact(marks: seq<Mark>)
    ensures Assigned(map[], marks, true) == Assigned(map[], marks, false) <==> Harmless(marks)
  {
    var all, own := Assigned(map[], marks, true), Assigned(map[], marks, false);
    forall key ensures LastValue(marks, key, true) == (if key in all then Some(all[key]) else None)
      && LastValue(marks, key, false) == (if key in own then Some(own[key]) else None)
    {
      AssignedIsLast(marks, key, true);
      AssignedIsLast(marks, key, false);
    }
    if all == own {
      forall i | 0 <= i < |marks| && marks[i].stray && LastForKey(marks, i)
        ensures LastValue(marks, marks[i].key, false) == Some(marks[i].value)
      {
        LastValueAt(marks, i);
      }
    }
    if Harmless(marks) {
      forall key ensures LastValue(marks, key, true) == LastValue(marks, key, false) {
        LastIsSomewhere(marks, key);
      }
      assert all.Keys == own.Keys by {
        forall key ensures key in all <==> key in own {
          assert LastValue(marks, key, true) == LastValue(marks, key, false);
        }
      }
      assert forall key :: key in all ==> LastValue(marks, key, true) == LastValue(marks, key, false);
    }
  }

  lemma {:induction false} AssignedConcat(m: map<string, string>, a: seq<Mark>, b: seq<Mark>, strays: bool)
    ensures Assigned(m, a + b, strays) == Assigned(Assigned(m, a, strays), b, strays)
  {
    if b == [] {
      assert a + b == a;
    } else {
      assert (a + b)[..|a + b| - 1] == a + b[..|b| - 1];
      AssignedConcat(m, a, b[..|b| - 1], strays);
    }
  }

  lemma AssignedOne(m: map<string, string>, mark: Mark, strays: bool)
    ensures Assigned(m, [], strays) == m
    ensures Assigned(m, [mark], strays) == if mark.stray && !strays then m else m[mark.key := mark.value]
  {
    assert [mark][..0] == [];
  }

  predicate SameButAttributes(r: Report, q: Report) {
    r.automatic == q.automatic && r.header == q.header
  }

  /**
    Two readers of another interface, one in the old file and one in the new one: they differ in the stray
    assignments only.
   */
  lemma ReadOther(e: Entry, who: string, line: Line, place: Place, removing: bool, s: Reader, t: Reader)
    requires Fits(e) && who != e.name
    requires SameButAttributes(s.report, t.report)
    requires (s.inside <==> place == Inside) && (t.inside <==> place != Outside)
    requires removing ==> place == Outside
    ensures var s' := ReadLine(who, s, line);
      var t' := Read(who, t, Emit(e, line, removing));
      var place' := Move(e.name, who, place, Words(line));
      var marks := MarkAt(place, Words(line));
      && SameButAttributes(s'.report, t'.report)
      && s'.report.attributes == Assigned(s.report.attributes, marks, false)
      && t'.report.attributes == Assigned(t.report.attributes, marks, true)
      && (s'.inside <==> place' == Inside) && (t'.inside <==> place' != Outside)
      && (Removing(e, line, removing) ==> place' == Outside)
  {
    hide Words;
    hide Stanza;
    hide Assigned;
    ReadOne(who, t, line);
    AssignedOne(s.report.attributes, Mark("", "", false), false);
    AssignedOne(t.report.attributes, Mark("", "", false), true);
    match KindOf(Words(line))
    case Iface =>
      ReadStanza(who, t, e);
    case Auto =>
      ReadAuto(e.name, who, t, line);
    case Setting =>
      if |Words(line)| >= 2 {
        AssignedOne(s.report.attributes, Mark(Words(line)[0], Words(line)[1], place == Hanging), false);
        AssignedOne(t.report.attributes, Mark(Words(line)[0], Words(line)[1], place == Hanging), true);
      }
    case _ =>
  }

  lemma {:induction false} OthersRewritten(e: Entry, who: string, lines: seq<Line>, place: Place, removing: bool,
                                           s: Reader, t: Reader)
    requires Fits(e) && who != e.name
    requires SameButAttributes(s.report, t.report)
    requires (s.inside <==> place == Inside) && (t.inside <==> place != Outside)
    requires removing ==> place == Outside
    ensures var s' := Read(who, s, lines).report;
      var t' := Read(who, t, Rewrite(e, lines, removing)).report;
      var marks := Marks(e.name, who, lines, place);
      && SameButAttributes(s', t')
      && s'.attributes == Assigned(s.report.attributes, marks, false)
      && t'.attributes == Assigned(t.report.attributes, marks, true)
    decreases |lines|
  {
    hide Words;
    hide Emit;
    hide Fits;
    hide ReadLine;
    hide Move;
    hide Assigned;
    hide MarkAt;
    hide SameButAttributes;
    if lines == [] {
      AssignedOne(s.report.attributes, Mark("", "", false), false);
      AssignedOne(t.report.attributes, Mark("", "", false), true);
    } else {
      var line := lines[0];
      var out := Emit(e, line, removing);
      var place' := Move(e.name, who, place, Words(line));
      ReadOther(e, who, line, place, removing, s, t);
      ReadConcat(who, t, out, Rewrite(e, lines[1..], Removing(e, line, removing)));
      OthersRewritten(e, who, lines[1..], place', Removing(e, line, removing),
                      ReadLine(who, s, line), Read(who, t, out));
      var marks, rest := MarkAt(place, Words(line)), Marks(e.name, who, lines[1..], place');
      AssignedConcat(s.report.attributes, marks, rest, false);
      AssignedConcat(t.report.attributes, marks, rest, true);
    }
  }

  /** What another interface reads in the new file. */
  lemma OthersRead(e: Entry, who: string, lines: seq<Line>)
    requires Fits(e) && who != e.name
    ensures var marks := Marks(e.name, who, lines, Outside);
      && SameButAttributes(ReportOf(who, lines), ReportOf(who, Written(e, lines)))
      && ReportOf(who, lines).attributes == Assigned(map[], marks, false)
      && ReportOf(who, Written(e, lines)).attributes == Assigned(map[], marks, true)
  {
    hide Words;
    hide Rewrite;
    hide Stanza;
    hide Fits;
    hide Marks;
    hide Assigned;
    var s := Reader(NOTHING, false);
    OthersRewritten(e, who, lines, Outside, false, s, s);
    if !Found(e.name, lines) {
      ReadConcat(who, s, Rewrite(e, lines, false), Stanza(e));
      ReadStanza(who, Read(who, s, Rewrite(e, lines, false)), e);
    } else {
      assert Rewrite(e, lines, false) + [] == Rewrite(e, lines, false);
    }
  }

  /**
    Another interface reads as it did before exactly if each stray assignment that is the last one for its key
    repeats the interface's own last assignment of that key.
   */
  lemma OthersReadAsBefore(e: Entry, who: string, lines: seq<Line>)
    requires Fits(e) && who != e.name
    ensures ReportOf(who, Written(e, lines)) == ReportOf(who, lines)
            <==> Harmless(Marks(e.name, who, lines, Outside))
  {
    hide Fits;
    hide Written;
    hide ReportOf;
    hide Marks;
    hide Assigned;
    hide Harmless;
    OthersRead(e, who, lines);
    HarmlessIsExact(Marks(e.name, who, lines, Outside));
  }

  /** Without stray settings every assignment is the interface's own. */
  lemma {:induction false} NoStraysNoHarm(name: string, who: string, lines: seq<Line>, place: Place)
    requires !Strays(name, who, lines, place, 2)
    ensures forall i :: 0 <= i < |Marks(name, who, lines, place)| ==> !Marks(name, who, lines, place)[i].stray
    ensures Harmless(Marks(name, who, lines, place))
    decreases |lines|
  {
    hide Words;
    hide Move;
    if lines != [] {
      NoStraysNoHarm(name, who, lines[1..], Move(name, who, place, Words(lines[0])));
    }
  }

  // ----- the conditions are exact

  lemma {:induction false} AttributesStay(who: string, s: Reader, lines: seq<Line>, key: string)
    requires key in s.report.attributes
    ensures key in Read(who, s, lines).report.attributes
    decreases |lines|
  {
    hide Words;
    if lines != [] {
      AttributesStay(who, ReadLine(who, s, lines[0]), lines[1..], key);
    }
  }

  /** A stray setting is read as an attribute that nobody wrote. */
  lemma {:induction false} StrayIsRead(e: Entry, lines: seq<Line>, place: Place, s: Reader)
    requires Fits(e) && (s.inside <==> place != Outside)
    requires Strays(e.name, e.name, lines, place, 2)
    ensures Read(e.name, s, Rewrite(e, lines, place == Inside)).report.attributes != map[]
    decreases |lines|
  {
    hide Words;
    hide Fits;
    hide AutoKept;
    hide Stanza;
    var words := Words(lines[0]);
    var out := Emit(e, lines[0], place == Inside);
    var rest := Rewrite(e, lines[1..], Removing(e, lines[0], place == Inside));
    ReadConcat(e.name, s, out, rest);
    if place == Hanging && KindOf(words) == Setting && |words| >= 2 {
      ReadOne(e.name, s, lines[0]);
      AttributesStay(e.name, Read(e.name, s, out), rest, words[0]);
    } else {
      ReadOwn(e, lines[0], place, s);
      StrayIsRead(e, lines[1..], Move(e.name, e.name, place, words), Read(e.name, s, out));
    }
  }

  lemma StrayShows(e: Entry, lines: seq<Line>)
    requires Fits(e) && e.attributes == [] && Strays(e.name, e.name, lines, Outside, 2)
    ensures ReportOf(e.name, Written(e, lines)) != Wanted(e)
  {
    hide Words;
    hide Rewrite;
    hide Stanza;
    hide Fits;
    var s := Reader(NOTHING, false);
    StrayIsRead(e, lines, Outside, s);
    var t := Read(e.name, s, Rewrite(e, lines, false));
    var tail := if Found(e.name, lines) then [] else Stanza(e);
    ReadConcat(e.name, s, Rewrite(e, lines, false), tail);
    var key :| key in t.report.attributes;
    AttributesStay(e.name, t, tail, key);
  }

  /** Whatever is written is read back if and only if removing auto lines leaves no stray setting. */
  lemma ReadBackExactlyWhen(name: string, automatic: bool, family: string, how: string, lines: seq<Line>)
    requires IsWord(name) && IsWord(family) && IsWord(how)
    ensures (forall attributes | FitAttributes(attributes) ::
               var e := Entry(name, automatic, family, how, attributes);
               ReportOf(name, Written(e, lines)) == Wanted(e))
            <==> !Strays(name, name, lines, Outside, 2)
  {
    if Strays(name, name, lines, Outside, 2) {
      StrayShows(Entry(name, automatic, family, how, []), lines);
      assert FitAttributes([]);
    } else {
      forall attributes | FitAttributes(attributes)
        ensures var e := Entry(name, automatic, family, how, attributes);
          ReportOf(name, Written(e, lines)) == Wanted(e)
      {
        WrittenIsRead(Entry(name, automatic, family, how, attributes), lines);
      }
    }
  }

  // ----- one entry

  /** The attributes of a stanza as assignments. */
  function GivenMarks(attributes: seq<Pair>): (marks: seq<Mark>)
    ensures |marks| == |attributes|
  {
    if attributes == [] then []
    else GivenMarks(attributes[..|attributes| - 1]) + [Mark(Last(attributes).key, Last(attributes).value, false)]
  }

  /** The assignments for the written interface at one line: those of its new stanza, or a stray one. */
  function OwnMarkAt(e: Entry, place: Place, words: seq<string>): seq<Mark> {
    if Heads(words, e.name) then GivenMarks(Kept(e.attributes))
    else if place == Hanging && KindOf(words) == Setting && |words| >= 2 then [Mark(words[0], words[1], true)]
    else []
  }

  function OwnMarks(e: Entry, lines: seq<Line>, place: Place): seq<Mark> {
    if lines == [] then []
    else
      OwnMarkAt(e, place, Words(lines[0])) + OwnMarks(e, lines[1..], Move(e.name, e.name, place, Words(lines[0])))
  }

  lemma GivenLast(attributes: seq<Pair>)
    requires attributes != []
    ensures GivenMarks(attributes)
      == GivenMarks(attributes[..|attributes| - 1]) + [Mark(Last(attributes).key, Last(attributes).value, false)]
  {
  }

  lemma AssignedMore(m: map<string, string>, marks: seq<Mark>, mark: Mark, strays: bool)
    requires !mark.stray
    ensures Assigned(m, marks + [mark], strays) == Assigned(m, marks, strays)[mark.key := mark.value]
  {
    assert (marks + [mark])[..|marks|] == marks;
  }

  lemma MapOfLast(m: map<string, string>, attributes: seq<Pair>)
    requires attributes != []
    ensures m + MapOf(attributes)
      == (m + MapOf(attributes[..|attributes| - 1]))[Last(attributes).key := Last(attributes).value]
  {
  }

  lemma {:induction false} AssignedGiven(m: map<string, string>, attributes: seq<Pair>, strays: bool)
    ensures Assigned(m, GivenMarks(attributes), strays) == m + MapOf(attributes)
  {
    hide Assigned;
    hide GivenMarks;
    if attributes == [] {
      assert GivenMarks(attributes) == [];
      AssignedOne(m, Mark("", "", true), strays);
      assert m + map[] == m;
    } else {
      var front := attributes[..|attributes| - 1];
      AssignedGiven(m, front, strays);
      GivenLast(attributes);
      AssignedMore(m, GivenMarks(front), GivenMarks(attributes)[|front|], strays);
      MapOfLast(m, attributes);
    }
  }

  lemma AssignedAt(m: map<string, string>, e: Entry, place: Place, words: seq<string>, strays: bool)
    ensures Assigned(m, OwnMarkAt(e, place, words), strays) ==
            if Heads(words, e.name) then m + MapOf(Kept(e.attributes))
            else if strays && place == Hanging && KindOf(words) == Setting && |words| >= 2 then m[words[0] := words[1]]
            else m
  {
    hide Assigned;
    hide GivenMarks;
    AssignedGiven(m, Kept(e.attributes), strays);
    AssignedOne(m, if |words| >= 2 then Mark(words[0], words[1], true) else Mark("", "", true), strays);
  }

  /** What a stanza leaves alone or sets besides the attributes. */
  predicate AsWith(r: Report, q: Report, e: Entry, found: bool) {
    SameButAttributes(r, if found then With(q, e) else q)
  }

  /** The report of the entry itself, stray settings included. */
  lemma ReadOwnExactly(e: Entry, line: Line, place: Place, s: Reader)
    requires Fits(e) && (s.inside <==> place != Outside)
    ensures var s' := Read(e.name, s, Emit(e, line, place == Inside));
      && (s'.inside <==> Move(e.name, e.name, place, Words(line)) != Outside)
      && AsWith(s'.report, s.report, e, Heads(Words(line), e.name))
      && s'.report.attributes == Assigned(s.report.attributes, OwnMarkAt(e, place, Words(line)), true)
  {
    hide Words;
    hide Fits;
    hide Assigned;
    hide OwnMarkAt;
    hide Stanza;
    AssignedAt(s.report.attributes, e, place, Words(line), true);
    if place == Hanging && KindOf(Words(line)) == Setting && |Words(line)| >= 2 {
      ReadOne(e.name, s, line);
    } else {
      hide Emit;
      ReadOwn(e, line, place, s);
    }
  }

  lemma {:induction false} ReadRewrittenExactly(e: Entry, lines: seq<Line>, place: Place, s: Reader)
    requires Fits(e) && (s.inside <==> place != Outside)
    ensures var r := Read(e.name, s, Rewrite(e, lines, place == Inside)).report;
      && AsWith(r, s.report, e, FoundIn(e.name, lines))
      && r.attributes == Assigned(s.report.attributes, OwnMarks(e, lines, place), true)
    decreases |lines|
  {
    hide Words;
    hide Emit;
    hide Fits;
    hide Assigned;
    hide OwnMarkAt;
    if lines == [] {
      AssignedOne(s.report.attributes, Mark("", "", true), true);
    } else {
      var words := Words(lines[0]);
      var out := Emit(e, lines[0], place == Inside);
      var place' := Move(e.name, e.name, place, words);
      ReadOwnExactly(e, lines[0], place, s);
      ReadConcat(e.name, s, out, Rewrite(e, lines[1..], Removing(e, lines[0], place == Inside)));
      ReadRewrittenExactly(e, lines[1..], place', Read(e.name, s, out));
      AssignedConcat(s.report.attributes, OwnMarkAt(e, place, words), OwnMarks(e, lines[1..], place'), true);
    }
  }

  /** Without the stray ones the assignments give the attributes that were written. */
  lemma {:induction false} OwnAssigned(e: Entry, lines: seq<Line>, place: Place, m: map<string, string>)
    ensures Assigned(m, OwnMarks(e, lines, place), false) ==
            if FoundIn(e.name, lines) then m + MapOf(Kept(e.attributes)) else m
    ensures !FoundIn(e.name, lines) && place == Outside ==> OwnMarks(e, lines, place) == []
    decreases |lines|
  {
    hide Words;
    hide Assigned;
    if lines == [] {
      AssignedOne(m, Mark("", "", true), false);
    } else {
      var words := Words(lines[0]);
      var marks := OwnMarkAt(e, place, words);
      var place' := Move(e.name, e.name, place, words);
      AssignedAt(m, e, place, words, false);
      AssignedConcat(m, marks, OwnMarks(e, lines[1..], place'), false);
      OwnAssigned(e, lines[1..], place', Assigned(m, marks, false));
      var kept := MapOf(Kept(e.attributes));
      assert m + kept + kept == m + kept;
    }
  }

  /**
    What is written for an entry is read back exactly if each stray setting that is the last assignment of its key
    repeats the value that was written for that key.
   */
  lemma EntryReadBackExactlyWhen(e: Entry, lines: seq<Line>)
    requires Fits(e)
    ensures ReportOf(e.name, Written(e, lines)) == Wanted(e) <==> Harmless(OwnMarks(e, lines, Outside))
  {
    hide Words;
    hide Rewrite;
    hide Stanza;
    hide Fits;
    hide Assigned;
    hide OwnMarks;
    hide Harmless;
    var s := Reader(NOTHING, false);
    var marks := OwnMarks(e, lines, Outside);
    FoundIsFoundIn(e.name, lines);
    ReadRewrittenExactly(e, lines, Outside, s);
    OwnAssigned(e, lines, Outside, map[]);
    HarmlessIsExact(marks);
    WithNothing(e);
    if Found(e.name, lines) {
      assert Rewrite(e, lines, false) + [] == Rewrite(e, lines, false);
      assert map[] + MapOf(Kept(e.attributes)) == MapOf(Kept(e.attributes));
    } else {
      NoMarks();
      ReadConcat(e.name, s, Rewrite(e, lines, false), Stanza(e));
      ReadStanza(e.name, Read(e.name, s, Rewrite(e, lines, false)), e);
    }
  }

  lemma NoMarks()
    ensures Harmless([]) && Assigned(map[], [], true) == map[]
  {
  }

  predicate FitReport(r: Report) {
    && (r.header.Some? ==> IsWord(r.header.value.family) && IsWord(r.header.value.how))
    && forall key :: key in r.attributes ==> IsKey(key) && IsWord(r.attributes[key])
  }

  lemma {:induction false} ReadFits(who: string, s: Reader, lines: seq<Line>)
    requires FitReport(s.report) && (s.report.header.Some? || s.inside ==> IsWord(who))
    ensures FitReport(Read(who, s, lines).report)
    ensures Read(who, s, lines).report.header.Some? ==> IsWord(who)
    decreases |lines|
  {
    if lines != [] {
      var words := Words(lines[0]);
      if words != [] && KindOf(words) == Setting {
        assert KindOf([words[0]]) == Setting;
      }
      ReadFits(who, ReadLine(who, s, lines[0]), lines[1..]);
    }
  }

  predicate DistinctKeys(attributes: seq<Pair>) {
    forall i, j :: 0 <= i < j < |attributes| ==> attributes[i].key != attributes[j].key
  }

  lemma {:induction false} MapOfHas(attributes: seq<Pair>, i: nat)
    requires i < |attributes| && DistinctKeys(attributes)
    ensures attributes[i].key in MapOf(attributes) && MapOf(attributes)[attributes[i].key] == attributes[i].value
  {
    var front := attributes[..|attributes| - 1];
    if i < |front| {
      MapOfHas(front, i);
      assert front[i] == attributes[i];
    }
  }

  lemma {:induction false} AllKept(attributes: seq<Pair>)
    requires forall i :: 0 <= i < |attributes| ==> attributes[i].value != ""
    ensures Kept(attributes) == attributes
  {
    if attributes != [] {
      AllKept(attributes[..|attributes| - 1]);
    }
  }

  /** No file at all reads as arguments that do not fit the format, or as an attribute without a value. */
  lemma OnlyFittingIsRead(e: Entry, lines: seq<Line>)
    requires DistinctKeys(e.attributes)
    requires ReportOf(e.name, lines) == Report(e.automatic, Some(Header(e.family, e.how)), MapOf(e.attributes))
    ensures Fits(e) && Kept(e.attributes) == e.attributes
  {
    hide Words;
    hide IsKey;
    hide IsWord;
    ReadFits(e.name, Reader(NOTHING, false), lines);
    forall i | 0 <= i < |e.attributes| ensures FitPair(e.attributes[i]) && e.attributes[i].value != "" {
      MapOfHas(e.attributes, i);
      NotAWord();
    }
    AllKept(e.attributes);
  }

  lemma NotAWord()
    ensures !IsWord("")
  {
  }

  /** Writing one interface can hand the settings after an auto line to another one. */
  lemma AutoLineMatters(e: Entry, other: Entry, p: Pair)
    requires Fits(e) && Fits(other) && other.name != e.name && FitPair(p) && p.value != ""
    ensures var lines := [HeadLine(other), "auto " + e.name, AttributeLine(p)];
      && ReportOf(other.name, lines).attributes == map[]
      && ReportOf(other.name, Written(e, lines)).attributes == map[p.key := p.value]
  {
    hide Words;
    hide Stanza;
    HeadWords(other);
    AutoWords(e.name);
    AttributeWords(p);
    var l0: Line, l1: Line, l2: Line := HeadLine(other), "auto " + e.name, AttributeLine(p);
    var lines := [l0, l1, l2];
    var s := Reader(NOTHING, false);
    var s1 := ReadLine(other.name, s, l0);
    ReadThree(other.name, s, l0, l1, l2);
    RemovedIsEmpty(e.name, l1);
    assert Without(e.name, Words(l1)[1..]) == [];
    assert AutoKept(e.name, l1) == [];
    RewriteThree(e, l0, l1, l2);
    assert Rewrite(e, lines, false) == [l0, l2];
    assert Read(other.name, s, [l0, l2]) == ReadLine(other.name, s1, l2) by {
      assert [l0, l2][1..] == [l2];
      ReadOne(other.name, s1, l2);
    }
    var tail := if Found(e.name, lines) then [] else Stanza(e);
    ReadConcat(other.name, s, [l0, l2], tail);
    ReadStanza(other.name, ReadLine(other.name, s1, l2), e);
    ReadNone(other.name, ReadLine(other.name, s1, l2));
  }

  lemma ReadNone(who: string, s: Reader)
    ensures Read(who, s, []) == s
  {
  }

  lemma ReadThree(who: string, s: Reader, l0: Line, l1: Line, l2: Line)
    ensures Read(who, s, [l0, l1, l2]) == ReadLine(who, ReadLine(who, ReadLine(who, s, l0), l1), l2)
  {
    hide ReadLine;
    ReadConcat(who, s, [l0], [l1, l2]);
    ReadOne(who, s, l0);
    assert [l0] + [l1, l2] == [l0, l1, l2] && [l1] + [l2] == [l1, l2];
    var s1 := ReadLine(who, s, l0);
    ReadConcat(who, s1, [l1], [l2]);
    ReadOne(who, s1, l1);
    ReadOne(who, ReadLine(who, s1, l1), l2);
  }

  lemma RewriteThree(e: Entry, l0: Line, l1: Line, l2: Line)
    requires Fits(e)
    ensures var r1 := Removing(e, l0, false);
      var r2 := Removing(e, l1, r1);
      Rewrite(e, [l0, l1, l2], false) == Emit(e, l0, false) + Emit(e, l1, r1) + Emit(e, l2, r2)
  {
    hide Emit;
    hide Removing;
    hide Fits;
    var r1 := Removing(e, l0, false);
    var r2 := Removing(e, l1, r1);
    assert [l0, l1, l2][1..] == [l1, l2] && [l1, l2][1..] == [l2] && [l2][1..] == [];
    assert Rewrite(e, [l2], r2) == Emit(e, l2, r2) + [];
    assert Rewrite(e, [l1, l2], r1) == Emit(e, l1, r1) + Emit(e, l2, r2);
  }

  // ----- writing twice

  lemma {:induction false} RewriteConcat(e: Entry, a: seq<Line>, b: seq<Line>, removing: bool)
    requires Fits(e)
    ensures Rewrite(e, a + b, removing) == Rewrite(e, a, removing) + Rewrite(e, b, After(e, a, removing))
    decreases |a|
  {
    hide Words;
    hide Emit;
    hide Fits;
    hide Removing;
    if a == [] {
      assert a + b == b;
    } else {
      assert (a + b)[1..] == a[1..] + b;
      RewriteConcat(e, a[1..], b, Removing(e, a[0], removing));
    }
  }

  function After(e: Entry, lines: seq<Line>, removing: bool): bool
    decreases |lines|
  {
    if lines == [] then removing else After(e, lines[1..], Removing(e, lines[0], removing))
  }

  lemma {:induction false} AttributesAreRemoved(e: Entry, attributes: seq<Pair>)
    requires Fits(e) && FitAttributes(attributes)
    ensures Rewrite(e, AttributeLines(attributes), true) == [] && After(e, AttributeLines(attributes), true)
    decreases |attributes|
  {
    hide Words;
    if attributes != [] {
      AttributeWords(attributes[0]);
      var line: Line := AttributeLine(attributes[0]);
      assert AttributeLines(attributes)[1..] == AttributeLines(attributes[1..]);
      AttributesAreRemoved(e, attributes[1..]);
    }
  }

  lemma StanzaAgain(e: Entry, removing: bool)
    requires Fits(e)
    ensures Rewrite(e, Stanza(e), removing) == Stanza(e) && After(e, Stanza(e), removing)
  {
    hide Words;
    hide Emit;
    hide Rewrite;
    hide After;
    var auto := AutoLines(e);
    var head: Line := HeadLine(e);
    var lines := AttributeLines(e.attributes);
    var r := After(e, auto, removing);
    AutoLinesGo(e, removing);
    HeadAgain(e, r);
    AttributesAreRemoved(e, e.attributes);
    RewriteConcat(e, [head], lines, r);
    RewriteConcat(e, auto, [head] + lines, removing);
    AfterConcat(e, [head], lines, r);
    AfterConcat(e, auto, [head] + lines, removing);
    assert auto + ([head] + lines) == Stanza(e);
    assert [] + (Stanza(e) + []) == Stanza(e);
  }

  lemma AutoLinesGo(e: Entry, removing: bool)
    requires Fits(e)
    ensures Rewrite(e, AutoLines(e), removing) == []
  {
    hide Words;
    hide AutoKept;
    if e.automatic {
      var auto := AutoLines(e);
      AutoWords(e.name);
      RewriteOne(e, auto[0], removing);
      AutoGone(e.name, auto[0]);
    }
  }

  lemma HeadAgain(e: Entry, removing: bool)
    requires Fits(e)
    ensures var head: Line := HeadLine(e); Rewrite(e, [head], removing) == Stanza(e) && After(e, [head], removing)
  {
    hide Words;
    hide Stanza;
    HeadWords(e);
    RewriteOne(e, HeadLine(e), removing);
  }

  lemma RewriteOne(e: Entry, line: Line, removing: bool)
    requires Fits(e)
    ensures Rewrite(e, [line], removing) == Emit(e, line, removing)
    ensures After(e, [line], removing) == Removing(e, line, removing)
    ensures Rewrite(e, [], removing) == [] && After(e, [], removing) == removing
  {
    hide Emit;
    hide Removing;
    hide Fits;
    assert Rewrite(e, [line], removing) == Emit(e, line, removing) + [];
  }

  lemma AutoGone(name: string, line: Line)
    requires Words(line) == ["auto", name]
    ensures AutoKept(name, line) == []
  {
    hide Words;
    RemovedIsEmpty(name, line);
    assert Without(name, Words(line)[1..]) == [];
  }

  lemma {:induction false} AfterConcat(e: Entry, a: seq<Line>, b: seq<Line>, removing: bool)
    ensures After(e, a + b, removing) == After(e, b, After(e, a, removing))
    decreases |a|
  {
    hide Removing;
    if a == [] {
      assert a + b == b;
    } else {
      assert (a + b)[1..] == a[1..] + b;
      AfterConcat(e, a[1..], b, Removing(e, a[0], removing));
    }
  }

  /** Rewriting the lines put out for one line: they stay, unless they are a stray setting. */
  lemma EmitAgain(e: Entry, line: Line, place: Place)
    requires Fits(e)
    ensures var out := Emit(e, line, place == Inside);
      && After(e, out, place != Outside) == (Move(e.name, e.name, place, Words(line)) != Outside)
      && Removing(e, line, place == Inside) == (Move(e.name, e.name, place, Words(line)) == Inside)
      && Rewrite(e, out, place != Outside)
         == if place == Hanging && KindOf(Words(line)) == Setting then [] else out
    ensures place == Hanging && KindOf(Words(line)) == Setting ==> Emit(e, line, place == Inside) == [line]
  {
    hide Words;
    hide Stanza;
    hide AutoKept;
    RewriteOne(e, line, place != Outside);
    match KindOf(Words(line))
    case Iface =>
      StanzaAgain(e, place != Outside);
    case Auto =>
      AutoAgain(e, line, place != Outside);
    case _ =>
  }

  lemma AutoAgain(e: Entry, line: Line, removing: bool)
    requires Fits(e) && KindOf(Words(line)) == Auto
    ensures Rewrite(e, AutoKept(e.name, line), removing) == AutoKept(e.name, line)
    ensures After(e, AutoKept(e.name, line), removing) == (Erased(e.name, Words(line)) && removing)
  {
    hide Words;
    hide RemovedFrom;
    var words := Words(line);
    WithoutKeeps(e.name, words[1..]);
    assert forall i :: 1 <= i < |words| ==> words[i] == words[1..][i - 1];
    RewriteOne(e, line, removing);
    if e.name in words[1..] {
      RemovedIsEmpty(e.name, line);
      var shorter := RemovedFrom(e.name, line);
      if shorter != "" {
        RemovedWords(e.name, line);
        RewriteOne(e, shorter, removing);
        assert Words(shorter)[1..] == Without(e.name, words[1..]);
      }
    }
  }

  lemma {:induction false} RewriteAgain(e: Entry, lines: seq<Line>, place: Place)
    requires Fits(e)
    ensures var out := Rewrite(e, lines, place == Inside);
      && |Rewrite(e, out, place != Outside)| <= |out|
      && (Rewrite(e, out, place != Outside) == out <==> !Strays(e.name, e.name, lines, place, 1))
      && (Strays(e.name, e.name, lines, place, 1) ==> |Rewrite(e, out, place != Outside)| < |out|)
    decreases |lines|
  {
    hide Words;
    hide Emit;
    hide Removing;
    hide Fits;
    hide Move;
    if lines != [] {
      var words := Words(lines[0]);
      var place' := Move(e.name, e.name, place, words);
      var out := Emit(e, lines[0], place == Inside);
      var rest := Rewrite(e, lines[1..], Removing(e, lines[0], place == Inside));
      EmitAgain(e, lines[0], place);
      RewriteConcat(e, out, rest, place != Outside);
      RewriteAgain(e, lines[1..], place');
      assert KindOf(words) == Setting ==> |words| >= 1;
    }
  }

  lemma {:induction false} FoundConcat(name: string, a: seq<Line>, b: seq<Line>)
    ensures FoundIn(name, a + b) == (FoundIn(name, a) || FoundIn(name, b))
    decreases |a|
  {
    hide Words;
    if a == [] {
      assert a + b == b;
    } else {
      assert (a + b)[1..] == a[1..] + b;
      FoundConcat(name, a[1..], b);
    }
  }

  lemma StanzaIsFound(e: Entry)
    requires Fits(e)
    ensures FoundIn(e.name, Stanza(e))
  {
    hide Words;
    HeadWords(e);
    var auto := AutoLines(e);
    var head: Line := HeadLine(e);
    FoundConcat(e.name, auto, [head]);
    FoundConcat(e.name, auto + [head], AttributeLines(e.attributes));
  }

  lemma {:induction false} StillFound(e: Entry, lines: seq<Line>, removing: bool)
    requires Fits(e) && FoundIn(e.name, lines)
    ensures FoundIn(e.name, Rewrite(e, lines, removing))
    decreases |lines|
  {
    hide Words;
    hide Stanza;
    hide Fits;
    hide Removing;
    hide AutoKept;
    var removing' := Removing(e, lines[0], removing);
    FoundConcat(e.name, Emit(e, lines[0], removing), Rewrite(e, lines[1..], removing'));
    if Heads(Words(lines[0]), e.name) {
      StanzaIsFound(e);
    } else {
      StillFound(e, lines[1..], removing');
    }
  }

  /** Where the file never mentions the interface in an iface line, no stanza of it is ever open. */
  lemma {:induction false} NoStanzaNoStrays(name: string, lines: seq<Line>, least: nat)
    requires !FoundIn(name, lines)
    ensures !Strays(name, name, lines, Outside, least)
    decreases |lines|
  {
    hide Words;
    if lines != [] {
      NoStanzaNoStrays(name, lines[1..], least);
    }
  }

  lemma {:induction false} NotFoundAfter(e: Entry, lines: seq<Line>)
    requires Fits(e) && !FoundIn(e.name, lines)
    ensures !After(e, Rewrite(e, lines, false), false)
    decreases |lines|
  {
    hide Words;
    hide AutoKept;
    hide Stanza;
    hide Fits;
    if lines != [] {
      var out := Emit(e, lines[0], false);
      EmitAgain(e, lines[0], Outside);
      AfterConcat(e, out, Rewrite(e, lines[1..], Removing(e, lines[0], false)), false);
      NotFoundAfter(e, lines[1..]);
    }
  }

  /** Writing the same entry once more changes the file exactly when a stray setting was left behind. */
  lemma WritingTwice(e: Entry, lines: seq<Line>)
    requires Fits(e)
    ensures Written(e, Written(e, lines)) == Written(e, lines) <==> !Strays(e.name, e.name, lines, Outside, 1)
  {
    hide Words;
    hide Rewrite;
    hide Stanza;
    hide Fits;
    hide Strays;
    hide FoundIn;
    var out := Rewrite(e, lines, false);
    FoundIsFoundIn(e.name, lines);
    FoundIsFoundIn(e.name, Written(e, lines));
    RewriteAgain(e, lines, Outside);
    if Found(e.name, lines) {
      StillFound(e, lines, false);
      assert Written(e, lines) == out;
    } else {
      NoStanzaNoStrays(e.name, lines, 1);
      NotFoundAfter(e, lines);
      RewriteConcat(e, out, Stanza(e), false);
      StanzaAgain(e, false);
      StanzaIsFound(e);
      FoundConcat(e.name, out, Stanza(e));
    }
  }

  // ----- the text of the file

  lemma {:induction false} AttributesAreLines(attributes: seq<Pair>)
    requires FitAttributes(attributes)
    ensures AllOneLine(AttributeLines(attributes))
  {
    hide OneLine;
    if attributes != [] {
      AttributeWords(attributes[0]);
      AttributesAreLines(attributes[1..]);
    }
  }

  lemma StanzaIsLines(e: Entry)
    requires Fits(e)
    ensures AllOneLine(Stanza(e))
  {
    hide OneLine;
    HeadWords(e);
    AutoWords(e.name);
    AttributesAreLines(e.attributes);
  }

  lemma {:induction false} RewrittenIsLines(e: Entry, lines: seq<Line>, removing: bool)
    requires Fits(e) && AllOneLine(lines)
    ensures AllOneLine(Rewrite(e, lines, removing))
    decreases |lines|
  {
    hide Words;
    hide OneLine;
    hide Stanza;
    hide RemovedFrom;
    if lines != [] {
      var line := lines[0];
      StanzaIsLines(e);
      if RemovedFrom(e.name, line) != "" {
        RemovedWords(e.name, line);
      }
      assert AllOneLine(Emit(e, line, removing));
      RewrittenIsLines(e, lines[1..], Removing(e, line, removing));
    }
  }

  /** What a later reader collects from the file is what was put into it. */
  lemma WrittenTextIsRead(e: Entry, lines: seq<Line>)
    requires Fits(e) && AllOneLine(lines)
    ensures Lines(Text(Written(e, lines))) == Written(e, lines)
  {
    hide OneLine;
    hide Rewrite;
    RewrittenIsLines(e, lines, false);
    StanzaIsLines(e);
    LinesOfText(Written(e, lines));
  }
}
