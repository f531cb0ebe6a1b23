/**
  The configuration file of libconfigfile: a map from keys to values, one line each, and vectors of strings that
  are kept in one value.
 */
module ConfigFile {
  import opened Basics
  import opened NetLines

  type Config = map<string, string>

  // ----- lines

  /** std::string::find for a character; the length of the string stands for npos. */
  function Find(s: string, c: char): (i: nat)
    ensures i <= |s| && c !in s[..i]
    ensures i < |s| ==> s[i] == c
  {
    if s == "" || s[0] == c then 0
    else
      var i := 1 + Find(s[1..], c);
      assert s[..i] == [s[0]] + s[1..][..i - 1];
      i
  }

  /**
    What loadConfig makes of a line. A '#' in front of the '=' makes the length of the value wrap around, so that
    all of the rest is taken.
   */
  function ParseLine(s: string): Option<(string, string)> {
    var i := Find(s, '=');
    if i == |s| then None
    else
      var j := Find(s, '#');
      Some((s[..i], if j >= i + 1 then s[i + 1..j] else s[i + 1..]))
  }

  function Load(m: Config, lines: seq<Line>): Config {
    if lines == [] then m
    else
      var front := Load(m, lines[..|lines| - 1]);
      match ParseLine(lines[|lines| - 1])
      case None => front
      case Some((k, v)) => front[k := v]
  }

  function LineOf(k: string, v: string): string {
    k + "=" + v
  }

  /** The entries that a line can hold. */
  predicate Fits(k: string, v: string) {
    OneLine(k) && OneLine(v) && '=' !in k && ('#' in v ==> '#' in k)
  }

  lemma {:induction false} FoundAt(s: string, t: string, c: char)
    requires c !in s && t != "" && t[0] == c
    ensures Find(s + t, c) == |s|
  {
    if s == "" {
      assert s + t == t;
    } else {
      assert (s + t)[1..] == s[1..] + t;
      FoundAt(s[1..], t, c);
    }
  }

  lemma {:induction false} NotFound(s: string, c: char)
    ensures Find(s, c) == |s| <==> c !in s
  {
    if s != "" && s[0] != c {
      NotFound(s[1..], c);
    }
  }

  lemma {:induction false} FoundFirst(s: string, t: string, c: char)
    requires c in s
    ensures Find(s + t, c) < |s|
  {
    assert (s + t)[0] == s[0];
    if s[0] != c {
      assert (s + t)[1..] == s[1..] + t;
      FoundFirst(s[1..], t, c);
    }
  }

  lemma LineIsParsed(k: string, v: string)
    requires Fits(k, v)
    ensures ParseLine(LineOf(k, v)) == Some((k, v)) && OneLine(LineOf(k, v))
  {
    var s := LineOf(k, v);
    assert s == k + ("=" + v);
    FoundAt(k, "=" + v, '=');
    assert s[..|k|] == k && s[|k| + 1..] == v;
    if '#' in k {
      FoundFirst(k, "=" + v, '#');
    } else {
      NotFound(s, '#');
      assert s[|k| + 1..|s|] == v;
    }
  }

  lemma ParsedFits(s: string)
    requires OneLine(s) && ParseLine(s).Some?
    ensures Fits(ParseLine(s).value.0, ParseLine(s).value.1)
  {
    var i, j := Find(s, '='), Find(s, '#');
    if j >= i + 1 {
      assert forall c :: c in s[i + 1..j] ==> c in s[..j];
    } else {
      assert j < |s| && s[j] == '#' && j != i;
      assert s[..i][j] == '#';
    }
  }

  // ----- the whole file

  predicate AllFit(m: Config) {
    forall k :: k in m ==> Fits(k, m[k])
  }

  lemma {:induction false} LoadedFits(m: Config, lines: seq<Line>)
    requires AllFit(m) && AllOneLine(lines)
    ensures AllFit(Load(m, lines))
  {
    hide ParseLine;
    hide Fits;
    if lines != [] {
      LoadedFits(m, lines[..|lines| - 1]);
      assert OneLine(lines[|lines| - 1]);
      if ParseLine(lines[|lines| - 1]).Some? {
        ParsedFits(lines[|lines| - 1]);
      }
    }
  }

  /** The keys of a map in some order. */
  predicate Lists(order: seq<string>, m: Config) {
    && AllIn(order, m)
    && (forall k :: k in m ==> k in order)
    && (forall i, j :: 0 <= i < j < |order| ==> order[i] != order[j])
  }

  function LinesOf(m: Config, order: seq<string>): seq<Line>
    requires AllIn(order, m)
  {
    if order == [] then []
    else LinesOf(m, order[..|order| - 1]) + [LineOf(order[|order| - 1], m[order[|order| - 1]])]
  }

  lemma {:induction false} LoadPart(m: Config, order: seq<string>)
    requires AllFit(m) && AllIn(order, m)
    ensures AllOneLine(LinesOf(m, order))
    ensures var r := Load(map[], LinesOf(m, order));
      (forall k :: k in r <==> k in order) && (forall k :: k in r ==> r[k] == m[k])
  {
    hide Fits;
    hide ParseLine;
    hide OneLine;
    hide LineOf;
    if order != [] {
      var front, k := order[..|order| - 1], order[|order| - 1];
      LoadPart(m, front);
      LineIsParsed(k, m[k]);
      var lines := LinesOf(m, order);
      assert lines[..|lines| - 1] == LinesOf(m, front);
      assert order == front + [k];
    }
  }

  /** A saved map is restored, whatever the order of its lines, exactly if every entry fits its line. */
  lemma SavedIsRestored(m: Config, order: seq<string>)
    requires Lists(order, m)
    ensures Load(map[], Lines(Text(LinesOf(m, order)))) == m <==> AllFit(m)
  {
    var text := Text(LinesOf(m, order));
    if AllFit(m) {
      LoadPart(m, order);
      LinesOfText(LinesOf(m, order));
    }
    LoadedFits(map[], Lines(text));
  }

  /** A file of one line, character by character. */
  lemma OneEntry(k: string, v: string)
    requires '=' !in k && '\n' !in k && '\n' !in v && '#' !in v
    ensures Load(map[], Lines(k + "=" + v + "\n")) == map[k := v]
  {
    var line := LineOf(k, v);
    LineIsParsed(k, v);
    assert [line][1..] == [] && Text([line]) == line + "\n" + "";
    LinesOfText([line]);
    assert Text([line]) == k + "=" + v + "\n";
    assert [line][..0] == [];
    assert Load(map[], [line]) == map[k := v];
  }

  /** What follows a '#' behind the '=' is no part of the value; a '#' in front of it is part of the key. */
  lemma Remarks(k: string, v: string, c: string)
    requires '=' !in k && '#' !in k && '#' !in v
    ensures ParseLine(k + "=" + v + "#" + c) == Some((k, v))
    ensures ParseLine("#" + k + "=" + v) == Some(("#" + k, v))
  {
    var s := k + "=" + v + "#" + c;
    assert s == k + ("=" + v + "#" + c) && s == (k + "=" + v) + ("#" + c);
    FoundAt(k, "=" + v + "#" + c, '=');
    FoundAt(k + "=" + v, "#" + c, '#');
    assert s[..|k|] == k && s[|k| + 1..|k| + 1 + |v|] == v;
    var t := "#" + k + "=" + v;
    assert t == ("#" + k) + ("=" + v);
    FoundAt("#" + k, "=" + v, '=');
    assert t[0] == '#';
    assert t[..|k| + 1] == "#" + k && t[|k| + 2..] == v;
  }

  // ----- vectors of strings

  function Delimited(vec: seq<string>, delimiter: char): string {
    if vec == [] then "" else if |vec| == 1 then vec[0]
    else vec[0] + [delimiter] + Delimited(vec[1..], delimiter)
  }

  /** What getStringVector reads, with current as the part since the last delimiter; an empty rest is dropped. */
  function Pieces(val: string, delimiter: char, current: string): seq<string> {
    if val == "" then if current == "" then [] else [current]
    else if val[0] == delimiter then [current] + Pieces(val[1..], delimiter, "")
    else Pieces(val[1..], delimiter, current + [val[0]])
  }

  lemma {:induction false} PieceIsTaken(s: string, rest: string, delimiter: char, current: string)
    requires delimiter !in s
    ensures Pieces(s + rest, delimiter, current) == Pieces(rest, delimiter, current + s)
  {
    if s == "" {
      assert s + rest == rest && current + s == current;
    } else {
      assert (s + rest)[1..] == s[1..] + rest && s[0] != delimiter;
      assert current + [s[0]] + s[1..] == current + s;
      PieceIsTaken(s[1..], rest, delimiter, current + [s[0]]);
    }
  }

  predicate Plain(vec: seq<string>, delimiter: char) {
    forall i :: 0 <= i < |vec| ==> delimiter !in vec[i]
  }

  lemma {:induction false} DelimitedIsTaken(vec: seq<string>, delimiter: char)
    requires vec != [] && Plain(vec, delimiter)
    ensures Pieces(Delimited(vec, delimiter), delimiter, "") == if vec[|vec| - 1] == "" then vec[..|vec| - 1] else vec
  {
    var s := vec[0];
    if |vec| == 1 {
      PieceIsTaken(s, "", delimiter, "");
      assert s + "" == s && "" + s == s;
    } else {
      var rest := [delimiter] + Delimited(vec[1..], delimiter);
      assert Delimited(vec, delimiter) == s + rest;
      PieceIsTaken(s, rest, delimiter, "");
      assert "" + s == s && rest[1..] == Delimited(vec[1..], delimiter);
      DelimitedIsTaken(vec[1..], delimiter);
      assert vec == [s] + vec[1..] && vec[..|vec| - 1] == [s] + vec[1..][..|vec| - 2];
    }
  }

  lemma {:induction false} PiecesArePlain(val: string, delimiter: char, current: string)
    requires delimiter !in current
    ensures Plain(Pieces(val, delimiter, current), delimiter)
    ensures var p := Pieces(val, delimiter, current); val == "" && current != "" ==> p == [current]
    decreases |val|
  {
    if val != "" {
      if val[0] == delimiter {
        PiecesArePlain(val[1..], delimiter, "");
      } else {
        PiecesArePlain(val[1..], delimiter, current + [val[0]]);
      }
    }
  }

  /** The length beyond which getStringVector's 16-bit index wraps around in front of the end of the value. */
  const MAX_VALUE := 0xFFFF

  /** The 16-bit index, however often it has been counted up, is in front of the end of every longer value. */
  lemma IndexNeverArrives(length: nat)
    ensures length > MAX_VALUE <==> forall n: nat :: Index(n) < length
  {
    if length <= MAX_VALUE {
      assert Index(length) == length;
    }
  }

  function Index(turns: nat): nat {
    turns % 0x1_0000
  }

  /** What getStringVector returns; None where its loop never ends. */
  function Fetched(val: string, delimiter: char): Option<seq<string>> {
    if |val| <= MAX_VALUE then Some(Pieces(val, delimiter, "")) else None
  }

  /**
    A vector comes back exactly if no element holds the delimiter, the last one is not empty and the joined value is
    short enough for the index.
   */
  lemma VectorComesBack(vec: seq<string>, delimiter: char)
    requires vec != []
    ensures Fetched(Delimited(vec, delimiter), delimiter) == Some(vec)
            <==> Plain(vec, delimiter) && vec[|vec| - 1] != "" && |Delimited(vec, delimiter)| <= MAX_VALUE
  {
    PiecesArePlain(Delimited(vec, delimiter), delimiter, "");
    if Plain(vec, delimiter) {
      DelimitedIsTaken(vec, delimiter);
    }
  }

  // ----- the object

  class ConfigObject {
    var configData: Config
    var modifiedFlag: bool
    var unknownKeyQueryedFlag: bool
    const delimiter: char

    constructor (delimiter: char)
      ensures configData == map[] && this.delimiter == delimiter
    {
      configData, modifiedFlag, unknownKeyQueryedFlag := map[], false, false;
      this.delimiter := delimiter;
    }

    /** loadConfig; None is a file that cannot be opened. */
    method LoadConfig(file: Option<string>) returns (ok: bool)
      modifies this`configData, this`modifiedFlag
      ensures ok == file.Some?
      ensures configData == if file.Some? then Load(map[], Lines(file.value)) else old(configData)
      ensures modifiedFlag == (old(modifiedFlag) && file.None?)
    {
      hide Lines;
      hide ParseLine;
      if file.None? {
        return false;
      }
      var lines := Lines(file.value);
      configData, modifiedFlag := map[], false;
      var n := 0;
      while n < |lines|
        invariant 0 <= n <= |lines| && !modifiedFlag
        invariant configData == Load(map[], lines[..n])
      {
        assert lines[..n + 1][..n] == lines[..n];
        Parses(lines[n]);
        var s := lines[n];
        var i := Find(s, '=');
        if i != |s| {
          var j := Find(s, '#');
          configData := configData[s[..i] := if j >= i + 1 then s[i + 1..j] else s[i + 1..]];
        }
        n := n + 1;
      }
      assert lines[..n] == lines;
      ok := true;
    }

    /** saveConfig, in whatever order the keys are walked; nothing is written if the file cannot be opened. */
    method SaveConfig(writable: bool) returns (ok: bool, file: Option<string>, ghost order: seq<string>)
      ensures ok == writable == file.Some?
      ensures ok ==> Lists(order, configData) && file == Some(Text(LinesOf(configData, order)))
      ensures ok ==> (Load(map[], Lines(file.value)) == configData <==> AllFit(configData))
    {
      hide Text;
      hide LinesOf;
      hide Walked;
      hide Load;
      hide Lines;
      hide AllFit;
      ok, file, order := writable, None, [];
      if !writable {
        return;
      }
      var left, text := configData.Keys, "";
      NothingWalked(configData);
      while left != {}
        invariant Walked(configData, order, left) && AllIn(order, configData)
        invariant text == Text(LinesOf(configData, order))
        decreases |left|
      {
        var k :| k in left;
        WalkOn(configData, order, left, k);
        text := text + k + "=" + configData[k] + "\n";
        order := order + [k];
        left := left - {k};
      }
      AllWalked(configData, order);
      SavedIsRestored(configData, order);
      file := Some(text);
    }

    /** setStringVector of a vector that is not empty. */
    method SetStringVector(key: string, vec: seq<string>)
      requires vec != []
      modifies this`configData
      ensures configData == old(configData)[key := Delimited(vec, delimiter)]
    {
      hide Delimited;
      ghost var before := configData;
      configData := configData[key := ""];
      var it := 0;
      DelimitedStart(vec, delimiter);
      while true
        invariant 0 <= it < |vec|
        invariant key in configData && configData == before[key := configData[key]]
        invariant configData[key] + Delimited(vec[it..], delimiter) == Delimited(vec, delimiter)
        decreases |vec| - it
      {
        DelimitedStep(vec, delimiter, it);
        ghost var soFar := configData[key];
        configData := configData[key := configData[key] + vec[it]];
        it := it + 1;
        if it == |vec| {
          assert soFar + (vec[it - 1] + "") == configData[key];
          break;
        }
        configData := configData[key := configData[key] + [delimiter]];
        assert soFar + (vec[it - 1] + ([delimiter] + Delimited(vec[it..], delimiter)))
          == configData[key] + Delimited(vec[it..], delimiter);
      }
    }

    /** The value of a key, empty if there is none. */
    ghost function ValueOf(key: string): string
      reads this
    {
      if key in configData then configData[key] else ""
    }

    /** getStringVector; the flag is raised where no piece follows the last delimiter. */
    method GetStringVector(key: string) returns (vec: seq<string>)
      requires Fetched(ValueOf(key), delimiter).Some?
      modifies this`configData, this`unknownKeyQueryedFlag
      ensures Fetched(old(ValueOf(key)), delimiter) == Some(vec)
      ensures configData == old(configData)[key := old(ValueOf(key))]
      ensures var val := old(ValueOf(key));
        unknownKeyQueryedFlag == (old(unknownKeyQueryedFlag) || val == "" || val[|val| - 1] == delimiter)
    {
      hide Pieces;
      if key !in configData {
        configData := configData[key := ""];
      }
      var val := configData[key];
      assert val == old(ValueOf(key));
      assert val[0..] == val && val[0..0] == "";
      var length, pos, i := 0, 0, 0;
      vec := [];
      while i < |val|
        modifies {}
        invariant 0 <= i <= |val| && pos + length == i && 0 <= pos && 0 <= length
        invariant length == 0 <==> i == 0 || val[i - 1] == delimiter
        invariant vec + Pieces(val[i..], delimiter, val[pos..i]) == Pieces(val, delimiter, "")
      {
        PieceStep(vec, val, delimiter, pos, i);
        if val[i] == delimiter {
          vec := vec + [val[pos..pos + length]];
          pos := (i + 1) % 0x1_0000;
          length := 0;
        } else {
          length := (length + 1) % 0x1_0000;
        }
        i := (i + 1) % 0x1_0000;
      }
      assert val[i..] == "";
      LastPiece(vec, delimiter, val[pos..i]);
      if length == 0 {
        unknownKeyQueryedFlag := true;
      } else {
        vec := vec + [val[pos..pos + length]];
      }
    }

    /** setStringVector and getStringVector of the same key. */
    method SetThenGet(key: string, vec: seq<string>) returns (back: seq<string>)
      requires vec != [] && |Delimited(vec, delimiter)| <= MAX_VALUE
      modifies this`configData, this`unknownKeyQueryedFlag
      ensures back == vec <==> Plain(vec, delimiter) && vec[|vec| - 1] != ""
      ensures configData == old(configData)[key := Delimited(vec, delimiter)]
    {
      hide Delimited;
      hide Pieces;
      hide Plain;
      SetStringVector(key, vec);
      back := GetStringVector(key);
      VectorComesBack(vec, delimiter);
    }
  }

  predicate AllIn(order: seq<string>, m: Config) {
    forall i :: 0 <= i < |order| ==> order[i] in m
  }

  /** The walk has met the keys in order, each once, and has these left. */
  predicate Walked(m: Config, order: seq<string>, left: set<string>) {
    && left <= m.Keys
    && (forall k :: k in m ==> k in left || k in order)
    && (forall i :: 0 <= i < |order| ==> order[i] !in left)
    && (forall i, j :: 0 <= i < j < |order| ==> order[i] != order[j])
  }

  lemma NothingWalked(m: Config)
    ensures Walked(m, [], m.Keys) && Text(LinesOf(m, [])) == ""
  {
  }

  lemma AllWalked(m: Config, order: seq<string>)
    requires Walked(m, order, {}) && AllIn(order, m)
    ensures Lists(order, m)
  {
  }

  lemma WalkOn(m: Config, order: seq<string>, left: set<string>, k: string)
    requires Walked(m, order, left) && AllIn(order, m) && k in left
    ensures k in m && Walked(m, order + [k], left - {k}) && AllIn(order + [k], m)
    ensures Text(LinesOf(m, order + [k])) == Text(LinesOf(m, order)) + k + "=" + m[k] + "\n"
  {
    hide Text;
    var more := order + [k];
    assert more[..|order|] == order;
    TextMore(LinesOf(m, order), LineOf(k, m[k]));
    forall k' | k' in m ensures k' in left - {k} || k' in more {
      if k' != k && k' !in left {
        assert k' in order;
      }
    }
  }

  lemma PieceStep(vec: seq<string>, val: string, delimiter: char, pos: nat, i: nat)
    requires pos <= i < |val|
    ensures vec + Pieces(val[i..], delimiter, val[pos..i]) ==
            if val[i] == delimiter then (vec + [val[pos..i]]) + Pieces(val[i + 1..], delimiter, val[i + 1..i + 1])
            else vec + Pieces(val[i + 1..], delimiter, val[pos..i + 1])
  {
    assert val[i..][1..] == val[i + 1..] && val[i..][0] == val[i] && val[i + 1..i + 1] == "";
    assert val[pos..i] + [val[i]] == val[pos..i + 1];
    if val[i] == delimiter {
      assert vec + ([val[pos..i]] + Pieces(val[i + 1..], delimiter, ""))
        == (vec + [val[pos..i]]) + Pieces(val[i + 1..], delimiter, "");
    }
  }

  lemma LastPiece(vec: seq<string>, delimiter: char, current: string)
    ensures vec + Pieces("", delimiter, current) == if current == "" then vec else vec + [current]
  {
    assert vec + [] == vec;
  }

  lemma Parses(s: string)
    ensures ParseLine(s) ==
            if Find(s, '=') == |s| then None
            else
              var i, j := Find(s, '='), Find(s, '#');
              Some((s[..i], if j >= i + 1 then s[i + 1..j] else s[i + 1..]))
  {
  }

  lemma {:induction false} TextMore(lines: seq<Line>, line: Line)
    ensures Text(lines + [line]) == Text(lines) + line + "\n"
  {
    if lines == [] {
      assert lines + [line] == [line] && [line][1..] == [];
    } else {
      assert (lines + [line])[1..] == lines[1..] + [line];
      TextMore(lines[1..], line);
    }
  }

  lemma DelimitedStart(vec: seq<string>, delimiter: char)
    ensures "" + Delimited(vec[0..], delimiter) == Delimited(vec, delimiter)
  {
    assert vec[0..] == vec;
  }

  lemma DelimitedStep(vec: seq<string>, delimiter: char, it: nat)
    requires it < |vec|
    ensures Delimited(vec[it..], delimiter) ==
            vec[it] + if it + 1 == |vec| then "" else ([delimiter] + Delimited(vec[it + 1..], delimiter))
  {
    assert vec[it..][1..] == vec[it + 1..];
    if it + 1 < |vec| {
      assert vec[it] + [delimiter] + Delimited(vec[it + 1..], delimiter)
        == vec[it] + ([delimiter] + Delimited(vec[it + 1..], delimiter));
    } else {
      assert vec[it] + "" == vec[it];
    }
  }
}
