/**
  Text files as lib/libnet sees them: lines read by getline and written with endl, and lines taken apart into
  words by operator>> on a stream over c_str().
 */
module NetLines {
  type Line = string

  predicate OneLine(s: string) {
    '\n' !in s
  }

  predicate AllOneLine(lines: seq<Line>) {
    forall i :: 0 <= i < |lines| ==> OneLine(lines[i])
  }

  // ----- words

  /** isspace in the C locale. */
  predicate Space(c: char) {
    c == ' ' || c == '\t' || c == '\n' || c == '\U{0b}' || c == '\U{0c}' || c == '\r'
  }

  /** Where a word stops: at white space, or at the NUL that ends c_str(). */
  predicate Stops(c: char) {
    Space(c) || c == '\0'
  }

  predicate IsWord(w: string) {
    w != "" && forall i :: 0 <= i < |w| ==> !Stops(w[i])
  }

  function FirstWord(s: string): (w: string)
    ensures w <= s && (forall i :: 0 <= i < |w| ==> !Stops(w[i]))
    ensures |w| < |s| ==> Stops(s[|w|])
  {
    if s == "" || Stops(s[0]) then "" else [s[0]] + FirstWord(s[1..])
  }

  /** The words that repeated extraction yields. */
  function Words(s: string): (ws: seq<string>)
    ensures forall i :: 0 <= i < |ws| ==> IsWord(ws[i])
    decreases |s|
  {
    if s == "" || s[0] == '\0' then []
    else if Space(s[0]) then Words(s[1..])
    else [FirstWord(s)] + Words(s[|FirstWord(s)|..])
  }

  function Joined(ws: seq<string>): string {
    if ws == [] then "" else " " + ws[0] + Joined(ws[1..])
  }

  lemma {:induction false} FirstWordOf(w: string, rest: string)
    requires forall i :: 0 <= i < |w| ==> !Stops(w[i])
    requires rest == "" || Stops(rest[0])
    ensures FirstWord(w + rest) == w
  {
    if w == "" {
      assert w + rest == rest;
    } else {
      assert (w + rest)[1..] == w[1..] + rest;
      FirstWordOf(w[1..], rest);
    }
  }

  lemma WordThenRest(w: string, rest: string)
    requires IsWord(w) && (rest == "" || Stops(rest[0]))
    ensures Words(w + rest) == [w] + Words(rest)
  {
    FirstWordOf(w, rest);
    assert (w + rest)[0] == w[0] && !Stops(w[0]);
    assert (w + rest)[|w|..] == rest;
  }

  /** Words put side by side with a blank before each are read back one by one. */
  lemma {:induction false} WordsOfJoined(ws: seq<string>)
    requires forall i :: 0 <= i < |ws| ==> IsWord(ws[i])
    ensures Words(Joined(ws)) == ws
    ensures Joined(ws) == "" || Stops(Joined(ws)[0])
  {
    if ws != [] {
      WordsOfJoined(ws[1..]);
      WordThenRest(ws[0], Joined(ws[1..]));
      assert Joined(ws) == [' '] + (ws[0] + Joined(ws[1..]));
      assert Joined(ws)[1..] == ws[0] + Joined(ws[1..]);
    }
  }

  lemma {:induction false} JoinedIsOneLine(ws: seq<string>)
    requires forall i :: 0 <= i < |ws| ==> IsWord(ws[i])
    ensures '\n' !in Joined(ws)
  {
    if ws != [] {
      JoinedIsOneLine(ws[1..]);
      assert '\n' !in ws[0];
    }
  }

  lemma JoinedMore(w: string, ws: seq<string>)
    ensures Joined([w] + ws) == " " + w + Joined(ws)
  {
    assert ([w] + ws)[1..] == ws;
  }

  lemma SpaceFirst(c: char, s: string)
    requires Space(c)
    ensures Words([c] + s) == Words(s)
  {
    assert ([c] + s)[1..] == s;
  }

  lemma NoWords()
    ensures Words("") == []
  {
  }

  lemma {:induction false} JoinedConcat(s: seq<string>, t: seq<string>)
    ensures Joined(s + t) == Joined(s) + Joined(t)
  {
    if s == [] {
      assert s + t == t;
    } else {
      assert (s + t)[1..] == s[1..] + t;
      JoinedConcat(s[1..], t);
    }
  }

  // ----- lines

  function LineEnd(text: string): (n: nat)
    ensures n <= |text| && '\n' !in text[..n]
    ensures n < |text| ==> text[n] == '\n'
  {
    if text == "" || text[0] == '\n' then 0
    else
      var n := 1 + LineEnd(text[1..]);
      assert text[..n] == [text[0]] + text[1..][..n - 1];
      n
  }

  /** What a loop over getline collects. */
  function Lines(text: string): (lines: seq<Line>)
    ensures AllOneLine(lines)
    decreases |text|
  {
    if text == "" then []
    else
      var n := LineEnd(text);
      [text[..n]] + (if n < |text| then Lines(text[n + 1..]) else [])
  }

  /** What a loop over << line << endl writes. */
  function Text(lines: seq<Line>): string {
    if lines == [] then "" else lines[0] + "\n" + Text(lines[1..])
  }

  lemma {:induction false} EndsAfter(line: string, rest: string)
    requires '\n' !in line
    ensures LineEnd(line + "\n" + rest) == |line|
  {
    var text := line + "\n" + rest;
    if line == "" {
      assert text[0] == '\n';
    } else {
      assert text[0] == line[0] && line[0] in line;
      assert text[1..] == line[1..] + "\n" + rest;
      EndsAfter(line[1..], rest);
    }
  }

  lemma {:induction false} LinesOfText(lines: seq<Line>)
    requires AllOneLine(lines)
    ensures Lines(Text(lines)) == lines
  {
    if lines != [] {
      var text := Text(lines);
      assert OneLine(lines[0]);
      EndsAfter(lines[0], Text(lines[1..]));
      assert text[..|lines[0]|] == lines[0] && text[|lines[0]| + 1..] == Text(lines[1..]);
      LinesOfText(lines[1..]);
    }
  }
}
