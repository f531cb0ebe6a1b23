/**
  4-bit pixel code strings of DVB subtitles: their meaning after section 7.2.5.2 of EN 300 743, and what the
  decoder of libdvbsub reads out of a pixel data sub-block.
 */
module PixelCodes {
  import opened Basics

  type nibble = x: int | 0 <= x < 16

  // ----- the standard

  datatype Code =
    | Pixel(color: nibble)
    | ZeroRun(count: nat)
    | ShortRun(count: nat, color: nibble)
    | OneZero
    | TwoZeros
    | MediumRun(count: nat, color: nibble)
    | LongRun(count: nat, color: nibble)

  predicate Valid(c: Code) {
    match c
    case Pixel(color) => color != 0
    case ZeroRun(n) => 3 <= n <= 9
    case ShortRun(n, _) => 4 <= n <= 7
    case MediumRun(n, _) => 9 <= n <= 24
    case LongRun(n, _) => 25 <= n <= 280
    case _ => true
  }

  function Count(c: Code): (n: nat)
    requires Valid(c)
    ensures n > 0
  {
    match c
    case Pixel(_) => 1
    case OneZero => 1
    case TwoZeros => 2
    case _ => c.count
  }

  function ColorOf(c: Code): nibble {
    if c.ZeroRun? || c.OneZero? || c.TwoZeros? then 0 else c.color
  }

  /** The bits of a code, four at a time. */
  function Bits(c: Code): (s: seq<nibble>)
    requires Valid(c)
    ensures 1 <= |s| <= 5
  {
    match c
    case Pixel(color) => [color]
    case ZeroRun(n) => [0, n - 2]
    case ShortRun(n, color) => [0, 8 + (n - 4), color]
    case OneZero => [0, 12]
    case TwoZeros => [0, 13]
    case MediumRun(n, color) => [0, 14, n - 9, color]
    case LongRun(n, color) => [0, 15, (n - 25) / 16, (n - 25) % 16, color]
  }

  predicate AllValid(codes: seq<Code>) {
    forall i :: 0 <= i < |codes| ==> Valid(codes[i])
  }

  function AllBits(codes: seq<Code>): seq<nibble>
    requires AllValid(codes)
  {
    if codes == [] then [] else Bits(codes[0]) + AllBits(codes[1..])
  }

  /** end_of_string_signal, and four bits of stuffing where the string does not end with a byte. */
  function StringBits(codes: seq<Code>): (s: seq<nibble>)
    requires AllValid(codes)
    ensures |s| % 2 == 0
  {
    AllBits(codes) + if |AllBits(codes)| % 2 == 0 then [0, 0] else [0, 0, 0]
  }

  function Repeat(n: nat, color: nibble): (s: seq<nibble>)
    ensures |s| == n
  {
    seq(n, _ => color)
  }

  /** The pixels that a string of codes stands for. */
  function Pixels(codes: seq<Code>): seq<nibble>
    requires AllValid(codes)
  {
    if codes == [] then [] else Repeat(Count(codes[0]), ColorOf(codes[0])) + Pixels(codes[1..])
  }

  /** Every row of pixels has a code string. */
  function Plain(row: seq<nibble>): (codes: seq<Code>)
    ensures AllValid(codes)
  {
    if row == [] then [] else [if row[0] == 0 then OneZero else Pixel(row[0])] + Plain(row[1..])
  }

  lemma {:induction false} PlainStandsForRow(row: seq<nibble>)
    ensures Pixels(Plain(row)) == row
  {
    if row != [] {
      PlainStandsForRow(row[1..]);
      assert Plain(row)[1..] == Plain(row[1..]);
      assert Repeat(1, row[0]) == [row[0]];
    }
  }

  function Pack(s: seq<nibble>): (d: seq<byte>)
    requires |s| % 2 == 0
    ensures |d| == |s| / 2
  {
    seq(|s| / 2, i requires 0 <= i < |s| / 2 => (s[2 * i] as int) * 16 + s[2 * i + 1])
  }

  const STRING_4BPP: byte := 0x11
  const END_OF_LINE: byte := 0xF0

  /** The codes of some strings, one string after the other. */
  function Codes(strings: seq<seq<Code>>): seq<Code> {
    if strings == [] then [] else strings[0] + Codes(strings[1..])
  }

  predicate ValidLine(strings: seq<seq<Code>>) {
    forall i :: 0 <= i < |strings| ==> AllValid(strings[i])
  }

  lemma {:induction false} CodesAreValid(strings: seq<seq<Code>>)
    requires ValidLine(strings)
    ensures AllValid(Codes(strings))
  {
    if strings != [] {
      CodesAreValid(strings[1..]);
    }
  }

  /** A line is sent in any number of code strings, also in none. */
  function StringBytes(strings: seq<seq<Code>>): seq<byte>
    requires ValidLine(strings)
  {
    if strings == [] then [] else [STRING_4BPP] + Pack(StringBits(strings[0])) + StringBytes(strings[1..])
  }

  /** A string of one code, byte by byte: the forms of section 7.2.5.2 with end and stuffing behind them. */
  lemma CodeBytes(n: nat, c: nibble)
    ensures c != 0 ==> StringBytes([[Pixel(c)]]) == [0x11, c * 16, 0x00]
    ensures StringBytes([[OneZero]]) == [0x11, 0x0C, 0x00] && StringBytes([[TwoZeros]]) == [0x11, 0x0D, 0x00]
    ensures 3 <= n <= 9 ==> StringBytes([[ZeroRun(n)]]) == [0x11, n - 2, 0x00]
    ensures 4 <= n <= 7 ==> StringBytes([[ShortRun(n, c)]]) == [0x11, n + 4, c * 16, 0x00]
    ensures 9 <= n <= 24 ==> StringBytes([[MediumRun(n, c)]]) == [0x11, 0x0E, (n - 9) * 16 + c, 0x00]
    ensures 25 <= n <= 280 ==> StringBytes([[LongRun(n, c)]]) == [0x11, 0x0F, n - 25, c * 16, 0x00]
  {
    hide StringBytes;
    FixedForms();
    PixelForm(n, c);
    ZeroForm(n, c);
    ShortForm(n, c);
    MediumForm(n, c);
    LongForm(n, c);
  }

  lemma FixedForms()
    ensures StringBytes([[OneZero]]) == [0x11, 0x0C, 0x00] && StringBytes([[TwoZeros]]) == [0x11, 0x0D, 0x00]
  {
    OneCode(OneZero);
    OneCode(TwoZeros);
  }

  lemma PixelForm(n: nat, c: nibble)
    ensures c != 0 ==> StringBytes([[Pixel(c)]]) == [0x11, c * 16, 0x00]
  {
    if c != 0 {
      OneCode(Pixel(c));
    }
  }

  lemma ZeroForm(n: nat, c: nibble)
    ensures 3 <= n <= 9 ==> StringBytes([[ZeroRun(n)]]) == [0x11, n - 2, 0x00]
  {
    if 3 <= n <= 9 {
      OneCode(ZeroRun(n));
    }
  }

  lemma ShortForm(n: nat, c: nibble)
    ensures 4 <= n <= 7 ==> StringBytes([[ShortRun(n, c)]]) == [0x11, n + 4, c * 16, 0x00]
  {
    if 4 <= n <= 7 {
      OneCode(ShortRun(n, c));
    }
  }

  lemma MediumForm(n: nat, c: nibble)
    ensures 9 <= n <= 24 ==> StringBytes([[MediumRun(n, c)]]) == [0x11, 0x0E, (n - 9) * 16 + c, 0x00]
  {
    if 9 <= n <= 24 {
      OneCode(MediumRun(n, c));
    }
  }

  lemma LongForm(n: nat, c: nibble)
    ensures 25 <= n <= 280 ==> StringBytes([[LongRun(n, c)]]) == [0x11, 0x0F, n - 25, c * 16, 0x00]
  {
    if 25 <= n <= 280 {
      OneCode(LongRun(n, c));
    }
  }

  lemma OneCode(code: Code)
    requires Valid(code)
    ensures AllBits([code]) == Bits(code)
    ensures StringBytes([[code]]) == [0x11] + Pack(Bits(code) + if |Bits(code)| % 2 == 0 then [0, 0] else [0, 0, 0])
  {
    hide Bits;
    assert [code][1..] == [] && Bits(code) + [] == Bits(code);
    assert [[code]][1..] == [];
  }

  predicate ValidField(rows: seq<seq<seq<Code>>>) {
    forall i :: 0 <= i < |rows| ==> ValidLine(rows[i])
  }

  /** The lines of a field with an end of line behind each, behind the last one only if it is closed. */
  function FieldBytes(rows: seq<seq<seq<Code>>>, closed: bool): seq<byte>
    requires ValidField(rows)
  {
    if rows == [] then []
    else if |rows| == 1 && !closed then StringBytes(rows[0])
    else StringBytes(rows[0]) + [END_OF_LINE] + FieldBytes(rows[1..], closed)
  }

  // ----- the decoder

  /** The half byte at position p: the high one first. */
  function Nibble(data: seq<byte>, p: nat): nibble
    requires p < 2 * |data|
  {
    if p % 2 == 0 then data[p / 2] / 16 else data[p / 2] % 16
  }

  /** What Decode4BppCodeString makes of the code at a position: a run, or the end of the string. */
  datatype Step = Run(count: nat, color: nibble, next: nat) | End(next: nat)

  function Decode4(data: seq<byte>, p: nat): (s: Step)
    requires p + 5 <= 2 * |data|
    ensures p < s.next <= p + 5
  {
    var code := Nibble(data, p);
    if code != 0 then Run(1, code, p + 1)
    else
      var second := Nibble(data, p + 1);
      if second >= 8 then
        if second / 4 % 2 == 1 then
          match second % 4
          case 0 => Run(1, 0, p + 2)
          case 1 => Run(2, 0, p + 2)
          case 2 => Run(Nibble(data, p + 2) + 9, Nibble(data, p + 3), p + 4)
          case _ => Run((Nibble(data, p + 2) as int) * 16 + Nibble(data, p + 3) + 25, Nibble(data, p + 4), p + 5)
        else Run(second % 4 + 4, Nibble(data, p + 2), p + 3)
      else if second == 0 then End(p + 2)
      else Run(second + 2, 0, p + 2)
  }

  /** A call of DrawLine. */
  datatype Stroke = Stroke(x: nat, y: nat, color: nibble, count: nat)

  /** The loop over one string of codes, from position p: its strokes, where it stops, and the new x. */
  datatype Traced = Traced(strokes: seq<Stroke>, p: nat, x: nat)

  /** Enough bytes behind the block for the last code to be read. */
  predicate Readable(data: seq<byte>, length: nat) {
    length + 3 <= |data|
  }

  function Trace(data: seq<byte>, length: nat, p: nat, x: nat, y: nat): (t: Traced)
    requires Readable(data, length) && p <= 2 * length + 1
    ensures p < t.p <= 2 * length + 6
    decreases 2 * length + 1 - p
  {
    match Decode4(data, p)
    case End(next) => Traced([], next, x)
    case Run(n, color, next) =>
      var stroke := Stroke(x, y, color, n);
      if next / 2 < length then
        var t := Trace(data, length, next, x + n, y);
        t.(strokes := [stroke] + t.strokes)
      else Traced([stroke], next, x + n)
  }

  /** What DecodeSubBlock draws from index on; a string of another depth ends the model's view of the block. */
  function Block(data: seq<byte>, length: nat, index: nat, x: nat, y: nat): seq<Stroke>
    requires Readable(data, length)
    decreases length + 16 - index
  {
    if index >= length then []
    else
      var tag := data[index];
      if tag == 0x11 then
        var t := Trace(data, length, 2 * (index + 1), x, y);
        t.strokes + Block(data, length, (t.p + 1) / 2, t.x, y)
      else if tag == 0x10 || tag == 0x12 then []
      else if tag == 0x20 || tag == 0x21 then Block(data, length, index + 5, x, y)
      else if tag == 0x22 then Block(data, length, index + 17, x, y)
      else if tag == 0xF0 then Block(data, length, index + 1, 0, y + 2)
      else Block(data, length, index + 1, x, y)
  }

  // ----- decoding what was encoded

  /** The strokes that a string of codes calls for. */
  function Wanted(codes: seq<Code>, x: nat, y: nat): seq<Stroke>
    requires AllValid(codes)
  {
    if codes == [] then []
    else [Stroke(x, y, ColorOf(codes[0]), Count(codes[0]))] + Wanted(codes[1..], x + Count(codes[0]), y)
  }

  function WantedLine(strings: seq<seq<Code>>, x: nat, y: nat): seq<Stroke>
    requires ValidLine(strings)
  {
    CodesAreValid(strings);
    Wanted(Codes(strings), x, y)
  }

  function WantedField(rows: seq<seq<seq<Code>>>, y: nat): seq<Stroke>
    requires ValidField(rows)
  {
    if rows == [] then [] else WantedLine(rows[0], 0, y) + WantedField(rows[1..], y + 2)
  }

  /** Codes go on where the pixels of the ones before them end. */
  lemma {:induction false} WantedConcat(a: seq<Code>, b: seq<Code>, x: nat, y: nat)
    requires AllValid(a) && AllValid(b)
    ensures AllValid(a + b) && Wanted(a + b, x, y) == Wanted(a, x, y) + Wanted(b, x + |Pixels(a)|, y)
    decreases |a|
  {
    if a == [] {
      assert a + b == b;
    } else {
      assert (a + b)[1..] == a[1..] + b;
      WantedConcat(a[1..], b, x + Count(a[0]), y);
    }
  }

  /** The half bytes of data from position p on begin with s. */
  predicate Reads(data: seq<byte>, p: nat, s: seq<nibble>) {
    p + |s| <= 2 * |data| && forall i :: 0 <= i < |s| ==> Nibble(data, p + i) == s[i]
  }

  lemma CodeIsDecoded(data: seq<byte>, p: nat, c: Code)
    requires Valid(c) && p + 5 <= 2 * |data| && Reads(data, p, Bits(c))
    ensures Decode4(data, p) == Run(Count(c), ColorOf(c), p + |Bits(c)|)
  {
    hide Nibble;
    var b := Bits(c);
    assert Nibble(data, p + 0) == b[0];
    match c
    case Pixel(_) =>
    case ZeroRun(_) => assert Nibble(data, p + 1) == b[1];
    case ShortRun(_, _) => assert Nibble(data, p + 1) == b[1] && Nibble(data, p + 2) == b[2];
    case OneZero => assert Nibble(data, p + 1) == b[1];
    case TwoZeros => assert Nibble(data, p + 1) == b[1];
    case MediumRun(_, _) =>
      assert Nibble(data, p + 1) == b[1] && Nibble(data, p + 2) == b[2] && Nibble(data, p + 3) == b[3];
    case LongRun(_, _) =>
      assert Nibble(data, p + 1) == b[1] && Nibble(data, p + 2) == b[2] && Nibble(data, p + 3) == b[3];
      assert Nibble(data, p + 4) == b[4];
  }

  lemma EndIsDecoded(data: seq<byte>, p: nat)
    requires p + 5 <= 2 * |data| && Reads(data, p, [0, 0])
    ensures Decode4(data, p) == End(p + 2)
  {
    hide Nibble;
    assert Nibble(data, p + 0) == [0, 0][0] && Nibble(data, p + 1) == [0, 0][1];
  }

  /** A terminated string of codes is traced as those codes, and the tracing stops right behind its end. */
  lemma {:induction false} StringIsTraced(data: seq<byte>, length: nat, p: nat, codes: seq<Code>, x: nat, y: nat)
    requires AllValid(codes) && Readable(data, length)
    requires p + |AllBits(codes)| + 2 <= 2 * length && Reads(data, p, AllBits(codes) + [0, 0])
    ensures Trace(data, length, p, x, y) ==
            Traced(Wanted(codes, x, y), p + |AllBits(codes)| + 2, x + |Pixels(codes)|)
    decreases |codes|
  {
    hide Decode4;
    hide Reads;
    hide Bits;
    hide Count;
    var bits := AllBits(codes) + [0, 0];
    if codes == [] {
      assert bits == [0, 0];
      EndIsDecoded(data, p);
    } else {
      var c, rest := codes[0], codes[1..];
      var tail := AllBits(rest) + [0, 0];
      assert bits == Bits(c) + tail;
      ReadsSplit(data, p, Bits(c), tail);
      CodeIsDecoded(data, p, c);
      StringIsTraced(data, length, p + |Bits(c)|, rest, x + Count(c), y);
    }
  }

  lemma ReadsSplit(data: seq<byte>, p: nat, s: seq<nibble>, t: seq<nibble>)
    requires Reads(data, p, s + t)
    ensures Reads(data, p, s) && Reads(data, p + |s|, t)
  {
    hide Nibble;
    forall i | 0 <= i < |s| ensures Nibble(data, p + i) == s[i] {
      assert (s + t)[i] == s[i];
    }
    forall i | 0 <= i < |t| ensures Nibble(data, p + |s| + i) == t[i] {
      assert (s + t)[|s| + i] == t[i] && p + (|s| + i) == p + |s| + i;
    }
  }

  lemma PackedIsRead(data: seq<byte>, index: nat, s: seq<nibble>)
    requires |s| % 2 == 0 && index + |s| / 2 <= |data| && data[index..index + |s| / 2] == Pack(s)
    ensures Reads(data, 2 * index, s)
  {
    forall i | 0 <= i < |s| ensures Nibble(data, 2 * index + i) == s[i] {
      var j := i / 2;
      assert data[index..index + |s| / 2][j] == Pack(s)[j];
      assert (2 * index + i) / 2 == index + j;
      var hi, lo := s[2 * j] as int, s[2 * j + 1] as int;
      assert (hi * 16 + lo) / 16 == hi && (hi * 16 + lo) % 16 == lo;
      assert i == 2 * j || i == 2 * j + 1;
    }
  }

  lemma PackedStringIsTraced(data: seq<byte>, length: nat, index: nat, codes: seq<Code>, x: nat, y: nat)
    requires AllValid(codes) && Readable(data, length)
    requires index + |StringBits(codes)| / 2 <= length
    requires data[index..index + |StringBits(codes)| / 2] == Pack(StringBits(codes))
    ensures var t := Trace(data, length, 2 * index, x, y);
      && t.strokes == Wanted(codes, x, y) && (t.p + 1) / 2 == index + |StringBits(codes)| / 2
      && t.x == x + |Pixels(codes)|
  {
    hide Trace;
    hide Wanted;
    hide Pack;
    hide Reads;
    var bits := StringBits(codes);
    PackedIsRead(data, index, bits);
    var exact := AllBits(codes) + [0, 0];
    assert bits == exact + bits[|exact|..];
    ReadsSplit(data, 2 * index, exact, bits[|exact|..]);
    StringIsTraced(data, length, 2 * index, codes, x, y);
  }

  /** The strings of a line are drawn one behind the other, and the decoder goes on behind them. */
  lemma {:induction false} LineIsDrawn(data: seq<byte>, length: nat, index: nat, strings: seq<seq<Code>>,
                                       x: nat, y: nat, end: nat, x': nat)
    requires ValidLine(strings) && Readable(data, length)
    requires end == index + |StringBytes(strings)| <= length && data[index..end] == StringBytes(strings)
    requires AllValid(Codes(strings)) && x' == x + |Pixels(Codes(strings))|
    ensures Block(data, length, index, x, y) == WantedLine(strings, x, y) + Block(data, length, end, x', y)
    decreases |strings|
  {
    hide Trace;
    hide Wanted;
    hide StringBits;
    hide Block;
    hide Pixels;
    if strings == [] {
      NothingWanted(x, y);
    } else {
      var codes, more := strings[0], strings[1..];
      var packed := Pack(StringBits(codes));
      var next := index + 1 + |packed|;
      var line := StringBytes(strings);
      CodesAreValid(more);
      assert line == [STRING_4BPP] + packed + StringBytes(more);
      assert data[index] == data[index..end][0];
      Slices(data, index, end, 1, 1 + |packed|);
      Slices(data, index, end, 1 + |packed|, end - index);
      assert line[1..1 + |packed|] == packed && line[1 + |packed|..] == StringBytes(more);
      PackedStringIsTraced(data, length, index + 1, codes, x, y);
      BlockAtString(data, length, index, x, y);
      PixelsConcat(codes, Codes(more));
      WantedConcat(codes, Codes(more), x, y);
      LineIsDrawn(data, length, next, more, x + |Pixels(codes)|, y, end, x');
    }
  }

  lemma NothingWanted(x: nat, y: nat)
    ensures Wanted([], x, y) == [] && Pixels([]) == []
  {
  }

  lemma {:induction false} PixelsConcat(a: seq<Code>, b: seq<Code>)
    requires AllValid(a) && AllValid(b)
    ensures AllValid(a + b) && Pixels(a + b) == Pixels(a) + Pixels(b)
    decreases |a|
  {
    hide Valid;
    hide Repeat;
    hide ColorOf;
    if a == [] {
      assert a + b == b && [] + Pixels(b) == Pixels(b);
    } else {
      assert (a + b)[1..] == a[1..] + b;
      PixelsConcat(a[1..], b);
      var first := Repeat(Count(a[0]), ColorOf(a[0]));
      assert Pixels(a + b) == first + Pixels(a[1..] + b);
      assert first + (Pixels(a[1..]) + Pixels(b)) == (first + Pixels(a[1..])) + Pixels(b);
    }
  }

  lemma Slices(data: seq<byte>, a: nat, b: nat, i: nat, j: nat)
    requires a <= b <= |data| && i <= j <= b - a
    ensures data[a..b][i..j] == data[a + i..a + j]
  {
    var part := data[a..b];
    forall k | 0 <= k < j - i ensures part[i..j][k] == data[a + i..a + j][k] {
      assert part[i..j][k] == part[i + k] == data[a + (i + k)];
    }
  }

  lemma BlockAtString(data: seq<byte>, length: nat, index: nat, x: nat, y: nat)
    requires Readable(data, length) && index < length && data[index] == 0x11
    ensures var t := Trace(data, length, 2 * (index + 1), x, y);
      Block(data, length, index, x, y) == t.strokes + Block(data, length, (t.p + 1) / 2, t.x, y)
  {
    hide Trace;
  }

  lemma BlockAtLineEnd(data: seq<byte>, length: nat, index: nat, x: nat, y: nat)
    requires Readable(data, length) && index < length && data[index] == 0xF0
    ensures Block(data, length, index, x, y) == Block(data, length, index + 1, 0, y + 2)
  {
    hide Trace;
  }

  lemma BlockEnds(data: seq<byte>, length: nat, index: nat, x: nat, y: nat)
    requires Readable(data, length) && index >= length
    ensures Block(data, length, index, x, y) == []
  {
  }

  /** Any field, however its rows are cut into strings and run-length coded, is drawn as its rows, two lines apart. */
  lemma {:induction false} FieldIsDrawn(data: seq<byte>, length: nat, index: nat, rows: seq<seq<seq<Code>>>,
                                        closed: bool, y: nat)
    requires ValidField(rows) && Readable(data, length)
    requires index + |FieldBytes(rows, closed)| == length && data[index..length] == FieldBytes(rows, closed)
    ensures Block(data, length, index, 0, y) == WantedField(rows, y)
    decreases |rows|
  {
    hide StringBytes;
    hide WantedLine;
    hide Block;
    if rows == [] {
      BlockEnds(data, length, index, 0, y);
    } else {
      var bytes := StringBytes(rows[0]);
      var end := index + |bytes|;
      CodesAreValid(rows[0]);
      var x := |Pixels(Codes(rows[0]))|;
      Slices(data, index, length, 0, |bytes|);
      assert FieldBytes(rows, closed)[0..|bytes|] == bytes;
      LineIsDrawn(data, length, index, rows[0], 0, y, end, x);
      if |rows| == 1 && !closed {
        BlockEnds(data, length, end, x, y);
        assert WantedField(rows[1..], y + 2) == [];
      } else {
        assert data[end] == data[index..length][|bytes|] == END_OF_LINE;
        BlockAtLineEnd(data, length, end, x, y);
        Slices(data, index, length, |bytes| + 1, length - index);
        assert FieldBytes(rows, closed)[|bytes| + 1..] == FieldBytes(rows[1..], closed);
        FieldIsDrawn(data, length, end + 1, rows[1..], closed, y + 2);
      }
    }
  }
}
