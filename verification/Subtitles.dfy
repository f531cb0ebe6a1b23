/**
  Subtitle objects of libdvbsub: the decoder of pixel data sub-blocks drawing into the bitmap of its region.
 */
module Subtitles {
  import opened Basics
  import opened PixelCodes

  /** An object's place in the region, and whether its color 1 leaves the region as it is. */
  datatype Setting = Setting(px: int, py: int, nonModifying: bool)

  predicate Covers(g: Setting, s: Stroke, x: int, y: int) {
    && !(g.nonModifying && s.color == 1)
    && y == s.y + g.py && s.x + g.px <= x < s.x + g.px + s.count
  }

  /** What becomes of the pixel (x, y) with this value when the strokes are drawn one after the other. */
  function Painted(value: byte, g: Setting, strokes: seq<Stroke>, x: int, y: int): byte {
    if strokes == [] then value
    else
      var last := strokes[|strokes| - 1];
      if Covers(g, last, x, y) then last.color else Painted(value, g, strokes[..|strokes| - 1], x, y)
  }

  lemma {:induction false} PaintedConcat(value: byte, g: Setting, s: seq<Stroke>, t: seq<Stroke>, x: int, y: int)
    ensures Painted(value, g, s + t, x, y) == Painted(Painted(value, g, s, x, y), g, t, x, y)
  {
    if t == [] {
      assert s + t == s;
    } else {
      assert (s + t)[..|s + t| - 1] == s + t[..|t| - 1];
      PaintedConcat(value, g, s, t[..|t| - 1], x, y);
    }
  }

  // ----- the picture

  /** The pixel of a row that lands on (x, y), where the row starts at (left, top) in the object. */
  function RowPixel(value: byte, g: Setting, row: seq<nibble>, left: nat, top: nat, x: int, y: int): byte {
    var i := x - g.px - left;
    if y == top + g.py && 0 <= i < |row| && !(g.nonModifying && row[i] == 1) then row[i] else value
  }

  lemma {:induction false} RowIsPainted(value: byte, g: Setting, codes: seq<Code>, left: nat, top: nat, x: int, y: int)
    requires AllValid(codes)
    ensures Painted(value, g, Wanted(codes, left, top), x, y) == RowPixel(value, g, Pixels(codes), left, top, x, y)
    decreases |codes|
  {
    hide RowPixel;
    hide Repeat;
    hide Valid;
    hide ColorOf;
    if codes == [] {
      NoPixels(value, g, left, top, x, y);
    } else {
      var c, rest := codes[0], codes[1..];
      var n := Count(c);
      var first := [Stroke(left, top, ColorOf(c), n)];
      PaintedConcat(value, g, first, Wanted(rest, left + n, top), x, y);
      RowIsPainted(Painted(value, g, first, x, y), g, rest, left + n, top, x, y);
      RunIsPainted(value, g, n, ColorOf(c), left, top, x, y);
      RowFromRun(value, g, n, ColorOf(c), Pixels(rest), left, top, x, y);
    }
  }

  lemma NoPixels(value: byte, g: Setting, left: nat, top: nat, x: int, y: int)
    ensures RowPixel(value, g, [], left, top, x, y) == value
  {
  }

  lemma RunIsPainted(value: byte, g: Setting, n: nat, color: nibble, left: nat, top: nat, x: int, y: int)
    ensures Painted(value, g, [Stroke(left, top, color, n)], x, y)
      == RowPixel(value, g, Repeat(n, color), left, top, x, y)
  {
    assert [Stroke(left, top, color, n)][..0] == [];
  }

  lemma RowFromRun(value: byte, g: Setting, n: nat, color: nibble, rest: seq<nibble>, left: nat, top: nat,
                   x: int, y: int)
    ensures RowPixel(RowPixel(value, g, Repeat(n, color), left, top, x, y), g, rest, left + n, top, x, y)
      == RowPixel(value, g, Repeat(n, color) + rest, left, top, x, y)
  {
  }

  /** The pixel of a field: its rows are two lines apart, so that the other field's lines stay free. */
  function FieldPixel(value: byte, g: Setting, rows: seq<seq<nibble>>, top: nat, x: int, y: int): byte {
    var line := y - g.py - top;
    var i := x - g.px;
    if line >= 0 && line % 2 == 0 && line / 2 < |rows| && 0 <= i < |rows[line / 2]|
      && !(g.nonModifying && rows[line / 2][i] == 1)
    then rows[line / 2][i] else value
  }

  function RowOf(strings: seq<seq<Code>>): seq<nibble>
    requires ValidLine(strings)
  {
    CodesAreValid(strings);
    Pixels(Codes(strings))
  }

  function Picture(rows: seq<seq<seq<Code>>>): (p: seq<seq<nibble>>)
    requires ValidField(rows)
    ensures |p| == |rows| && forall i :: 0 <= i < |rows| ==> p[i] == RowOf(rows[i])
  {
    if rows == [] then [] else [RowOf(rows[0])] + Picture(rows[1..])
  }

  lemma {:induction false} FieldIsPainted(value: byte, g: Setting, rows: seq<seq<seq<Code>>>, top: nat, x: int, y: int)
    requires ValidField(rows)
    ensures Painted(value, g, WantedField(rows, top), x, y) == FieldPixel(value, g, Picture(rows), top, x, y)
    decreases |rows|
  {
    hide Wanted;
    hide Pixels;
    hide RowPixel;
    if rows != [] {
      var rest := rows[1..];
      CodesAreValid(rows[0]);
      PaintedConcat(value, g, WantedLine(rows[0], 0, top), WantedField(rest, top + 2), x, y);
      RowIsPainted(value, g, Codes(rows[0]), 0, top, x, y);
      var v := Painted(value, g, WantedLine(rows[0], 0, top), x, y);
      FieldIsPainted(v, g, rest, top + 2, x, y);
      FieldFromRow(value, g, RowOf(rows[0]), Picture(rest), top, x, y);
    }
  }

  lemma FieldFromRow(value: byte, g: Setting, row: seq<nibble>, rest: seq<seq<nibble>>, top: nat, x: int, y: int)
    ensures FieldPixel(RowPixel(value, g, row, 0, top, x, y), g, rest, top + 2, x, y)
      == FieldPixel(value, g, [row] + rest, top, x, y)
  {
    var line := y - g.py - top;
    if line < 2 {
      assert line >= 0 && line % 2 == 0 ==> line == 0;
    } else {
      assert (line - 2) % 2 == line % 2 && (line - 2) / 2 == line / 2 - 1;
      if line / 2 < 1 + |rest| {
        assert ([row] + rest)[line / 2] == rest[line / 2 - 1];
      }
    }
  }

  // ----- the bitmap

  lemma RowsApart(width: nat, y: nat, y': nat)
    requires y < y'
    ensures width * y + width <= width * y'
  {
    var d := y' - y - 1;
    assert width * y' == width * (y + 1 + d) == width * y + width + width * d;
  }

  lemma SamePixel(width: nat, x: nat, y: nat, x': nat, y': nat)
    requires x < width && x' < width && width * y + x == width * y' + x'
    ensures x == x' && y == y'
  {
    if y < y' {
      RowsApart(width, y, y');
      assert false;
    } else if y' < y {
      RowsApart(width, y', y);
      assert false;
    }
  }

  lemma PixelInside(width: nat, height: nat, x: nat, y: nat)
    requires x < width && y < height
    ensures 0 <= width * y + x < width * height
  {
    assert width * (y + 1) <= width * height;
    assert width * (y + 1) == width * y + width;
  }

  class Bitmap {
    const width: nat
    const height: nat
    const pixels: array<byte>

    ghost predicate Valid() {
      pixels.Length == width * height
    }

    constructor (width: nat, height: nat)
      ensures Valid() && fresh(pixels) && this.width == width && this.height == height
      ensures forall i :: 0 <= i < pixels.Length ==> pixels[i] == 0
    {
      this.width, this.height := width, height;
      pixels := new byte[width * height](_ => 0);
    }

    predicate Inside(x: int, y: int) {
      0 <= x < width && 0 <= y < height
    }

    ghost function Get(x: int, y: int): byte
      requires Valid() && Inside(x, y)
      reads pixels
    {
      PixelInside(width, height, x, y);
      pixels[width * y + x]
    }

    method SetIndex(x: int, y: int, index: byte)
      requires Valid()
      modifies pixels
      ensures forall x', y' | Inside(x', y') :: Get(x', y') == if x' == x && y' == y then index else old(Get(x', y'))
    {
      if 0 <= x < width && 0 <= y < height {
        PixelInside(width, height, x, y);
        if pixels[width * y + x] != index {
          pixels[width * y + x] := index;
        }
        forall x', y' | Inside(x', y')
          ensures Get(x', y') == if x' == x && y' == y then index else old(Get(x', y'))
        {
          PixelInside(width, height, x', y');
          if width * y + x == width * y' + x' {
            SamePixel(width, x, y, x', y');
          }
        }
      }
    }
  }

  // ----- the decoder

  class SubtitleObject {
    var nibblePos: nat
    var nonModifyingColorFlag: bool
    var px: int
    var py: int
    const bitmap: Bitmap

    ghost function Placed(): Setting
      reads this
    {
      Setting(px, py, nonModifyingColorFlag)
    }

    constructor (bitmap: Bitmap, px: int, py: int, nonModifying: bool)
      ensures this.bitmap == bitmap && Placed() == Setting(px, py, nonModifying)
    {
      this.bitmap, this.px, this.py, nonModifyingColorFlag, nibblePos := bitmap, px, py, nonModifying, 0;
    }

    method DrawLine(x: nat, y: nat, index: nibble, length: nat)
      requires bitmap.Valid()
      modifies bitmap.pixels
      ensures forall x', y' | bitmap.Inside(x', y') ::
        bitmap.Get(x', y') == if Covers(Placed(), Stroke(x, y, index, length), x', y') then index
                              else old(bitmap.Get(x', y'))
    {
      if nonModifyingColorFlag && index == 1 {
        return;
      }
      var left, top := x + px, y + py;
      var pos := left;
      while pos < left + length
        invariant left <= pos <= left + length
        invariant forall x', y' | bitmap.Inside(x', y') ::
          bitmap.Get(x', y') == if y' == top && left <= x' < pos then index else old(bitmap.Get(x', y'))
      {
        bitmap.SetIndex(pos, top, index);
        pos := pos + 1;
      }
    }

    /** The position that the next half byte is read from. */
    ghost function Position(index: nat): nat
      reads this
    {
      2 * index + if nibblePos == 0 then 1 else 0
    }

    method Get4Bits(data: seq<byte>, index: nat) returns (bits: nibble, index': nat)
      requires index < |data| && nibblePos in {0, 4}
      modifies this`nibblePos
      ensures bits == Nibble(data, old(Position(index)))
      ensures nibblePos in {0, 4} && Position(index') == old(Position(index)) + 1
    {
      var result := data[index];
      index' := index;
      if nibblePos == 0 {
        index' := index + 1;
        nibblePos := 4;
      } else {
        result := result / 16;
        nibblePos := nibblePos - 4;
      }
      bits := result % 16;
    }

    /** The reading part of Decode4BppCodeString. */
    method ReadCode(data: seq<byte>, index: nat) returns (more: bool, rl: nat, color: nibble, index': nat)
      requires nibblePos in {0, 4} && Position(index) + 5 <= 2 * |data|
      modifies this`nibblePos
      ensures nibblePos in {0, 4}
      ensures Decode4(data, old(Position(index)))
        == if more then Run(rl, color, Position(index')) else End(Position(index'))
    {
      hide Nibble;
      rl, color := 0, 0;
      var code;
      code, index' := Get4Bits(data, index);
      if code != 0 {
        return true, 1, code, index';
      }
      code, index' := Get4Bits(data, index');
      if code / 8 % 2 == 1 {
        if code / 4 % 2 == 1 {
          match code % 4
          case 0 => rl := 1;
          case 1 => rl := 2;
          case 2 =>
            code, index' := Get4Bits(data, index');
            rl := code + 9;
            color, index' := Get4Bits(data, index');
          case 3 =>
            code, index' := Get4Bits(data, index');
            rl := (code as int) * 16;
            code, index' := Get4Bits(data, index');
            rl := rl + code + 25;
            color, index' := Get4Bits(data, index');
        } else {
          rl := code % 4 + 4;
          color, index' := Get4Bits(data, index');
        }
      } else {
        if code == 0 {
          return false, 0, 0, index';
        }
        rl := code + 2;
      }
      more := true;
    }

    /** One code string; more: it was not the end of the string. */
    method Decode4BppCodeString(data: seq<byte>, index: nat, x: nat, y: nat)
      returns (more: bool, index': nat, x': nat, ghost drawn: seq<Stroke>)
      requires bitmap.Valid() && nibblePos in {0, 4} && Position(index) + 5 <= 2 * |data|
      modifies this`nibblePos, bitmap.pixels
      ensures nibblePos in {0, 4}
      ensures var step := Decode4(data, old(Position(index)));
        && Position(index') == step.next && more == step.Run?
        && drawn == (if more then [Stroke(x, y, step.color, step.count)] else [])
        && x' == (if more then x + step.count else x)
      ensures forall x', y' | bitmap.Inside(x', y') ::
        bitmap.Get(x', y') == Painted(old(bitmap.Get(x', y')), Placed(), drawn, x', y')
    {
      hide Decode4;
      var rl, color;
      more, rl, color, index' := ReadCode(data, index);
      if !more {
        return false, index', x, [];
      }
      DrawLine(x, y, color, rl);
      drawn := [Stroke(x, y, color, rl)];
      assert drawn[..0] == [];
      x' := x + rl;
    }

    /** The loop over one string of codes in DecodeSubBlock. */
    method DecodeString(data: seq<byte>, length: nat, index: nat, x: nat, y: nat)
      returns (index': nat, x': nat, ghost drawn: seq<Stroke>)
      requires bitmap.Valid() && Readable(data, length) && index <= length
      modifies this`nibblePos, bitmap.pixels
      ensures nibblePos in {0, 4}
      ensures Trace(data, length, 2 * index, x, y) == Traced(drawn, Position(index'), x')
      ensures forall x', y' | bitmap.Inside(x', y') ::
        bitmap.Get(x', y') == Painted(old(bitmap.Get(x', y')), Placed(), drawn, x', y')
    {
      hide Decode4;
      hide Covers;
      nibblePos := 4;
      index', x', drawn := index, x, [];
      var more := true;
      ghost var some: seq<Stroke>;
      while more
        invariant nibblePos in {0, 4} && 0 <= index' && 0 <= x'
        invariant more ==> Position(index') <= 2 * length + 1 && (index' < length || index' == index)
        invariant var t := Trace(data, length, 2 * index, x, y);
          if more then
            var u := Trace(data, length, Position(index'), x', y);
            t == Traced(drawn + u.strokes, u.p, u.x)
          else t == Traced(drawn, Position(index'), x')
        invariant forall x', y' | bitmap.Inside(x', y') ::
          bitmap.Get(x', y') == Painted(old(bitmap.Get(x', y')), Placed(), drawn, x', y')
        decreases if more then 2 * length + 10 - Position(index') else 0
      {
        TraceStep(data, length, Position(index'), x', y, drawn);
        more, index', x', some := Decode4BppCodeString(data, index', x', y);
        more := more && index' < length;
        PaintedOnwards(Placed(), drawn, some);
        drawn := drawn + some;
      }
    }

    /** DecodeSubBlock; it stops where a string of 2-bit or 8-bit codes begins. */
    method DecodeSubBlock(data: seq<byte>, length: nat, even: bool)
      requires bitmap.Valid() && Readable(data, length)
      modifies this`nibblePos, bitmap.pixels
      ensures var strokes := Block(data, length, 0, 0, if even then 0 else 1);
        forall x', y' | bitmap.Inside(x', y') ::
          bitmap.Get(x', y') == Painted(old(bitmap.Get(x', y')), Placed(), strokes, x', y')
    {
      hide Block;
      hide Trace;
      hide Covers;
      hide Decode4;
      var x, y := 0, if even then 0 else 1;
      ghost var top := y;
      ghost var drawn: seq<Stroke> := [];
      var index := 0;
      while index < length
        invariant 0 <= index && 0 <= x && 0 <= y
        invariant Block(data, length, 0, 0, top) == drawn + Block(data, length, index, x, y)
        invariant forall x', y' | bitmap.Inside(x', y') ::
          bitmap.Get(x', y') == Painted(old(bitmap.Get(x', y')), Placed(), drawn, x', y')
        decreases length + 16 - index
      {
        var tag := data[index];
        AfterOther(data, length, index, x, y);
        if tag == 0x11 {
          ghost var some;
          ghost var from, left := index, x;
          index, x, some := DecodeString(data, length, index + 1, x, y);
          AfterString(data, length, from, left, y, drawn, Traced(some, Position(index), x));
          PaintedOnwards(Placed(), drawn, some);
          drawn := drawn + some;
          if nibblePos == 0 {
            index := index + 1;
          }
        } else if tag == 0x10 || tag == 0x12 {
          assert drawn + [] == drawn;
          return;
        } else if tag == 0x20 || tag == 0x21 {
          index := index + 1 + 4;
        } else if tag == 0x22 {
          index := index + 1 + 16;
        } else if tag == 0xF0 {
          x, y, index := 0, y + 2, index + 1;
        } else {
          index := index + 1;
        }
      }
      BlockEnds(data, length, index, x, y);
      assert drawn + [] == drawn;
    }

    /**
      A whole field: into whatever strings its rows were cut and however these were run-length coded, every row
      ends up two lines below the one before, and every other pixel of the bitmap stays as it was.
     */
    method DecodeField(data: seq<byte>, ghost rows: seq<seq<seq<Code>>>, ghost closed: bool, length: nat, even: bool)
      requires bitmap.Valid() && Readable(data, length)
      requires ValidField(rows) && data[..length] == FieldBytes(rows, closed)
      modifies this`nibblePos, bitmap.pixels
      ensures var top := if even then 0 else 1;
        forall x', y' | bitmap.Inside(x', y') ::
          bitmap.Get(x', y') == FieldPixel(old(bitmap.Get(x', y')), Placed(), Picture(rows), top, x', y')
    {
      hide Block;
      hide FieldPixel;
      hide Painted;
      hide Picture;
      DecodeSubBlock(data, length, even);
      ghost var top := if even then 0 else 1;
      assert data[0..length] == data[..length];
      FieldIsDrawn(data, length, 0, rows, closed, top);
      AllPainted(Placed(), rows, top);
    }
  }

  lemma AfterString(data: seq<byte>, length: nat, index: nat, x: nat, y: nat, before: seq<Stroke>, t: Traced)
    requires Readable(data, length) && index < length && data[index] == 0x11
    requires t == Trace(data, length, 2 * (index + 1), x, y)
    ensures before + Block(data, length, index, x, y)
      == (before + t.strokes) + Block(data, length, (t.p + 1) / 2, t.x, y)
  {
    BlockAtString(data, length, index, x, y);
    assert before + (t.strokes + Block(data, length, (t.p + 1) / 2, t.x, y))
      == (before + t.strokes) + Block(data, length, (t.p + 1) / 2, t.x, y);
  }

  /** Every other kind of data draws nothing. */
  lemma AfterOther(data: seq<byte>, length: nat, index: nat, x: nat, y: nat)
    requires Readable(data, length) && index < length
    ensures var tag := data[index];
      var size := if tag == 0x20 || tag == 0x21 then 5 else if tag == 0x22 then 17 else 1;
      var block := Block(data, length, index, x, y);
      || tag == 0x11
      || (if tag == 0x10 || tag == 0x12 then block == []
          else if tag == 0xF0 then block == Block(data, length, index + 1, 0, y + 2)
          else block == Block(data, length, index + size, x, y))
  {
    hide Trace;
  }

  lemma PaintedOnwards(g: Setting, s: seq<Stroke>, t: seq<Stroke>)
    ensures forall value, x, y :: Painted(value, g, s + t, x, y) == Painted(Painted(value, g, s, x, y), g, t, x, y)
  {
    forall value, x, y ensures Painted(value, g, s + t, x, y) == Painted(Painted(value, g, s, x, y), g, t, x, y) {
      PaintedConcat(value, g, s, t, x, y);
    }
  }

  lemma TraceStep(data: seq<byte>, length: nat, p: nat, x: nat, y: nat, before: seq<Stroke>)
    requires Readable(data, length) && p <= 2 * length + 1
    ensures var t := Trace(data, length, p, x, y);
      match Decode4(data, p)
      case End(next) => before + t.strokes == before && t.p == next && t.x == x
      case Run(n, color, next) =>
        var now := before + [Stroke(x, y, color, n)];
        if next / 2 < length then
          var u := Trace(data, length, next, x + n, y);
          before + t.strokes == now + u.strokes && t.p == u.p && t.x == u.x
        else before + t.strokes == now && t.p == next && t.x == x + n
  {
    hide Decode4;
    var t := Trace(data, length, p, x, y);
    match Decode4(data, p)
    case End(next) =>
    case Run(n, color, next) =>
      if next / 2 < length {
        var u := Trace(data, length, next, x + n, y);
        assert before + ([Stroke(x, y, color, n)] + u.strokes) == (before + [Stroke(x, y, color, n)]) + u.strokes;
      }
  }

  lemma AllPainted(g: Setting, rows: seq<seq<seq<Code>>>, top: nat)
    requires ValidField(rows)
    ensures forall value, x, y ::
      Painted(value, g, WantedField(rows, top), x, y) == FieldPixel(value, g, Picture(rows), top, x, y)
  {
    forall value, x, y ensures Painted(value, g, WantedField(rows, top), x, y)
      == FieldPixel(value, g, Picture(rows), top, x, y)
    {
      FieldIsPainted(value, g, rows, top, x, y);
    }
  }
}
