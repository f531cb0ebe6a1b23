/**
  Palettes of libdvbsub: finding or defining the index of a color, taking over another palette, and the copy of a
  subtitle region into a bitmap of its own.
 */
module Palettes {
  import opened Basics
  import opened PixelCodes
  import opened Subtitles

  datatype Color = Color(a: byte, r: byte, g: byte, b: byte)

  const NO_COLOR := Color(0, 0, 0, 0)

  function Abs(x: int): nat { if x < 0 then -x else x }

  /** How far apart two colors are, as ClosestColor measures it. */
  function Distance(c: Color, d: Color): nat {
    2 * Abs(c.a - d.a) + 2 * Abs(c.r - d.r) + 2 * Abs(c.g - d.g) + 2 * Abs(c.b - d.b)
  }

  const INT_MAX := 0x7FFF_FFFF

  class Palette {
    const color: array<Color>
    const maxColors: nat
    var numColors: nat

    ghost predicate Valid()
      reads this
    {
      color.Length == 256 && 1 <= maxColors <= 256 && numColors <= maxColors
    }

    ghost function Colors(): seq<Color>
      requires Valid()
      reads this, color
    {
      color[..numColors]
    }

    /** A palette for so many bits per pixel, without colors. */
    constructor (maxColors: nat)
      requires 1 <= maxColors <= 256
      ensures Valid() && fresh(color) && this.maxColors == maxColors && Colors() == []
    {
      color := new Color[256](_ => NO_COLOR);
      this.maxColors, numColors := maxColors, 0;
    }

    method Reset()
      requires Valid()
      modifies this
      ensures Valid() && Colors() == []
    {
      numColors := 0;
    }

    /** ClosestColor: the first of the colors that are nearest, or -1 if even they are too far away. */
    method ClosestColor(c: Color, maxDiff: nat) returns (i: int)
      requires Valid() && maxDiff <= INT_MAX && (maxDiff == INT_MAX ==> numColors > 0)
      ensures -1 <= i < numColors
      ensures i >= 0 ==>
        && Distance(color[i], c) <= maxDiff
        && (forall j :: 0 <= j < numColors ==> Distance(color[i], c) <= Distance(color[j], c))
        && (forall j :: 0 <= j < i ==> Distance(color[i], c) < Distance(color[j], c))
      ensures i < 0 ==> forall j :: 0 <= j < numColors ==> Distance(color[j], c) > maxDiff
    {
      hide Distance;
      var n, d := 0, INT_MAX;
      var k := 0;
      while k < numColors
        invariant 0 <= k <= numColors
        invariant k == 0 ==> n == 0 && d == INT_MAX
        invariant k > 0 ==> 0 <= n < k && d == Distance(color[n], c)
        invariant forall j :: 0 <= j < k ==> d <= Distance(color[j], c)
        invariant forall j :: 0 <= j < n ==> d < Distance(color[j], c)
      {
        Bounded(color[k], c);
        var diff := Distance(color[k], c);
        if diff < d {
          d := diff;
          n := k;
        }
        k := k + 1;
      }
      i := if d <= maxDiff then n else -1;
    }

    /** Index: an exact match, else a close one, else a new entry, else the nearest there is. */
    method Index(c: Color) returns (i: nat)
      requires Valid()
      modifies this`numColors, color
      ensures Valid() && i < numColors && old(numColors) <= numColors <= old(numColors) + 1
      ensures old(Colors()) <= Colors()
      ensures numColors > old(numColors) ==> i == old(numColors) && Colors() == old(Colors()) + [c]
      ensures c in old(Colors()) ==> color[i] == c && forall j :: 0 <= j < i ==> color[j] != c
      ensures Distance(color[i], c) <= 4
        || (old(numColors) == maxColors &&
            forall j :: 0 <= j < maxColors ==> Distance(color[i], c) <= Distance(color[j], c))
    {
      hide Distance;
      var k := 0;
      while k < numColors
        modifies {}
        invariant 0 <= k <= numColors
        invariant forall j :: 0 <= j < k ==> color[j] != c
      {
        if color[k] == c {
          SameColor(c);
          return k;
        }
        k := k + 1;
      }
      var close := ClosestColor(c, 4);
      if close >= 0 {
        return close;
      }
      if numColors < maxColors {
        SameColor(c);
        color[numColors] := c;
        numColors := numColors + 1;
        return numColors - 1;
      }
      Bounded(color[0], c);
      close := ClosestColor(c, INT_MAX);
      i := close;
    }

    /** The color that Take looks for in place of entry i. */
    static function Wanted(i: nat, c: Color, fg: Color, bg: Color): Color {
      if fg == NO_COLOR && bg == NO_COLOR then c else if i == 0 then bg else if i == 1 then fg else c
    }

    /** Take: where every color of the other palette is found in this one. */
    method Take(other: Palette, indexes: array<byte>, fg: Color, bg: Color)
      requires Valid() && other.Valid() && other != this && other.color != color && indexes.Length == 256
      modifies this`numColors, color, indexes
      ensures Valid() && old(Colors()) <= Colors()
      ensures forall i :: 0 <= i < other.numColors ==> indexes[i] < numColors
      ensures old(numColors) + other.numColors <= maxColors ==>
        forall i :: 0 <= i < other.numColors ==>
          Distance(color[indexes[i]], Wanted(i, other.color[i], fg, bg)) <= 4
      ensures old(numColors) + other.numColors <= maxColors && other.numColors > 1 && (fg != NO_COLOR || bg != NO_COLOR)
              ==> Distance(color[indexes[0]], bg) <= 4 && Distance(color[indexes[1]], fg) <= 4
      ensures forall i :: other.numColors <= i < 256 ==> indexes[i] == old(indexes[i])
    {
      hide Distance;
      var i := 0;
      while i < other.numColors
        invariant 0 <= i <= other.numColors && Valid()
        invariant old(Colors()) <= Colors() && numColors <= old(numColors) + i
        invariant forall j :: 0 <= j < i ==> indexes[j] < numColors
        invariant old(numColors) + other.numColors <= maxColors ==>
          forall j :: 0 <= j < i ==> Distance(Colors()[indexes[j]], Wanted(j, other.color[j], fg, bg)) <= 4
        invariant forall j :: i <= j < 256 ==> indexes[j] == old(indexes[j])
        modifies this`numColors, color, indexes
      {
        ghost var before := Colors();
        var c := Wanted(i, other.color[i], fg, bg);
        var n := Index(c);
        assert forall j :: 0 <= j < |before| ==> Colors()[j] == before[j];
        indexes[i] := n;
        i := i + 1;
      }
    }
  }

  lemma Bounded(c: Color, d: Color)
    ensures Distance(c, d) <= 2040
  {
  }

  /** How far apart two colors are, all four components together. */
  predicate Within(c: Color, d: Color, n: nat) {
    Abs(c.a - d.a) + Abs(c.r - d.r) + Abs(c.g - d.g) + Abs(c.b - d.b) <= n
  }

  lemma CloseIsWithin(c: Color, d: Color)
    ensures Distance(c, d) <= 4 <==> Within(c, d, 2)
  {
  }

  lemma SameColor(c: Color)
    ensures Distance(c, c) == 0
  {
  }

  /**
    What FinishPage does with a region: DrawBitmap into a new bitmap of the same size and depth at the same place.
    Every pixel whose color is defined gets an entry whose components differ from its own by 2 altogether at most.
   */
  method CopyRegion(region: Bitmap, colors: Palette) returns (copy: Bitmap, palette: Palette)
    requires region.Valid() && colors.Valid()
    ensures copy.Valid() && palette.Valid() && fresh(copy.pixels) && fresh(palette.color)
    ensures copy.width == region.width && copy.height == region.height
    ensures forall x, y | region.Inside(x, y) && region.Get(x, y) < colors.numColors ::
      && copy.Inside(x, y) && copy.Get(x, y) < palette.numColors
      && Within(palette.color[copy.Get(x, y)], colors.color[region.Get(x, y)], 2)
  {
    hide Distance;
    hide Within;
    palette := new Palette(colors.maxColors);
    copy := new Bitmap(region.width, region.height);
    var indexes := new byte[256](_ => 0);
    palette.Reset();
    palette.Take(colors, indexes, NO_COLOR, NO_COLOR);
    DrawAll(region, copy, indexes);
    forall x, y | region.Inside(x, y) && region.Get(x, y) < colors.numColors
      ensures Within(palette.color[copy.Get(x, y)], colors.color[region.Get(x, y)], 2)
    {
      CloseIsWithin(palette.color[copy.Get(x, y)], colors.color[region.Get(x, y)]);
    }
  }

  /** The loops of DrawBitmap: every pixel through the table of indexes. */
  method DrawAll(source: Bitmap, target: Bitmap, indexes: array<byte>)
    requires source.Valid() && target.Valid() && indexes.Length == 256
    requires source.pixels != target.pixels && indexes != target.pixels
    requires source.width == target.width && source.height == target.height
    modifies target.pixels
    ensures forall x, y | target.Inside(x, y) :: target.Get(x, y) == indexes[source.Get(x, y)]
  {
    var ix := 0;
    while ix < source.width
      invariant 0 <= ix <= source.width
      invariant forall x, y | target.Inside(x, y) && x < ix :: target.Get(x, y) == indexes[source.Get(x, y)]
    {
      var iy := 0;
      while iy < source.height
        invariant 0 <= iy <= source.height
        invariant forall x, y | target.Inside(x, y) && (x < ix || (x == ix && y < iy)) ::
          target.Get(x, y) == indexes[source.Get(x, y)]
      {
        PixelInside(source.width, source.height, ix, iy);
        target.SetIndex(ix, iy, indexes[source.pixels[source.width * iy + ix]]);
        iy := iy + 1;
      }
      ix := ix + 1;
    }
  }
}
