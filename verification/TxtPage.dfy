/**
  The page compressor of the teletext cache (compression scheme 2): a page of 23 rows of 40 bytes is
  stored as one bit per position, set where a run of equal bytes starts, and the first byte of each run.
 */
module PageCodec {
  const PAGE_BYTES := 920
  const MASK_BYTES := 115
  const SPACE: bv8 := 0x20
  const HEADLINE_BYTES := 24
  const EXTRA_BYTES := 80

  /** A page of spaces: what a page that was never received reads as. */
  function Blank(): seq<bv8> {
    seq(PAGE_BYTES, _ => SPACE)
  }

  // ----- what a mask and its data mean

  function Ones(bits: seq<bool>): nat {
    if bits == [] then 0
    else Ones(bits[..|bits| - 1]) + if bits[|bits| - 1] then 1 else 0
  }

  /** The page a mask and its data stand for: a set bit takes the next data byte, a clear bit repeats. */
  function Expand(bits: seq<bool>, data: seq<bv8>): (page: seq<bv8>)
    requires Ones(bits) <= |data|
    ensures |page| == |bits|
  {
    if bits == [] then []
    else
      var n := |bits| - 1;
      var front := Expand(bits[..n], data);
      front + [if bits[n] then data[Ones(bits[..n])] else if n == 0 then SPACE else front[n - 1]]
  }

  // ----- what the compressor chooses

  predicate RunStart(page: seq<bv8>, i: nat)
    requires i < |page|
  {
    i == 0 || page[i] != page[i - 1]
  }

  function Starts(page: seq<bv8>): (bits: seq<bool>)
    ensures |bits| == |page|
  {
    seq(|page|, i requires 0 <= i < |page| => RunStart(page, i))
  }

  function Heads(page: seq<bv8>): seq<bv8> {
    if page == [] then []
    else
      var n := |page| - 1;
      Heads(page[..n]) + if RunStart(page, n) then [page[n]] else []
  }

  lemma StartsFront(page: seq<bv8>, n: nat)
    requires n <= |page|
    ensures Starts(page[..n]) == Starts(page)[..n]
  {
  }

  lemma HeadsStep(page: seq<bv8>, i: nat)
    requires i < |page|
    ensures Heads(page[..i + 1]) == Heads(page[..i]) + if RunStart(page, i) then [page[i]] else []
  {
    assert page[..i + 1][..i] == page[..i];
  }

  /** The stored length is the number of set bits. */
  lemma {:induction false} HeadsLength(page: seq<bv8>)
    ensures |Heads(page)| == Ones(Starts(page))
  {
    if page != [] {
      var n := |page| - 1;
      StartsFront(page, n);
      HeadsLength(page[..n]);
    }
  }

  lemma {:induction false} OnesMonotone(bits: seq<bool>, n: nat)
    requires n <= |bits|
    ensures Ones(bits[..n]) <= Ones(bits)
    decreases |bits|
  {
    if n < |bits| {
      var front := bits[..|bits| - 1];
      assert front[..n] == bits[..n];
      OnesMonotone(front, n);
    } else {
      assert bits[..n] == bits;
    }
  }

  /** Bytes after those the mask asks for do not matter. */
  lemma {:induction false} ExpandIgnoresRest(bits: seq<bool>, data: seq<bv8>, more: seq<bv8>)
    requires Ones(bits) <= |data|
    ensures Expand(bits, data + more) == Expand(bits, data)
  {
    if bits != [] {
      ExpandIgnoresRest(bits[..|bits| - 1], data, more);
    }
  }

  /** Decompression undoes compression, for a page of any length. */
  lemma {:induction false} ExpandUndoesCompress(page: seq<bv8>)
    ensures Ones(Starts(page)) <= |Heads(page)|
    ensures Expand(Starts(page), Heads(page)) == page
  {
    HeadsLength(page);
    if page != [] {
      var n := |page| - 1;
      StartsFront(page, n);
      ExpandUndoesCompress(page[..n]);
      HeadsLength(page[..n]);
      var tail := if RunStart(page, n) then [page[n]] else [];
      ExpandIgnoresRest(Starts(page[..n]), Heads(page[..n]), tail);
      assert Heads(page) == Heads(page[..n]) + tail;
      assert page == page[..n] + [page[n]];
    }
  }

  lemma {:induction false} ExpandFront(bits: seq<bool>, data: seq<bv8>, n: nat)
    requires n <= |bits| && Ones(bits) <= |data|
    ensures Ones(bits[..n]) <= |data|
    ensures Expand(bits[..n], data) == Expand(bits, data)[..n]
    decreases |bits|
  {
    OnesMonotone(bits, n);
    if n < |bits| {
      var front := bits[..|bits| - 1];
      assert front[..n] == bits[..n];
      ExpandFront(front, data, n);
    } else {
      assert bits[..n] == bits;
    }
  }

  /** Position i of a decoded page, from what precedes it. */
  lemma DecodeStep(bits: seq<bool>, data: seq<bv8>, i: nat)
    requires Ones(bits) <= |data| && i < |bits|
    ensures Ones(bits[..i + 1]) == Ones(bits[..i]) + (if bits[i] then 1 else 0) <= |data|
    ensures Expand(bits, data)[i]
      == if bits[i] then data[Ones(bits[..i])] else if i == 0 then SPACE else Expand(bits, data)[i - 1]
  {
    OnesMonotone(bits, i + 1);
    ExpandFront(bits, data, i + 1);
    var front := bits[..i + 1];
    assert front[..i] == bits[..i];
    assert Expand(bits, data)[i] == Expand(front, data)[i];
    assert i > 0 ==> Expand(bits, data)[i - 1] == Expand(front, data)[i - 1];
  }

  /**
    No other coding of a page can leave out a run start: whatever mask and data decode to the page,
    the mask has every bit the compressor sets, except possibly the first one (a page that starts with
    a space decodes the same without it).
   */
  lemma {:induction false} CompressIsMinimal(bits: seq<bool>, data: seq<bv8>, i: nat)
    requires Ones(bits) <= |data|
    requires i < |bits| && RunStart(Expand(bits, data), i)
    ensures i == 0 ==> bits[0] || Expand(bits, data)[0] == SPACE
    ensures i > 0 ==> bits[i]
  {
    DecodeStep(bits, data, i);
  }

  lemma {:induction false} OnesOrdered(a: seq<bool>, b: seq<bool>)
    requires |a| == |b|
    requires forall i :: 0 < i < |a| && a[i] ==> b[i]
    ensures Ones(a) <= Ones(b) + if |a| > 0 && a[0] && !b[0] then 1 else 0
  {
    if |a| > 0 {
      OnesOrdered(a[..|a| - 1], b[..|a| - 1]);
    }
  }

  /** The compressor's data is at most one byte longer than the shortest coding of the same page. */
  lemma CompressIsShortest(bits: seq<bool>, data: seq<bv8>)
    requires Ones(bits) <= |data|
    ensures var page := Expand(bits, data);
      |Heads(page)| <= |data| + 1 &&
      (|page| > 0 && page[0] != SPACE ==> |Heads(page)| <= |data|)
  {
    var page := Expand(bits, data);
    HeadsLength(page);
    var best := Starts(page);
    forall i | 0 <= i < |best| && best[i]
      ensures i > 0 ==> bits[i]
      ensures i == 0 ==> bits[0] || page[0] == SPACE
    {
      CompressIsMinimal(bits, data, i);
    }
    OnesOrdered(best, bits);
  }

  // ----- bit masks packed into bytes, most significant bit first

  /** 0x80 >> k */
  function BitAt(k: nat): bv8
    requires k < 8
  {
    match k
    case 0 => 0x80 case 1 => 0x40 case 2 => 0x20 case 3 => 0x10
    case 4 => 0x08 case 5 => 0x04 case 6 => 0x02 case 7 => 0x01
  }

  predicate HasBit(b: bv8, k: nat)
    requires k < 8
  {
    b & BitAt(k) != 0
  }

  function PutBit(b: bv8, k: nat): bv8
    requires k < 8
  {
    b | BitAt(k)
  }

  predicate IsSet(mask: seq<bv8>, i: nat)
    requires i < 8 * |mask|
  {
    HasBit(mask[i / 8], i % 8)
  }

  function Bits(mask: seq<bv8>): (bits: seq<bool>)
    ensures |bits| == 8 * |mask|
  {
    seq(8 * |mask|, i requires 0 <= i < 8 * |mask| => IsSet(mask, i))
  }

  lemma SetBit(b: bv8, k: nat, l: nat)
    requires k < 8 && l < 8
    ensures HasBit(PutBit(b, k), l) <==> k == l || HasBit(b, l)
  {
    SetBitCases(b, BitAt(k), BitAt(l));
    assert k != l ==> BitAt(k) & BitAt(l) == 0;
  }

  lemma SetBitCases(b: bv8, x: bv8, y: bv8)
    ensures x & y == 0 ==> (b | x) & y == b & y
    ensures x != 0 ==> (b | x) & x != 0
  {
  }

  lemma SetMaskBitAt(mask: seq<bv8>, mask': seq<bv8>, i: nat, j: nat)
    requires i < 8 * |mask| && j < 8 * |mask|
    requires mask' == mask[i / 8 := PutBit(mask[i / 8], i % 8)]
    ensures IsSet(mask', j) <==> i == j || IsSet(mask, j)
  {
    hide HasBit;
    hide PutBit;
    SetBit(mask[i / 8], i % 8, j % 8);
    assert j / 8 == i / 8 && j % 8 == i % 8 ==> j == i;
  }

  /** mask[i >> 3] |= 0x80 >> (i & 7) */
  function WithBit(mask: seq<bv8>, i: nat): seq<bv8>
    requires i < 8 * |mask|
  {
    mask[i / 8 := PutBit(mask[i / 8], i % 8)]
  }

  /** Setting one bit of a mask changes that bit and no other. */
  lemma SetMaskBit(mask: seq<bv8>, i: nat)
    requires i < 8 * |mask|
    ensures |WithBit(mask, i)| == |mask| && Bits(WithBit(mask, i)) == Bits(mask)[i := true]
  {
    forall j | 0 <= j < 8 * |mask|
      ensures IsSet(WithBit(mask, i), j) <==> i == j || IsSet(mask, j)
    {
      SetMaskBitAt(mask, WithBit(mask, i), i, j);
    }
    hide WithBit;
    hide IsSet;
  }

  lemma {:induction false} NoOnes(bits: seq<bool>)
    requires forall i :: 0 <= i < |bits| ==> !bits[i]
    ensures Ones(bits) == 0
  {
    if bits != [] {
      NoOnes(bits[..|bits| - 1]);
    }
  }

  /** An all-zero mask is a blank page, whatever data is left behind it. */
  lemma {:induction false} ZeroMaskIsBlank(bits: seq<bool>, data: seq<bv8>)
    requires forall i :: 0 <= i < |bits| ==> !bits[i]
    ensures Ones(bits) == 0 <= |data|
    ensures Expand(bits, data) == seq(|bits|, _ => SPACE)
  {
    NoOnes(bits);
    if bits != [] {
      ZeroMaskIsBlank(bits[..|bits| - 1], data);
    }
  }
}

/** One cached page (struct tstCachedPage): packets 1..23 in compressed form, and what is kept as received. */
module CachedPages {
  import opened PageCodec

  class CachedPage {
    var bitmask: seq<bv8>  // the array of the struct, as a value
    var pData: seq<bv8>    // the allocated data block, [] for a null pointer
    var p0: seq<bv8>       // centre of the headline
    var p24: seq<bv8>      // packets 24 and 25, [] for a null pointer

    ghost predicate Valid()
      reads this
    {
      && |bitmask| == MASK_BYTES
      && Ones(Bits(bitmask)) <= |pData|
      && |p0| == HEADLINE_BYTES
      && (p24 == [] || |p24| == EXTRA_BYTES)
    }

    /** The 920 bytes this entry stands for. */
    ghost function Page(): (page: seq<bv8>)
      requires Valid()
      reads this
      ensures |page| == PAGE_BYTES
    {
      Expand(Bits(bitmask), pData)
    }

    /** Allocation followed by tuxtxt_erase_page. */
    constructor ()
      ensures Valid() && Page() == Blank()
      ensures p0 == seq(HEADLINE_BYTES, _ => SPACE) && p24 == []
    {
      bitmask := seq(MASK_BYTES, _ => 0);
      pData := [];
      p24 := [];
      p0 := seq(HEADLINE_BYTES, _ => SPACE);
      new;
      ZeroMask(bitmask, pData);
    }

    /** memset(bitmask, 0): the page reads as blank, the data block is kept. */
    method Erase()
      requires Valid()
      modifies this`bitmask
      ensures Valid() && Page() == Blank()
    {
      bitmask := seq(MASK_BYTES, _ => 0);
      ZeroMask(bitmask, pData);
    }

    /** tuxtxt_compress_page */
    method Compress(buffer: array<bv8>)
      requires Valid() && buffer.Length == PAGE_BYTES
      modifies this`pData, this`bitmask
      ensures Valid()
      ensures Bits(bitmask) == Starts(buffer[..]) && pData == Heads(buffer[..])
      ensures Page() == buffer[..]
      ensures Ones(Bits(bitmask)) == |pData|
    {
      bitmask, pData := PackRuns(buffer);
      HeadsLength(buffer[..]);
      ExpandUndoesCompress(buffer[..]);
    }

    /** The loop of tuxtxt_compress_page: marks the start of each run and collects its byte. */
    static method PackRuns(buffer: array<bv8>) returns (mask: seq<bv8>, data: seq<bv8>)
      requires buffer.Length == PAGE_BYTES
      ensures |mask| == MASK_BYTES && Bits(mask) == Starts(buffer[..]) && data == Heads(buffer[..])
    {
      ghost var page := buffer[..];
      assert Heads(page[..0]) == [];
      hide Heads;
      hide WithBit;
      hide IsSet;
      mask := seq(MASK_BYTES, _ => 0);
      ZeroMask(mask, []);
      hide Bits;
      var cbuf := new bv8[PAGE_BYTES];
      var i, j := 0, 0;
      while i < PAGE_BYTES
        invariant 0 <= j <= i <= PAGE_BYTES && |mask| == MASK_BYTES
        invariant forall k :: 0 <= k < PAGE_BYTES ==> Bits(mask)[k] == (k < i && RunStart(page, k))
        invariant cbuf[..j] == Heads(page[..i])
      {
        HeadsStep(page, i);
        assert buffer[i] == page[i];
        if i == 0 || buffer[i] != buffer[i - 1] {
          SetMaskBit(mask, i);
          mask := WithBit(mask, i);
          cbuf[j] := buffer[i];
          j := j + 1;
        }
        i := i + 1;
      }
      data := cbuf[..j];
      assert page[..PAGE_BYTES] == page;
      assert Bits(mask) == Starts(page);
    }

    /** tuxtxt_decompress_page */
    method Decompress(buffer: array<bv8>)
      requires Valid() && buffer.Length == PAGE_BYTES
      modifies buffer
      ensures buffer[..] == Page()
    {
      ghost var bits := Bits(bitmask);
      ghost var page := Page();
      forall i | 0 <= i < buffer.Length {
        buffer[i] := SPACE;
      }
      if pData != [] {
        var i, j := 0, 0;
        var c: bv8 := SPACE;
        assert bits[..0] == [];
        while i < PAGE_BYTES
          invariant 0 <= i <= PAGE_BYTES
          invariant j == Ones(bits[..i])
          invariant buffer[..i] == page[..i]
          invariant c == if i == 0 then SPACE else page[i - 1]
        {
          DecodeStep(bits, pData, i);
          if IsSet(bitmask, i) {
            c := pData[j];
            j := j + 1;
          }
          assert c == page[i];
          buffer[i] := c;
          assert buffer[..i + 1] == page[..i] + [c];
          i := i + 1;
        }
        assert page[..PAGE_BYTES] == page && buffer[..PAGE_BYTES] == buffer[..];
      } else {
        OnlyZeros(bits);
        ZeroMaskIsBlank(bits, pData);
        assert buffer[..] == Blank();
      }
    }

    /** tuxtxt_get_zipsize: the bits are counted from the least significant end of each byte. */
    method ZipSize() returns (zipsize: nat)
      requires Valid()
      ensures zipsize == Ones(Bits(bitmask)) + MASK_BYTES
    {
      zipsize := 0;
      ghost var bits := Bits(bitmask);
      assert bits[..0] == [];
      for i := 0 to MASK_BYTES
        invariant zipsize == Ones(bits[..8 * i])
      {
        var counted := 0;
        for j := 0 to 8
          invariant counted == OnesBelow(bitmask[i], j)
        {
          if HasBit(bitmask[i], 7 - j) {
            counted := counted + 1;
          }
        }
        OnesOfByte(bitmask, i);
        zipsize := zipsize + counted;
      }
      assert bits[..8 * MASK_BYTES] == bits;
      zipsize := zipsize + MASK_BYTES;
    }
  }

  lemma ZeroMask(mask: seq<bv8>, data: seq<bv8>)
    requires |mask| == MASK_BYTES && forall i :: 0 <= i < MASK_BYTES ==> mask[i] == 0
    ensures forall i :: 0 <= i < PAGE_BYTES ==> !Bits(mask)[i]
    ensures Ones(Bits(mask)) == 0 <= |data| && Expand(Bits(mask), data) == Blank()
  {
    assert forall i :: 0 <= i < PAGE_BYTES ==> !IsSet(mask, i);
    NoOnes(Bits(mask));
    ZeroMaskIsBlank(Bits(mask), data);
  }

  /** The set bits among the n least significant ones. */
  ghost function OnesBelow(b: bv8, n: nat): nat
    requires n <= 8
  {
    if n == 0 then 0 else OnesBelow(b, n - 1) + if HasBit(b, 8 - n) then 1 else 0
  }

  lemma {:induction false} OnlyZeros(bits: seq<bool>)
    requires Ones(bits) == 0
    ensures forall i :: 0 <= i < |bits| ==> !bits[i]
  {
    if bits != [] {
      OnlyZeros(bits[..|bits| - 1]);
      assert forall i :: 0 <= i < |bits| - 1 ==> bits[i] == bits[..|bits| - 1][i];
    }
  }

  lemma {:induction false} OnesOfByte(mask: seq<bv8>, i: nat)
    requires i < |mask|
    ensures Ones(Bits(mask)[..8 * (i + 1)]) == Ones(Bits(mask)[..8 * i]) + OnesBelow(mask[i], 8)
  {
    OnesOfTopBits(mask, i, 8);
  }

  /** Counting the top n bits of byte i in mask order is counting them from the other end. */
  lemma {:induction false} OnesOfTopBits(mask: seq<bv8>, i: nat, n: nat)
    requires i < |mask| && n <= 8
    ensures Ones(Bits(mask)[..8 * i + n]) + OnesBelow(mask[i], 8 - n)
      == Ones(Bits(mask)[..8 * i]) + OnesBelow(mask[i], 8)
  {
    hide OnesBelow;
    hide Ones;
    hide Bits;
    if n > 0 {
      OnesOfTopBits(mask, i, n - 1);
      OnesStep(Bits(mask), 8 * i + n - 1);
      OnesBelowStep(mask[i], n);
      BitOfByte(mask, i, n - 1);
    }
  }

  lemma OnesBelowStep(b: bv8, n: nat)
    requires 0 < n <= 8
    ensures OnesBelow(b, 9 - n) == OnesBelow(b, 8 - n) + if HasBit(b, n - 1) then 1 else 0
  {
    hide HasBit;
  }

  lemma BitOfByte(mask: seq<bv8>, i: nat, k: nat)
    requires i < |mask| && k < 8
    ensures Bits(mask)[8 * i + k] == HasBit(mask[i], k)
  {
    hide HasBit;
    assert (8 * i + k) / 8 == i && (8 * i + k) % 8 == k;
  }

  lemma OnesStep(bits: seq<bool>, k: nat)
    requires k < |bits|
    ensures Ones(bits[..k + 1]) == Ones(bits[..k]) + if bits[k] then 1 else 0
  {
    assert bits[..k + 1][..k] == bits[..k];
  }
}
