/**
  The PES reader of libdvbsub: it finds the start of a packet in the stream of the demultiplexer and collects the
  packet, however little a single read delivers.
 */
module PesReader {
  import opened Basics
  import opened BitReader

  // ----- one pass over the whole stream

  predicate SyncAt(d: seq<byte>, i: nat) {
    i + 3 <= |d| && d[i] == 0 && d[i + 1] == 0 && d[i + 2] == 1
  }

  /** Where the first start code begins; the length of the stream if there is none. */
  function FirstSync(d: seq<byte>, from: nat): (i: nat)
    requires from <= |d|
    ensures from <= i <= |d|
    ensures forall j :: from <= j < i ==> !SyncAt(d, j)
    ensures i < |d| ==> SyncAt(d, i)
    decreases |d| - from
  {
    if from == |d| || SyncAt(d, from) then from else FirstSync(d, from + 1)
  }

  /** The size of the packet at i; a uint16_t, so that lengths above 65529 wrap. */
  function SizeAt(d: seq<byte>, i: nat): nat
    requires i + 6 <= |d|
  {
    ((d[i + 4] as int) * 256 + d[i + 5] + 6) % 0x1_0000
  }

  /** Where the first packet begins and ends; None while it is not complete. */
  function First(d: seq<byte>): (r: Option<(nat, nat)>)
    ensures r.Some? ==> r.value.0 + 6 <= r.value.1 <= |d|
  {
    var i := FirstSync(d, 0);
    if i + 6 > |d| then None
    else
      var size := SizeAt(d, i);
      if size < 6 || i + size > |d| then None else Some((i, i + size))
  }

  /** All complete packets of a stream; a packet of more than 65529 bytes behind its header ends the reading. */
  function Packets(d: seq<byte>): seq<seq<byte>>
    decreases |d|
  {
    var first := First(d);
    if first.None? then []
    else [d[first.value.0..first.value.1]] + Packets(d[first.value.1..])
  }

  lemma FirstSyncIs(d: seq<byte>, i: nat)
    requires SyncAt(d, i) && forall j :: 0 <= j < i ==> !SyncAt(d, j)
    ensures FirstSync(d, 0) == i
  {
  }

  /** What follows a complete packet has no influence on it. */
  lemma FirstStays(d: seq<byte>, i: nat, e: seq<byte>)
    requires SyncAt(d, i) && forall j :: 0 <= j < i ==> !SyncAt(d, j)
    requires i + 6 <= |d| && SizeAt(d, i) >= 6 && i + SizeAt(d, i) == |d|
    ensures Packets(d + e) == [d[i..]] + Packets(e)
  {
    hide FirstSync;
    var t := d + e;
    assert forall j :: 0 <= j && j + 3 <= |d| ==> SyncAt(t, j) == SyncAt(d, j);
    FirstSyncIs(t, i);
    assert SizeAt(t, i) == SizeAt(d, i);
    assert t[i..|d|] == d[i..] && t[|d|..] == e;
  }

  /** The part done has given exactly these packets, whatever comes next. */
  ghost predicate Settled(done: seq<byte>, packets: seq<seq<byte>>) {
    forall e :: Packets(done + e) == packets + Packets(e)
  }

  lemma NothingSettled()
    ensures Settled([], [])
  {
    hide Packets;
    forall e ensures Packets([] + e) == [] + Packets(e) {
      assert [] + e == e;
    }
  }

  lemma SettleMore(done: seq<byte>, packets: seq<seq<byte>>, d: seq<byte>, i: nat)
    requires Settled(done, packets)
    requires SyncAt(d, i) && forall j :: 0 <= j < i ==> !SyncAt(d, j)
    requires i + 6 <= |d| && SizeAt(d, i) >= 6 && i + SizeAt(d, i) == |d|
    ensures Settled(done + d, packets + [d[i..]])
  {
    hide Packets;
    hide SyncAt;
    hide SizeAt;
    forall e ensures Packets(done + d + e) == packets + [d[i..]] + Packets(e) {
      assert done + d + e == done + (d + e);
      FirstStays(d, i, e);
      assert packets + ([d[i..]] + Packets(e)) == packets + [d[i..]] + Packets(e);
    }
  }

  lemma NoneYet(done: seq<byte>, packets: seq<seq<byte>>, d: seq<byte>)
    requires Settled(done, packets) && First(d).None?
    ensures Packets(done + d) == packets
  {
    hide First;
    assert Packets(d) == [];
    assert packets + [] == packets;
  }

  // ----- what was sent

  /** A packet of section 2.4.3.6 of ISO/IEC 13818-1: start code, stream id, length of the rest, rest. */
  function PacketOf(id: byte, body: seq<byte>): seq<byte>
    requires |body| < 65536
  {
    [0, 0, 1, id, |body| / 256, |body| % 256] + body
  }

  /** Bytes without a start code in them. */
  predicate NoStart(s: seq<byte>) {
    forall j :: 0 <= j && j + 3 <= |s| ==> !(s[j] == 0 && s[j + 1] == 0 && s[j + 2] == 1)
  }

  /** A packet behind bytes that belong to none. */
  datatype Piece = Piece(stuffing: seq<byte>, id: byte, body: seq<byte>)

  predicate Sendable(pieces: seq<Piece>) {
    forall i :: 0 <= i < |pieces| ==> NoStart(pieces[i].stuffing) && |pieces[i].body| <= 65529
  }

  function Stream(pieces: seq<Piece>): seq<byte>
    requires Sendable(pieces)
  {
    if pieces == [] then []
    else pieces[0].stuffing + PacketOf(pieces[0].id, pieces[0].body) + Stream(pieces[1..])
  }

  function Sent(pieces: seq<Piece>): seq<seq<byte>>
    requires Sendable(pieces)
  {
    if pieces == [] then [] else [PacketOf(pieces[0].id, pieces[0].body)] + Sent(pieces[1..])
  }

  lemma PieceIsFound(stuffing: seq<byte>, id: byte, body: seq<byte>, rest: seq<byte>)
    requires NoStart(stuffing) && |body| <= 65529
    ensures Packets(stuffing + PacketOf(id, body) + rest) == [PacketOf(id, body)] + Packets(rest)
  {
    hide Packets;
    var packet := PacketOf(id, body);
    var d, i := stuffing + packet, |stuffing|;
    assert d[i..] == packet;
    assert d[i] == 0 && d[i + 1] == 0 && d[i + 2] == 1 && d[i + 4] == |body| / 256 && d[i + 5] == |body| % 256;
    forall j | 0 <= j < i ensures !SyncAt(d, j) {
      if j + 3 <= i {
        assert d[j] == stuffing[j] && d[j + 1] == stuffing[j + 1] && d[j + 2] == stuffing[j + 2];
      } else {
        assert d[j + 2] == packet[j + 2 - i];
      }
    }
    FirstStays(d, i, rest);
  }

  /** Every packet that was sent is found, in order, whatever stands between the packets and whatever follows. */
  lemma {:induction false} SentIsFound(pieces: seq<Piece>, rest: seq<byte>)
    requires Sendable(pieces)
    ensures Packets(Stream(pieces) + rest) == Sent(pieces) + Packets(rest)
  {
    hide Packets;
    hide PacketOf;
    hide NoStart;
    if pieces == [] {
      assert Stream(pieces) + rest == rest;
      assert [] + Packets(rest) == Packets(rest);
    } else {
      var p, more := pieces[0], Stream(pieces[1..]) + rest;
      assert Stream(pieces) + rest == p.stuffing + PacketOf(p.id, p.body) + more;
      PieceIsFound(p.stuffing, p.id, p.body, more);
      SentIsFound(pieces[1..], rest);
      assert [PacketOf(p.id, p.body)] + (Sent(pieces[1..]) + Packets(rest)) == Sent(pieces) + Packets(rest);
    }
  }

  /** A rest without a start code, or with the beginning of a packet only, holds no packet. */
  lemma NothingIsFound(stuffing: seq<byte>, id: byte, body: seq<byte>, n: nat)
    requires NoStart(stuffing) && |body| <= 65529 && n < 6 + |body|
    ensures Packets(stuffing + PacketOf(id, body)[..n]) == []
  {
    var packet := PacketOf(id, body);
    var d, i := stuffing + packet[..n], |stuffing|;
    forall j | 0 <= j < i ensures !SyncAt(d, j) {
      if j + 3 <= i {
        assert d[j] == stuffing[j] && d[j + 1] == stuffing[j + 1] && d[j + 2] == stuffing[j + 2];
      } else if j + 3 <= |d| {
        assert d[j + 2] == packet[j + 2 - i];
      }
    }
    if n >= 3 {
      assert d[i] == 0 && d[i + 1] == 0 && d[i + 2] == 1;
      FirstSyncIs(d, i);
      if n >= 6 {
        assert d[i + 4] == |body| / 256 && d[i + 5] == |body| % 256;
      }
    } else {
      assert FirstSync(d, 0) + 6 > |d|;
    }
  }

  // ----- the demultiplexer

  /**
    A read delivers what the plan says, as far as the caller wants it and the stream has it; nothing or a
    negative result stands for a time-out or an error. The reader is paused when the plan ends.
   */
  class Demux {
    const data: seq<byte>
    const plan: seq<int>
    var position: nat
    var calls: nat

    constructor (data: seq<byte>, plan: seq<int>)
      ensures this.data == data && this.plan == plan && position == 0 && calls == 0
    {
      this.data, this.plan, position, calls := data, plan, 0, 0;
    }

    ghost predicate Valid()
      reads this
    {
      position <= |data| && calls <= |plan|
    }

    predicate Paused()
      reads this
    {
      calls >= |plan|
    }

    method Read(target: array<byte>, at: nat, most: nat) returns (len: int)
      requires Valid() && !Paused() && at + most <= target.Length
      modifies this, target
      ensures Valid() && calls == old(calls) + 1
      ensures len <= most && position == old(position) + (if len > 0 then len else 0)
      ensures forall i :: 0 <= i < target.Length ==>
        target[i] == if at <= i < at + len then data[old(position) + i - at] else old(target[i])
    {
      len := plan[calls];
      calls := calls + 1;
      if len > most {
        len := most;
      }
      if len > |data| - position {
        len := |data| - position;
      }
      var i := 0;
      while i < len
        invariant 0 <= i && (if len > 0 then i <= len else i == 0)
        invariant forall j :: 0 <= j < target.Length ==>
          target[j] == if at <= j < at + i then data[position + j - at] else old(target[j])
        modifies target
      {
        target[at + i] := data[position + i];
        i := i + 1;
      }
      if len > 0 {
        position := position + len;
      }
    }
  }

  // ----- the reader

  predicate NoSync(w: seq<byte>, upTo: int) {
    forall j :: 0 <= j < upTo ==> !SyncAt(w, j)
  }

  lemma NoSyncMore(w: seq<byte>, v: seq<byte>)
    requires w <= v && NoSync(w, |w|)
    requires forall j :: |w| - 2 <= j && 0 <= j && j + 3 <= |v| ==> !SyncAt(v, j)
    ensures NoSync(v, |v|)
  {
    forall j | 0 <= j < |v| ensures !SyncAt(v, j) {
      if j + 3 <= |w| {
        assert !SyncAt(w, j);
        assert w == v[..|w|];
        assert v[j] == w[j] && v[j + 1] == w[j + 1] && v[j + 2] == w[j + 2];
      }
    }
  }

  /** Wait for the start code: the reader stops right behind the first one. */
  method Sync(dmx: Demux, tmp: array<byte>) returns (found: bool)
    requires dmx.Valid() && tmp.Length == 16
    modifies dmx, tmp
    ensures dmx.Valid() && dmx.position >= old(dmx.position) && dmx.calls >= old(dmx.calls)
    ensures var w := dmx.data[old(dmx.position)..dmx.position];
      if found then
        |w| >= 3 && SyncAt(w, |w| - 3) && NoSync(w, |w| - 3) && dmx.calls > old(dmx.calls)
        && tmp[0] == 0 && tmp[1] == 0 && tmp[2] == 1
      else dmx.Paused() && NoSync(w, |w|)
  {
    ghost var start := dmx.position;
    var count := 0;
    while !dmx.Paused()
      invariant dmx.Valid() && start <= dmx.position && old(dmx.calls) <= dmx.calls
      invariant 0 <= count <= 2 && (count == dmx.position - start || (count == 2 && dmx.position - start > 2))
      invariant forall i :: 0 <= i < count ==> tmp[i] == dmx.data[dmx.position - count + i]
      invariant NoSync(dmx.data[start..dmx.position], dmx.position - start)
      decreases |dmx.plan| - dmx.calls
    {
      ghost var before := dmx.position;
      var len := dmx.Read(tmp, count, 3 - count);
      if len <= 0 {
        continue;
      }
      ghost var w, v := dmx.data[start..before], dmx.data[start..dmx.position];
      assert w <= v;
      if len == 3 - count {
        assert forall i :: 0 <= i < 3 ==> tmp[i] == dmx.data[dmx.position - 3 + i];
        assert forall i :: 0 <= i < 3 ==> tmp[i] == v[|v| - 3 + i];
        if tmp[0] == 0 && tmp[1] == 0 && tmp[2] == 1 {
          FirstIsLast(w, v);
          return true;
        }
        OnlyLast(w, v);
        NoSyncMore(w, v);
      } else {
        count := count + len;
        NoSyncMore(w, v);
        continue;
      }
      tmp[0] := tmp[1];
      tmp[1] := tmp[2];
      count := 2;
    }
    found := false;
  }

  lemma FirstIsLast(w: seq<byte>, v: seq<byte>)
    requires w <= v && NoSync(w, |w|) && |v| >= 3 && |v| <= |w| + 3
    requires if |w| >= 2 then |v| == |w| + 1 else |v| == 3
    ensures NoSync(v, |v| - 3)
  {
    forall j | 0 <= j < |v| - 3 ensures !SyncAt(v, j) {
      assert j + 3 <= |w|;
      assert !SyncAt(w, j);
      assert w == v[..|w|];
      assert v[j] == w[j] && v[j + 1] == w[j + 1] && v[j + 2] == w[j + 2];
    }
  }

  lemma OnlyLast(w: seq<byte>, v: seq<byte>)
    requires w <= v && |v| >= 3 && (|w| >= 2 ==> |v| == |w| + 1) && (|w| < 2 ==> |v| == 3)
    requires !SyncAt(v, |v| - 3)
    ensures forall j :: |w| - 2 <= j && 0 <= j && j + 3 <= |v| ==> !SyncAt(v, j)
  {
  }

  /** Read on until the buffer holds so many bytes. */
  method FillTo(dmx: Demux, buf: array<byte>, from: nat, size: nat) returns (count: nat)
    requires dmx.Valid() && from <= size <= buf.Length
    modifies dmx, buf
    ensures dmx.Valid() && dmx.calls >= old(dmx.calls)
    ensures from <= count <= size && dmx.position == old(dmx.position) + count - from
    ensures count < size ==> dmx.Paused()
    ensures buf[..from] == old(buf[..from])
    ensures buf[from..count] == dmx.data[old(dmx.position)..dmx.position]
  {
    ghost var start := dmx.position;
    count := from;
    while count < size && !dmx.Paused()
      invariant dmx.Valid() && dmx.calls >= old(dmx.calls)
      invariant from <= count <= size && dmx.position == start + count - from
      invariant forall i :: 0 <= i < from ==> buf[i] == old(buf[i])
      invariant forall i :: from <= i < count ==> buf[i] == dmx.data[start + i - from]
      decreases |dmx.plan| - dmx.calls
    {
      var len := dmx.Read(buf, count, size - count);
      if len < 0 {
        continue;
      }
      count := count + len;
    }
  }

  /** The packets pushed so far and the stream they came from. */
  ghost predicate Pushed(dmx: Demux, from: nat, done: nat, packets: seq<seq<byte>>)
    reads dmx
  {
    && dmx.Valid() && from <= done <= dmx.position
    && Settled(dmx.data[from..done], packets)
  }

  /** Stream id and length; packlen is the size of the whole packet, a uint16_t. */
  method ReadHeader(dmx: Demux, tmp: array<byte>) returns (ok: bool, packlen: nat)
    requires dmx.Valid() && tmp.Length == 16 && tmp[0] == 0 && tmp[1] == 0 && tmp[2] == 1
    modifies dmx, tmp
    ensures dmx.Valid() && dmx.calls >= old(dmx.calls) && dmx.position >= old(dmx.position)
    ensures var head := [0, 0, 1] + dmx.data[old(dmx.position)..dmx.position];
      if ok then |head| == 6 && tmp[..6] == head && packlen == SizeAt(head, 0)
      else |head| < 6 && dmx.Paused()
  {
    hide Slice;
    ghost var start := dmx.position;
    var count := FillTo(dmx, tmp, 3, 6);
    if count < 6 {
      return false, 0;
    }
    ghost var head := [0, 0, 1] + dmx.data[start..dmx.position];
    assert tmp[..3] == [0, 0, 1];
    assert tmp[..6] == tmp[..3] + tmp[3..6];
    var length := GetBits(tmp[..], 4 * 8, 16);
    LengthField(tmp[..]);
    assert tmp[4] == tmp[..6][4] && tmp[5] == tmp[..6][5];
    return true, (length + 6) % 0x1_0000;
  }

  /** The rest of the packet, in a buffer of its size. */
  method ReadBody(dmx: Demux, tmp: array<byte>, packlen: nat) returns (complete: bool, buf: array<byte>)
    requires dmx.Valid() && tmp.Length == 16 && packlen >= 6
    modifies dmx
    ensures fresh(buf) && dmx.Valid() && dmx.calls >= old(dmx.calls) && dmx.position >= old(dmx.position)
    ensures var d := tmp[..6] + dmx.data[old(dmx.position)..dmx.position];
      if complete then buf[..] == d && |d| == packlen else |d| < packlen && dmx.Paused()
  {
    ghost var start := dmx.position;
    buf := new byte[packlen];
    var i := 0;
    while i < 6
      invariant 0 <= i <= 6 && buf[..i] == tmp[..i]
      modifies buf
    {
      buf[i] := tmp[i];
      i := i + 1;
    }
    var count := FillTo(dmx, buf, 6, packlen);
    assert buf[..count] == buf[..6] + buf[6..count];
    complete := count == packlen;
  }

  /** Header and body of one packet, once its start code has been found; complete unless the reader is paused. */
  method ReadPacket(dmx: Demux, tmp: array<byte>) returns (complete: bool, wrapped: bool, buf: array<byte>)
    requires dmx.Valid() && tmp.Length == 16 && tmp[0] == 0 && tmp[1] == 0 && tmp[2] == 1
    modifies dmx, tmp
    ensures fresh(buf)
    ensures dmx.Valid() && dmx.calls >= old(dmx.calls) && dmx.position >= old(dmx.position)
    ensures var d := [0, 0, 1] + dmx.data[old(dmx.position)..dmx.position];
      if complete then |d| >= 6 && |d| == SizeAt(d, 0) && buf[..] == d
      else if wrapped then |d| >= 6 && SizeAt(d, 0) < 6
      else dmx.Paused() && (|d| < 6 || |d| < SizeAt(d, 0))
  {
    ghost var start := dmx.position;
    var ok, packlen := ReadHeader(dmx, tmp);
    buf := new byte[0];
    if !ok || packlen < 6 {
      return false, ok, buf;
    }
    ghost var middle := dmx.position;
    complete, buf := ReadBody(dmx, tmp, packlen);
    wrapped := false;
    LaterBytes(dmx.data, start, middle, dmx.position);
  }

  lemma LaterBytes(data: seq<byte>, start: nat, middle: nat, end: nat)
    requires start + 3 == middle <= end <= |data|
    ensures var head, d := [0, 0, 1] + data[start..middle], [0, 0, 1] + data[start..end];
      d == head + data[middle..end] && SizeAt(d, 0) == SizeAt(head, 0)
  {
  }

  lemma LengthField(tmp: seq<byte>)
    requires |tmp| >= 6
    ensures Slice(tmp, 32, 16) == (tmp[4] as int) * 256 + tmp[5]
  {
    hide Slice;
    Field(tmp, 4, 0, 16, 2);
    ValueOfTwo(tmp[4..6]);
    Powers();
    PowerSum(8, 8);
  }

  /**
    reader_thread until it is paused, or until a packet comes whose size wraps to less than its header: the
    packets it pushes are exactly those that one pass over the bytes taken from the stream finds.
   */
  method ReaderThread(dmx: Demux) returns (queue: seq<seq<byte>>)
    requires dmx.Valid()
    modifies dmx
    ensures dmx.Valid() && dmx.position >= old(dmx.position)
    ensures queue == Packets(dmx.data[old(dmx.position)..dmx.position])
  {
    hide Packets;
    hide First;
    hide SyncAt;
    hide SizeAt;
    hide Settled;
    hide NoSync;
    ghost var from := dmx.position;
    ghost var done := from;
    var tmp := new byte[16];
    queue := [];
    NothingSettled();
    assert dmx.data[from..from] == [];
    while !dmx.Paused()
      invariant Pushed(dmx, from, done, queue) && done == dmx.position
      decreases |dmx.plan| - dmx.calls
    {
      var found := Sync(dmx, tmp);
      ghost var w := dmx.data[done..dmx.position];
      if !found {
        NoPacket(w);
        NoneYet(dmx.data[from..done], queue, w);
        Adjacent(dmx.data, from, done, dmx.position);
        return;
      }
      ghost var sync := dmx.position - 3;
      var complete, wrapped, buf := ReadPacket(dmx, tmp);
      ghost var d := [0, 0, 1] + dmx.data[sync + 3..dmx.position];
      ghost var v := dmx.data[done..dmx.position];
      Whole(w, v, d);
      Adjacent(dmx.data, from, done, dmx.position);
      if !complete {
        Unfinished(v, |w| - 3, d);
        NoneYet(dmx.data[from..done], queue, v);
        return;
      }
      SettleMore(dmx.data[from..done], queue, v, |w| - 3);
      queue := queue + [buf[..]];
      done := dmx.position;
    }
    ghost var w := dmx.data[done..done];
    NoPacket(w);
    NoneYet(dmx.data[from..done], queue, w);
    Adjacent(dmx.data, from, done, done);
  }

  lemma Adjacent(data: seq<byte>, a: nat, b: nat, c: nat)
    requires a <= b <= c <= |data|
    ensures data[a..b] + data[b..c] == data[a..c]
  {
  }

  lemma NoPacket(w: seq<byte>)
    requires NoSync(w, |w|)
    ensures First(w).None?
  {
  }

  /** The start code stays where it was found when the packet follows it. */
  lemma Whole(w: seq<byte>, v: seq<byte>, d: seq<byte>)
    requires |w| >= 3 && SyncAt(w, |w| - 3) && NoSync(w, |w| - 3)
    requires w <= v && |d| == |v| - |w| + 3 && d == [0, 0, 1] + v[|w|..]
    ensures v[|w| - 3..] == d && SyncAt(v, |w| - 3) && NoSync(v, |w| - 3)
    ensures |d| >= 6 ==> SizeAt(v, |w| - 3) == SizeAt(d, 0)
  {
    var i := |w| - 3;
    assert w == v[..|w|];
    forall j | 0 <= j && j + 3 <= |w| ensures SyncAt(v, j) == SyncAt(w, j) {
      assert v[j] == w[j] && v[j + 1] == w[j + 1] && v[j + 2] == w[j + 2];
    }
  }

  lemma Unfinished(v: seq<byte>, i: nat, d: seq<byte>)
    requires SyncAt(v, i) && NoSync(v, i) && v[i..] == d
    requires |d| < 6 || SizeAt(v, i) < 6 || |d| < SizeAt(v, i)
    ensures First(v).None?
  {
    FirstSyncIs(v, i);
  }

  /** The reader on a stream as it was sent: under any schedule of reads, the packets it has taken, in order. */
  method ReadSent(pieces: seq<Piece>, plan: seq<int>) returns (queue: seq<seq<byte>>, ghost taken: nat)
    requires Sendable(pieces)
    ensures taken <= |Stream(pieces)| && queue == Packets(Stream(pieces)[..taken])
    ensures taken == |Stream(pieces)| ==> queue == Sent(pieces)
  {
    hide Packets;
    var dmx := new Demux(Stream(pieces), plan);
    queue := ReaderThread(dmx);
    taken := dmx.position;
    SentIsFound(pieces, []);
    NoneIn();
    assert Stream(pieces) + [] == Stream(pieces) && Sent(pieces) + [] == Sent(pieces);
    assert taken == |Stream(pieces)| ==> dmx.data[0..taken] == Stream(pieces);
  }

  lemma NoneIn()
    ensures Packets([]) == []
  {
  }
}
