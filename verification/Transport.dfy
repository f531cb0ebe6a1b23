/**
  The transport layer of the Common Interface stack: taking a received buffer apart into TPDUs, and putting
  chained data together (annex A of EN 50221).
 */
module Transport {
  import opened Basics
  import opened LengthFields

  const T_SB := 0x80
  const T_NEW_T_C := 0x87
  const T_DATA_LAST := 0xA0
  const T_DATA_MORE := 0xA1

  // ----- TPDUs on the wire

  /** field: the length field as it was sent; the length counts the connection identifier and the data. */
  datatype Tpdu = Tpdu(tag: byte, field: seq<byte>, connection: byte, data: seq<byte>)

  /** The forms of a length field that annex A allows below 65536. */
  predicate IsField(f: seq<byte>, n: nat) {
    || (n < 0x80 && f == [n])
    || (n < 0x100 && f == [0x81, n])
    || (n < 0x1_0000 && f == [0x82, n / 256, n % 256])
  }

  predicate Sound(t: Tpdu) {
    IsField(t.field, 1 + |t.data|)
  }

  function Wire(t: Tpdu): seq<byte> {
    [t.tag] + t.field + [t.connection] + t.data
  }

  function WireAll(ts: seq<Tpdu>): seq<byte> {
    if ts == [] then [] else Wire(ts[0]) + WireAll(ts[1..])
  }

  /** The TPDU at the front of what is left of the buffer; None where the walking loop complains and stops. */
  function First(d: seq<byte>): (r: Option<Tpdu>)
    ensures r.Some? ==> |Wire(r.value)| <= |d| && |Wire(r.value)| > 0
  {
    if d == [] then None
    else
      var length := Decode(d[1..]);
      if length.None? then None
      else
        var n, k := length.value.len, length.value.used;
        if n < 1 || n > |d| - (1 + k) then None
        else Some(Tpdu(d[0], d[1..1 + k], d[1 + k], d[2 + k..1 + k + n]))
  }

  function Tpdus(d: seq<byte>): seq<Tpdu>
    decreases |d|
  {
    var t := First(d);
    if t.None? then [] else [t.value] + Tpdus(d[|Wire(t.value)|..])
  }

  lemma FieldIsDecoded(f: seq<byte>, n: nat, rest: seq<byte>)
    requires IsField(f, n)
    ensures Decode(f + rest) == Some(Parsed(n, |f|))
  {
  }

  lemma FirstOfWire(t: Tpdu, rest: seq<byte>)
    requires Sound(t)
    ensures First(Wire(t) + rest) == Some(t)
  {
    hide Decode;
    hide IsField;
    var d := Wire(t) + rest;
    var n, k := 1 + |t.data|, |t.field|;
    assert d[1..] == t.field + ([t.connection] + t.data + rest);
    FieldIsDecoded(t.field, n, [t.connection] + t.data + rest);
    assert d[1..1 + k] == t.field && d[1 + k] == t.connection && d[2 + k..1 + k + n] == t.data;
  }

  lemma WalkOnto(d: seq<byte>, t: Tpdu, tail: seq<byte>)
    requires First(d) == Some(t) && d == Wire(t) + tail
    ensures Tpdus(d) == [t] + Tpdus(tail)
  {
    hide First;
    hide Wire;
    assert d[|Wire(t)|..] == tail;
  }

  /** A well-formed concatenation is taken apart into exactly its TPDUs, in order. */
  lemma {:induction false} WireIsWalked(ts: seq<Tpdu>, rest: seq<byte>)
    requires forall i :: 0 <= i < |ts| ==> Sound(ts[i])
    ensures Tpdus(WireAll(ts) + rest) == ts + Tpdus(rest)
  {
    hide Sound;
    hide First;
    hide Wire;
    hide Tpdus;
    if ts == [] {
      assert WireAll(ts) + rest == rest;
      assert [] + Tpdus(rest) == Tpdus(rest);
    } else {
      var tail := WireAll(ts[1..]) + rest;
      var d := WireAll(ts) + rest;
      assert d == Wire(ts[0]) + tail;
      FirstOfWire(ts[0], tail);
      WalkOnto(d, ts[0], tail);
      WireIsWalked(ts[1..], rest);
      assert [ts[0]] + (ts[1..] + Tpdus(rest)) == ts + Tpdus(rest);
    }
  }

  lemma FirstIsOnTheWire(d: seq<byte>)
    requires First(d).Some?
    ensures Sound(First(d).value) && Wire(First(d).value) <= d
  {
    var t := First(d).value;
    var length := Decode(d[1..]).value;
    var k := length.used;
    assert d[1..1 + k] == d[1..][..k];
    if d[1] == 0x82 {
      var hi, lo := d[2], d[3];
      assert ((hi as int) * 256 + lo) / 256 == hi && ((hi as int) * 256 + lo) % 256 == lo;
      assert d[1..4] == [d[1], d[2], d[3]];
    } else if d[1] == 0x81 {
      assert d[1..3] == [d[1], d[2]];
    } else {
      assert d[1..2] == [d[1]];
    }
    var n := |Wire(t)|;
    assert d[..n] == [d[0]] + d[1..1 + k] + [d[1 + k]] + d[2 + k..n];
  }

  /** Whatever was received: the TPDUs found are the front of the buffer, and no sound TPDU follows them. */
  lemma {:induction false} WalkTakesThePrefix(d: seq<byte>)
    ensures WireAll(Tpdus(d)) <= d
    ensures forall i :: 0 <= i < |Tpdus(d)| ==> Sound(Tpdus(d)[i])
    ensures First(d[|WireAll(Tpdus(d))|..]).None?
    ensures forall t, rest :: Sound(t) && d[|WireAll(Tpdus(d))|..] == Wire(t) + rest ==> false
    decreases |d|
  {
    hide Sound;
    hide First;
    hide Wire;
    if First(d).Some? {
      var t := First(d).value;
      var n := |Wire(t)|;
      FirstIsOnTheWire(d);
      WalkTakesThePrefix(d[n..]);
      assert Tpdus(d)[1..] == Tpdus(d[n..]);
      assert d[|WireAll(Tpdus(d))|..] == d[n..][|WireAll(Tpdus(d[n..]))|..];
      assert WireAll(Tpdus(d)) == Wire(t) + WireAll(Tpdus(d[n..]));
      assert d == d[..n] + d[n..];
    } else {
      assert d[0..] == d;
      forall t, rest | Sound(t) && d == Wire(t) + rest ensures false {
        FirstOfWire(t, rest);
      }
    }
  }

  // ----- reassembly

  /** received is receivedData with its receivedLen; delivered is what receiveData was called with so far. */
  datatype Assembly = Assembly(connection: int, received: Option<seq<byte>>, delivered: seq<seq<byte>>)

  function Pending(received: Option<seq<byte>>): seq<byte> {
    if received.None? then [] else received.value
  }

  function Process(a: Assembly, t: Tpdu): Assembly {
    var b := a.(connection := t.connection);
    if t.tag == T_DATA_MORE then b.(received := Some(Pending(a.received) + t.data))
    else if t.tag == T_DATA_LAST then
      Assembly(t.connection, None, a.delivered + [Pending(a.received) + t.data])
    else b
  }

  function ProcessAll(a: Assembly, ts: seq<Tpdu>): Assembly {
    if ts == [] then a else Process(ProcessAll(a, ts[..|ts| - 1]), ts[|ts| - 1])
  }

  predicate IsData(t: Tpdu) {
    t.tag == T_DATA_MORE || t.tag == T_DATA_LAST
  }

  /** The data TPDUs of a run, without those about status and connections that come along with them. */
  function DataOf(ts: seq<Tpdu>): seq<Tpdu> {
    if ts == [] then []
    else
      var t := ts[|ts| - 1];
      DataOf(ts[..|ts| - 1]) + if IsData(t) then [t] else []
  }

  /** The data fragments since the last T_DATA_LAST, joined, if there are any; received: those before the run. */
  function OpenData(received: Option<seq<byte>>, ts: seq<Tpdu>): Option<seq<byte>> {
    if ts == [] then received
    else
      var open, t := OpenData(received, ts[..|ts| - 1]), ts[|ts| - 1];
      if t.tag == T_DATA_LAST then None
      else if t.tag == T_DATA_MORE then Some(Pending(open) + t.data)
      else open
  }

  /** The messages of a run: one for each T_DATA_LAST. */
  function Messages(received: Option<seq<byte>>, ts: seq<Tpdu>): seq<seq<byte>> {
    if ts == [] then []
    else
      var front, t := ts[..|ts| - 1], ts[|ts| - 1];
      Messages(received, front) + if t.tag == T_DATA_LAST then [Pending(OpenData(received, front)) + t.data] else []
  }

  const FRESH := Assembly(0, None, [])

  /** Over any run each T_DATA_LAST delivers the concatenation of all fragments since the previous one. */
  lemma {:induction false} Reassembled(a: Assembly, ts: seq<Tpdu>)
    ensures ProcessAll(a, ts).delivered == a.delivered + Messages(a.received, ts)
    ensures ProcessAll(a, ts).received == OpenData(a.received, ts)
  {
    if ts != [] {
      Reassembled(a, ts[..|ts| - 1]);
    }
  }

  /** Whatever other TPDUs stand before, between and behind the data, the messages are the same. */
  lemma {:induction false} OnlyDataMatters(received: Option<seq<byte>>, ts: seq<Tpdu>)
    ensures Messages(received, DataOf(ts)) == Messages(received, ts)
    ensures OpenData(received, DataOf(ts)) == OpenData(received, ts)
  {
    if ts != [] {
      var front, t := ts[..|ts| - 1], ts[|ts| - 1];
      OnlyDataMatters(received, front);
      if IsData(t) {
        assert DataOf(ts)[..|DataOf(ts)| - 1] == DataOf(front);
      } else {
        assert DataOf(front) + [] == DataOf(front);
      }
    }
  }

  lemma {:induction false} MessagesConcat(received: Option<seq<byte>>, s: seq<Tpdu>, t: seq<Tpdu>)
    ensures Messages(received, s + t) == Messages(received, s) + Messages(OpenData(received, s), t)
    ensures OpenData(received, s + t) == OpenData(OpenData(received, s), t)
  {
    if t == [] {
      assert s + t == s;
    } else {
      assert (s + t)[..|s + t| - 1] == s + t[..|t| - 1];
      MessagesConcat(received, s, t[..|t| - 1]);
    }
  }

  lemma {:induction false} ProcessConcat(a: Assembly, s: seq<Tpdu>, t: seq<Tpdu>)
    ensures ProcessAll(a, s + t) == ProcessAll(ProcessAll(a, s), t)
  {
    if t == [] {
      assert s + t == s;
    } else {
      assert (s + t)[..|s + t| - 1] == s + t[..|t| - 1];
      ProcessConcat(a, s, t[..|t| - 1]);
    }
  }

  /** One message cut into pieces: all but the last go out as T_DATA_MORE. */
  predicate Chained(ts: seq<Tpdu>, parts: seq<seq<byte>>) {
    && |ts| == |parts| && |ts| > 0
    && forall i :: 0 <= i < |ts| ==>
         ts[i].data == parts[i] && ts[i].tag == if i < |ts| - 1 then T_DATA_MORE else T_DATA_LAST
  }

  /** Several messages, each cut in its own way, one behind the other. */
  predicate ChainedAll(ts: seq<Tpdu>, cuts: seq<seq<seq<byte>>>)
    decreases |cuts|
  {
    if cuts == [] then ts == []
    else
      var front, parts := cuts[..|cuts| - 1], cuts[|cuts| - 1];
      |parts| <= |ts| && ChainedAll(ts[..|ts| - |parts|], front) && Chained(ts[|ts| - |parts|..], parts)
  }

  /** The messages before they were cut. */
  function Wholes(cuts: seq<seq<seq<byte>>>): (r: seq<seq<byte>>)
    ensures |r| == |cuts| && forall i :: 0 <= i < |cuts| ==> r[i] == Concat(cuts[i])
  {
    seq(|cuts|, i requires 0 <= i < |cuts| => Concat(cuts[i]))
  }

  lemma {:induction false} MoresPile(received: Option<seq<byte>>, ts: seq<Tpdu>, parts: seq<seq<byte>>)
    requires |ts| == |parts| && forall i :: 0 <= i < |ts| ==> ts[i].data == parts[i] && ts[i].tag == T_DATA_MORE
    ensures Messages(received, ts) == []
    ensures Pending(OpenData(received, ts)) == Pending(received) + Concat(parts)
  {
    hide Concat;
    hide OpenData;
    hide Messages;
    if ts == [] {
      ConcatLast(parts);
      NothingOpen(received);
      assert Pending(received) + Concat(parts) == Pending(received);
    } else {
      var n := |ts| - 1;
      MoresPile(received, ts[..n], parts[..n]);
      ConcatLast(parts);
      OneMoreOpen(received, ts);
      assert Pending(received) + (Concat(parts[..n]) + parts[n]) == (Pending(received) + Concat(parts[..n])) + parts[n];
    }
  }

  lemma ConcatLast(parts: seq<seq<byte>>)
    ensures parts == [] ==> Concat(parts) == []
    ensures parts != [] ==> Concat(parts) == Concat(parts[..|parts| - 1]) + parts[|parts| - 1]
  {
  }

  lemma OneMoreOpen(received: Option<seq<byte>>, ts: seq<Tpdu>)
    requires ts != [] && ts[|ts| - 1].tag == T_DATA_MORE
    ensures var front, t := ts[..|ts| - 1], ts[|ts| - 1];
      && Messages(received, ts) == Messages(received, front)
      && Pending(OpenData(received, ts)) == Pending(OpenData(received, front)) + t.data
  {
  }

  lemma ChainIsMessage(ts: seq<Tpdu>, parts: seq<seq<byte>>)
    requires Chained(ts, parts)
    ensures Messages(None, ts) == [Concat(parts)] && OpenData(None, ts).None?
  {
    var n := |ts| - 1;
    MoresPile(None, ts[..n], parts[..n]);
    assert Pending(OpenData(None, ts[..n])) + ts[n].data == Concat(parts);
  }

  lemma {:induction false} ChainsAreMessages(ts: seq<Tpdu>, cuts: seq<seq<seq<byte>>>)
    requires ChainedAll(ts, cuts)
    ensures Messages(None, ts) == Wholes(cuts) && OpenData(None, ts).None?
    decreases |cuts|
  {
    hide Messages;
    hide OpenData;
    hide Concat;
    hide Chained;
    if cuts == [] {
      NothingOpen(None);
    } else {
      var front, parts := cuts[..|cuts| - 1], cuts[|cuts| - 1];
      var s, t := ts[..|ts| - |parts|], ts[|ts| - |parts|..];
      ChainsAreMessages(s, front);
      ChainIsMessage(t, parts);
      MessagesConcat(None, s, t);
      assert s + t == ts;
      assert Wholes(cuts) == Wholes(front) + [Concat(parts)];
    }
  }

  lemma NothingOpen(received: Option<seq<byte>>)
    ensures Messages(received, []) == [] && OpenData(received, []) == received
  {
  }

  /** However a message was cut, and whatever else is sent meanwhile, it arrives whole, and nothing of it is left. */
  lemma ChainArrives(a: Assembly, ts: seq<Tpdu>, parts: seq<seq<byte>>)
    requires a.received.None? && Chained(DataOf(ts), parts)
    ensures ProcessAll(a, ts).delivered == a.delivered + [Concat(parts)]
    ensures ProcessAll(a, ts).received.None?
  {
    hide *;
    Reassembled(a, ts);
    OnlyDataMatters(None, ts);
    ChainIsMessage(DataOf(ts), parts);
  }

  /** So do several messages in a row. */
  lemma ChainsArrive(a: Assembly, ts: seq<Tpdu>, cuts: seq<seq<seq<byte>>>)
    requires a.received.None? && ChainedAll(DataOf(ts), cuts)
    ensures Messages(None, ts) == Wholes(cuts)
    ensures ProcessAll(a, ts).delivered == a.delivered + Wholes(cuts)
    ensures ProcessAll(a, ts).received.None?
  {
    hide *;
    Reassembled(a, ts);
    OnlyDataMatters(None, ts);
    ChainsAreMessages(DataOf(ts), cuts);
  }

  // ----- the slot

  class Slot {
    var connectionId: int
    var receivedData: Option<seq<byte>>
    /** The calls of eDVBCISession::receiveData, in order. */
    var delivered: seq<seq<byte>>

    ghost function State(): Assembly
      reads this
    {
      Assembly(connectionId, receivedData, delivered)
    }

    constructor ()
      ensures State() == FRESH
    {
      connectionId, receivedData, delivered := 0, None, [];
    }

    /** process_tpdu, as far as data is concerned. */
    method ProcessTpdu(tag: byte, data: seq<byte>, ghost t: Tpdu)
      requires t.tag == tag && t.data == data && t.connection == connectionId
      modifies this
      ensures State() == Process(old(State()), t)
    {
      assert [] + data == data;
      if tag == T_DATA_MORE {
        receivedData := Some(if receivedData.Some? then receivedData.value + data else data);
      } else if tag == T_DATA_LAST {
        if receivedData.None? {
          delivered := delivered + [data];
        } else {
          delivered := delivered + [receivedData.value + data];
          receivedData := None;
        }
      }
    }

    /** The walking loop of slot_pollthread on a buffer that starts with the slot and connection bytes. */
    method Walk(buffer: seq<byte>)
      modifies this
      ensures State() == ProcessAll(old(State()), if |buffer| < 2 then [] else Tpdus(buffer[2..]))
    {
      hide Decode;
      hide Tpdus;
      hide ProcessAll;
      hide Process;
      var dataLength, d := |buffer| - 2, if |buffer| < 2 then [] else buffer[2..];
      ghost var done: seq<Tpdu> := [];
      WalkStops(d);
      NothingProcessed(State());
      while dataLength > 0
        invariant dataLength == if |buffer| < 2 then |buffer| - 2 else |d|
        invariant (if |buffer| < 2 then [] else Tpdus(buffer[2..])) == done + Tpdus(d)
        invariant State() == ProcessAll(old(State()), done)
        invariant d == [] ==> Tpdus(d) == []
        decreases dataLength
      {
        WalkStops(d);
        var tag := d[0];
        var length := Decode(d[1..]);
        if length.None? {
          break;
        }
        var n, k := length.value.len, length.value.used;
        if n < 1 || n > dataLength - (1 + k) {
          break;
        }
        ghost var t := At(d, n, k);
        WalkStep(d, n, k, done, old(State()));
        connectionId := d[1 + k];
        d, dataLength := d[1 + k + 1..], dataLength - (1 + k + 1);
        n := n - 1;
        ProcessTpdu(tag, d[..n], t);
        done := done + [t];
        d, dataLength := d[n..], dataLength - n;
        WalkStops(d);
      }
      assert done + [] == done;
    }
  }

  lemma NothingProcessed(a: Assembly)
    ensures ProcessAll(a, []) == a
  {
  }

  lemma WalkStops(d: seq<byte>)
    ensures d == [] || Decode(d[1..]).None? ==> Tpdus(d) == []
    ensures d != [] && Decode(d[1..]).Some? && !(1 <= Decode(d[1..]).value.len <= |d| - (1 + Decode(d[1..]).value.used))
            ==> Tpdus(d) == []
  {
    hide Decode;
  }

  /** The TPDU of length n behind a length field of k bytes. */
  function At(d: seq<byte>, n: nat, k: nat): Tpdu
    requires 1 <= n && 1 + k + n <= |d|
  {
    Tpdu(d[0], d[1..1 + k], d[1 + k], d[2 + k..1 + k + n])
  }

  lemma WalkStep(d: seq<byte>, n: nat, k: nat, done: seq<Tpdu>, a: Assembly)
    requires 1 <= n && 1 + k + n <= |d| && Decode(d[1..]) == Some(Parsed(n, k))
    ensures var t := At(d, n, k);
      && done + Tpdus(d) == (done + [t]) + Tpdus(d[1 + k + 1..][n - 1..])
      && d[1 + k + 1..][..n - 1] == t.data
      && ProcessAll(a, done + [t]) == Process(ProcessAll(a, done).(connection := t.connection), t)
  {
    hide First;
    hide Process;
    hide ProcessAll;
    hide Wire;
    var t := At(d, n, k);
    var rest := d[1 + k + 1..][n - 1..];
    FirstAt(d, n, k);
    assert Tpdus(d) == [t] + Tpdus(rest);
    assert done + ([t] + Tpdus(rest)) == (done + [t]) + Tpdus(rest);
    ProcessMore(a, done, t);
  }

  lemma FirstAt(d: seq<byte>, n: nat, k: nat)
    requires 1 <= n && 1 + k + n <= |d| && Decode(d[1..]) == Some(Parsed(n, k))
    ensures var t := At(d, n, k);
      && First(d) == Some(t) && d[|Wire(t)|..] == d[1 + k + 1..][n - 1..] && d[1 + k + 1..][..n - 1] == t.data
  {
    hide Decode;
    var t := At(d, n, k);
    assert |Wire(t)| == 1 + k + n;
    assert d[1 + k + 1..][n - 1..] == d[1 + k + n..];
    assert d[1 + k + 1..][..n - 1] == d[2 + k..1 + k + n];
  }

  lemma ProcessMore(a: Assembly, done: seq<Tpdu>, t: Tpdu)
    ensures ProcessAll(a, done + [t]) == Process(ProcessAll(a, done), t)
    ensures Process(ProcessAll(a, done), t) == Process(ProcessAll(a, done).(connection := t.connection), t)
  {
    assert (done + [t])[..|done|] == done;
  }
}
