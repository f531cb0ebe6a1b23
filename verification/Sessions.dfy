/**
  The session layer of the Common Interface stack: SPDUs and APDUs on the wire, and the table of sessions
  (section 7 of EN 50221).
 */
module Sessions {
  import opened Basics
  import opened LengthFields

  // ----- APDUs

  datatype Apdu = Apdu(tag: seq<byte>, data: seq<byte>)

  predicate Sendable(a: Apdu) {
    |a.tag| == 3 && |a.data| < 65535
  }

  /** The packet that sendAPDU builds. */
  function ApduBytes(a: Apdu): (s: seq<byte>)
    requires Sendable(a)
    ensures |s| >= 4
  {
    a.tag + Field(|a.data|) + a.data
  }

  function ApduList(list: seq<Apdu>): seq<byte>
    requires forall i :: 0 <= i < |list| ==> Sendable(list[i])
  {
    if list == [] then [] else ApduBytes(list[0]) + ApduList(list[1..])
  }

  /** How many bytes the receiving loop hands over as data: a remainder of one or two bytes is added on. */
  function DataSize(left: nat, alen: int): int {
    if 0 < left - alen < 3 then left else alen
  }

  /** The first APDU that the receiving loop takes; None where it would read beyond the packet. */
  function FirstApdu(rest: seq<byte>): (r: Option<(Apdu, nat)>)
    ensures r.Some? ==> 4 <= r.value.1 <= |rest|
  {
    if |rest| < 4 || !Holds(rest[3..]) then None
    else
      var p := Parse(rest[3..]);
      var left := |rest| - 3 - p.used;
      var size := DataSize(left, p.len);
      if size < 0 || size > left then None
      else Some((Apdu(rest[..3], rest[3 + p.used..3 + p.used + size]), 3 + p.used + size))
  }

  /** The APDUs taken until the packet ends or the loop would read beyond it. */
  function Apdus(rest: seq<byte>): seq<Apdu>
    decreases |rest|
  {
    var first := FirstApdu(rest);
    if first.None? then [] else [first.value.0] + Apdus(rest[first.value.1..])
  }

  /** Where the loop stands when it has taken them. */
  function Left(rest: seq<byte>): seq<byte>
    decreases |rest|
  {
    var first := FirstApdu(rest);
    if first.None? then rest else Left(rest[first.value.1..])
  }

  /** The loop ends at the end of the packet. */
  predicate Complete(rest: seq<byte>) {
    Left(rest) == []
  }

  lemma FirstOfList(a: Apdu, rest: seq<byte>)
    requires Sendable(a)
    ensures FirstApdu(ApduBytes(a) + rest) ==
            if 0 < |rest| < 3 then Some((Apdu(a.tag, a.data + rest), |ApduBytes(a) + rest|))
            else Some((a, |ApduBytes(a)|))
  {
    hide Parse;
    hide Holds;
    hide Field;
    var d := ApduBytes(a) + rest;
    var tail := a.data + rest;
    var f := Field(|a.data|);
    assert d[3..] == f + tail;
    FieldIsParsed(|a.data|, tail);
    assert d[..3] == a.tag;
    assert d[3 + |f|..3 + |f| + |tail|] == tail;
    assert d[3 + |f|..3 + |f| + |a.data|] == a.data;
    assert |d| == 3 + |f| + |tail|;
  }

  /** Any list of APDUs is received as that list, one by one. */
  lemma {:induction false} ListIsReceived(list: seq<Apdu>)
    requires forall i :: 0 <= i < |list| ==> Sendable(list[i])
    ensures Apdus(ApduList(list)) == list && Complete(ApduList(list))
    ensures list == [] || |ApduList(list)| >= 4
  {
    hide FirstApdu;
    hide ApduBytes;
    if list != [] {
      ListIsReceived(list[1..]);
      FirstOfList(list[0], ApduList(list[1..]));
      assert ApduList(list)[|ApduBytes(list[0])|..] == ApduList(list[1..]);
      assert [list[0]] + list[1..] == list;
    }
  }

  /** Only one or two bytes behind the last APDU are ever added to its data. */
  lemma {:induction false} SurplusIsAddedOn(list: seq<Apdu>, surplus: seq<byte>)
    requires forall i :: 0 <= i < |list| ==> Sendable(list[i])
    requires list != [] && 1 <= |surplus| <= 2
    ensures var last := list[|list| - 1];
      && Apdus(ApduList(list) + surplus) == list[..|list| - 1] + [Apdu(last.tag, last.data + surplus)]
      && Complete(ApduList(list) + surplus)
  {
    hide FirstApdu;
    hide ApduBytes;
    hide Apdus;
    hide Left;
    var tail := ApduList(list[1..]) + surplus;
    var d := ApduBytes(list[0]) + tail;
    assert ApduList(list) + surplus == d;
    FirstOfList(list[0], tail);
    var last := list[|list| - 1];
    LastIsLast(list, Apdu(last.tag, last.data + surplus));
    if |list| == 1 {
      assert tail == surplus;
      TakesAll(d);
    } else {
      SurplusIsAddedOn(list[1..], surplus);
      ListIsReceived(list[1..]);
      TakesSome(d, |ApduBytes(list[0])|, tail);
    }
  }

  lemma LastIsLast(list: seq<Apdu>, x: Apdu)
    requires list != []
    ensures |list| == 1 ==> list[..|list| - 1] + [x] == [x]
    ensures |list| > 1 ==> list[1..][|list| - 2] == list[|list| - 1]
    ensures |list| > 1 ==> [list[0]] + (list[1..][..|list| - 2] + [x]) == list[..|list| - 1] + [x]
  {
  }

  lemma TakesAll(d: seq<byte>)
    requires FirstApdu(d).Some? && FirstApdu(d).value.1 == |d|
    ensures Apdus(d) == [FirstApdu(d).value.0] && Complete(d)
  {
    assert d[|d|..] == [];
    NoMore([]);
  }

  lemma TakesSome(d: seq<byte>, n: nat, tail: seq<byte>)
    requires FirstApdu(d).Some? && FirstApdu(d).value.1 == n && n <= |d| && d[n..] == tail
    ensures Apdus(d) == [FirstApdu(d).value.0] + Apdus(tail) && Left(d) == Left(tail)
  {
    hide FirstApdu;
  }

  lemma NoMore(pkt: seq<byte>)
    requires FirstApdu(pkt).None?
    ensures Apdus(pkt) == [] && Left(pkt) == pkt
  {
    hide FirstApdu;
  }

  // ----- SPDUs

  /** The packet that sendSPDU builds. */
  function Spdu(tag: byte, data: seq<byte>, number: nat, apdu: seq<byte>): seq<byte>
    requires |data| + 2 < 65535
  {
    [tag] + Field(|data| + 2) + data + [number / 256 % 256, number % 256] + apdu
  }

  /**
    A packet as receiveData takes it apart: start is right behind the length field, end is where that field says
    that the session number ends, which may be anywhere.
   */
  datatype Packet = Packet(bytes: seq<byte>, start: nat, end: int) {
    predicate Sound() {
      2 <= start <= |bytes|
    }

    function Tag(): byte
      requires Sound()
    {
      bytes[0]
    }

    /** The two bytes in front of the APDUs. */
    function Number(): nat
      requires Sound() && 2 <= end <= |bytes|
    {
      (bytes[end - 2] as int) * 256 + bytes[end - 1]
    }

    /** What is left of the packet for APDUs. */
    function Rest(): seq<byte>
      requires Sound()
    {
      if 0 <= end <= |bytes| then bytes[end..] else []
    }

    /**
      What receiveData reads first is there: the resource identifier of a request, or else the session number and a
      status.
     */
    predicate Readable()
      requires Sound()
    {
      if Tag() == 0x91 then start + 4 <= |bytes|
      else 2 <= end <= |bytes| && (Tag() == 0x94 ==> start < |bytes|)
    }

    function Id(): (r: seq<byte>)
      requires Sound() && Tag() == 0x91 && Readable()
      ensures |r| == 4
    {
      bytes[start..start + 4]
    }
  }

  /** None where the packet ends within its length field. */
  function Split(ptr: seq<byte>): (r: Option<Packet>)
    ensures r.Some? ==> r.value.Sound() && r.value.bytes == ptr
  {
    if |ptr| < 2 || !Holds(ptr[1..]) then None
    else
      var p := Parse(ptr[1..]);
      Some(Packet(ptr, 1 + p.used, 1 + p.used + p.len))
  }

  lemma SpduIsSplit(tag: byte, data: seq<byte>, number: nat, apdu: seq<byte>)
    requires |data| + 2 < 65535 && number < 65536
    ensures var p := Split(Spdu(tag, data, number, apdu));
      && p.Some? && p.value.Tag() == tag
      && p.value.start <= p.value.end - 2 <= |p.value.bytes| - 2 && p.value.Number() == number
      && p.value.bytes[p.value.start..p.value.end - 2] == data && p.value.Rest() == apdu
  {
    hide Parse;
    hide Holds;
    hide Field;
    hide Split;
    var f := Field(|data| + 2);
    var num := [number / 256, number % 256];
    var ptr := Spdu(tag, data, number, apdu);
    assert ptr[1..] == f + (data + num + apdu);
    FieldIsParsed(|data| + 2, data + num + apdu);
    SplitAt(ptr);
    Slices([tag] + f, data, num, apdu);
    assert ptr == [tag] + f + data + num + apdu;
  }

  lemma SplitAt(ptr: seq<byte>)
    requires |ptr| >= 2 && Holds(ptr[1..])
    ensures var p := Parse(ptr[1..]);
      Split(ptr) == Some(Packet(ptr, 1 + p.used, 1 + p.used + p.len))
  {
  }

  lemma Slices(a: seq<byte>, b: seq<byte>, c: seq<byte>, d: seq<byte>)
    requires |c| == 2
    ensures var s := a + b + c + d;
      && s[|a|..|a| + |b|] == b && s[|a| + |b| + 2..] == d
      && s[|a| + |b|] == c[0] && s[|a| + |b| + 1] == c[1]
  {
  }

  // ----- sessions

  datatype State = InCreation | Busy | InDeletion | Started | Private

  class Session {
    var state: State
    var status: byte
    var action: bool
    var number: nat
    const slot: int
    const resource: nat
    /** What receivedAPDU answers; which of the resource classes it is lies outside this model. */
    const reacts: Apdu -> bool
    /** The calls of receivedAPDU, in order. */
    var received: seq<Apdu>

    constructor (slot: int, resource: nat, number: nat, reacts: Apdu -> bool)
      ensures state == InCreation && !action && this.number == number && received == []
      ensures this.slot == slot && this.resource == resource && this.reacts == reacts
    {
      state, status, action, received := InCreation, 0, false, [];
      this.slot, this.resource, this.number, this.reacts := slot, resource, number, reacts;
    }

    method ReceivedApdu(a: Apdu) returns (r: bool)
      modifies this`received
      ensures received == old(received) + [a] && r == reacts(a)
    {
      received := received + [a];
      r := reacts(a);
    }

    /** The loop of receiveData over the APDUs of a packet; it stops where the code would read beyond the packet. */
    method HandOver(rest: seq<byte>) returns (len: nat)
      modifies this`received, this`action
      ensures received == old(received) + Apdus(rest)
      ensures action == (old(action) || AnyReacts(Apdus(rest), reacts))
      ensures len == |Left(rest)|
    {
      hide FirstApdu;
      hide Apdus;
      hide Left;
      hide Parse;
      hide Holds;
      var pkt := rest;
      len := |rest|;
      ghost var done: seq<Apdu> := [];
      while len > 0
        invariant 0 <= len == |pkt| && Left(rest) == Left(pkt)
        invariant Apdus(rest) == done + Apdus(pkt)
        invariant received == old(received) + done
        invariant action == (old(action) || AnyReacts(done, reacts))
        decreases len
      {
        FirstStep(pkt);
        if len < 4 || !Holds(pkt[3..]) {
          break;
        }
        var tag := pkt[..3];
        var hlen, alen := ParseLengthField(pkt[3..]);
        var left := len - 3 - hlen;
        if left - alen > 0 && left - alen < 3 {
          alen := left;
        }
        if alen < 0 || alen > left {
          break;
        }
        var data := pkt[3..][hlen..][..alen];
        ghost var first := FirstApdu(pkt).value.0;
        var more := ReceivedApdu(Apdu(tag, data));
        if more {
          action := true;
        }
        pkt, len := pkt[3..][hlen..][alen..], left - alen;
        OneMore(done, first, Apdus(pkt), reacts);
        done := done + [first];
      }
      if len == 0 {
        NothingTaken();
      }
      assert done + [] == done;
    }
  }

  /** Some APDU of the list asks for action. */
  ghost predicate AnyReacts(list: seq<Apdu>, reacts: Apdu -> bool) {
    exists i :: 0 <= i < |list| && reacts(list[i])
  }

  lemma OneMore(done: seq<Apdu>, a: Apdu, rest: seq<Apdu>, reacts: Apdu -> bool)
    ensures done + ([a] + rest) == (done + [a]) + rest
    ensures AnyReacts(done + [a], reacts) == (AnyReacts(done, reacts) || reacts(a))
  {
    if AnyReacts(done, reacts) {
      var i :| 0 <= i < |done| && reacts(done[i]);
      assert (done + [a])[i] == done[i];
    }
    assert (done + [a])[|done|] == a;
  }

  lemma NothingTaken()
    ensures Apdus([]) == [] && Left([]) == []
  {
  }

  /** The first turn of the loop. */
  lemma FirstTurn(pkt: seq<byte>)
    requires |pkt| >= 4 && Holds(pkt[3..])
    ensures var p := Parse(pkt[3..]);
      var tail := pkt[3..][p.used..];
      var size := DataSize(|tail|, p.len);
      if 0 <= size <= |tail| then
        FirstApdu(pkt) == Some((Apdu(pkt[..3], tail[..size]), |pkt| - |tail| + size)) &&
        pkt[|pkt| - |tail| + size..] == tail[size..]
      else FirstApdu(pkt).None?
  {
    hide Parse;
    hide Holds;
    var p := Parse(pkt[3..]);
    var tail := pkt[3..][p.used..];
    assert tail == pkt[3 + p.used..];
    assert |tail| == |pkt| - 3 - p.used;
    var size := DataSize(|tail|, p.len);
    if 0 <= size <= |tail| {
      assert tail[..size] == pkt[3 + p.used..3 + p.used + size];
      assert tail[size..] == pkt[3 + p.used + size..];
    }
  }

  lemma FirstStep(pkt: seq<byte>)
    ensures |pkt| < 4 || !Holds(pkt[3..]) ==> Apdus(pkt) == [] && Left(pkt) == pkt
    ensures |pkt| >= 4 && Holds(pkt[3..]) ==>
      var p := Parse(pkt[3..]);
      var tail := pkt[3..][p.used..];
      var size := DataSize(|tail|, p.len);
      if 0 <= size <= |tail| then
        FirstApdu(pkt).Some? && FirstApdu(pkt).value.0 == Apdu(pkt[..3], tail[..size]) &&
        Apdus(pkt) == [FirstApdu(pkt).value.0] + Apdus(tail[size..]) && Left(pkt) == Left(tail[size..])
      else Apdus(pkt) == [] && Left(pkt) == pkt
  {
    hide FirstApdu;
    hide Apdus;
    hide Left;
    hide Parse;
    hide Holds;
    hide DataSize;
    if |pkt| < 4 || !Holds(pkt[3..]) {
      TooShort(pkt);
      NoMore(pkt);
    } else {
      FirstTurn(pkt);
      var tail := pkt[3..][Parse(pkt[3..]).used..];
      var size := DataSize(|tail|, Parse(pkt[3..]).len);
      if 0 <= size <= |tail| {
        TakesSome(pkt, |pkt| - |tail| + size, tail[size..]);
      } else {
        NoMore(pkt);
      }
    }
  }

  lemma TooShort(pkt: seq<byte>)
    requires |pkt| < 4 || !Holds(pkt[3..])
    ensures FirstApdu(pkt).None?
  {
  }

  // ----- the table

  const SLMS := 256

  /** The resources that createSession knows. */
  predicate Known(resource: nat) {
    resource in {0x0001_0041, 0x0002_0041, 0x0003_0041, 0x0024_0041, 0x0040_0041}
  }

  class Table {
    const sessions: array<Session?>
    /** The packets that went to sendData, in order. */
    var sent: seq<seq<byte>>

    /** Entry i is empty or holds session number i + 1; the last entry is never used. */
    ghost predicate Valid()
      reads this, sessions, sessions[..]
    {
      && sessions.Length == SLMS && sessions[SLMS - 1] == null
      && forall i :: 0 <= i < SLMS && sessions[i] != null ==> sessions[i].number == i + 1
    }

    constructor ()
      ensures Valid() && fresh(sessions) && sent == []
      ensures forall i :: 0 <= i < SLMS ==> sessions[i] == null
    {
      sessions := new Session?[SLMS](_ => null);
      sent := [];
    }

    /** createSession takes the lowest free number, if there is one and the resource is known. */
    method CreateSession(slot: int, id: seq<byte>, reacts: Apdu -> bool) returns (session: Session?, status: byte)
      requires Valid() && |id| == 4
      modifies sessions
      ensures Valid()
      ensures if forall i :: 0 <= i < SLMS - 1 ==> old(sessions[..])[i] != null
              then session == null && status == 0xF3
              else if !Known(Value(id)) then session == null && status == 0xF0
              else session != null && status == 0
      ensures session == null ==> sessions[..] == old(sessions[..])
      ensures session != null ==>
                && fresh(session) && 1 <= session.number < SLMS
                && session.slot == slot && session.resource == Value(id) && session.state == InCreation
                && session.received == [] && !session.action && session.reacts == reacts
                && old(sessions[..])[session.number - 1] == null
                && (forall i :: 0 <= i < session.number - 1 ==> old(sessions[..])[i] != null)
                && sessions[..] == old(sessions[..])[session.number - 1 := session]
    {
      var number := 1;
      while number < SLMS
        invariant 1 <= number <= SLMS
        invariant forall i :: 0 <= i < number - 1 ==> sessions[i] != null
      {
        if sessions[number - 1] == null {
          break;
        }
        number := number + 1;
      }
      if number == SLMS {
        return null, 0xF3;
      }
      assert old(sessions[..])[number - 1] == null;
      var tag := Value(id);
      if !Known(tag) {
        sessions[number - 1] := null;
        return null, 0xF0;
      }
      session := new Session(slot, tag, number, reacts);
      sessions[number - 1] := session;
      status := 0;
    }

    method DeleteSessions(slot: int)
      requires Valid()
      modifies sessions
      ensures Valid()
      ensures forall i :: 0 <= i < SLMS ==>
        sessions[i] == if old(sessions[i]) != null && old(sessions[i]).slot == slot then null else old(sessions[i])
    {
      var i := 0;
      while i < SLMS
        invariant 0 <= i <= SLMS && Valid()
        invariant forall j :: i <= j < SLMS ==> sessions[j] == old(sessions[j])
        invariant forall j :: 0 <= j < i ==>
          sessions[j] == if old(sessions[j]) != null && old(sessions[j]).slot == slot then null else old(sessions[j])
      {
        if sessions[i] != null && sessions[i].slot == slot {
          sessions[i] := null;
        }
        i := i + 1;
      }
    }

    /** The session that the packet goes to. */
    ghost function Addressed(p: Packet): Session?
      requires Valid() && p.Sound() && p.Readable() && p.Tag() != 0x91
      reads this, sessions, sessions[..]
    {
      var number := p.Number();
      if 1 <= number < SLMS && p.Tag() in {0x90, 0x94, 0x95} then sessions[number - 1] else null
    }

    /** What a packet that opens no session does: only the addressed session takes part. */
    twostate predicate Reached(p: Packet)
      requires old(Valid()) && Valid() && p.Sound() && p.Readable() && p.Tag() != 0x91
      reads this, sessions, sessions[..]
    {
      && sessions[..] == old(sessions[..]) && sent == old(sent)
      && (forall s :: s in sessions[..] && s != null && s != Addressed(p) ==> unchanged(s))
      && var s := Addressed(p);
         s != null ==>
           && s.received == old(s.received) + Apdus(p.Rest())
           && s.state == (if p.Tag() == 0x94 then Started else if p.Tag() == 0x95 then InDeletion else old(s.state))
           && s.status == (if p.Tag() == 0x94 then p.bytes[p.start] else old(s.status))
           && s.action == (old(s.action) || p.Tag() != 0x90 || AnyReacts(Apdus(p.Rest()), s.reacts))
    }

    /** What a request to open a session does: the answer carries the outcome and the new number. */
    twostate predicate Opened(slot: int, p: Packet, new session: Session?, status: byte)
      requires old(Valid()) && Valid() && p.Sound() && p.Readable() && p.Tag() == 0x91
      reads this, sessions, sessions[..], session
    {
      && (session == null ==> sessions[..] == old(sessions[..]))
      && (session != null ==>
            && fresh(session) && 1 <= session.number < SLMS
            && old(sessions[..])[session.number - 1] == null
            && (forall i :: 0 <= i < session.number - 1 ==> old(sessions[..])[i] != null)
            && sessions[..] == old(sessions[..])[session.number - 1 := session]
            && session.slot == slot && session.resource == Value(p.Id())
            && session.state == Started && session.action && session.received == Apdus(p.Rest()))
      && (forall s :: s in sessions[..] && s != null && s != session ==> unchanged(s))
      && (session != null <==> status == 0)
      && status == (if forall i :: 0 <= i < SLMS - 1 ==> old(sessions[..])[i] != null then 0xF3
                    else if !Known(Value(p.Id())) then 0xF0 else 0)
      && sent == old(sent) + [Spdu(0x92, [status] + p.Id(), if session == null then 0 else session.number, [])]
    }

    /** receiveData for everything but the opening of a session. */
    method ReceiveForSession(p: Packet)
      requires Valid() && p.Sound() && p.Readable() && p.Tag() != 0x91
      modifies sessions[..]
      ensures Valid() && Addressed(p) == old(Addressed(p)) && Reached(p)
    {
      hide Apdus;
      hide AnyReacts;
      hide Left;
      hide Packet.Rest;
      hide Packet.Number;
      var number := p.Number();
      if number == 0 || number >= SLMS {
        return;
      }
      var session := sessions[number - 1];
      if session == null {
        return;
      }
      match p.Tag() {
        case 0x90 =>
        case 0x94 =>
          session.status := p.bytes[p.start];
          session.state := Started;
          session.action := true;
        case 0x95 =>
          session.state := InDeletion;
          session.action := true;
        case _ =>
          return;
      }
      var _ := session.HandOver(p.Rest());
    }

    /** receiveData for a request to open a session. */
    method ReceiveOpenRequest(slot: int, p: Packet, reacts: Apdu -> bool) returns (session: Session?, status: byte)
      requires Valid() && p.Sound() && p.Readable() && p.Tag() == 0x91
      modifies this`sent, sessions
      ensures Valid() && Opened(slot, p, session, status)
    {
      hide Apdus;
      hide AnyReacts;
      hide Left;
      hide Spdu;
      hide Packet.Rest;
      hide Packet.Id;
      hide Known;
      session, status := CreateSession(slot, p.Id(), reacts);
      sent := sent + [Spdu(0x92, [status] + p.Id(), if session == null then 0 else session.number, [])];
      if session != null {
        session.state := Started;
        session.action := true;
        var _ := session.HandOver(p.Rest());
      }
    }

    /**
      receiveData. A request opens its session before the length is looked at. Where the first bytes that the code
      reads are not all in the packet, the model stops.
     */
    method ReceiveData(slot: int, ptr: seq<byte>, reacts: Apdu -> bool)
      returns (ghost session: Session?, ghost status: byte)
      requires Valid()
      modifies this`sent, sessions, sessions[..]
      ensures Valid()
      ensures forall i :: 0 <= i < SLMS && sessions[i] != null ==>
        sessions[i] in old(sessions[..]) || fresh(sessions[i])
      ensures var p := Split(ptr);
        if p.None? || !p.value.Readable() then
          sessions[..] == old(sessions[..]) && sent == old(sent) &&
          forall s :: s in sessions[..] && s != null ==> unchanged(s)
        else if p.value.Tag() == 0x91 then Opened(slot, p.value, session, status)
        else Addressed(p.value) == old(Addressed(p.value)) && Reached(p.value)
    {
      hide Split;
      session, status := null, 0;
      var p := Split(ptr);
      if p.Some? && p.value.Readable() {
        if p.value.Tag() == 0x91 {
          session, status := ReceiveOpenRequest(slot, p.value, reacts);
        } else {
          ReceiveForSession(p.value);
        }
      }
    }

    /** pollAll: the lowest session with something to do gets its turn, and only that one. */
    method PollAll(doAction: (nat, State) -> (bool, State)) returns (busy: bool, ghost at: nat)
      requires Valid()
      modifies this`sent, sessions, sessions[..]
      ensures Valid()
      ensures at < SLMS && (busy <==> old(Due(sessions[..][at])))
      ensures forall i :: 0 <= i < (if busy then at else SLMS - 1) ==> !old(Due(sessions[i]))
      ensures var closing := busy && old(sessions[..][at].state) == InDeletion;
        && sessions[..] == (if closing then old(sessions[..])[at := null] else old(sessions[..]))
        && sent == old(sent) + (if closing then [Spdu(0x96, [0x00], at + 1, [])] else [])
        && forall i :: 0 <= i < SLMS && sessions[i] != null && !(busy && i == at) ==> unchanged(sessions[i])
      ensures busy && sessions[at] != null ==>
        var s: Session := sessions[at];
        s.received == old(s.received) && (s.action, s.state) == doAction(at + 1, old(s.state))
    {
      var number := 1;
      busy, at := false, SLMS - 1;
      while number < SLMS
        invariant 1 <= number <= SLMS && Valid() && at == SLMS - 1
        invariant sessions[..] == old(sessions[..]) && sent == old(sent)
        invariant forall i :: 0 <= i < SLMS && sessions[i] != null ==> unchanged(sessions[i])
        invariant forall i :: 0 <= i < number - 1 ==> !old(Due(sessions[i]))
      {
        var s := sessions[number - 1];
        if s != null {
          if s.state == InDeletion {
            sent := sent + [Spdu(0x96, [0x00], s.number, [])];
            sessions[number - 1] := null;
            return true, number - 1;
          } else if s.action {
            var done := doAction(number, s.state);
            s.action, s.state := done.0, done.1;
            return true, number - 1;
          }
        }
        number := number + 1;
      }
    }
  }

  /** pollAll will do something for the session. */
  ghost predicate Due(s: Session?)
    reads s
  {
    s != null && (s.state == InDeletion || s.action)
  }

  // ----- packets byte by byte

  /** A packet with a one-byte length field: tag, length, session number with its high byte first, then the rest. */
  lemma PacketBytes(tag: byte, front: seq<byte>, hi: byte, lo: byte, rest: seq<byte>)
    requires |front| + 2 < 128
    ensures var p := Split([tag, |front| + 2] + front + [hi, lo] + rest);
      && p.Some? && p.value.Tag() == tag && p.value.start == 2 && p.value.end == |front| + 4
      && p.value.Number() == (hi as int) * 256 + lo && p.value.Rest() == rest
      && p.value.bytes[2..2 + |front|] == front
  {
    hide Apdus;
    var ptr := [tag, |front| + 2] + front + [hi, lo] + rest;
    assert ptr[1..] == [|front| + 2] + (front + [hi, lo] + rest);
    Slices([tag, |front| + 2], front, [hi, lo], rest);
  }

  /** An APDU with a one-byte length field: three bytes of tag, length, data. */
  lemma ApduBytesAreRead(a: byte, b: byte, c: byte, data: seq<byte>)
    requires |data| < 128
    ensures Apdus([a, b, c, |data|] + data) == [Apdu([a, b, c], data)] && Complete([a, b, c, |data|] + data)
  {
    var d := [a, b, c, |data|] + data;
    hide Apdus;
    hide Left;
    hide FirstApdu;
    hide Complete;
    assert d[3..] == [|data|] + data && d[..3] == [a, b, c] && d[3..][1..] == data;
    ShortLength(d[3..], |data|);
    FirstTurn(d);
    assert data[..|data|] == data;
    TakesAll(d);
  }

  lemma ShortLength(pkt: seq<byte>, n: nat)
    requires pkt != [] && pkt[0] == n && n < 128
    ensures Holds(pkt) && Parse(pkt) == Parsed(n, 1)
  {
  }

  /** The lowest free place in the table; 255 if there is none. */
  ghost predicate LowestFree(table: Table, k: nat)
    requires table.Valid()
    reads table, table.sessions, table.sessions[..]
  {
    k <= 255 && (forall i :: 0 <= i < k ==> table.sessions[i] != null) && (k < 255 ==> table.sessions[k] == null)
  }

  /** The five resources of the host, as their identifiers stand in a request. */
  predicate HostResource(id: seq<byte>) {
    || id == [0x00, 0x01, 0x00, 0x41] || id == [0x00, 0x02, 0x00, 0x41] || id == [0x00, 0x03, 0x00, 0x41]
    || id == [0x00, 0x24, 0x00, 0x41] || id == [0x00, 0x40, 0x00, 0x41]
  }

  lemma FourBytes(a: byte, b: byte, c: byte, d: byte)
    ensures Value([a, b, c, d]) == (((a as int) * 256 + b) * 256 + c) * 256 + d
    ensures Known(Value([a, b, c, d])) <==> HostResource([a, b, c, d])
  {
    assert [a, b, c, d][..3] == [a, b, c] && [a, b, c][..2] == [a, b] && [a, b][..1] == [a] && [a][..0] == [];
    assert Value([a]) == a;
    assert Value([a, b]) == (a as int) * 256 + b;
    assert Value([a, b, c]) == ((a as int) * 256 + b) * 256 + c;
  }

  /** The answer to a request, byte by byte. */
  lemma AnswerBytes(status: byte, id: seq<byte>, number: nat)
    requires |id| == 4 && number < 65536
    ensures Spdu(0x92, [status] + id, number, []) == [0x92, 7, status] + id + [number / 256, number % 256]
  {
  }

  /**
    A request to open a session, byte by byte: for a resource of the host the lowest free number is given away and
    the session starts, otherwise the answer says why not, with number 0.
   */
  method Request(table: Table, slot: int, id: seq<byte>, reacts: Apdu -> bool, ghost k: nat)
    requires table.Valid() && |id| == 4 && LowestFree(table, k)
    modifies table`sent, table.sessions, table.sessions[..]
    ensures table.Valid()
    ensures var given := k < 255 && HostResource(id);
      if given then
        && table.sessions[k] != null && table.sessions[..] == old(table.sessions[..])[k := table.sessions[k]]
        && table.sessions[k].number == k + 1 && table.sessions[k].slot == slot && table.sessions[k].state == Started
        && table.sessions[k].resource == (((id[0] as int) * 256 + id[1]) * 256 + id[2]) * 256 + id[3]
        && table.sessions[k].received == []
        && table.sent == old(table.sent) + [[0x92, 7, 0x00] + id + [(k + 1) / 256, (k + 1) % 256]]
      else
        && table.sessions[..] == old(table.sessions[..])
        && table.sent == old(table.sent) + [[0x92, 7, if k == 255 then 0xF3 else 0xF0] + id + [0, 0]]
  {
    hide Split;
    hide Apdus;
    hide Spdu;
    hide Known;
    var ptr := [0x91, 4] + id;
    RequestIsSplit(id);
    assert id == [id[0], id[1], id[2], id[3]];
    FourBytes(id[0], id[1], id[2], id[3]);
    NothingTaken();
    ghost var session, status := table.ReceiveData(slot, ptr, reacts);
    AnswerBytes(0, id, k + 1);
    AnswerBytes(status, id, 0);
  }

  lemma RequestIsSplit(id: seq<byte>)
    requires |id| == 4
    ensures var p := Split([0x91, 4] + id);
      && p.Some? && p.value.Tag() == 0x91 && p.value.Readable() && p.value.Id() == id && p.value.Rest() == []
  {
    var ptr := [0x91, 4] + id;
    assert ptr[1..] == [4] + id;
    assert ptr[2..6] == id && ptr[6..] == [];
  }

  /** The answer to a session created by the host, and a request to close one, byte by byte. */
  method ChangeState(table: Table, slot: int, close: bool, status: byte, hi: byte, lo: byte, reacts: Apdu -> bool)
    requires table.Valid()
    modifies table`sent, table.sessions, table.sessions[..]
    ensures table.Valid() && table.sent == old(table.sent) && table.sessions[..] == old(table.sessions[..])
    ensures forall i :: 0 <= i < 255 && table.sessions[i] != null ==>
      var s: Session := table.sessions[i];
      && s.received == old(s.received)
      && (if i + 1 == (hi as int) * 256 + lo then
            s.action && s.state == (if close then InDeletion else Started)
            && s.status == (if close then old(s.status) else status)
          else s.action == old(s.action) && s.state == old(s.state) && s.status == old(s.status))
  {
    hide Split;
    hide Apdus;
    hide AnyReacts;
    var front := if close then [] else [status];
    var tag := if close then 0x95 else 0x94;
    var ptr := [tag, |front| + 2] + front + [hi, lo] + [];
    PacketBytes(tag, front, hi, lo, []);
    NothingTaken();
    ghost var session, answer := table.ReceiveData(slot, ptr, reacts);
    forall i | 0 <= i < 255 && table.sessions[i] != null && i + 1 != (hi as int) * 256 + lo
      ensures unchanged(table.sessions[i])
    {
      assert table.sessions[i] in table.sessions[..];
    }
  }
}
