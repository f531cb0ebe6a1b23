/**
  The whole stack: from the APDUs one side sends to the APDUs that the session on the other side is handed.
 */
module CommonInterface {
  import opened Basics
  import opened LengthFields
  import opened Transport
  import opened Sessions

  // ----- sending

  /** What sendData queues: raw transport objects as they are, everything else as one T_DATA_LAST. */
  function Frame(slot: byte, connection: byte, data: seq<byte>): seq<byte>
    requires |data| >= 3
  {
    if T_SB <= data[2] <= T_NEW_T_C then data
    else [slot, connection, T_DATA_LAST, (|data| + 1) % 256, connection] + data
  }

  /** A packet of at most 126 bytes that sendData queued is walked as that packet; longer ones are not. */
  lemma FrameIsWalked(slot: byte, connection: byte, data: seq<byte>)
    requires |data| >= 3 && !(T_SB <= data[2] <= T_NEW_T_C)
    ensures Tpdus(Frame(slot, connection, data)[2..]) == [Tpdu(T_DATA_LAST, [(|data| + 1) % 256], connection, data)]
            <==> |data| <= 126
  {
    hide Tpdus;
    var t := Tpdu(T_DATA_LAST, [(|data| + 1) % 256], connection, data);
    var d := Frame(slot, connection, data)[2..];
    assert d == Wire(t);
    if |data| <= 126 {
      assert Sound(t);
      WireIsWalked([t], []);
      assert WireAll([t]) == Wire(t) + [];
      assert WireAll([t]) + [] == d;
      NothingLeft();
      assert [t] + [] == [t];
    } else {
      WalkTakesThePrefix(d);
      assert !Sound(t);
      assert |Tpdus(d)| > 0 ==> Sound(Tpdus(d)[0]);
    }
  }

  lemma NothingLeft()
    ensures Tpdus([]) == []
  {
  }

  // ----- several reads

  /** One buffer after the other goes through the walking loop. */
  function ReceiveAll(a: Assembly, buffers: seq<seq<byte>>): Assembly {
    if buffers == [] then a
    else ProcessAll(ReceiveAll(a, buffers[..|buffers| - 1]), Tpdus(buffers[|buffers| - 1]))
  }

  function Buffers(groups: seq<seq<Tpdu>>): seq<seq<byte>> {
    if groups == [] then [] else Buffers(groups[..|groups| - 1]) + [WireAll(groups[|groups| - 1])]
  }

  predicate AllSound(ts: seq<Tpdu>) {
    forall i :: 0 <= i < |ts| ==> Sound(ts[i])
  }

  /** How the TPDUs are spread over reads makes no difference. */
  lemma {:induction false} ReadsDoNotMatter(a: Assembly, groups: seq<seq<Tpdu>>)
    requires AllSound(Concat(groups))
    ensures ReceiveAll(a, Buffers(groups)) == ProcessAll(a, Concat(groups))
  {
    hide Sound;
    hide Tpdus;
    hide ProcessAll;
    hide WireAll;
    if groups == [] {
      NoProcessing(a);
    } else {
      var front, ts := groups[..|groups| - 1], groups[|groups| - 1];
      var flat := Concat(groups);
      assert AllSound(Concat(front)) by {
        assert forall i :: 0 <= i < |Concat(front)| ==> Concat(front)[i] == flat[i];
      }
      assert AllSound(ts) by {
        assert forall i :: 0 <= i < |ts| ==> ts[i] == flat[|Concat(front)| + i];
      }
      ReadsDoNotMatter(a, front);
      WireIsWalked(ts, []);
      NothingLeft();
      assert WireAll(ts) + [] == WireAll(ts) && ts + [] == ts;
      assert Buffers(groups)[..|Buffers(groups)| - 1] == Buffers(front);
      ProcessConcat(a, Concat(front), ts);
    }
  }

  lemma NoProcessing(a: Assembly)
    ensures ProcessAll(a, []) == a
  {
  }

  /**
    A list of APDUs for a session, packed into one SPDU, cut into any fragments, sent as TPDUs with any form of
    length field, with any other TPDUs around them, and read in any groups, comes out as one message that carries
    that list to that session.
   */
  lemma ApdusArrive(list: seq<Apdu>, number: nat, parts: seq<seq<byte>>, groups: seq<seq<Tpdu>>, a: Assembly)
    requires forall i :: 0 <= i < |list| ==> Sendable(list[i])
    requires number < 65536 && Concat(parts) == Spdu(0x90, [], number, ApduList(list))
    requires Chained(DataOf(Concat(groups)), parts) && AllSound(Concat(groups)) && a.received.None?
    ensures var b := ReceiveAll(a, Buffers(groups));
      && b.received.None? && b.delivered == a.delivered + [Concat(parts)]
      && Carries(Concat(parts), number, list)
  {
    hide Carries;
    hide Sound;
    hide Spdu;
    hide Concat;
    ReadsDoNotMatter(a, groups);
    ChainArrives(a, Concat(groups), parts);
    SpduCarries(list, number);
  }

  /** The message is a list of APDUs for session number, and nothing behind it. */
  predicate Carries(message: seq<byte>, number: nat, list: seq<Apdu>) {
    var p := Split(message);
    && p.Some? && p.value.Tag() == 0x90 && p.value.Readable() && p.value.Number() == number
    && Apdus(p.value.Rest()) == list && Complete(p.value.Rest())
  }

  lemma SpduCarries(list: seq<Apdu>, number: nat)
    requires (forall i :: 0 <= i < |list| ==> Sendable(list[i])) && number < 65536
    ensures Carries(Spdu(0x90, [], number, ApduList(list)), number, list)
  {
    hide Split;
    hide Apdus;
    hide Left;
    hide Spdu;
    SpduIsSplit(0x90, [], number, ApduList(list));
    ListIsReceived(list);
  }

  // ----- the receiving side as one

  /** APDUs that one side sends to a session of the other. */
  datatype Mail = Mail(number: nat, list: seq<Apdu>)

  predicate Mailable(mails: seq<Mail>) {
    forall i :: 0 <= i < |mails| ==>
      mails[i].number < 65536 && forall j :: 0 <= j < |mails[i].list| ==> Sendable(mails[i].list[j])
  }

  /** The SPDUs that the mails go out in. */
  function Packed(mails: seq<Mail>): (r: seq<seq<byte>>)
    requires Mailable(mails)
    ensures |r| == |mails|
    ensures forall i :: 0 <= i < |mails| ==> r[i] == Spdu(0x90, [], mails[i].number, ApduList(mails[i].list))
  {
    seq(|mails|, i requires 0 <= i < |mails| => Spdu(0x90, [], mails[i].number, ApduList(mails[i].list)))
  }

  /** All that is sent to one session, in order. */
  function ListFor(mails: seq<Mail>, number: nat): seq<Apdu> {
    if mails == [] then []
    else
      var mail := mails[|mails| - 1];
      ListFor(mails[..|mails| - 1], number) + if mail.number == number then mail.list else []
  }

  lemma {:induction false} ListForConcat(s: seq<Mail>, t: seq<Mail>, number: nat)
    ensures ListFor(s + t, number) == ListFor(s, number) + ListFor(t, number)
  {
    if t == [] {
      assert s + t == s;
    } else {
      assert (s + t)[..|s + t| - 1] == s + t[..|t| - 1];
      ListForConcat(s, t[..|t| - 1], number);
    }
  }

  lemma ListForOne(mail: Mail, number: nat)
    ensures ListFor([], number) == []
    ensures ListFor([mail], number) == if mail.number == number then mail.list else []
  {
    assert [mail][..0] == [];
  }

  lemma NoneReacts()
    ensures forall reacts :: !AnyReacts([], reacts)
  {
  }

  lemma ReactsConcat(s: seq<Apdu>, t: seq<Apdu>, reacts: Apdu -> bool)
    ensures AnyReacts(s + t, reacts) == (AnyReacts(s, reacts) || AnyReacts(t, reacts))
  {
    if AnyReacts(s, reacts) {
      var i :| 0 <= i < |s| && reacts(s[i]);
      assert (s + t)[i] == s[i];
    }
    if AnyReacts(t, reacts) {
      var i :| 0 <= i < |t| && reacts(t[i]);
      assert (s + t)[|s| + i] == t[i];
    }
  }

  /** Each open session has received what the mails hold for it; nothing else happened. */
  twostate predicate Grown(table: Table, mails: seq<Mail>)
    reads table, table.sessions, table.sessions[..]
  {
    && table.sessions.Length == SLMS
    && table.sent == old(table.sent) && table.sessions[..] == old(table.sessions[..])
    && forall i :: 0 <= i < SLMS && table.sessions[i] != null ==>
         SessionGrown(table.sessions[i], ListFor(mails, i + 1))
  }

  twostate predicate SessionGrown(s: Session, list: seq<Apdu>)
    reads s
  {
    && s.received == old(s.received) + list && s.state == old(s.state) && s.status == old(s.status)
    && s.action == (old(s.action) || AnyReacts(list, s.reacts))
  }

  twostate lemma NothingGrown(table: Table)
    requires unchanged(table) && unchanged(table.sessions) && table.Valid()
    requires forall i :: 0 <= i < SLMS && table.sessions[i] != null ==> unchanged(table.sessions[i])
    ensures Grown(table, [])
  {
  }

  /** What a session receives from two runs of mails. */
  lemma BothFor(s: seq<Mail>, t: seq<Mail>, reacts: Apdu -> bool, number: nat)
    ensures ListFor(s + t, number) == ListFor(s, number) + ListFor(t, number)
    ensures AnyReacts(ListFor(s + t, number), reacts)
      == (AnyReacts(ListFor(s, number), reacts) || AnyReacts(ListFor(t, number), reacts))
  {
    ListForConcat(s, t, number);
    ReactsConcat(ListFor(s, number), ListFor(t, number), reacts);
  }

  /** process_tpdu hands a message it has completed to receiveData. */
  method HandOne(message: seq<byte>, slotNumber: int, table: Table, reacts: Apdu -> bool, ghost mail: Mail)
    requires table.Valid() && Carries(message, mail.number, mail.list)
    modifies table`sent, table.sessions, table.sessions[..]
    ensures table.Valid() && Grown(table, [mail])
  {
    hide Split;
    hide Apdus;
    hide Complete;
    hide ListFor;
    hide AnyReacts;
    var _, _ := table.ReceiveData(slotNumber, message, reacts);
    NoneReacts();
    forall i | 0 <= i < SLMS && table.sessions[i] != null
      ensures SessionGrown(table.sessions[i], ListFor([mail], i + 1))
    {
      ListForOne(mail, i + 1);
      if i + 1 != mail.number {
        assert table.sessions[i] in table.sessions[..];
      }
    }
  }

  method HandOn(messages: seq<seq<byte>>, slotNumber: int, table: Table, reacts: Apdu -> bool, ghost mails: seq<Mail>)
    requires table.Valid() && Mailable(mails) && messages == Packed(mails)
    modifies table`sent, table.sessions, table.sessions[..]
    ensures table.Valid() && Grown(table, mails)
  {
    hide Carries;
    hide ListFor;
    hide AnyReacts;
    hide Spdu;
    hide ApduList;
    hide Sendable;
    hide Table.Valid;
    NothingGrown(table);
    var k := 0;
    assert mails[..0] == [];
    while k < |messages|
      invariant 0 <= k <= |messages| && table.Valid()
      invariant Grown(table, mails[..k])
    {
      label L:
      SpduCarries(mails[k].list, mails[k].number);
      HandOne(messages[k], slotNumber, table, reacts, mails[k]);
      assert mails[..k] + [mails[k]] == mails[..k + 1];
      forall i | 0 <= i < SLMS && table.sessions[i] != null
        ensures SessionGrown(table.sessions[i], ListFor(mails[..k + 1], i + 1))
      {
        assert SessionGrown@L(table.sessions[i], ListFor([mails[k]], i + 1));
        BothFor(mails[..k], [mails[k]], table.sessions[i].reacts, i + 1);
      }
      k := k + 1;
    }
    assert mails[..k] == mails;
  }

  lemma MessagesArePrefixes(groups: seq<seq<Tpdu>>, i: nat, j: nat)
    requires i <= j <= |groups|
    ensures Messages(None, Concat(groups[..i])) <= Messages(None, Concat(groups[..j]))
  {
    hide Messages;
    hide Concat;
    GroupsArePrefixes(groups[..j], i);
    assert groups[..j][..i] == groups[..i];
    var s, t := Concat(groups[..i]), Concat(groups[..j]);
    assert t == s + t[|s|..];
    MessagesConcat(None, s, t[|s|..]);
  }

  lemma {:induction false} GroupsArePrefixes(groups: seq<seq<Tpdu>>, i: nat)
    requires i <= |groups|
    ensures Concat(groups[..i]) <= Concat(groups)
  {
    if i == |groups| {
      assert groups[..i] == groups;
    } else {
      GroupsArePrefixes(groups[..|groups| - 1], i);
      assert groups[..|groups| - 1][..i] == groups[..i];
    }
  }

  /** What has been delivered after so many reads. */
  lemma Delivered(a: Assembly, groups: seq<seq<Tpdu>>, cuts: seq<seq<seq<byte>>>, i: nat)
    requires i <= |groups| && ChainedAll(DataOf(Concat(groups)), cuts) && a.received.None?
    ensures var b := ProcessAll(a, Concat(groups[..i]));
      && b.delivered == a.delivered + Messages(None, Concat(groups[..i]))
      && Messages(None, Concat(groups[..i])) <= Wholes(cuts)
      && (i == |groups| ==> b.received.None? && b.delivered == a.delivered + Wholes(cuts))
      && (i == 0 ==> b == a)
  {
    hide Messages;
    hide Concat;
    hide ProcessAll;
    hide DataOf;
    hide ChainedAll;
    hide Wholes;
    Reassembled(a, Concat(groups[..i]));
    ChainsArrive(a, Concat(groups), cuts);
    MessagesArePrefixes(groups, i, |groups|);
    assert groups[..|groups|] == groups;
    NothingYet(a, groups);
  }

  lemma NothingYet(a: Assembly, groups: seq<seq<Tpdu>>)
    ensures ProcessAll(a, Concat(groups[..0])) == a
  {
  }

  /** One more read. */
  lemma GroupIsProcessed(a: Assembly, groups: seq<seq<Tpdu>>, i: nat)
    requires i < |groups| && AllSound(Concat(groups))
    ensures var b := ProcessAll(a, Concat(groups[..i]));
      ProcessAll(b, Tpdus(WireAll(groups[i]))) == ProcessAll(a, Concat(groups[..i + 1]))
  {
    hide Sound;
    hide Tpdus;
    hide ProcessAll;
    hide WireAll;
    hide Concat;
    var flat, ts := Concat(groups), groups[i];
    GroupsArePrefixes(groups, i + 1);
    OneGroupMore(groups, i);
    var front, more := Concat(groups[..i]), Concat(groups[..i + 1]);
    assert AllSound(ts) by {
      assert forall k :: 0 <= k < |ts| ==> ts[k] == more[|front| + k] == flat[|front| + k];
    }
    WireIsWalked(ts, []);
    NothingLeft();
    assert WireAll(ts) + [] == WireAll(ts) && ts + [] == ts;
    ProcessConcat(a, front, ts);
  }

  lemma OneGroupMore(groups: seq<seq<Tpdu>>, i: nat)
    requires i < |groups|
    ensures Concat(groups[..i + 1]) == Concat(groups[..i]) + groups[i]
  {
    assert groups[..i + 1][..i] == groups[..i];
  }

  /** The messages between two points of a run are the mails between them. */
  lemma PackedPart(mails: seq<Mail>, delivered: seq<seq<byte>>, before: seq<seq<byte>>, m: nat, n: nat)
    requires Mailable(mails) && m <= n <= |mails| && delivered == before + Packed(mails)[..n]
    ensures Mailable(mails[m..n]) && delivered[|before| + m..] == Packed(mails[m..n])
    ensures mails[..m] + mails[m..n] == mails[..n]
  {
    hide Spdu;
    hide ApduList;
    hide Sendable;
  }

  /** One more read: how the assembly goes on, and which mails it completes. */
  lemma OneReadMore(a: Assembly, groups: seq<seq<Tpdu>>, cuts: seq<seq<seq<byte>>>, mails: seq<Mail>, i: nat)
    requires Mailable(mails) && Wholes(cuts) == Packed(mails) && a.received.None?
    requires ChainedAll(DataOf(Concat(groups)), cuts) && AllSound(Concat(groups)) && i < |groups|
    ensures var b, c := ProcessAll(a, Concat(groups[..i])), ProcessAll(a, Concat(groups[..i + 1]));
      && c == ProcessAll(b, Tpdus(WireAll(groups[i])))
      && |a.delivered| <= |b.delivered| <= |c.delivered| <= |a.delivered| + |mails|
      && var m, n := |b.delivered| - |a.delivered|, |c.delivered| - |a.delivered|;
         && Mailable(mails[m..n]) && c.delivered[|b.delivered|..] == Packed(mails[m..n])
         && mails[..m] + mails[m..n] == mails[..n]
  {
    hide *;
    GroupIsProcessed(a, groups, i);
    Delivered(a, groups, cuts, i);
    Delivered(a, groups, cuts, i + 1);
    MessagesArePrefixes(groups, i, i + 1);
    var m, n := |Messages(None, Concat(groups[..i]))|, |Messages(None, Concat(groups[..i + 1]))|;
    PackedPart(mails, ProcessAll(a, Concat(groups[..i + 1])).delivered, a.delivered, m, n);
  }

  /**
    From the file descriptor to the session objects: whatever messages for sessions are sent, however each is cut
    into fragments, whatever status TPDUs come along, and however all of it is spread over reads, every open session
    receives in addition exactly the APDUs addressed to it, in order, and nothing else in the table changes.
   */
  method Receive(slot: Slot, slotNumber: int, table: Table, buffers: seq<seq<byte>>, reacts: Apdu -> bool,
                 ghost mails: seq<Mail>, ghost cuts: seq<seq<seq<byte>>>, ghost groups: seq<seq<Tpdu>>)
    requires Mailable(mails) && Wholes(cuts) == Packed(mails)
    requires ChainedAll(DataOf(Concat(groups)), cuts) && AllSound(Concat(groups)) && slot.receivedData.None?
    requires |buffers| == |groups|
    requires forall i :: 0 <= i < |groups| ==> |buffers[i]| >= 2 && buffers[i][2..] == WireAll(groups[i])
    requires table.Valid()
    modifies slot, table`sent, table.sessions, table.sessions[..]
    ensures table.Valid() && Grown(table, mails)
    ensures slot.receivedData.None? && slot.delivered == old(slot.delivered) + Packed(mails)
  {
    hide Sound;
    hide Spdu;
    hide Concat;
    hide WireAll;
    hide Tpdus;
    hide ProcessAll;
    hide Messages;
    hide DataOf;
    hide ChainedAll;
    hide Wholes;
    hide Packed;
    hide Mailable;
    hide ListFor;
    hide AnyReacts;
    ghost var a, m := slot.State(), 0;
    var seen, i := |slot.delivered|, 0;
    hide Table.Valid;
    NothingGrown(table);
    assert mails[..0] == [];
    Delivered(a, groups, cuts, 0);
    while i < |buffers|
      invariant 0 <= i <= |buffers| && table.Valid()
      invariant slot.State() == ProcessAll(a, Concat(groups[..i]))
      invariant 0 <= m <= |mails| && seen == |a.delivered| + m == |slot.delivered|
      invariant Grown(table, mails[..m])
    {
      slot.Walk(buffers[i]);
      OneReadMore(a, groups, cuts, mails, i);
      ghost var n := |slot.delivered| - |a.delivered|;
      label L:
      HandOn(slot.delivered[seen..], slotNumber, table, reacts, mails[m..n]);
      forall j | 0 <= j < SLMS && table.sessions[j] != null
        ensures SessionGrown(table.sessions[j], ListFor(mails[..n], j + 1))
      {
        assert SessionGrown@L(table.sessions[j], ListFor(mails[m..n], j + 1));
        BothFor(mails[..m], mails[m..n], table.sessions[j].reacts, j + 1);
      }
      seen, m := |slot.delivered|, n;
      i := i + 1;
    }
    Delivered(a, groups, cuts, |groups|);
    assert mails[..m] == mails;
  }

  // ----- byte by byte

  /** What sendData queues, byte by byte: objects tagged 0x80 to 0x87 as they are, everything else behind a header. */
  lemma FrameBytes(slot: byte, connection: byte, data: seq<byte>)
    requires |data| >= 3
    ensures 0x80 <= data[2] <= 0x87 ==> Frame(slot, connection, data) == data
    ensures !(0x80 <= data[2] <= 0x87) && |data| < 255 ==>
      Frame(slot, connection, data) == [slot, connection, 0xA0, |data| + 1, connection] + data
  {
  }

  /** One APDU in an SPDU for this session. */
  function ApduInSpdu(hi: byte, lo: byte, tag: seq<byte>, data: seq<byte>): seq<byte>
    requires |data| < 127
  {
    [0x90, 2, hi, lo] + tag + [|data|] + data
  }

  lemma ApduInSpduIsPacked(hi: byte, lo: byte, tag: seq<byte>, data: seq<byte>)
    requires |tag| == 3 && |data| < 127
    ensures var mails := [Mail((hi as int) * 256 + lo, [Apdu(tag, data)])];
      Mailable(mails) && Packed(mails) == [ApduInSpdu(hi, lo, tag, data)]
  {
    var n := (hi as int) * 256 + lo;
    assert n / 256 % 256 == hi && n % 256 == lo;
    var a := Apdu(tag, data);
    assert [a][1..] == [] && ApduList([a]) == ApduBytes(a) + [];
    assert Spdu(0x90, [], n, ApduList([a])) == ApduInSpdu(hi, lo, tag, data);
  }

  /** A read with two fragments and a status TPDU in front of each, byte by byte. */
  function TwoFragments(slot: byte, c: byte, status: byte, x: seq<byte>, y: seq<byte>): seq<byte>
    requires |x| < 127 && |y| < 127
  {
    [slot, c] + [0x80, 2, c, status] + ([0xA1, |x| + 1, c] + x) + [0x80, 2, c, status] + ([0xA0, |y| + 1, c] + y)
  }

  lemma TwoFragmentsOnTheWire(slot: byte, c: byte, status: byte, x: seq<byte>, y: seq<byte>)
    requires |x| < 127 && |y| < 127
    ensures var sb := Tpdu(0x80, [2], c, [status]);
      var ts := [sb, Tpdu(0xA1, [|x| + 1], c, x), sb, Tpdu(0xA0, [|y| + 1], c, y)];
      && TwoFragments(slot, c, status, x, y)[2..] == WireAll(ts) && AllSound(ts)
      && DataOf(ts) == [ts[1], ts[3]] && ChainedAll(DataOf(ts), [[x, y]])
      && Concat([ts]) == ts
  {
    var sb := Tpdu(0x80, [2], c, [status]);
    hide WireAll;
    hide DataOf;
    hide ChainedAll;
    var t, u := Tpdu(0xA1, [|x| + 1], c, x), Tpdu(0xA0, [|y| + 1], c, y);
    var ts := [sb, t, sb, u];
    WireOfFour(sb, t, sb, u);
    DataOfFour(sb, t, sb, u);
    assert TwoFragments(slot, c, status, x, y)[2..] == Wire(sb) + Wire(t) + Wire(sb) + Wire(u);
    OneChain([t, u], [x, y]);
    assert [ts][..0] == [] && Concat<Tpdu>([]) == [];
  }

  lemma WireOfFour(a: Tpdu, b: Tpdu, c: Tpdu, d: Tpdu)
    ensures WireAll([a, b, c, d]) == Wire(a) + Wire(b) + Wire(c) + Wire(d)
  {
    hide Wire;
    assert [a, b, c, d][1..] == [b, c, d] && [b, c, d][1..] == [c, d] && [c, d][1..] == [d] && [d][1..] == [];
    assert WireAll([d]) == Wire(d) + [];
    assert WireAll([c, d]) == Wire(c) + WireAll([d]);
    assert WireAll([b, c, d]) == Wire(b) + WireAll([c, d]);
    assert WireAll([a, b, c, d]) == Wire(a) + WireAll([b, c, d]);
  }

  lemma DataOfFour(a: Tpdu, b: Tpdu, c: Tpdu, d: Tpdu)
    requires !IsData(a) && IsData(b) && !IsData(c) && IsData(d)
    ensures DataOf([a, b, c, d]) == [b, d]
  {
    hide IsData;
    assert [a, b, c, d][..3] == [a, b, c] && [a, b, c][..2] == [a, b] && [a, b][..1] == [a] && [a][..0] == [];
    assert DataOf([a]) == [];
    assert DataOf([a, b]) == DataOf([a]) + [b];
    assert DataOf([a, b, c]) == DataOf([a, b]) + [];
  }

  lemma OneChain(ts: seq<Tpdu>, parts: seq<seq<byte>>)
    requires Chained(ts, parts)
    ensures ChainedAll(ts, [parts])
  {
    assert [parts][..0] == [] && ts[..0] == [] && ts[0..] == ts;
  }

  /**
    The whole way byte by byte: one read that holds an SPDU in two fragments, with status TPDUs between them, hands
    its APDU to the session whose number stands in it.
   */
  method ReceiveBytes(slot: Slot, slotNumber: int, table: Table, reacts: Apdu -> bool, first: byte, c: byte,
                      status: byte, x: seq<byte>, y: seq<byte>, hi: byte, lo: byte, tag: seq<byte>, data: seq<byte>)
    requires |tag| == 3 && |data| < 127 && |x| < 127 && |y| < 127 && x + y == ApduInSpdu(hi, lo, tag, data)
    requires table.Valid() && slot.receivedData.None?
    modifies slot, table`sent, table.sessions, table.sessions[..]
    ensures table.Valid() && table.sent == old(table.sent) && table.sessions[..] == old(table.sessions[..])
    ensures slot.receivedData.None?
    ensures forall i :: 0 <= i < SLMS && table.sessions[i] != null ==>
      table.sessions[i].received ==
        old(table.sessions[i].received) + if i + 1 == (hi as int) * 256 + lo then [Apdu(tag, data)] else []
  {
    hide TwoFragments;
    hide WireAll;
    hide DataOf;
    hide ChainedAll;
    hide Packed;
    hide Mailable;
    hide AllSound;
    hide ListFor;
    hide AnyReacts;
    var buffer := TwoFragments(first, c, status, x, y);
    ghost var mail := Mail((hi as int) * 256 + lo, [Apdu(tag, data)]);
    ghost var sb := Tpdu(0x80, [2], c, [status]);
    ghost var ts := [sb, Tpdu(0xA1, [|x| + 1], c, x), sb, Tpdu(0xA0, [|y| + 1], c, y)];
    TwoFragmentsOnTheWire(first, c, status, x, y);
    ApduInSpduIsPacked(hi, lo, tag, data);
    TwoParts(x, y);
    assert |buffer| >= 2 by {
      BufferLength(first, c, status, x, y);
    }
    Receive(slot, slotNumber, table, [buffer], reacts, [mail], [[x, y]], [ts]);
    forall i | 0 <= i < SLMS && table.sessions[i] != null
      ensures table.sessions[i].received ==
        old(table.sessions[i].received) + if i + 1 == mail.number then mail.list else []
    {
      ListForOne(mail, i + 1);
      assert SessionGrown(table.sessions[i], ListFor([mail], i + 1));
    }
  }

  lemma BufferLength(slot: byte, c: byte, status: byte, x: seq<byte>, y: seq<byte>)
    requires |x| < 127 && |y| < 127
    ensures |TwoFragments(slot, c, status, x, y)| >= 2
  {
  }

  lemma TwoParts(x: seq<byte>, y: seq<byte>)
    ensures Concat([x, y]) == x + y && Wholes([[x, y]]) == [x + y]
  {
    assert [x, y][..1] == [x] && [x][..0] == [];
    assert Concat([x]) == x;
  }
}
