/** What reaches the server: the clients' messages, in order and whole, with another id in those that open a channel. */
module MuxWire {
  import opened Bytes
  import opened Sshbufs
  import opened MuxProxy

  // ---------------------------------------------------------------- messages, byte by byte

  /** A channel type, the sender's channel id, and what follows (section 5.1 of RFC 4254). */
  ghost predicate IsOpen(m: seq<byte>, raw: seq<byte>, name: seq<byte>, id: u32, rest: seq<byte>) {
    Spells(raw, name) && m == StringBytes(raw) + Be32(id) + rest
  }

  predicate IsConfirm(m: seq<byte>, remoteId: u32, id: u32, rest: seq<byte>) {
    m == Be32(remoteId) + Be32(id) + rest
  }

  /** A request for a TCP forwarding: its name, the reply flag, a host and a port that exists. */
  ghost predicate IsForwardRequest(m: seq<byte>, raw: seq<byte>, reply: byte, rawHost: seq<byte>, host: seq<byte>,
                                   port: u32, rest: seq<byte>)
  {
    Spells(raw, Text("tcpip-forward")) && Spells(rawHost, host) && port <= 65535
    && m == StringBytes(raw) + [reply] + StringBytes(rawHost) + Be32(port) + rest
  }

  /** The messages that are passed on: all but malformed openings and other global requests. */
  ghost predicate Passes(packet: seq<byte>) {
    |packet| >= 2
    && (packet[1] == 90 ==> exists raw, name, id, rest :: IsOpen(packet[2..], raw, name, id, rest))
    && (packet[1] == 91 ==> exists remoteId, id, rest :: IsConfirm(packet[2..], remoteId, id, rest))
    && (packet[1] == 80 ==> exists raw, reply, rawHost, host, port, rest ::
          IsForwardRequest(packet[2..], raw, reply, rawHost, host, port, rest))
  }

  /** What is sent for a message: the message after its padding length, but for the id of an opening. */
  ghost predicate Forwards(packet: seq<byte>, sent: seq<byte>) {
    |packet| >= 2 && sent != [] && sent[0] == packet[1]
    && if packet[1] == 90 then
         exists raw, name, id, slot, rest ::
           IsOpen(packet[2..], raw, name, id, rest) && IsOpen(sent[1..], name, name, slot, rest)
       else if packet[1] == 91 then
         exists remoteId, id, slot, rest ::
           IsConfirm(packet[2..], remoteId, id, rest) && IsConfirm(sent[1..], remoteId, slot, rest)
       else sent == packet[1..]
  }

  // ---------------------------------------------------------------- one message

  lemma OpenParsed(m: seq<byte>)
    ensures ParseOpen(m).Some? <==> exists raw, name, id, rest :: IsOpen(m, raw, name, id, rest)
  {
    hide TakeCString, TakeU32, Be32, StringBytes;
    if ParseOpen(m).Some? {
      var o := ParseOpen(m).value;
      OpenShape(m, o);
    }
    if raw, name, id, rest :| IsOpen(m, raw, name, id, rest) {
      assert m == StringBytes(raw) + (Be32(id) + rest);
      CStringExactly(m, name, Be32(id) + rest);
      U32Exactly(Be32(id) + rest, id, rest);
    }
  }

  lemma OpenShape(m: seq<byte>, o: Opening)
    requires ParseOpen(m) == Some(o)
    ensures exists raw :: IsOpen(m, raw, o.name, o.id, o.rest)
  {
    hide TakeCString, TakeU32, Be32, StringBytes;
    var m1 := TakeCString(m).rest;
    CStringExactly(m, o.name, m1);
    U32Exactly(m1, o.id, o.rest);
    var raw :| Spells(raw, o.name) && m == StringBytes(raw) + m1;
    assert m == StringBytes(raw) + Be32(o.id) + o.rest;
    assert IsOpen(m, raw, o.name, o.id, o.rest);
  }

  lemma ConfirmParsed(m: seq<byte>)
    ensures ParseConfirm(m).Some? <==> exists remoteId, id, rest :: IsConfirm(m, remoteId, id, rest)
  {
    hide TakeU32, Be32;
    if ParseConfirm(m).Some? {
      ConfirmShape(m, ParseConfirm(m).value);
    }
    if remoteId, id, rest :| IsConfirm(m, remoteId, id, rest) {
      assert m == Be32(remoteId) + (Be32(id) + rest);
      U32Exactly(m, remoteId, Be32(id) + rest);
      U32Exactly(Be32(id) + rest, id, rest);
    }
  }

  lemma ConfirmShape(m: seq<byte>, c: Confirming)
    requires ParseConfirm(m) == Some(c)
    ensures IsConfirm(m, c.remoteId, c.id, c.rest)
  {
    hide TakeU32, Be32;
    var m1 := TakeU32(m).rest;
    U32Exactly(m, c.remoteId, m1);
    U32Exactly(m1, c.id, c.rest);
    assert m == Be32(c.remoteId) + Be32(c.id) + c.rest;
  }

  lemma U8Exactly(m: seq<byte>, v: byte, rest: seq<byte>)
    ensures TakeU8(m) == Got(v, rest) <==> m == [v] + rest
  {
    if TakeU8(m) == Got(v, rest) {
      assert m == [m[0]] + m[1..];
    }
  }

  lemma RequestAllowed(m: seq<byte>)
    ensures AllowedRequest(m)
      <==> exists raw, reply, rawHost, host, port, rest :: IsForwardRequest(m, raw, reply, rawHost, host, port, rest)
  {
    hide TakeCString, TakeU32, TakeU8, Be32, StringBytes, Text;
    if AllowedRequest(m) {
      RequestShape(m);
    }
    if raw, reply, rawHost, host, port, rest :| IsForwardRequest(m, raw, reply, rawHost, host, port, rest) {
      var m3 := Be32(port) + rest;
      var m2 := StringBytes(rawHost) + m3;
      assert m == StringBytes(raw) + ([reply] + m2);
      CStringExactly(m, Text("tcpip-forward"), [reply] + m2);
      U8Exactly([reply] + m2, reply, m2);
      CStringExactly(m2, host, m3);
      U32Exactly(m3, port, rest);
    }
  }

  lemma RequestShape(m: seq<byte>)
    requires AllowedRequest(m)
    ensures exists raw, reply, rawHost, host, port, rest :: IsForwardRequest(m, raw, reply, rawHost, host, port, rest)
  {
    hide TakeCString, TakeU32, TakeU8, Be32, StringBytes, Text;
    var name := Text("tcpip-forward");
    var m1 := TakeCString(m).rest;
    CStringExactly(m, name, m1);
    var reply, m2 := TakeU8(m1).value, TakeU8(m1).rest;
    U8Exactly(m1, reply, m2);
    var host, m3 := TakeCString(m2).value, TakeCString(m2).rest;
    CStringExactly(m2, host, m3);
    var port, rest := TakeU32(m3).value, TakeU32(m3).rest;
    U32Exactly(m3, port, rest);
    var raw :| Spells(raw, name) && m == StringBytes(raw) + m1;
    var rawHost :| Spells(rawHost, host) && m2 == StringBytes(rawHost) + m3;
    assert m == StringBytes(raw) + [reply] + StringBytes(rawHost) + Be32(port) + rest;
    assert IsForwardRequest(m, raw, reply, rawHost, host, port, rest);
  }

  /** The wire gains what is sent for the message, and nothing else. */
  ghost predicate Gains(was: seq<seq<byte>>, now: seq<seq<byte>>, packet: seq<byte>) {
    exists sent :: now == was + [sent] && Forwards(packet, sent)
  }

  lemma SlotFits(t: Table, c: Chan)
    ensures Place(t, c).Placed? ==> Place(t, c).slot < U32
  {
  }

  lemma OpenGains(s: Mux, client: nat, packet: seq<byte>)
    requires |packet| >= 2 && packet[1] == 90
    ensures match DownOpen(s, client, packet[2..])
      case Rejected => !Passes(packet)
      case TooMany => true
      case Done(t) => Passes(packet) && Gains(s.wire, t.wire, packet)
  {
    hide ParseOpen, Place, Be32, StringBytes, IsOpen;
    var m := packet[2..];
    NameFits(m);
    OpenParsed(m);
    if ParseOpen(m).Some? {
      SlotFits(s.table, NewProxy(client, ParseOpen(m).value.id));
    }
    if ParseOpen(m).Some? && Place(s.table, NewProxy(client, ParseOpen(m).value.id)).Placed? {
      var o, slot := ParseOpen(m).value, Place(s.table, NewProxy(client, ParseOpen(m).value.id)).slot;
      OpenShape(m, o);
      var raw :| IsOpen(m, raw, o.name, o.id, o.rest);
      var sent := OpenPacket(o, slot);
      SentOpen(m, raw, o, slot);
      assert IsOpen(packet[2..], raw, o.name, o.id, o.rest) && IsOpen(sent[1..], o.name, o.name, slot, o.rest);
      assert Forwards(packet, sent);
    }
  }

  lemma SentOpen(m: seq<byte>, raw: seq<byte>, o: Opening, slot: u32)
    requires IsOpen(m, raw, o.name, o.id, o.rest) && |o.name| < U32
    ensures IsOpen(OpenPacket(o, slot)[1..], o.name, o.name, slot, o.rest)
  {
    hide Be32;
    assert OpenPacket(o, slot)[1..] == StringBytes(o.name) + Be32(slot) + o.rest;
  }

  lemma ConfirmGains(s: Mux, client: nat, packet: seq<byte>)
    requires |packet| >= 2 && packet[1] == 91
    ensures match DownConfirm(s, client, packet[2..])
      case Rejected => !Passes(packet)
      case TooMany => true
      case Done(t) => Passes(packet) && Gains(s.wire, t.wire, packet)
  {
    hide ParseConfirm, Place, Be32;
    var m := packet[2..];
    ConfirmParsed(m);
    if ParseConfirm(m).Some? {
      var c := ParseConfirm(m).value;
      ConfirmShape(m, c);
      assert IsConfirm(packet[2..], c.remoteId, c.id, c.rest);
      var p := Place(s.table, NewProxy(client, c.id).(remoteId := c.remoteId, haveRemoteId := true));
      SlotFits(s.table, NewProxy(client, c.id).(remoteId := c.remoteId, haveRemoteId := true));
      if p.Placed? {
        var sent := ConfirmPacket(c, p.slot);
        assert sent[1..] == Be32(c.remoteId) + Be32(p.slot) + c.rest;
        assert IsConfirm(sent[1..], c.remoteId, p.slot, c.rest);
        assert Forwards(packet, sent);
      }
    }
  }

  lemma OtherGains(s: Mux, packet: seq<byte>, t: Mux)
    requires |packet| >= 2 && packet[1] != 90 && packet[1] != 91 && t.wire == s.wire + [[packet[1]] + packet[2..]]
    ensures Gains(s.wire, t.wire, packet)
  {
    assert [packet[1]] + packet[2..] == packet[1..];
    assert Forwards(packet, packet[1..]);
  }

  /** A client's message is passed on exactly if it may be, and then as `Forwards` says. */
  lemma DownGains(s: Mux, client: nat, packet: seq<byte>)
    ensures match Down(s, client, packet)
      case Rejected => !Passes(packet)
      case TooMany => packet != []
      case Done(t) => Passes(packet) && Gains(s.wire, t.wire, packet)
  {
    hide DownOpen, DownConfirm, AllowedRequest, IsForwardRequest, Gains, ByRemoteId, Closing;
    if |packet| >= 2 {
      if packet[1] == 90 {
        OpenGains(s, client, packet);
      } else if packet[1] == 91 {
        ConfirmGains(s, client, packet);
      } else {
        RequestAllowed(packet[2..]);
        if Down(s, client, packet).Done? {
          OtherGains(s, packet, Down(s, client, packet).mux);
        }
      }
    }
  }

  /** Messages that neither open nor close a channel leave the table as it is. */
  lemma OthersKeepTable(s: Mux, client: nat, packet: seq<byte>)
    requires |packet| >= 2 && packet[1] !in {90, 91, 97} && Down(s, client, packet).Done?
    ensures Down(s, client, packet).mux.table == s.table
  {
    hide AllowedRequest;
  }

  // ---------------------------------------------------------------- whole runs

  /** The messages of clients that are passed on, in order. */
  ghost function Passed(events: seq<Event>): seq<seq<byte>> {
    if events == [] then []
    else
      var front, e := Passed(events[..|events| - 1]), events[|events| - 1];
      if e.FromClient? && Passes(e.packet) then front + [e.packet] else front
  }

  lemma StepGains(s: Mux, e: Event, t: Mux)
    requires Step(s, e) == Some(t)
    ensures if e.FromClient? && Passes(e.packet) then Gains(s.wire, t.wire, e.packet) else t.wire == s.wire
  {
    hide Down, Passes, Gains, Place, Release, Closing, Deliver, Restored;
    if e.FromClient? {
      DownGains(s, e.client, e.packet);
    }
  }

  /**
   In every interleaving the server gets exactly the messages of the clients that are passed on, one after the other in
   the order in which they were sent, none lost, doubled or changed but for the ids in openings.
   */
  lemma {:induction false} WireInOrder(states: seq<Mux>, events: seq<Event>, n: nat)
    requires Trace(states, events) && n <= |events|
    ensures var sent, was := Passed(events[..n]), |states[0].wire|;
      |states[n].wire| == was + |sent| && states[0].wire <= states[n].wire
      && forall i | 0 <= i < |sent| :: Forwards(sent[i], states[n].wire[was + i])
  {
    hide Step, Passes, Forwards;
    if n > 0 {
      WireInOrder(states, events, n - 1);
      var s, e := states[n - 1], events[n - 1];
      assert Step(s, e) == Some(states[n]);
      StepGains(s, e, states[n]);
      assert events[..n][..n - 1] == events[..n - 1];
      if e.FromClient? && Passes(e.packet) {
        var sent :| states[n].wire == s.wire + [sent] && Forwards(e.packet, sent);
      }
    }
  }

  // ---------------------------------------------------------------- slots

  /** A new channel takes the first free slot, or the first of ten more; there are none beyond 16384. */
  lemma PlaceMeans(t: Table, c: Chan)
    ensures var p := Place(t, c);
      && (p.Full? <==> |t| > 0x4000 && forall i | 0 <= i < |t| :: t[i].Some?)
      && (p.Placed? ==>
            && p.slot < |p.table| && p.table[p.slot] == Some(c)
            && (forall i | 0 <= i < p.slot :: i < |t| && t[i].Some?)
            && |p.table| == (if p.slot < |t| then |t| else |t| + 10)
            && forall i | 0 <= i < |p.table| && i != p.slot :: p.table[i] == if i < |t| then t[i] else None)
  {
    hide FirstFree;
    var i := FirstFree(t);
  }

  // ---------------------------------------------------------------- and from the server

  /** Messages that are not about a channel, and messages for channels of this process, are left alone. */
  lemma OtherwiseUntouched(s: Mux, i: nat, kind: byte, payload: seq<byte>)
    requires |payload| + 6 < U32
    requires kind < 91 || kind > 100 || At(s.table, i).None? || At(s.table, i).value.kind != Proxy
    ensures Up(s, i, kind, payload) == s
  {
  }

  /** A confirmation from the server with anything behind the id is what tells the proxy the server's id. */
  lemma ConfirmationRecorded(s: Mux, slot: nat, client: nat, id: u32, payload: seq<byte>)
    requires Attached(s.table, slot, client, id) && 4 < |payload| && |payload| + 6 < U32
    ensures var c := At(Up(s, slot, 91, payload).table, slot);
      c.Some? && c.value.haveRemoteId
      && c.value.remoteId as nat
         == 0x100_0000 * (payload[0] as nat) + 0x1_0000 * (payload[1] as nat) + 0x100 * (payload[2] as nat)
            + (payload[3] as nat)
  {
    hide Deliver, Restored;
  }
}
