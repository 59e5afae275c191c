/** The mux proxy: channels of several clients share one connection, under ids that are translated both ways. */
module MuxProxy {
  import opened Bytes
  import opened Sshbufs

  /** CHANNELS_MAX_CHANNELS. */
  const MAX := 0x4000

  const OPEN: byte := 90
  const OPEN_CONFIRMATION: byte := 91
  const CLOSE: byte := 97

  /** Proxied for a client; a client's own connection; a proxy whose client has gone; any other channel. */
  datatype Kind = Proxy | Client | Detached | Other

  /** The fields of a Channel that the proxy uses; `mux` is the slot of the client it points to. */
  datatype Chan = Chan(kind: Kind, mux: Option<nat>, downstreamId: u32, remoteId: u32, haveRemoteId: bool,
                       closeSent: bool, closeRcvd: bool, output: seq<byte>)

  type Table = t: seq<Option<Chan>> | |t| <= MAX + 10

  /** The channel table, and the packets sent to the server, each a type and a payload. */
  datatype Mux = Mux(table: Table, wire: seq<seq<byte>>)

  // ---------------------------------------------------------------- slots

  function FirstFree(t: seq<Option<Chan>>): (i: nat)
    ensures i <= |t|
    ensures i < |t| ==> t[i].None?
    ensures forall j | 0 <= j < i :: t[j].Some?
  {
    if t == [] || t[0].None? then 0 else 1 + FirstFree(t[1..])
  }

  datatype Placed = Placed(table: Table, slot: nat) | Full

  function Fresh(n: nat): (r: seq<Option<Chan>>)
    ensures |r| == n
  {
    seq(n, _ => None)
  }

  /** channel_new: the first free slot, or the first of ten new ones. */
  function Place(t: Table, c: Chan): Placed {
    var i := FirstFree(t);
    if i < |t| then Placed(t[i := Some(c)], i)
    else if |t| > MAX then Full
    else Placed(t + [Some(c)] + Fresh(9), i)
  }

  function At(t: Table, i: nat): Option<Chan> { if i < |t| then t[i] else None }

  lemma PlaceFacts(t: Table, c: Chan)
    ensures var p := Place(t, c);
      p.Placed? ==>
        At(t, p.slot).None? && At(p.table, p.slot) == Some(c)
        && forall i: nat | i != p.slot :: At(p.table, i) == At(t, i)
  {
    var p := Place(t, c);
    if p.Placed? {
      forall i: nat | i != p.slot
        ensures At(p.table, i) == At(t, i)
      {
      }
    }
  }

  /** channel_by_remote_id. */
  function ByRemoteId(t: seq<Option<Chan>>, r: u32): (i: nat)
    ensures i <= |t|
    ensures i < |t| ==> t[i].Some? && t[i].value.haveRemoteId && t[i].value.remoteId == r
    ensures forall j | 0 <= j < i :: t[j].Some? ==> !(t[j].value.haveRemoteId && t[j].value.remoteId == r)
  {
    if t == [] || (t[0].Some? && t[0].value.haveRemoteId && t[0].value.remoteId == r) then 0
    else 1 + ByRemoteId(t[1..], r)
  }

  /** What a channel becomes when the client in slot `client` goes. */
  function Detach(c: Option<Chan>, client: nat): Option<Chan> {
    if c.Some? && c.value.kind == Proxy && c.value.mux == Some(client)
    then Some(c.value.(kind := Detached, mux := None))
    else c
  }

  /** channel_free. */
  function Release(t: Table, i: nat): Table
    requires i < |t|
  {
    if t[i].Some? && t[i].value.kind == Client
    then seq(|t|, j requires 0 <= j < |t| => if j == i then None else Detach(t[j], i))
    else t[i := None]
  }

  // ---------------------------------------------------------------- messages from clients

  /** A type or name, a channel id, and what follows. */
  datatype Opening = Opening(name: seq<byte>, id: u32, rest: seq<byte>)

  function ParseOpen(m: seq<byte>): Option<Opening> {
    match TakeCString(m)
    case Failed(_, _) => None
    case Got(name, m1) =>
      match TakeU32(m1)
      case Failed(_, _) => None
      case Got(id, rest) => Some(Opening(name, id, rest))
  }

  datatype Confirming = Confirming(remoteId: u32, id: u32, rest: seq<byte>)

  function ParseConfirm(m: seq<byte>): Option<Confirming> {
    match TakeU32(m)
    case Failed(_, _) => None
    case Got(remoteId, m1) =>
      match TakeU32(m1)
      case Failed(_, _) => None
      case Got(id, rest) => Some(Confirming(remoteId, id, rest))
  }

  function NewProxy(client: nat, id: u32): Chan { Chan(Proxy, Some(client), id, 0, false, false, false, []) }

  datatype Outcome = Done(mux: Mux) | Rejected | TooMany

  function Send(s: Mux, packet: seq<byte>): Mux { s.(wire := s.wire + [packet]) }

  function OpenPacket(o: Opening, slot: nat): seq<byte>
    requires |o.name| < U32 && slot < U32
  {
    [OPEN] + StringBytes(o.name) + Be32(slot) + o.rest
  }

  function ConfirmPacket(c: Confirming, slot: nat): seq<byte>
    requires slot < U32
  {
    [OPEN_CONFIRMATION] + Be32(c.remoteId) + Be32(slot) + c.rest
  }

  lemma NameFits(m: seq<byte>)
    ensures ParseOpen(m).Some? ==> |ParseOpen(m).value.name| <= SIZE_MAX - 4
  {
  }

  function DownOpen(s: Mux, client: nat, m: seq<byte>): Outcome {
    NameFits(m);
    match ParseOpen(m)
    case None => Rejected
    case Some(o) =>
      match Place(s.table, NewProxy(client, o.id))
      case Full => TooMany
      case Placed(t, slot) => Done(Send(Mux(t, s.wire), OpenPacket(o, slot)))
  }

  function DownConfirm(s: Mux, client: nat, m: seq<byte>): Outcome {
    match ParseConfirm(m)
    case None => Rejected
    case Some(c) =>
      match Place(s.table, NewProxy(client, c.id).(remoteId := c.remoteId, haveRemoteId := true))
      case Full => TooMany
      case Placed(t, slot) => Done(Send(Mux(t, s.wire), ConfirmPacket(c, slot)))
  }

  /** A CLOSE in one direction: the slot goes when the other direction is closed already. */
  function Closing(t: Table, i: nat, down: bool): Table
    requires i < |t| && t[i].Some?
  {
    var c := t[i].value;
    if (if down then c.closeRcvd else c.closeSent) then Release(t, i)
    else t[i := Some(if down then c.(closeSent := true) else c.(closeRcvd := true))]
  }

  function DownClose(s: Mux, m: seq<byte>): Outcome {
    var sent := Send(s, [CLOSE] + m);
    if |m| < 4 then Done(sent)
    else
      var i := ByRemoteId(s.table, Peek32(m[..4]));
      if i == |s.table| then Done(sent) else Done(sent.(table := Closing(s.table, i, true)))
  }

  const TCPIP_FORWARD := "tcpip-forward"

  /** A global request may only ask for a TCP forwarding to an existing port number. */
  predicate AllowedRequest(m: seq<byte>) {
    match TakeCString(m)
    case Failed(_, _) => false
    case Got(name, m1) =>
      name == Text(TCPIP_FORWARD)
      && match TakeU8(m1)
         case Failed(_, _) => false
         case Got(_, m2) =>
           match TakeCString(m2)
           case Failed(_, _) => false
           case Got(_, m3) =>
             match TakeU32(m3)
             case Failed(_, _) => false
             case Got(port, _) => port <= 65535
  }

  function Text(s: string): seq<byte>
    requires forall i | 0 <= i < |s| :: s[i] as int < 256
  {
    seq(|s|, i requires 0 <= i < |s| => s[i] as int)
  }

  /** channel_proxy_downstream, on the string a client has sent. */
  function Down(s: Mux, client: nat, packet: seq<byte>): Outcome {
    if |packet| < 2 then Rejected
    else
      var kind, m := packet[1], packet[2..];
      if kind == OPEN then DownOpen(s, client, m)
      else if kind == OPEN_CONFIRMATION then DownConfirm(s, client, m)
      else if kind == CLOSE then DownClose(s, m)
      else if kind == 80 && !AllowedRequest(m) then Rejected
      else Done(Send(s, [kind] + m))
  }

  // ---------------------------------------------------------------- messages from the server

  predicate ChannelMessage(kind: byte) { 91 <= kind <= 100 }

  /** What a client is sent: padding length, type, its own id, and the payload, as one string. */
  function Restored(kind: byte, id: u32, payload: seq<byte>): seq<byte>
    requires |payload| + 6 < U32
  {
    StringBytes([0, kind] + Be32(id) + payload)
  }

  /** Appending to a client's output, if there is room. */
  function Deliver(t: Table, client: nat, bytes: seq<byte>): (r: Table)
    ensures |r| == |t| && forall j | 0 <= j < |t| :: r[j].Some? == t[j].Some?
  {
    if client < |t| && t[client].Some? && |t[client].value.output| + |bytes| <= SIZE_MAX
    then t[client := Some(t[client].value.(output := t[client].value.output + bytes))]
    else t
  }

  /** Whether a message to this channel goes to a client. */
  predicate Proxied(t: Table, i: nat, kind: byte) {
    i < |t| && t[i].Some? && t[i].value.kind == Proxy && t[i].value.mux.Some? && ChannelMessage(kind)
  }

  /** channel_proxy_upstream for a message to channel i, with the payload after the id. */
  function Up(s: Mux, i: nat, kind: byte, payload: seq<byte>): Mux
    requires |payload| + 6 < U32
  {
    if !Proxied(s.table, i, kind) then s
    else
      var c := s.table[i].value;
      var t := Deliver(s.table, c.mux.value, Restored(kind, c.downstreamId, payload));
      if kind == OPEN_CONFIRMATION then
        if |payload| > 4
        then s.(table := t[i := Some(t[i].value.(remoteId := Peek32(payload[..4]), haveRemoteId := true))])
        else s.(table := t)
      else if kind == CLOSE then s.(table := Closing(t, i, false))
      else s.(table := t)
  }

  // ---------------------------------------------------------------- runs

  datatype Event =
    | FromClient(client: nat, packet: seq<byte>)
    | FromServer(id: nat, kind: byte, payload: seq<byte>)
    | NewChannel(chan: Chan)
    | Learn(id: nat, remoteId: u32)
    | Free(id: nat)
    | Flush(client: nat, n: nat)

  /** One step of any interleaving. Channels that are not proxies may come, be confirmed and go at any time. */
  function Step(s: Mux, e: Event): Option<Mux> {
    match e
    case FromClient(client, packet) =>
      if At(s.table, client).None? || At(s.table, client).value.kind != Client then None
      else (match Down(s, client, packet)
            case Done(t) => Some(t)
            case Rejected => Some(s)
            case TooMany => None)
    case FromServer(id, kind, payload) =>
      if |payload| + 6 >= U32 then None else Some(Up(s, id, kind, payload))
    case NewChannel(c) =>
      if c.kind == Proxy || (c.kind == Client && c.haveRemoteId) then None
      else (match Place(s.table, c)
            case Full => None
            case Placed(t, _) => Some(s.(table := t)))
    case Learn(id, r) =>
      if At(s.table, id).None? || At(s.table, id).value.kind != Other then None
      else Some(s.(table := s.table[id := Some(s.table[id].value.(remoteId := r, haveRemoteId := true))]))
    case Free(id) =>
      if At(s.table, id).None? || At(s.table, id).value.kind == Proxy then None
      else Some(s.(table := Release(s.table, id)))
    case Flush(client, n) =>
      if At(s.table, client).None? then None
      else
        var c := s.table[client].value;
        Some(s.(table := s.table[client := Some(c.(output := c.output[Min(n, |c.output|)..]))]))
  }

  predicate Trace(states: seq<Mux>, events: seq<Event>) {
    |states| == |events| + 1 && forall i | 0 <= i < |events| :: Step(states[i], events[i]) == Some(states[i + 1])
  }

  /** Clients' own channels have no remote id, and every proxy points to a client that is there. */
  ghost predicate Ok(t: Table) {
    (forall i: nat | At(t, i).Some? && At(t, i).value.kind == Client :: !At(t, i).value.haveRemoteId)
    && (forall i: nat | At(t, i).Some? && At(t, i).value.kind == Proxy ::
          At(t, i).value.mux.Some? && IsClient(t, At(t, i).value.mux.value))
  }

  predicate IsClient(t: Table, i: nat) { At(t, i).Some? && At(t, i).value.kind == Client }

  // ---------------------------------------------------------------- what a step can change

  /** One channel differs at most, keeping its place, its client and its translation. */
  ghost predicate Retouched(t: Table, u: Table, i: nat) {
    (forall j: nat | j != i :: At(u, j) == At(t, j))
    && At(t, i).Some? && At(u, i).Some?
    && var c, d := At(t, i).value, At(u, i).value;
       d.kind == c.kind && d.mux == c.mux && d.downstreamId == c.downstreamId
       && (c.kind == Client ==> d.haveRemoteId == c.haveRemoteId)
  }

  /** One channel came or went, and no client. */
  ghost predicate Swapped(t: Table, u: Table, i: nat) {
    (forall j: nat | j != i :: At(u, j) == At(t, j)) && !IsClient(t, i)
    && (At(u, i).Some? ==>
          (At(u, i).value.kind == Proxy ==> At(u, i).value.mux.Some? && IsClient(t, At(u, i).value.mux.value))
          && (At(u, i).value.kind == Client ==> !At(u, i).value.haveRemoteId))
  }

  lemma RetouchedOk(t: Table, u: Table, i: nat)
    requires Ok(t) && Retouched(t, u, i)
    ensures Ok(u)
  {
    hide At;
    forall j: nat | At(u, j).Some? && At(u, j).value.kind == Proxy
      ensures At(u, j).value.mux.Some? && IsClient(u, At(u, j).value.mux.value)
    {
      assert At(t, j).Some? && At(t, j).value.kind == Proxy;
      assert IsClient(t, At(t, j).value.mux.value);
    }
  }

  lemma SwappedOk(t: Table, u: Table, i: nat)
    requires Ok(t) && Swapped(t, u, i)
    ensures Ok(u)
  {
    hide At;
    forall j: nat | At(u, j).Some? && At(u, j).value.kind == Proxy
      ensures At(u, j).value.mux.Some? && IsClient(u, At(u, j).value.mux.value)
    {
      assert j != i ==> At(t, j) == At(u, j);
      assert IsClient(t, At(u, j).value.mux.value);
      assert At(u, j).value.mux.value != i;
    }
  }

  lemma ReleaseAt(t: Table, i: nat, j: nat)
    requires i < |t| && t[i].Some?
    ensures At(Release(t, i), j) ==
      if j == i then None else if t[i].value.kind == Client then Detach(At(t, j), i) else At(t, j)
  {
  }

  lemma ReleaseOk(t: Table, i: nat)
    requires Ok(t) && i < |t| && t[i].Some? && t[i].value.kind != Proxy
    ensures Ok(Release(t, i))
  {
    var u := Release(t, i);
    forall j: nat
      ensures At(u, j) == if j == i then None else if t[i].value.kind == Client then Detach(At(t, j), i) else At(t, j)
    {
      ReleaseAt(t, i, j);
    }
    hide At, Release;
    assert At(t, i) == t[i] by { AtIn(t, i); }
    forall j: nat | At(u, j).Some? && At(u, j).value.kind == Proxy
      ensures At(u, j).value.mux.Some? && IsClient(u, At(u, j).value.mux.value)
    {
      assert At(t, j) == At(u, j);
      var m := At(t, j).value.mux.value;
      assert IsClient(t, m);
      assert At(u, m) == At(t, m);
    }
    forall j: nat | At(u, j).Some? && At(u, j).value.kind == Client
      ensures !At(u, j).value.haveRemoteId
    {
      assert At(t, j) == At(u, j);
    }
  }

  lemma AtIn(t: Table, i: nat)
    ensures i < |t| ==> At(t, i) == t[i]
  {
  }

  /** A CLOSE retouches a channel or releases it. */
  lemma ClosingChanges(t: Table, i: nat, down: bool)
    requires i < |t| && t[i].Some? && t[i].value.kind != Client
    ensures var c := t[i].value;
      var u := Closing(t, i, down);
      if (if down then c.closeRcvd else c.closeSent) then Swapped(t, u, i) && At(u, i).None?
      else Retouched(t, u, i) && At(u, i) == Some(if down then c.(closeSent := true) else c.(closeRcvd := true))
  {
  }

  /** How one message from a client changes the table. */
  lemma DownChanges(s: Mux, client: nat, packet: seq<byte>)
    requires Ok(s.table) && IsClient(s.table, client) && Down(s, client, packet).Done?
    ensures var u := Down(s, client, packet).mux.table;
      if packet[1] != CLOSE then u == s.table || exists i: nat :: Opened(s.table, u, i)
      else if |packet| < 6 then u == s.table
      else
        var i := ByRemoteId(s.table, Peek32(packet[2..][..4]));
        u == if i == |s.table| then s.table else Closing(s.table, i, true)
  {
    hide ParseOpen, ParseConfirm, OpenPacket, ConfirmPacket, Place, Closing, AllowedRequest, Peek32, ByRemoteId;
    var m := packet[2..];
    if packet[1] == OPEN {
      NameFits(m);
      var c := NewProxy(client, ParseOpen(m).value.id);
      PlaceFacts(s.table, c);
      assert Opened(s.table, Down(s, client, packet).mux.table, Place(s.table, c).slot);
    } else if packet[1] == OPEN_CONFIRMATION {
      var p := ParseConfirm(m).value;
      var c := NewProxy(client, p.id).(remoteId := p.remoteId, haveRemoteId := true);
      PlaceFacts(s.table, c);
      assert Opened(s.table, Down(s, client, packet).mux.table, Place(s.table, c).slot);
    }
  }

  /** A new channel in a slot that was free. */
  ghost predicate Opened(t: Table, u: Table, i: nat) { At(t, i).None? && Swapped(t, u, i) }

  lemma DoneLong(s: Mux, client: nat, packet: seq<byte>)
    requires Down(s, client, packet).Done?
    ensures |packet| >= 2
  {
  }

  lemma DeliverChanges(t: Table, client: nat, bytes: seq<byte>)
    ensures var u := Deliver(t, client, bytes);
      (forall j: nat | j != client :: At(u, j) == At(t, j))
      && (IsClient(t, client) ==> Retouched(t, u, client))
  {
  }

  lemma RemoteIdFound(t: Table, r: u32)
    ensures var i := ByRemoteId(t, r);
      i < |t| ==> At(t, i).Some? && At(t, i).value.haveRemoteId && At(t, i).value.remoteId == r
  {
  }

  /** The invariant is kept by every step. */
  lemma StepOk(s: Mux, e: Event)
    requires Ok(s.table) && Step(s, e).Some?
    ensures Ok(Step(s, e).value.table)
  {
    match e
    case FromClient(client, packet) =>
      hide Down;
      if Down(s, client, packet).Done? {
        FromClientOk(s, client, packet);
      }
    case FromServer(id, kind, payload) => FromServerOk(s, id, kind, payload);
    case NewChannel(c) =>
      hide Place, Ok;
      PlaceFacts(s.table, c);
      SwappedOk(s.table, Place(s.table, c).table, Place(s.table, c).slot);
    case Learn(id, r) =>
      hide Ok;
      RetouchedOk(s.table, Step(s, e).value.table, id);
    case Free(id) => ReleaseOk(s.table, id);
    case Flush(client, n) =>
      hide Ok;
      RetouchedOk(s.table, Step(s, e).value.table, client);
  }

  lemma FromClientOk(s: Mux, client: nat, packet: seq<byte>)
    requires Ok(s.table) && IsClient(s.table, client) && Down(s, client, packet).Done?
    ensures Ok(Down(s, client, packet).mux.table)
  {
    hide Down, Closing, ByRemoteId, Peek32;
    DownChanges(s, client, packet);
    DoneLong(s, client, packet);
    var u := Down(s, client, packet).mux.table;
    if packet[1] != CLOSE {
      if i: nat :| Opened(s.table, u, i) {
        SwappedOk(s.table, u, i);
      }
    } else if |packet| >= 6 {
      var r := Peek32(packet[2..][..4]);
      var i := ByRemoteId(s.table, r);
      RemoteIdFound(s.table, r);
      if i < |s.table| {
        ClosingOk(s.table, i, true);
      }
    }
  }

  lemma ClosingOk(t: Table, i: nat, down: bool)
    requires Ok(t) && i < |t| && t[i].Some? && t[i].value.kind != Client
    ensures Ok(Closing(t, i, down))
  {
    hide Ok, Closing;
    ClosingChanges(t, i, down);
    if (if down then t[i].value.closeRcvd else t[i].value.closeSent) {
      SwappedOk(t, Closing(t, i, down), i);
    } else {
      RetouchedOk(t, Closing(t, i, down), i);
    }
  }

  lemma FromServerOk(s: Mux, id: nat, kind: byte, payload: seq<byte>)
    requires Ok(s.table) && |payload| + 6 < U32
    ensures Ok(Up(s, id, kind, payload).table)
  {
    hide Closing, Deliver, Restored, Peek32;
    if Proxied(s.table, id, kind) {
      var c := s.table[id].value;
      var bytes := Restored(kind, c.downstreamId, payload);
      var t := Deliver(s.table, c.mux.value, bytes);
      assert At(s.table, id) == Some(c);
      DeliverChanges(s.table, c.mux.value, bytes);
      RetouchedOk(s.table, t, c.mux.value);
      assert At(t, id) == At(s.table, id);
      if kind == OPEN_CONFIRMATION {
        if |payload| > 4 {
          hide Ok;
          RetouchedOk(t, Up(s, id, kind, payload).table, id);
        }
      } else if kind == CLOSE {
        ClosingOk(t, id, false);
      }
    }
  }

  // ---------------------------------------------------------------- one proxied channel

  /** The slot translates between its server-side id and id `id` of the client. */
  ghost predicate Attached(t: Table, slot: nat, client: nat, id: u32) {
    At(t, slot).Some? && At(t, slot).value.kind == Proxy && At(t, slot).value.mux == Some(client)
    && At(t, slot).value.downstreamId == id && IsClient(t, client)
  }

  ghost predicate Marks(t: Table, slot: nat, sent: bool, rcvd: bool) {
    At(t, slot).Some? && At(t, slot).value.closeSent == sent && At(t, slot).value.closeRcvd == rcvd
  }

  /** No other channel has the slot's remote id. */
  ghost predicate Unshared(t: Table, slot: nat) {
    At(t, slot).Some? && At(t, slot).value.haveRemoteId ==>
      forall j: nat | j != slot && At(t, j).Some? && At(t, j).value.haveRemoteId ::
        At(t, j).value.remoteId != At(t, slot).value.remoteId
  }

  /** A client's CLOSE naming the remote id that the slot has. */
  ghost predicate ClientCloses(s: Mux, e: Event, slot: nat) {
    e.FromClient? && |e.packet| >= 6 && e.packet[1] == 97
    && At(s.table, slot).Some? && At(s.table, slot).value.haveRemoteId
    && At(s.table, slot).value.remoteId == Peek32(e.packet[2..][..4])
  }

  ghost predicate ServerCloses(e: Event, slot: nat) { e.FromServer? && e.id == slot && e.kind == 97 }

  /** The step's effect on the slot: a CLOSE is marked, the second of the two releases it, nothing else touches it. */
  ghost predicate Follows(t: Table, u: Table, slot: nat, client: nat, id: u32, down: bool, up: bool)
    requires At(t, slot).Some?
  {
    var c := At(t, slot).value;
    if (c.closeSent || down) && (c.closeRcvd || up) then At(u, slot).None?
    else Attached(u, slot, client, id) && Marks(u, slot, c.closeSent || down, c.closeRcvd || up)
  }

  lemma RemoteIdUnique(t: Table, r: u32, slot: nat)
    requires At(t, slot).Some? && At(t, slot).value.haveRemoteId && At(t, slot).value.remoteId == r && Unshared(t, slot)
    ensures ByRemoteId(t, r) == slot
  {
    hide ByRemoteId;
    RemoteIdFound(t, r);
    var i := ByRemoteId(t, r);
    assert i <= slot by { assert t[slot] == At(t, slot); }
  }

  lemma FromClientFollows(s: Mux, client: nat, packet: seq<byte>, slot: nat, owner: nat, id: u32)
    requires Ok(s.table) && IsClient(s.table, client) && Down(s, client, packet).Done?
    requires Attached(s.table, slot, owner, id) && Unshared(s.table, slot)
    requires !(At(s.table, slot).value.closeSent && At(s.table, slot).value.closeRcvd)
    ensures Follows(s.table, Down(s, client, packet).mux.table, slot, owner, id,
                    ClientCloses(s, FromClient(client, packet), slot), false)
  {
    hide Down, Closing, ByRemoteId, Peek32, Unshared;
    DownChanges(s, client, packet);
    DoneLong(s, client, packet);
    var u := Down(s, client, packet).mux.table;
    if packet[1] != CLOSE {
      if i: nat :| Opened(s.table, u, i) {
        assert i != slot && i != owner;
      }
    } else if |packet| >= 6 {
      var r := Peek32(packet[2..][..4]);
      var i := ByRemoteId(s.table, r);
      RemoteIdFound(s.table, r);
      if ClientCloses(s, FromClient(client, packet), slot) {
        RemoteIdUnique(s.table, r, slot);
      }
      if i < |s.table| {
        assert At(s.table, i) == s.table[i];
        ClosingChanges(s.table, i, true);
      }
    }
  }

  lemma FromServerFollows(s: Mux, i: nat, kind: byte, payload: seq<byte>, slot: nat, owner: nat, id: u32)
    requires Ok(s.table) && |payload| + 6 < U32
    requires Attached(s.table, slot, owner, id)
    requires !(At(s.table, slot).value.closeSent && At(s.table, slot).value.closeRcvd)
    ensures Follows(s.table, Up(s, i, kind, payload).table, slot, owner, id, false, i == slot && kind == CLOSE)
  {
    hide Closing, Deliver, Restored, Peek32;
    assert At(s.table, slot) == s.table[slot];
    if Proxied(s.table, i, kind) {
      var c := s.table[i].value;
      var bytes := Restored(kind, c.downstreamId, payload);
      var t := Deliver(s.table, c.mux.value, bytes);
      assert At(s.table, i) == Some(c);
      DeliverChanges(s.table, c.mux.value, bytes);
      assert At(t, i) == At(s.table, i);
      assert At(t, slot) == At(s.table, slot);
      if kind == CLOSE {
        ClosingChanges(t, i, false);
      }
    }
  }

  /** Every step but the client's own end. */
  lemma StepFollows(s: Mux, e: Event, slot: nat, client: nat, id: u32)
    requires Ok(s.table) && Step(s, e).Some? && e != Free(client)
    requires Attached(s.table, slot, client, id) && Unshared(s.table, slot)
    requires !(At(s.table, slot).value.closeSent && At(s.table, slot).value.closeRcvd)
    ensures Follows(s.table, Step(s, e).value.table, slot, client, id, ClientCloses(s, e, slot), ServerCloses(e, slot))
  {
    match e
    case FromClient(from, packet) =>
      hide Down;
      if Down(s, from, packet).Done? {
        FromClientFollows(s, from, packet, slot, client, id);
      } else {
        RejectedClose(s, from, packet);
      }
    case FromServer(i, kind, payload) =>
      hide Up;
      FromServerFollows(s, i, kind, payload, slot, client, id);
    case NewChannel(c) =>
      hide Place;
      PlaceFacts(s.table, c);
    case Learn(i, r) =>
    case Free(i) =>
      ReleaseAt(s.table, i, slot);
      ReleaseAt(s.table, i, client);
    case Flush(i, n) =>
  }

  /** A CLOSE is never rejected. */
  lemma RejectedClose(s: Mux, client: nat, packet: seq<byte>)
    requires !Down(s, client, packet).Done?
    ensures |packet| < 2 || packet[1] != CLOSE
  {
  }

  // ---------------------------------------------------------------- theorems over runs

  /** The id a client's message gives for a new channel, if it is one. */
  function Proposed(packet: seq<byte>): Option<u32> {
    if |packet| < 2 then None
    else if packet[1] == 90 then
      match ParseOpen(packet[2..])
      case None => None
      case Some(o) => Some(o.id)
    else if packet[1] == 91 then
      match ParseConfirm(packet[2..])
      case None => None
      case Some(c) => Some(c.id)
    else None
  }

  /** The step at which a client's OPEN or OPEN_CONFIRMATION is forwarded with the slot in place of the client's id. */
  ghost predicate Places(s: Mux, e: Event, t: Mux, slot: nat, client: nat, id: u32) {
    e.FromClient? && e.client == client && Proposed(e.packet) == Some(id)
    && Step(s, e) == Some(t) && slot == FirstFree(s.table)
  }

  function ParseForwarded(packet: seq<byte>): Option<u32> {
    if packet == [] then None
    else if packet[0] == OPEN then
      match ParseOpen(packet[1..])
      case None => None
      case Some(o) => Some(o.id)
    else if packet[0] == OPEN_CONFIRMATION then
      match ParseConfirm(packet[1..])
      case None => None
      case Some(c) => Some(c.id)
    else None
  }

  lemma OpenForwarded(o: Opening, slot: nat, m: seq<byte>)
    requires ParseOpen(m) == Some(o) && slot < U32 && |o.name| < U32
    ensures ParseOpen(OpenPacket(o, slot)[1..]) == Some(o.(id := slot))
  {
    NameFits(m);
    hide TakeU32, Be32, TakeString;
    TakenIsCString(m);
    assert OpenPacket(o, slot)[1..] == StringBytes(o.name) + (Be32(slot) + o.rest);
    hide TakeCString, StringBytes;
    CStringRoundTrip(o.name, Be32(slot) + o.rest);
    U32RoundTrip(slot, o.rest);
  }

  lemma ConfirmForwarded(c: Confirming, slot: nat)
    requires slot < U32
    ensures ParseConfirm(ConfirmPacket(c, slot)[1..]) == Some(c.(id := slot))
  {
    hide TakeU32, Be32;
    assert ConfirmPacket(c, slot)[1..] == Be32(c.remoteId) + (Be32(slot) + c.rest);
    U32RoundTrip(c.remoteId, Be32(slot) + c.rest);
    U32RoundTrip(slot, c.rest);
  }

  /** A placement takes a free slot, puts its number into the forwarded message in place of the client's id and changes
      nothing else of that message; the slot then translates back. */
  lemma PlacementMeans(s: Mux, e: Event, t: Mux, slot: nat, client: nat, id: u32)
    requires Places(s, e, t, slot, client, id)
    ensures At(s.table, slot).None?
    ensures Attached(t.table, slot, client, id) && Marks(t.table, slot, false, false)
    ensures e.packet[1] == OPEN ==> !At(t.table, slot).value.haveRemoteId
    ensures e.packet[1] != OPEN ==>
      At(t.table, slot).value.haveRemoteId
      && At(t.table, slot).value.remoteId == ParseConfirm(e.packet[2..]).value.remoteId
    ensures |t.wire| == |s.wire| + 1 && t.wire[..|s.wire|] == s.wire
    ensures ParseForwarded(t.wire[|s.wire|]) == Some(slot)
    ensures |t.wire[|s.wire|]| >= 1 && t.wire[|s.wire|][0] == e.packet[1]
    ensures e.packet[1] == OPEN ==>
      ParseOpen(t.wire[|s.wire|][1..]) == Some(ParseOpen(e.packet[2..]).value.(id := slot))
    ensures e.packet[1] != OPEN ==>
      ParseConfirm(t.wire[|s.wire|][1..]) == Some(ParseConfirm(e.packet[2..]).value.(id := slot))
  {
    hide ParseOpen, ParseConfirm;
    var m := e.packet[2..];
    if e.packet[1] == OPEN {
      var o := ParseOpen(m).value;
      NameFits(m);
      OpenForwarded(o, slot, m);
      PlaceFacts(s.table, NewProxy(client, o.id));
    } else {
      var c := ParseConfirm(m).value;
      ConfirmForwarded(c, slot);
      PlaceFacts(s.table, NewProxy(client, c.id).(remoteId := c.remoteId, haveRemoteId := true));
    }
  }

  /** The life of a channel after its placement: which sides have closed it. */
  datatype Life = Live(sent: bool, rcvd: bool) | Released

  ghost function Lives(l: Life, s: Mux, e: Event, slot: nat): Life {
    match l
    case Released => Released
    case Live(sent, rcvd) =>
      var x, y := sent || ClientCloses(s, e, slot), rcvd || ServerCloses(e, slot);
      if x && y then Released else Live(x, y)
  }

  ghost function LifeAt(states: seq<Mux>, events: seq<Event>, slot: nat, k: nat, n: nat): Life
    requires k < n <= |events| && |states| == |events| + 1
    decreases n
  {
    if n == k + 1 then Live(false, false)
    else Lives(LifeAt(states, events, slot, k, n - 1), states[n - 1], events[n - 1], slot)
  }

  /** Between a placement and state n the client stays, and no other channel has the slot's remote id while it lives. */
  ghost predicate Undisturbed(states: seq<Mux>, events: seq<Event>, slot: nat, client: nat, k: nat, n: nat)
    requires k < n <= |events| && |states| == |events| + 1
  {
    forall i | k < i < n ::
      events[i] != Free(client)
      && (LifeAt(states, events, slot, k, i).Live? ==> Unshared(states[i].table, slot))
  }

  lemma {:induction false} RunOk(states: seq<Mux>, events: seq<Event>, n: nat)
    requires Trace(states, events) && Ok(states[0].table) && n <= |events|
    ensures Ok(states[n].table)
  {
    hide Ok, Step;
    if n > 0 {
      RunOk(states, events, n - 1);
      assert Step(states[n - 1], events[n - 1]) == Some(states[n]);
      StepOk(states[n - 1], events[n - 1]);
    }
  }

  /** The slot of a placed channel is held for it until CLOSE has passed in both directions, in either order, and is
      free at once when the second one has. */
  lemma {:induction false} ReleasedExactly(states: seq<Mux>, events: seq<Event>, slot: nat, client: nat, id: u32,
                                           k: nat, n: nat)
    requires Trace(states, events) && Ok(states[0].table) && k < n <= |events|
    requires Places(states[k], events[k], states[k + 1], slot, client, id)
    requires Undisturbed(states, events, slot, client, k, n)
    ensures match LifeAt(states, events, slot, k, n)
      case Live(sent, rcvd) =>
        !(sent && rcvd) && Attached(states[n].table, slot, client, id) && Marks(states[n].table, slot, sent, rcvd)
      case Released =>
        n > k + 1 && (LifeAt(states, events, slot, k, n - 1).Live? ==> At(states[n].table, slot).None?)
    decreases n
  {
    hide Step, Ok, Attached, Unshared, ClientCloses, ServerCloses;
    if n == k + 1 {
      PlacementMeans(states[k], events[k], states[k + 1], slot, client, id);
    } else {
      ReleasedExactly(states, events, slot, client, id, k, n - 1);
      RunOk(states, events, n - 1);
      var s, e := states[n - 1], events[n - 1];
      assert Step(s, e) == Some(states[n]);
      if LifeAt(states, events, slot, k, n - 1).Live? {
        StepFollows(s, e, slot, client, id);
      }
    }
  }

  /** A message for an attached slot goes to its client, whole and under the client's own id, and to nobody else. */
  lemma ServerMessageDelivered(s: Mux, slot: nat, client: nat, id: u32, kind: byte, payload: seq<byte>)
    requires Attached(s.table, slot, client, id) && 91 <= kind <= 100 && |payload| + 6 < U32
    requires |At(s.table, client).value.output| + |payload| + 10 <= SIZE_MAX
    ensures var u, c := Up(s, slot, kind, payload), At(s.table, client).value;
      At(u.table, client) == Some(c.(output := c.output + Restored(kind, id, payload)))
      && (forall j: nat | j != client && j != slot :: At(u.table, j) == At(s.table, j))
      && u.wire == s.wire
    ensures TakeString(Restored(kind, id, payload)) == Got([0, kind] + Be32(id) + payload, [])
  {
    hide Peek32, Be32, Closing;
    var body := [0, kind] + Be32(id) + payload;
    StringRoundTrip(body, []);
    assert StringBytes(body) + [] == StringBytes(body);
    assert |Restored(kind, id, payload)| == |payload| + 10;
    var t := Deliver(s.table, client, Restored(kind, id, payload));
    if kind == CLOSE {
      ClosingChanges(t, slot, false);
    }
  }

  /**
   In any run, whatever other clients do and whichever ids they use: a server message to the id placed in a forwarded
   OPEN or OPEN_CONFIRMATION reaches the client that sent it, under the id that client gave, as long as the channel
   lives.
   */
  lemma RoutedToOpener(states: seq<Mux>, events: seq<Event>, slot: nat, client: nat, id: u32, k: nat, n: nat,
                       kind: byte, payload: seq<byte>)
    requires Trace(states, events) && Ok(states[0].table) && k < n <= |events|
    requires Places(states[k], events[k], states[k + 1], slot, client, id)
    requires Undisturbed(states, events, slot, client, k, n) && LifeAt(states, events, slot, k, n).Live?
    requires 91 <= kind <= 100 && |payload| + 6 < U32
    requires At(states[n].table, client).Some? ==>
      |At(states[n].table, client).value.output| + |payload| + 10 <= SIZE_MAX
    ensures ParseForwarded(states[k + 1].wire[|states[k].wire|..][0]) == Some(slot)
    ensures var t, u := states[n].table, Up(states[n], slot, kind, payload).table;
      At(t, client).Some?
      && At(u, client) == Some(At(t, client).value.(output := At(t, client).value.output + Restored(kind, id, payload)))
      && forall j: nat | j != client && j != slot :: At(u, j) == At(t, j)
  {
    hide Step, Up, Restored, ParseForwarded;
    ReleasedExactly(states, events, slot, client, id, k, n);
    PlacementMeans(states[k], events[k], states[k + 1], slot, client, id);
    ServerMessageDelivered(states[n], slot, client, id, kind, payload);
  }

  /** Two channels that live at the same time have different ids towards the server, even when their clients gave the
      same id. */
  lemma LiveSlotsDiffer(states: seq<Mux>, events: seq<Event>, a: nat, c: nat, i: u32, k: nat,
                        b: nat, d: nat, j: u32, l: nat, n: nat)
    requires Trace(states, events) && Ok(states[0].table) && k < l < n <= |events|
    requires Places(states[k], events[k], states[k + 1], a, c, i)
    requires Places(states[l], events[l], states[l + 1], b, d, j)
    requires Undisturbed(states, events, a, c, k, n) && LifeAt(states, events, a, k, n).Live?
    ensures a != b
  {
    hide Step, Attached;
    PlacementMeans(states[l], events[l], states[l + 1], b, d, j);
    LifeEarlier(states, events, a, k, l, n);
    ReleasedExactly(states, events, a, c, i, k, l);
  }

  lemma {:induction false} LifeEarlier(states: seq<Mux>, events: seq<Event>, slot: nat, k: nat, l: nat, n: nat)
    requires k < l <= n <= |events| && |states| == |events| + 1 && LifeAt(states, events, slot, k, n).Live?
    ensures LifeAt(states, events, slot, k, l).Live?
    decreases n
  {
    if l < n {
      LifeEarlier(states, events, slot, k, l, n - 1);
    }
  }
}
