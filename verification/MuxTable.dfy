/** The channel table as the proxy code updates it. */
module MuxTable {
  import opened Bytes
  import opened Sshbufs
  import opened MuxProxy

  lemma FirstFreeIs(t: seq<Option<Chan>>, i: nat)
    requires i <= |t| && (forall j | 0 <= j < i :: t[j].Some?) && (i < |t| ==> t[i].None?)
    ensures FirstFree(t) == i
  {
    hide FirstFree;
    var f := FirstFree(t);
  }

  lemma ByRemoteIdIs(t: seq<Option<Chan>>, r: u32, i: nat)
    requires i <= |t|
    requires forall j | 0 <= j < i && t[j].Some? :: !(t[j].value.haveRemoteId && t[j].value.remoteId == r)
    requires i < |t| ==> t[i].Some? && t[i].value.haveRemoteId && t[i].value.remoteId == r
    ensures ByRemoteId(t, r) == i
  {
    hide ByRemoteId;
    var f := ByRemoteId(t, r);
  }

  /** struct ssh_channels, with what has been sent to the server. */
  class Channels {
    var channels: array<Option<Chan>>
    var wire: seq<seq<byte>>

    ghost predicate Valid()
      reads this
    {
      channels.Length <= MAX + 10
    }

    function State(): (s: Mux)
      requires Valid()
      reads this, channels
    {
      Mux(channels[..], wire)
    }

    constructor ()
      ensures Valid() && State() == Mux([], [])
    {
      channels := new Option<Chan>[0];
      wire := [];
    }

    /** channel_new; it fails when the table has reached its limit. */
    method New(c: Chan) returns (ok: bool, slot: nat)
      requires Valid()
      modifies this`channels, channels
      ensures Valid() && (channels == old(channels) || fresh(channels)) && (ok ==> slot < channels.Length)
      ensures match Place(old(channels[..]), c)
        case Full => !ok && State() == old(State())
        case Placed(t, i) => ok && slot == i && State() == Mux(t, wire)
    {
      var i := 0;
      while i < channels.Length && channels[i].Some?
        invariant i <= channels.Length
        invariant forall j | 0 <= j < i :: channels[j].Some?
      {
        i := i + 1;
      }
      FirstFreeIs(channels[..], i);
      ghost var was := channels[..];
      slot := i;
      if i == channels.Length {
        if channels.Length > MAX {
          return false, slot;
        }
        var before := channels;
        channels := new Option<Chan>[before.Length + 10](j requires 0 <= j < before.Length + 10 reads before =>
          if j < before.Length then before[j] else None);
        channels[i] := Some(c);
        assert channels[..] == was + [Some(c)] + Fresh(9);
      } else {
        channels[i] := Some(c);
        assert channels[..] == was[i := Some(c)];
      }
      return true, slot;
    }

    /** channel_by_remote_id; the table's length when there is none. */
    method FindRemoteId(r: u32) returns (i: nat)
      requires Valid()
      ensures i == ByRemoteId(channels[..], r)
    {
      i := 0;
      while i < channels.Length
        invariant i <= channels.Length
        invariant forall j | 0 <= j < i && channels[j].Some? ::
          !(channels[j].value.haveRemoteId && channels[j].value.remoteId == r)
      {
        var c := channels[i];
        if c.Some? && c.value.haveRemoteId && c.value.remoteId == r {
          break;
        }
        i := i + 1;
      }
      ByRemoteIdIs(channels[..], r, i);
    }

    /** channel_free: the proxies of a client are detached before its slot is emptied. */
    method FreeChannel(i: nat)
      requires Valid() && i < channels.Length && channels[i].Some?
      modifies channels
      ensures State() == old(State()).(table := Release(old(channels[..]), i))
    {
      ghost var t := channels[..];
      var client := channels[i].value.kind == Client;
      for j := 0 to channels.Length
        invariant channels.Length == |t|
        invariant forall k | 0 <= k < j :: channels[k] == if client then Detach(t[k], i) else t[k]
        invariant forall k | j <= k < |t| :: channels[k] == t[k]
      {
        var other := channels[j];
        if client && other.Some? && other.value.kind == Proxy && other.value.mux == Some(i) {
          channels[j] := Some(other.value.(mux := None, kind := Detached));
        }
      }
      channels[i] := None;
      assert channels[..] == Release(t, i);
    }

    /** A CLOSE from one side: released if the other has closed already, else marked. */
    method CloseChannel(i: nat, down: bool)
      requires Valid() && i < channels.Length && channels[i].Some?
      modifies channels
      ensures State() == old(State()).(table := Closing(old(channels[..]), i, down))
    {
      ghost var t := channels[..];
      var c := channels[i].value;
      if (down && c.closeRcvd) || (!down && c.closeSent) {
        FreeChannel(i);
      } else {
        channels[i] := Some(if down then c.(closeSent := true) else c.(closeRcvd := true));
        assert channels[..] == Closing(t, i, down);
      }
    }

    /** The OPEN case of channel_proxy_downstream. */
    method OpenDownstream(client: nat, m: seq<byte>) returns (r: int, fatal: bool)
      requires Valid()
      modifies this, channels
      ensures Valid()
      ensures Ended(DownOpen(old(State()), client, m), old(State()), State(), r, fatal)
    {
      hide TakeCString, TakeU32, Place, Be32;
      NameFits(m);
      r, fatal := -1, false;
      var original := new Sshbuf(m);
      var ctype := original.GetCString();
      if ctype.Err? {
        return;
      }
      var id := original.GetU32();
      if id.Err? {
        return;
      }
      var ok, slot := New(NewProxy(client, id.value));
      if !ok {
        return -1, true;
      }
      var modified := [OPEN] + StringBytes(ctype.value) + Be32(slot) + original.data;
      wire := wire + [modified];
      r := 0;
    }

    /** The OPEN_CONFIRMATION case. */
    method ConfirmDownstream(client: nat, m: seq<byte>) returns (r: int, fatal: bool)
      requires Valid()
      modifies this, channels
      ensures Valid()
      ensures Ended(DownConfirm(old(State()), client, m), old(State()), State(), r, fatal)
    {
      hide TakeU32, Place, Be32;
      r, fatal := -1, false;
      var original := new Sshbuf(m);
      var remoteId := original.GetU32();
      if remoteId.Err? {
        return;
      }
      var id := original.GetU32();
      if id.Err? {
        return;
      }
      var c := NewProxy(client, id.value).(remoteId := remoteId.value, haveRemoteId := true);
      var ok, slot := New(c);
      if !ok {
        return -1, true;
      }
      wire := wire + [[OPEN_CONFIRMATION] + Be32(remoteId.value) + Be32(slot) + original.data];
      r := 0;
    }

    /** The CLOSE case: the message is forwarded whether or not its channel is known. */
    method CloseDownstream(m: seq<byte>) returns (r: int)
      requires Valid()
      modifies this, channels
      ensures Valid() && r == 0
      ensures DownClose(old(State()), m) == Done(State())
    {
      hide ByRemoteId, Closing, Peek32;
      if |m| >= 4 {
        var i := FindRemoteId(Peek32(m[..4]));
        if i < channels.Length {
          FoundRemoteId(channels[..], Peek32(m[..4]));
          CloseChannel(i, true);
        }
      }
      wire := wire + [[CLOSE] + m];
      r := 0;
    }

    /** The check of global requests. */
    method CheckRequest(m: seq<byte>) returns (ok: bool)
      ensures ok == AllowedRequest(m)
    {
      hide TakeCString, TakeU32, TakeU8;
      var original := new Sshbuf(m);
      var ctype := original.GetCString();
      if ctype.Err? || ctype.value != Text(TCPIP_FORWARD) {
        return false;
      }
      var reply := original.GetU8();
      if reply.Err? {
        return false;
      }
      var host := original.GetCString();
      if host.Err? {
        return false;
      }
      var port := original.GetU32();
      if port.Err? {
        return false;
      }
      return port.value <= 65535;
    }

    /** channel_proxy_downstream on the next string of a client's input. */
    method ProxyDownstream(client: nat, packet: seq<byte>) returns (r: int, fatal: bool)
      requires Valid()
      modifies this, channels
      ensures Valid()
      ensures Ended(Down(old(State()), client, packet), old(State()), State(), r, fatal)
    {
      hide DownOpen, DownConfirm, DownClose, AllowedRequest;
      r, fatal := -1, false;
      if |packet| < 2 {
        return;
      }
      var kind, m := packet[1], packet[2..];
      if kind == OPEN {
        r, fatal := OpenDownstream(client, m);
        return;
      }
      if kind == OPEN_CONFIRMATION {
        r, fatal := ConfirmDownstream(client, m);
        return;
      }
      if kind == CLOSE {
        r := CloseDownstream(m);
        return;
      }
      if kind == 80 {
        var ok := CheckRequest(m);
        if !ok {
          return;
        }
      }
      wire := wire + [[kind] + m];
      r := 0;
    }

    /** channel_proxy_upstream: 1 when the message was for a client, 0 when it is for this process. */
    method ProxyUpstream(i: nat, kind: byte, payload: seq<byte>) returns (r: int)
      requires Valid() && |payload| + 6 < U32
      modifies channels
      ensures State() == Up(old(State()), i, kind, payload)
      ensures r == if Proxied(old(State()).table, i, kind) then 1 else 0
    {
      hide Closing, Restored, Peek32, Deliver;
      if i >= channels.Length || channels[i].None? || channels[i].value.kind != Proxy || channels[i].value.mux.None? {
        return 0;
      }
      if !(91 <= kind <= 100) {
        return 0;
      }
      ghost var t := channels[..];
      var c := channels[i].value;
      Append(c.mux.value, Restored(kind, c.downstreamId, payload));
      ghost var u := channels[..];
      var d := channels[i].value;
      if kind == OPEN_CONFIRMATION {
        if |payload| > 4 {
          channels[i] := Some(d.(remoteId := Peek32(payload[..4]), haveRemoteId := true));
          assert channels[..] == u[i := Some(d.(remoteId := Peek32(payload[..4]), haveRemoteId := true))];
        }
      } else if kind == CLOSE {
        CloseChannel(i, false);
      }
      return 1;
    }

    /** sshbuf_put_stringb on a client's output. */
    method Append(client: nat, bytes: seq<byte>)
      requires Valid()
      modifies channels
      ensures channels[..] == Deliver(old(channels[..]), client, bytes)
    {
      if client < channels.Length && channels[client].Some? && |channels[client].value.output| + |bytes| <= SIZE_MAX {
        var c := channels[client].value;
        channels[client] := Some(c.(output := c.output + bytes));
      }
    }
  }

  lemma FoundRemoteId(t: seq<Option<Chan>>, r: u32)
    ensures ByRemoteId(t, r) < |t| ==> t[ByRemoteId(t, r)].Some?
  {
  }

  /** How a call ends: sent with 0, refused with -1 and nothing changed, or the process gives up. */
  predicate Ended(o: Outcome, s: Mux, t: Mux, r: int, fatal: bool) {
    match o
    case Done(u) => !fatal && r == 0 && t == u
    case Rejected => !fatal && r == -1 && t == s
    case TooMany => fatal && t == s
  }
}
