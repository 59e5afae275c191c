/** What the handlers of one channel do, in terms of bytes, lengths and windows, whatever the peer sends. */
module ChannelFacts {
  import opened Bytes
  import opened Channels

  /** No bound on k can be raised. */
  predicate Largest(k: nat, bounds: seq<nat>) {
    (forall i | 0 <= i < |bounds| :: k <= bounds[i]) && k in bounds
  }

  /** A data packet holds the first bytes of the input, as many as are there, the window and the packet size allow. */
  lemma PollSendsMost(c: Chan)
    requires c.ctype.Open? && !c.closeSent && !c.closeRcvd && !c.istate.InClosed? && c.input != []
    ensures var (d, sent) := OutputPoll(c);
      if c.remoteWindow == 0 || c.remoteMaxpacket == 0 then sent == [] && d == c
      else
        |sent| == 1 && sent[0].Data? && sent[0].bytes + d.input == c.input
        && Largest(|sent[0].bytes|, [|c.input|, c.remoteWindow, c.remoteMaxpacket])
        && d.remoteWindow + |sent[0].bytes| == c.remoteWindow
        && d == c.(input := d.input, remoteWindow := d.remoteWindow)
  {
    var len := Min(Min(|c.input|, c.remoteWindow), c.remoteMaxpacket);
    assert c.input[..len] + c.input[len..] == c.input;
    var bounds: seq<nat> := [|c.input|, c.remoteWindow, c.remoteMaxpacket];
    assert len == bounds[0] || len == bounds[1] || len == bounds[2];
  }

  /** Credit is returned exactly when more than three packets or more than half of the window is missing. */
  lemma CreditReturnedWhen(c: Chan)
    requires c.ctype.Open? && !c.closeSent && !c.closeRcvd
    requires c.localWindow <= c.localWindowMax && 3 * c.localMaxpacket < U32
    ensures var (d, sent) := CheckWindow(c);
      sent ==
        if c.localConsumed > 0
           && (c.localWindow + 3 * c.localMaxpacket < c.localWindowMax || c.localWindow < c.localWindowMax / 2)
        then [Adjust(c.localConsumed)]
        else []
  {
  }

  /** Nothing is returned on a channel that is not open or is closing. */
  lemma NoCreditWhen(c: Chan)
    requires !c.ctype.Open? || c.closeSent || c.closeRcvd
    ensures CheckWindow(c) == (c, [])
  {
  }

  /** A read takes the first bytes on offer, as many as 32 kB, the peer's window and the buffer have room for. */
  lemma ReadTakesMost(c: Chan, bytes: seq<byte>)
    requires c.ctype.Open? && bytes != [] && |c.input| < 0x100_0000 && |c.input| < c.remoteWindow
    ensures var (d, got) := HandleRfd(c, ReadBytes(bytes));
      got <= bytes && d == c.(input := c.input + got)
      && Largest(|got|, [|bytes|, 0x8000, c.remoteWindow - |c.input|, 0x100_0000 - |c.input|])
  {
    var bounds: seq<nat> := [|bytes|, 0x8000, c.remoteWindow - |c.input|, 0x100_0000 - |c.input|];
    var got := HandleRfd(c, ReadBytes(bytes)).1;
    assert |got| == bounds[0] || |got| == bounds[1] || |got| == bounds[2] || |got| == bounds[3];
  }

  /** A channel reads as long as its input side is open and both the peer's window and the buffer have room. */
  lemma ReadsWhen(c: Chan)
    ensures WantRead(c) <==>
      c.istate.InOpen? && |c.input| < c.remoteWindow && |c.input| + 0x4000 <= 0x100_0000
  {
  }

  /** A data packet within its window and packet size is appended and charged. */
  lemma DataStoredWhen(c: Chan, data: seq<byte>)
    requires c.ctype.Open? && c.ostate.OutOpen? && |data| <= c.localMaxpacket && |data| <= c.localWindow
    ensures var (d, _) := InputData(c, data);
      d == c.(output := c.output + data, localWindow := c.localWindow - |data|, localWindowExceeded := 0)
  {
  }

  /** With the output side shut data is charged, counted as consumed, and dropped. */
  lemma DataDroppedWhen(c: Chan, data: seq<byte>)
    requires c.ctype.Open? && !c.ostate.OutOpen? && |data| <= c.localWindow && c.localConsumed + |data| < U32
    ensures var (d, _) := InputData(c, data);
      d == c.(localWindow := c.localWindow - |data|, localConsumed := c.localConsumed + |data|)
  {
  }

  /** A packet that is too big leaves no trace, nor does one for a channel that is not open. */
  lemma DataRefusedWhen(c: Chan, data: seq<byte>)
    requires !c.ctype.Open? || (c.ostate.OutOpen? && |data| > c.localMaxpacket)
    ensures InputData(c, data).0 == c
  {
  }

  /** A failed read lets an open channel send what it has read; any other channel is given up. */
  lemma FailedRead(c: Chan, res: ReadResult)
    requires res.ReadFailed? || res == ReadBytes([])
    requires |c.input| < 0x100_0000 && (c.ctype.Open? ==> |c.input| < c.remoteWindow)
    ensures HandleRfd(c, res) ==
      (if !c.ctype.Open? then c.(ctype := Dead)
       else if c.istate.InOpen? then c.(istate := InWaitDrain) else c, [])
  {
  }

  /** A failed write throws away what an open channel has to write and shuts its output; any other is given up. */
  lemma FailedWrite(c: Chan, res: WriteResult)
    requires (res.WriteFailed? || res == Wrote(0)) && c.output != [] && !c.ostate.OutClosed?
    ensures HandleWfd(c, res) ==
      (if !c.ctype.Open? then c.(ctype := Dead) else c.(output := [], ostate := OutClosed), [])
  {
  }

  /** A zombie is freed at once; a channel shut both ways says CLOSE once and is freed when the peer has, too. */
  lemma CollectedWhen(c: Chan)
    ensures var (d, sent) := Collect(c);
      if c.ctype.Dead? then d == c.(ctype := Freed) && sent == []
      else if !c.istate.InClosed? || !c.ostate.OutClosed? then d == c && sent == []
      else
        sent == (if c.closeSent then [] else [Close])
        && d == c.(closeSent := true, ctype := if c.closeRcvd then Freed else c.ctype)
  {
  }

  /** A drained input side is closed with an EOF, without one after CLOSE; any other state is left alone. */
  lemma InputClosedWhen(c: Chan)
    ensures var (d, sent) := IbufEmpty(c);
      if c.istate.InWaitDrain? && c.input == [] then
        d == c.(istate := InClosed, eofSent := c.eofSent || !c.closeSent) && sent == (if c.closeSent then [] else [Eof])
      else d == c && sent == []
  {
  }

  /** EOF drains the output, and under forced drain the input, too. */
  lemma EofMeans(c: Chan)
    ensures var (d, sent) := InputIeof(c);
      && d.eofRcvd && !d.ostate.OutOpen? && (c.output != [] && !c.ostate.OutClosed? ==> d.ostate.OutWaitDrain?)
      && (c.output == [] ==> d.ostate.OutClosed?)
      && (if c.forceDrain && c.istate.InOpen?
          then if c.input != [] then d.istate.InWaitDrain? && sent == [] else d.istate.InClosed?
          else d.istate == c.istate && sent == [])
      && d.input == c.input && d.output == c.output
  {
  }

  /** CLOSE stops the reading at once; what is there to write is still written, but for a larval channel. */
  lemma CloseMeans(c: Chan)
    ensures var (d, sent) := InputOclose(c);
      && d.closeRcvd && d.istate.InClosed?
      && (c.ctype.Larval? ==> d.ostate.OutClosed? && sent == [])
      && (!c.ctype.Larval? ==> d.ostate == if c.ostate.OutOpen? then OutWaitDrain else c.ostate)
      && (!c.ctype.Larval? ==> sent == if c.istate.InWaitDrain? then [Eof] else [])
      && d.input == c.input && d.output == c.output
  {
  }

  /** Credit is added to what may be sent, unless the sum is beyond 32 bits. */
  lemma AdjustedWhen(c: Chan, credit: u32)
    ensures InputAdjust(c, credit).Some? <==> c.remoteWindow + credit < 0x1_0000_0000
    ensures InputAdjust(c, credit).Some? ==>
      InputAdjust(c, credit).value == c.(remoteWindow := c.remoteWindow + credit)
  {
  }

  /** Only a channel that is being opened is confirmed, and only a larval one is given its descriptors. */
  lemma OpenedWhen(c: Chan, window: u32, maxpacket: u32)
    ensures InputConfirm(c, window, maxpacket).Some? <==> c.ctype.Opening?
    ensures Activate(c, window).Some? <==> c.ctype.Larval?
    ensures c.ctype.Opening? ==>
      InputConfirm(c, window, maxpacket).value
      == c.(ctype := Open, remoteWindow := window, remoteMaxpacket := maxpacket)
    ensures c.ctype.Larval? ==>
      Activate(c, window).value
      == (c.(ctype := Open, localWindow := window, localWindowMax := window), [Adjust(window)])
  {
  }

  // ---------------------------------------------------------------- a peer that ignores the window

  /** A packet beyond the window uses the window up, and what is beyond it is added to a sum that is limited. */
  lemma ExcessStep(c: Chan, data: seq<byte>)
    requires c.ctype.Open? && c.ostate.OutOpen? && c.localWindow < |data| <= c.localMaxpacket
    requires c.localWindowExceeded + |data| < U32
    ensures var (d, verdict) := InputData(c, data);
      var sum := c.localWindowExceeded + (|data| - c.localWindow);
      d.localWindow == 0 && d.localWindowExceeded == sum
      && (verdict.Disconnected? <==> sum > c.localWindowMax / 10)
      && (!verdict.Disconnected? ==>
            d == c.(output := c.output + data, localWindow := 0, localWindowExceeded := sum))
  {
  }

  /** The channel after packets all of which go beyond the window; None once the connection has been ended. */
  function Exceed(c: Chan, packets: seq<seq<byte>>): Option<Chan> {
    if packets == [] then Some(c)
    else
      match Exceed(c, packets[..|packets| - 1])
      case None => None
      case Some(d) =>
        var (e, verdict) := InputData(d, packets[|packets| - 1]);
        if verdict.Disconnected? then None else Some(e)
  }

  function Total(packets: seq<seq<byte>>): nat {
    if packets == [] then 0 else Total(packets[..|packets| - 1]) + |packets[|packets| - 1]|
  }

  /**
   A tenth of the maximum window is tolerated: after any non-empty packets none of which fits, the connection still
   stands exactly if the bytes beyond the window are no more than that, and then all of them are stored.
   */
  lemma {:induction false} ExcessTolerated(c: Chan, packets: seq<seq<byte>>)
    requires c.ctype.Open? && c.ostate.OutOpen? && c.localWindowExceeded == 0
    requires forall i | 0 <= i < |packets| :: 0 < |packets[i]| <= c.localMaxpacket
    requires packets != [] ==> |packets[0]| > c.localWindow
    requires Total(packets) < U32
    ensures packets != [] ==>
      Total(packets) > c.localWindow
      && (Exceed(c, packets).Some? <==> Total(packets) - c.localWindow <= c.localWindowMax / 10)
    ensures Exceed(c, packets).Some? ==>
      var d := Exceed(c, packets).value;
      d.ctype.Open? && d.ostate.OutOpen? && d.localMaxpacket == c.localMaxpacket && d.localWindowMax == c.localWindowMax
      && |d.output| == |c.output| + Total(packets)
      && (packets == [] ==> d == c)
      && (packets != [] ==> d.localWindow == 0 && d.localWindowExceeded == Total(packets) - c.localWindow)
  {
    hide InputData;
    if packets != [] {
      var front, last := packets[..|packets| - 1], packets[|packets| - 1];
      assert forall i | 0 <= i < |front| :: front[i] == packets[i];
      ExcessTolerated(c, front);
      if Exceed(c, front).Some? {
        ExcessStep(Exceed(c, front).value, last);
      }
    }
  }
}
