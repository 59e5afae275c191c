/**
 The per-channel half of the connection protocol: the fields of `Channel` that flow control and
 orderly shutdown depend on, every handler as a function on their values, and the object whose
 methods update those fields in place.
 */
module Channels {
  import opened Bytes

  const CHAN_RBUF := 16 * 1024
  const CHANNEL_MAX_READ := 32 * 1024
  const CHAN_INPUT_MAX := 16 * 1024 * 1024

  /** `Absent` and `Freed` stand for an empty slot before and after the channel's life, `Dead` for a zombie. */
  datatype ChanType = Absent | Opening | Connecting | Larval | Open | Dead | Freed

  datatype InState = InOpen | InWaitDrain | InClosed

  datatype OutState = OutOpen | OutWaitDrain | OutClosed

  datatype Msg =
    | OpenMsg(window: u32, maxpacket: u32)
    | Confirm(window: u32, maxpacket: u32)
    | Data(bytes: seq<byte>)
    | Adjust(credit: u32)
    | Eof
    | Close

  datatype Chan = Chan(
    ctype: ChanType,
    istate: InState,
    ostate: OutState,
    closeSent: bool,
    closeRcvd: bool,
    eofSent: bool,
    eofRcvd: bool,
    forceDrain: bool,
    remoteWindow: u32,
    remoteMaxpacket: u32,
    localWindow: u32,
    localWindowExceeded: u32,
    localWindowMax: u32,
    localConsumed: u32,
    localMaxpacket: u32,
    input: seq<byte>,
    output: seq<byte>)

  /** What `read` on the channel's descriptor has to offer; the kernel truncates to the length asked for. */
  datatype ReadResult = ReadAgain | ReadFailed | ReadBytes(bytes: seq<byte>)

  /** What `write` made of the output buffer; it never takes more than it was given. */
  datatype WriteResult = WriteAgain | WriteFailed | Wrote(n: nat)

  /** Which branch of `channel_input_data` a packet took. */
  datatype DataVerdict = Ignored | Discarded | BigPacket | Excess | Disconnected | Stored

  // ---------------------------------------------------------------- allocation

  function NewChan(t: ChanType, window: u32, maxpacket: u32): Chan {
    Chan(t, InOpen, OutOpen, false, false, false, false, false, 0, 0, window, 0, window, 0, maxpacket, [], [])
  }

  // ---------------------------------------------------------------- shutdown state machine

  /** chan_read_failed */
  function ReadShut(c: Chan): Chan {
    if c.istate.InOpen? then c.(istate := InWaitDrain) else c
  }

  /** chan_ibuf_empty, called with a drained input buffer */
  function IbufEmpty(c: Chan): (Chan, seq<Msg>) {
    if c.input != [] || !c.istate.InWaitDrain? then (c, [])
    else if c.closeSent then (c.(istate := InClosed), [])
    else (c.(istate := InClosed, eofSent := true), [Eof])
  }

  /** chan_obuf_empty */
  function ObufEmpty(c: Chan): Chan {
    if c.output == [] && c.ostate.OutWaitDrain? then c.(ostate := OutClosed) else c
  }

  /** chan_write_failed: the output buffer is reset */
  function WriteShut(c: Chan): Chan {
    if c.ostate.OutClosed? then c else c.(output := [], ostate := OutClosed)
  }

  /** chan_rcvd_eow: the peer will not look at our data any more */
  function RcvdEow(c: Chan): Chan {
    if c.istate.InOpen? then c.(istate := InClosed) else c
  }

  /** chan_rcvd_ieof, then the forced drain of channel_input_ieof */
  function InputIeof(c: Chan): (Chan, seq<Msg>) {
    var d := c.(eofRcvd := true, ostate := if c.ostate.OutOpen? then OutWaitDrain else c.ostate);
    var e := ObufEmpty(d);
    if e.forceDrain && e.istate.InOpen? then IbufEmpty(e.(istate := InWaitDrain)) else (e, [])
  }

  /** chan_rcvd_oclose */
  function InputOclose(c: Chan): (Chan, seq<Msg>) {
    if c.ctype.Larval? then (c.(closeRcvd := true, ostate := OutClosed, istate := InClosed), []) else
    var d := c.(closeRcvd := true, ostate := if c.ostate.OutOpen? then OutWaitDrain else c.ostate);
    match d.istate
    case InOpen => (d.(istate := InClosed), [])
    case InWaitDrain => (d.(istate := InClosed, eofSent := true), [Eof])
    case InClosed => (d, [])
  }

  /** chan_is_dead with do_send, followed by channel_free for a zombie or once both CLOSE messages have passed */
  function Collect(c: Chan): (Chan, seq<Msg>) {
    if c.ctype.Dead? then (c.(ctype := Freed), [])
    else if !c.istate.InClosed? || !c.ostate.OutClosed? then (c, [])
    else
      var d := c.(closeSent := true);
      (if d.closeRcvd then d.(ctype := Freed) else d, if c.closeSent then [] else [Close])
  }

  // ---------------------------------------------------------------- reading from the descriptor

  /** The part of channel_pre_open that arms the read descriptor. */
  predicate WantRead(c: Chan) {
    && c.istate.InOpen?
    && c.remoteWindow > 0
    && |c.input| < c.remoteWindow
    && |c.input| + CHAN_RBUF <= CHAN_INPUT_MAX
  }

  /** The part of channel_pre_open that arms the write descriptor. */
  predicate WantWrite(c: Chan) {
    !c.ostate.OutClosed? && c.output != []
  }

  /** The length channel_handle_rfd passes to `read`; 0 means that it returns without reading. */
  function ReadLimit(c: Chan): nat {
    if |c.input| >= CHAN_INPUT_MAX then 0
    else
      var avail := CHAN_INPUT_MAX - |c.input|;
      if c.ctype.Open? then
        if |c.input| >= c.remoteWindow then 0
        else Min(Min(CHANNEL_MAX_READ, c.remoteWindow - |c.input|), avail)
      else Min(CHANNEL_MAX_READ, avail)
  }

  /** channel_handle_rfd without filters; a failure shuts the input of an open channel and kills any other */
  function HandleRfd(c: Chan, res: ReadResult): (Chan, seq<byte>) {
    var limit := ReadLimit(c);
    if limit == 0 || res.ReadAgain? then (c, [])
    else if res.ReadFailed? || res.bytes == [] then (if c.ctype.Open? then ReadShut(c) else c.(ctype := Dead), [])
    else
      var got := res.bytes[..Min(limit, |res.bytes|)];
      (c.(input := c.input + got), got)
  }

  // ---------------------------------------------------------------- sending

  /** channel_output_poll for one channel without extended data */
  function OutputPoll(c: Chan): (Chan, seq<Msg>) {
    if !c.ctype.Open? || c.closeSent || c.closeRcvd || c.istate.InClosed? then (c, [])
    else if c.input == [] then
      if c.istate.InWaitDrain? then IbufEmpty(c) else (c, [])
    else
      var len := Min(Min(|c.input|, c.remoteWindow), c.remoteMaxpacket);
      if len == 0 then (c, [])
      else (c.(input := c.input[len..], remoteWindow := Sub32(c.remoteWindow, len)), [Data(c.input[..len])])
  }

  // ---------------------------------------------------------------- receiving

  /** channel_input_data on a channel that is not a datagram channel */
  function InputData(c: Chan, data: seq<byte>): (Chan, DataVerdict) {
    if !c.ctype.Open? then (c, Ignored)
    else if !c.ostate.OutOpen? then
      (c.(localWindow := if |data| > c.localWindow then 0 else c.localWindow - |data|,
          localConsumed := Add32(c.localConsumed, |data|)), Discarded)
    else if |data| > c.localMaxpacket then (c, BigPacket)
    else if |data| > c.localWindow then
      var exceeded := Add32(c.localWindowExceeded, |data| - c.localWindow);
      var d := c.(localWindowExceeded := exceeded, localWindow := 0);
      if exceeded > c.localWindowMax / 10 then (d, Disconnected)
      else (d.(output := c.output + data), Excess)
    else
      (c.(localWindow := c.localWindow - |data|, localWindowExceeded := 0, output := c.output + data), Stored)
  }

  /** channel_handle_wfd: what becomes of the channel, and the bytes written to the descriptor */
  function HandleWfd(c: Chan, res: WriteResult): (Chan, seq<byte>) {
    if c.output == [] || res.WriteAgain? then (c, [])
    else if res.WriteFailed? || res.n == 0 then (if c.ctype.Open? then WriteShut(c) else c.(ctype := Dead), [])
    else
      var n := Min(res.n, |c.output|);
      (c.(output := c.output[n..], localConsumed := Add32(c.localConsumed, n)), c.output[..n])
  }

  predicate AdjustDue(c: Chan) {
    && c.ctype.Open?
    && !c.closeSent && !c.closeRcvd
    && (Sub32(c.localWindowMax, c.localWindow) > Mul32(c.localMaxpacket, 3)
        || c.localWindow < c.localWindowMax / 2)
    && c.localConsumed > 0
  }

  /** channel_check_window */
  function CheckWindow(c: Chan): (Chan, seq<Msg>) {
    if AdjustDue(c) then
      (c.(localWindow := Add32(c.localWindow, c.localConsumed), localConsumed := 0), [Adjust(c.localConsumed)])
    else (c, [])
  }

  /** channel_input_window_adjust; None is the "adjust overflows remote window" fatal */
  function InputAdjust(c: Chan, credit: u32): Option<Chan> {
    var window := Add32(c.remoteWindow, credit);
    if window < c.remoteWindow then None else Some(c.(remoteWindow := window))
  }

  /** channel_input_open_confirmation; None is the disconnect for a channel that is not opening */
  function InputConfirm(c: Chan, window: u32, maxpacket: u32): Option<Chan> {
    if !c.ctype.Opening? then None
    else Some(c.(ctype := Open, remoteWindow := window, remoteMaxpacket := maxpacket))
  }

  /** channel_set_fds: a larval session channel becomes open and announces its window; None is the fatal exit */
  function Activate(c: Chan, windowMax: u32): Option<(Chan, seq<Msg>)> {
    if !c.ctype.Larval? then None
    else Some((c.(ctype := Open, localWindow := windowMax, localWindowMax := windowMax), [Adjust(windowMax)]))
  }

  // ---------------------------------------------------------------- the object

  class Channel {
    var ctype: ChanType
    var istate: InState
    var ostate: OutState
    var closeSent: bool
    var closeRcvd: bool
    var eofSent: bool
    var eofRcvd: bool
    var forceDrain: bool
    var remoteWindow: u32
    var remoteMaxpacket: u32
    var localWindow: u32
    var localWindowExceeded: u32
    var localWindowMax: u32
    var localConsumed: u32
    var localMaxpacket: u32
    var input: seq<byte>
    var output: seq<byte>

    function State(): Chan
      reads this
    {
      Chan(ctype, istate, ostate, closeSent, closeRcvd, eofSent, eofRcvd, forceDrain, remoteWindow, remoteMaxpacket,
           localWindow, localWindowExceeded, localWindowMax, localConsumed, localMaxpacket, input, output)
    }

    constructor (t: ChanType, window: u32, maxpacket: u32)
      ensures State() == NewChan(t, window, maxpacket)
    {
      ctype, istate, ostate := t, InOpen, OutOpen;
      closeSent, closeRcvd, eofSent, eofRcvd, forceDrain := false, false, false, false, false;
      remoteWindow, remoteMaxpacket := 0, 0;
      localWindow, localWindowMax := window, window;
      localWindowExceeded, localConsumed := 0, 0;
      localMaxpacket := maxpacket;
      input, output := [], [];
    }

    method ReadFailed()
      modifies this
      ensures State() == ReadShut(old(State()))
    {
      if istate.InOpen? {
        istate := InWaitDrain;
      }
    }

    method IbufEmptied() returns (sent: seq<Msg>)
      modifies this
      ensures (State(), sent) == IbufEmpty(old(State()))
    {
      sent := [];
      if input != [] {
        return;
      }
      if istate.InWaitDrain? {
        if !closeSent {
          sent := [Eof];
          eofSent := true;
        }
        istate := InClosed;
      }
    }

    method ObufEmptied()
      modifies this
      ensures State() == ObufEmpty(old(State()))
    {
      if output != [] {
        return;
      }
      if ostate.OutWaitDrain? {
        ostate := OutClosed;
      }
    }

    method WriteFailed()
      modifies this
      ensures State() == WriteShut(old(State()))
    {
      match ostate {
        case OutOpen | OutWaitDrain =>
          output := [];
          ostate := OutClosed;
        case OutClosed =>
      }
    }

    method ReceiveIeof() returns (sent: seq<Msg>)
      modifies this
      ensures (State(), sent) == InputIeof(old(State()))
    {
      sent := [];
      eofRcvd := true;
      if ostate.OutOpen? {
        ostate := OutWaitDrain;
      }
      if ostate.OutWaitDrain? && output == [] {
        ObufEmptied();
      }
      if forceDrain && istate.InOpen? {
        istate := InWaitDrain;
        if input == [] {
          sent := IbufEmptied();
        }
      }
    }

    method ReceiveOclose() returns (sent: seq<Msg>)
      modifies this
      ensures (State(), sent) == InputOclose(old(State()))
    {
      sent := [];
      closeRcvd := true;
      if ctype.Larval? {
        ostate, istate := OutClosed, InClosed;
        return;
      }
      if ostate.OutOpen? {
        ostate := OutWaitDrain;
      }
      match istate {
        case InOpen =>
          istate := InClosed;
        case InWaitDrain =>
          sent := [Eof];
          eofSent := true;
          istate := InClosed;
        case InClosed =>
      }
    }

    method GarbageCollect() returns (sent: seq<Msg>)
      modifies this
      ensures (State(), sent) == Collect(old(State()))
    {
      sent := [];
      if ctype.Dead? {
        ctype := Freed;
        return;
      }
      if !istate.InClosed? || !ostate.OutClosed? {
        return;
      }
      if !closeSent {
        sent := [Close];
        closeSent := true;
      }
      if closeSent && closeRcvd {
        ctype := Freed;
      }
    }

    /** The common end of failed reads. */
    method ReadGone()
      modifies this
      ensures State() == if old(ctype).Open? then ReadShut(old(State())) else old(State()).(ctype := Dead)
    {
      if !ctype.Open? {
        ctype := Dead;
      } else {
        ReadFailed();
      }
    }

    /** The common end of failed writes. */
    method WriteGone()
      modifies this
      ensures State() == if old(ctype).Open? then WriteShut(old(State())) else old(State()).(ctype := Dead)
    {
      if !ctype.Open? {
        ctype := Dead;
      } else {
        WriteFailed();
      }
    }

    /** How much to ask the kernel for; 0 to leave the descriptor alone. */
    method ReadLength() returns (maxlen: nat)
      ensures maxlen == ReadLimit(State())
    {
      maxlen := CHANNEL_MAX_READ;
      if |input| >= CHAN_INPUT_MAX {
        return 0;
      }
      var avail := CHAN_INPUT_MAX - |input|;
      if ctype.Open? {
        var have := |input|;
        if have >= remoteWindow {
          return 0;
        }
        if maxlen > remoteWindow - have {
          maxlen := remoteWindow - have;
        }
      }
      if maxlen > avail {
        maxlen := avail;
      }
    }

    /** Reads from the descriptor; `got` is what the kernel handed over. */
    method ReadFd(res: ReadResult) returns (got: seq<byte>)
      modifies this
      ensures (State(), got) == HandleRfd(old(State()), res)
    {
      hide ReadLimit, ReadShut;
      got := [];
      var maxlen := ReadLength();
      if maxlen == 0 {
        return;
      }
      match res {
        case ReadAgain =>
        case ReadFailed =>
          ReadGone();
        case ReadBytes(bytes) =>
          got := bytes[..Min(maxlen, |bytes|)];
          if got == [] {
            ReadGone();
          } else {
            input := input + got;
          }
      }
    }

    method Poll() returns (sent: seq<Msg>)
      modifies this
      ensures (State(), sent) == OutputPoll(old(State()))
    {
      sent := [];
      if !ctype.Open? || closeSent || closeRcvd {
        return;
      }
      if istate.InOpen? || istate.InWaitDrain? {
        var len := |input|;
        if len == 0 {
          if istate.InWaitDrain? {
            sent := IbufEmptied();
          }
          return;
        }
        if len > remoteWindow {
          len := remoteWindow;
        }
        if len > remoteMaxpacket {
          len := remoteMaxpacket;
        }
        if len == 0 {
          return;
        }
        sent := [Data(input[..len])];
        input := input[len..];
        remoteWindow := Sub32(remoteWindow, len);
      }
    }

    method ReceiveData(data: seq<byte>) returns (verdict: DataVerdict)
      modifies this
      ensures (State(), verdict) == InputData(old(State()), data)
    {
      if !ctype.Open? {
        return Ignored;
      }
      var winLen := |data|;
      if !ostate.OutOpen? {
        if winLen > localWindow {
          localWindow := 0;
        } else {
          localWindow := localWindow - winLen;
        }
        localConsumed := Add32(localConsumed, winLen);
        return Discarded;
      }
      if winLen > localMaxpacket {
        return BigPacket;
      }
      verdict := Stored;
      if winLen > localWindow {
        localWindowExceeded := Add32(localWindowExceeded, winLen - localWindow);
        localWindow := 0;
        if localWindowExceeded > localWindowMax / 10 {
          return Disconnected;
        }
        verdict := Excess;
      } else {
        localWindow := localWindow - winLen;
        localWindowExceeded := 0;
      }
      output := output + data;
    }

    /** Writes to the descriptor; `out` is what the kernel accepted. */
    method WriteFd(res: WriteResult) returns (out: seq<byte>)
      modifies this
      ensures (State(), out) == HandleWfd(old(State()), res)
    {
      out := [];
      if |output| == 0 {
        return;
      }
      var olen := |output|;
      match res {
        case WriteAgain =>
        case WriteFailed =>
          WriteGone();
        case Wrote(n) =>
          var len := Min(n, olen);
          if len == 0 {
            WriteGone();
          } else {
            out := output[..len];
            output := output[len..];
            localConsumed := Add32(localConsumed, olen - |output|);
          }
      }
    }

    method ReturnCredit() returns (sent: seq<Msg>)
      modifies this
      ensures (State(), sent) == CheckWindow(old(State()))
    {
      sent := [];
      if ctype.Open? && !closeSent && !closeRcvd
         && (Sub32(localWindowMax, localWindow) > Mul32(localMaxpacket, 3) || localWindow < localWindowMax / 2)
         && localConsumed > 0
      {
        sent := [Adjust(localConsumed)];
        localWindow := Add32(localWindow, localConsumed);
        localConsumed := 0;
      }
    }

    /** False is the fatal exit; the channel is then left alone. */
    method ReceiveAdjust(credit: u32) returns (ok: bool)
      modifies this
      ensures ok == InputAdjust(old(State()), credit).Some?
      ensures State() == if ok then InputAdjust(old(State()), credit).value else old(State())
    {
      var newRwin := Add32(remoteWindow, credit);
      if newRwin < remoteWindow {
        return false;
      }
      remoteWindow := newRwin;
      ok := true;
    }

    /** False is the disconnect; the channel is then left alone. */
    method ReceiveConfirm(window: u32, maxpacket: u32) returns (ok: bool)
      modifies this
      ensures ok == InputConfirm(old(State()), window, maxpacket).Some?
      ensures State() == if ok then InputConfirm(old(State()), window, maxpacket).value else old(State())
    {
      if !ctype.Opening? {
        return false;
      }
      remoteWindow := window;
      remoteMaxpacket := maxpacket;
      ctype := Open;
      ok := true;
    }

    /** False is the fatal exit; the channel is then left alone. */
    method SetFds(windowMax: u32) returns (ok: bool, sent: seq<Msg>)
      modifies this
      ensures match Activate(old(State()), windowMax)
        case None => !ok && State() == old(State())
        case Some(r) => ok && (State(), sent) == r
    {
      if !ctype.Larval? {
        return false, [];
      }
      ctype := Open;
      localWindow, localWindowMax := windowMax, windowMax;
      return true, [Adjust(localWindow)];
    }
  }
}
