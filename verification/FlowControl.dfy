/**
 Two endpoints running the channel code over a pair of FIFO links: opening, data, window credit, end of file
 and close (sections 5.1, 5.2 and 5.3 of RFC 4254). Every step of the system is one handler of `Channels` run at
 one end, together with what it takes from and puts on the links.
 */
module FlowControl {
  import opened Bytes
  import opened Channels

  /**
   One endpoint: the channel, and the history the theorems speak of. `boot` is what was put into the output
   buffer locally before the channel opened (SOCKS replies), `rd` and `wr` are all the bytes read from and
   written to the descriptors, `lost` counts output bytes thrown away by a failed write. `ended` says that a read
   found the end of the input or failed, `unwanted` that the peer has announced to want no more of it.
   */
  datatype End = End(c: Chan, boot: seq<byte>, rd: seq<byte>, wr: seq<byte>, lost: nat, ended: bool, unwanted: bool)

  datatype Sys = Sys(a: End, b: End, ab: seq<Msg>, ba: seq<Msg>)

  datatype Action =
    | Read(rres: ReadResult)
    | Poll
    | Write(wres: WriteResult)
    | ReturnCredit
    | Drain
    | GarbageCollect
    | PeerEow
    | Receive
    | Accept(t: ChanType, window: u32, maxpacket: u32, forceDrain: bool)
    | ConnectDone
    | StartSession(windowMax: u32)

  /** What one action at one end does: the new end, how many messages it took in and what it sent. */
  datatype Move = Move(e: End, taken: nat, sent: seq<Msg>)

  // ---------------------------------------------------------------- the step relation

  function Local(e: End, inq: seq<Msg>, act: Action): Option<Move> {
    match act
    case Read(res) =>
      if !e.c.ctype.Open? || !WantRead(e.c) then None
      else
        var (c, got) := HandleRfd(e.c, res);
        var atEnd := res.ReadFailed? || res == ReadBytes([]);
        Some(Move(e.(c := c, rd := e.rd + got, ended := e.ended || atEnd), 0, []))
    case Poll =>
      var (c, sent) := OutputPoll(e.c);
      Some(Move(e.(c := c), 0, sent))
    case Write(res) =>
      if !e.c.ctype.Open? || !WantWrite(e.c) then None
      else
        var (c, out) := HandleWfd(e.c, res);
        Some(Move(e.(c := c, wr := e.wr + out, lost := e.lost + (|e.c.output| - |out| - |c.output|)), 0, []))
    case ReturnCredit =>
      var (c, sent) := CheckWindow(e.c);
      Some(Move(e.(c := c), 0, sent))
    case Drain =>
      if !e.c.ctype.Open? then None else Some(Move(e.(c := ObufEmpty(e.c)), 0, []))
    case GarbageCollect =>
      if !e.c.ctype.Open? && !e.c.ctype.Larval? then None
      else
        var (c, sent) := Collect(e.c);
        Some(Move(e.(c := c), 0, sent))
    case PeerEow =>
      if !e.c.ctype.Open? then None
      else Some(Move(e.(c := RcvdEow(e.c), unwanted := e.unwanted || e.c.istate.InOpen?), 0, []))
    case Receive =>
      if inq == [] then None else Deliver(e, inq[0])
    case Accept(t, window, maxpacket, forceDrain) =>
      if !e.c.ctype.Absent? || inq == [] || !inq[0].OpenMsg? then None
      else if !t.Connecting? && !t.Open? && !(t.Larval? && window == 0 && !forceDrain) then None
      else
        var c := NewChan(t, window, maxpacket).(
          forceDrain := forceDrain, remoteWindow := inq[0].window, remoteMaxpacket := inq[0].maxpacket);
        Some(Move(e.(c := c), 1, if t.Connecting? then [] else [Confirm(window, maxpacket)]))
    case ConnectDone =>
      if !e.c.ctype.Connecting? then None
      else Some(Move(e.(c := e.c.(ctype := Open)), 0, [Confirm(e.c.localWindow, e.c.localMaxpacket)]))
    case StartSession(windowMax) =>
      var r := Activate(e.c, windowMax);
      if r.None? then None else Some(Move(e.(c := r.value.0), 0, r.value.1))
  }

  /** A message reaches the channel it is addressed to; None where the code ends the connection. */
  function Deliver(e: End, m: Msg): Option<Move> {
    match m
    case OpenMsg(_, _) => None
    case Confirm(window, maxpacket) =>
      var r := InputConfirm(e.c, window, maxpacket);
      if r.None? then None else Some(Move(e.(c := r.value), 1, []))
    case Data(bytes) =>
      if !Live(e.c) then None
      else
        var (c, verdict) := InputData(e.c, bytes);
        if verdict.Disconnected? then None else Some(Move(e.(c := c), 1, []))
    case Adjust(credit) =>
      if !Live(e.c) then Some(Move(e, 1, []))
      else
        var r := InputAdjust(e.c, credit);
        if r.None? then None else Some(Move(e.(c := r.value), 1, []))
    case Eof =>
      if !Live(e.c) then None
      else
        var (c, sent) := InputIeof(e.c);
        Some(Move(e.(c := c), 1, sent))
    case Close =>
      if !Live(e.c) then None
      else
        var (c, sent) := InputOclose(e.c);
        Some(Move(e.(c := c), 1, sent))
  }

  /** The slot holds a channel. */
  predicate Live(c: Chan) {
    !c.ctype.Absent? && !c.ctype.Freed?
  }

  function StepA(s: Sys, act: Action): Option<Sys> {
    var r := Local(s.a, s.ba, act);
    if r.None? || r.value.taken > |s.ba| then None
    else Some(Sys(r.value.e, s.b, s.ab + r.value.sent, s.ba[r.value.taken..]))
  }

  function StepB(s: Sys, act: Action): Option<Sys> {
    var r := Local(s.b, s.ab, act);
    if r.None? || r.value.taken > |s.ab| then None
    else Some(Sys(s.a, r.value.e, s.ab[r.value.taken..], s.ba + r.value.sent))
  }

  ghost predicate Next(s: Sys, t: Sys) {
    exists act :: StepA(s, act) == Some(t) || StepB(s, act) == Some(t)
  }

  /**
   The opener has sent CHANNEL_OPEN with its window. `boot` of it is already in the output buffer or written;
   `early` bytes have been read from its descriptor before the peer is known.
   */
  function InitSys(window: u32, maxpacket: u32, forceDrain: bool, boot: seq<byte>, written: nat, early: seq<byte>): Sys
    requires written <= |boot|
    requires window + |boot| < U32
  {
    var c := NewChan(Opening, window, maxpacket).(
      forceDrain := forceDrain, localConsumed := written, output := boot[written..], input := early);
    Sys(End(c, boot, early, boot[..written], 0, false, false),
        End(NewChan(Absent, 0, 0), [], [], [], 0, false, false),
        [OpenMsg(window, maxpacket)], [])
  }

  // ---------------------------------------------------------------- what is on a link

  function DataBytes(q: seq<Msg>): seq<byte> {
    if q == [] then [] else (if q[0].Data? then q[0].bytes else []) + DataBytes(q[1..])
  }

  /** Window announced on a link, by CHANNEL_OPEN, its confirmation or a window adjustment. */
  function Credit(q: seq<Msg>): nat {
    if q == [] then 0 else MsgCredit(q[0]) + Credit(q[1..])
  }

  function MsgCredit(m: Msg): nat {
    match m
    case OpenMsg(w, _) => w
    case Confirm(w, _) => w
    case Adjust(n) => n
    case _ => 0
  }

  predicate HasEof(q: seq<Msg>) { q != [] && (q[0].Eof? || HasEof(q[1..])) }

  predicate HasClose(q: seq<Msg>) { q != [] && (q[0].Close? || HasClose(q[1..])) }

  predicate HasData(q: seq<Msg>) { q != [] && (q[0].Data? || HasData(q[1..])) }

  /** Nothing follows CLOSE on a link, and neither data nor a second EOF follows EOF. */
  predicate Ordered(q: seq<Msg>) {
    q != [] ==>
      && Ordered(q[1..])
      && (q[0].Close? ==> q[1..] == [])
      && (q[0].Eof? ==> !HasData(q[1..]) && !HasEof(q[1..]))
  }

  /** Every data packet is non-empty and within the packet size the receiver announced. */
  predicate Packets(q: seq<Msg>, maxpacket: u32) {
    q != [] ==> Packets(q[1..], maxpacket) && (q[0].Data? ==> 1 <= |q[0].bytes| <= maxpacket)
  }

  predicate Handshake(m: Msg) { m.OpenMsg? || m.Confirm? }

  /** The opening messages on a link carry that packet size. */
  predicate Announces(q: seq<Msg>, maxpacket: u32) {
    q != [] ==> Announces(q[1..], maxpacket) && (Handshake(q[0]) ==> q[0].maxpacket == maxpacket)
  }

  predicate NoHandshake(q: seq<Msg>) {
    q != [] ==> NoHandshake(q[1..]) && !Handshake(q[0])
  }

  /** Everything the invariant says of a link, after one more message has been put on it. */
  lemma {:induction false} SentOne(q: seq<Msg>, m: Msg, mp: u32, mq: u32)
    ensures DataBytes(q + [m]) == DataBytes(q) + (if m.Data? then m.bytes else [])
    ensures Credit(q + [m]) == Credit(q) + MsgCredit(m)
    ensures HasEof(q + [m]) == (HasEof(q) || m.Eof?)
    ensures HasClose(q + [m]) == (HasClose(q) || m.Close?)
    ensures HasData(q + [m]) == (HasData(q) || m.Data?)
    ensures Ordered(q) && !HasClose(q) && (m.Data? || m.Eof? ==> !HasEof(q)) ==> Ordered(q + [m])
    ensures Packets(q + [m], mp) == (Packets(q, mp) && (m.Data? ==> 1 <= |m.bytes| <= mp))
    ensures Announces(q + [m], mq) == (Announces(q, mq) && (Handshake(m) ==> m.maxpacket == mq))
    ensures NoHandshake(q + [m]) == (NoHandshake(q) && !Handshake(m))
  {
    if q == [] {
      assert q + [m] == [m];
    } else {
      assert (q + [m])[1..] == q[1..] + [m];
      SentOne(q[1..], m, mp, mq);
    }
  }

  // ---------------------------------------------------------------- the invariant of one direction

  predicate Announced(c: Chan) { !c.ctype.Absent? && !c.ctype.Connecting? }

  /** The endpoint has learnt the peer's window and packet size. */
  predicate Knows(c: Chan) { !c.ctype.Absent? && !c.ctype.Opening? }

  /** Section 5.2: what the sender may still send is what the receiver still allows. */
  predicate WindowInv(s: End, fwd: seq<Msg>, r: End, back: seq<Msg>) {
    && s.c.remoteWindow + |DataBytes(fwd)| + Credit(back) == (if Announced(r.c) then r.c.localWindow else 0)
    && (!Knows(s.c) ==> s.c.remoteWindow == 0)
  }

  /** No credit is created or destroyed at the receiver, except by throwing output away. */
  predicate CreditInv(r: End) {
    && r.c.localWindow + r.c.localConsumed + |r.c.output| + r.lost == r.c.localWindowMax + |r.boot|
    && r.c.localWindowMax + |r.boot| < U32
    && r.c.localWindowExceeded == 0
    && (r.c.ctype.Absent? ==> r.c == NewChan(Absent, 0, 0) && r.boot == [])
    && (r.c.ctype.Larval? ==> r.c.localWindowMax == 0 && r.boot == [])
    && (r.c.localWindowMax <= 1 ==>
          && r.c.localWindow <= r.c.localWindowMax
          && (r.c.localMaxpacket == 0 ==> r.c.localWindow == r.c.localWindowMax))
  }

  predicate PacketInv(s: End, fwd: seq<Msg>, r: End, back: seq<Msg>) {
    && (Knows(s.c) ==> s.c.remoteMaxpacket == r.c.localMaxpacket)
    && Announces(back, r.c.localMaxpacket)
    && Packets(fwd, r.c.localMaxpacket)
  }

  predicate StreamInv(s: End, fwd: seq<Msg>, r: End) {
    if r.c.ostate.OutOpen? then r.wr + r.c.output + DataBytes(fwd) + s.c.input == r.boot + s.rd
    else r.wr + r.c.output <= r.boot + s.rd
  }

  predicate ShutInv(s: End, fwd: seq<Msg>, r: End) {
    && Ordered(fwd)
    && (s.c.eofSent ==> s.c.istate.InClosed?)
    && (s.c.closeSent ==> s.c.istate.InClosed? && s.c.ostate.OutClosed? && (s.c.ctype.Open? || s.c.ctype.Freed?))
    && (s.c.eofSent <==> HasEof(fwd) || r.c.eofRcvd)
    && (HasEof(fwd) ==> !r.c.eofRcvd)
    && (r.c.eofRcvd ==> !HasData(fwd))
    && (s.c.closeSent <==> HasClose(fwd) || r.c.closeRcvd)
    && (r.c.closeRcvd ==> fwd == [] && r.c.istate.InClosed?)
    && (r.c.ctype.Larval? ==>
          && !r.c.forceDrain && (r.c.istate.InClosed? ==> r.c.closeRcvd)
          && (r.c.closeRcvd ==> r.c.ostate.OutClosed?))
    && !r.c.ctype.Dead?
    && (HasEof(fwd) && r.c.ostate.OutOpen? ==> s.c.input == [])
    && (r.c.eofRcvd && r.lost == 0 ==> r.wr + r.c.output == r.boot + s.rd)
    && (r.c.ostate.OutOpen? <==> !r.c.eofRcvd && !r.c.closeRcvd && r.lost == 0)
    && (r.c.ostate.OutClosed? ==> r.c.output == [])
    && (r.c.ctype.Freed? ==> r.c.closeSent && r.c.closeRcvd)
  }

  predicate DirInv(s: End, fwd: seq<Msg>, r: End, back: seq<Msg>) {
    && WindowInv(s, fwd, r, back)
    && CreditInv(r)
    && PacketInv(s, fwd, r, back)
    && StreamInv(s, fwd, r)
    && ShutInv(s, fwd, r)
  }

  /** Section 5.1: how far the opening handshake has come. */
  predicate PhaseInv(s: Sys) {
    && !s.a.c.ctype.Absent? && !s.a.c.ctype.Connecting? && !s.a.c.ctype.Larval? && !s.b.c.ctype.Opening?
    && (s.b.c.ctype.Absent? ==>
          s.a.c.ctype.Opening? && s.ba == []
          && s.ab == [OpenMsg(s.a.c.localWindow, s.a.c.localMaxpacket)])
    && (s.b.c.ctype.Connecting? ==> s.a.c.ctype.Opening? && s.ba == [])
    && (!s.b.c.ctype.Absent? ==> NoHandshake(s.ab))
    && (s.a.c.ctype.Opening? ==>
          && (!s.b.c.ctype.Absent? ==> s.ab == [])
          && (Announced(s.b.c) ==> s.ba != [] && s.ba[0].Confirm? && NoHandshake(s.ba[1..])))
    && (!s.a.c.ctype.Opening? ==> NoHandshake(s.ba))
  }

  /**
   Why an end no longer reads: the end of its input, a peer that wants no more, EOF from the peer under forced drain,
   or CLOSE from the peer. Whoever has come to the end of the input sends EOF before the input side is closed.
   */
  predicate InputInv(e: End) {
    && (e.c.istate.InOpen?
        <==> !e.ended && !e.unwanted && !(e.c.forceDrain && e.c.eofRcvd) && !e.c.closeRcvd)
    && (e.c.istate.InClosed? && !e.unwanted && (e.ended || !e.c.closeRcvd) ==> e.c.eofSent)
    && (e.ended ==> !e.unwanted && (e.c.ctype.Open? || e.c.ctype.Freed?))
  }

  predicate Inv(s: Sys) {
    && DirInv(s.a, s.ab, s.b, s.ba)
    && DirInv(s.b, s.ba, s.a, s.ab)
    && InputInv(s.a) && InputInv(s.b)
    && PhaseInv(s)
  }

  // ---------------------------------------------------------------- one end moves, both directions survive

  /** The next message is one the channel can take in its present state. */
  predicate Expected(c: Chan, m: Msg) {
    if c.ctype.Opening? then m.Confirm?
    else (c.ctype.Larval? || c.ctype.Open?) && !m.OpenMsg? && !m.Confirm?
  }

  predicate BothInv(e: End, fwd: seq<Msg>, p: End, back: seq<Msg>) {
    DirInv(e, fwd, p, back) && DirInv(p, back, e, fwd)
  }

  predicate KeptAsSender(m: Move, fwd: seq<Msg>, p: End, back: seq<Msg>) {
    m.taken <= |back| && DirInv(m.e, fwd + m.sent, p, back[m.taken..])
  }

  predicate KeptAsReceiver(m: Move, fwd: seq<Msg>, p: End, back: seq<Msg>) {
    m.taken <= |back| && DirInv(p, back[m.taken..], m.e, fwd + m.sent)
  }

  lemma Sent(m: Move, fwd: seq<Msg>, p: End)
    requires |m.sent| <= 1
    ensures m.sent == [] ==> fwd + m.sent == fwd
    ensures m.sent != [] ==> (
      var x := m.sent[0];
      && DataBytes(fwd + m.sent) == DataBytes(fwd) + (if x.Data? then x.bytes else [])
      && Credit(fwd + m.sent) == Credit(fwd) + MsgCredit(x)
      && HasEof(fwd + m.sent) == (HasEof(fwd) || x.Eof?)
      && HasClose(fwd + m.sent) == (HasClose(fwd) || x.Close?)
      && HasData(fwd + m.sent) == (HasData(fwd) || x.Data?)
      && (Ordered(fwd) && !HasClose(fwd) && (x.Data? || x.Eof? ==> !HasEof(fwd)) ==> Ordered(fwd + m.sent))
      && Packets(fwd + m.sent, p.c.localMaxpacket)
         == (Packets(fwd, p.c.localMaxpacket) && (x.Data? ==> 1 <= |x.bytes| <= p.c.localMaxpacket))
      && Announces(fwd + m.sent, m.e.c.localMaxpacket)
         == (Announces(fwd, m.e.c.localMaxpacket) && (Handshake(x) ==> x.maxpacket == m.e.c.localMaxpacket))
      && NoHandshake(fwd + m.sent) == (NoHandshake(fwd) && !Handshake(x)))
  {
    if m.sent != [] {
      assert m.sent == [m.sent[0]];
      SentOne(fwd, m.sent[0], p.c.localMaxpacket, m.e.c.localMaxpacket);
    }
  }

  /** Only the sending half of the channel differs. */
  predicate SameReceiver(e: End, f: End) {
    && (f.boot, f.wr, f.lost) == (e.boot, e.wr, e.lost)
    && f.c == e.c.(istate := f.c.istate, input := f.c.input, remoteWindow := f.c.remoteWindow, eofSent := f.c.eofSent)
    && (e.c.ctype.Larval? ==> f.c.istate == e.c.istate) && (e.c.istate.InClosed? ==> f.c.istate.InClosed?)
  }

  lemma ReceiverFrame(m: Move, e: End, fwd: seq<Msg>, p: End, back: seq<Msg>)
    requires DirInv(p, back, e, fwd) && SameReceiver(e, m.e) && m.taken == 0
    requires |m.sent| <= 1 && (m.sent != [] ==> MsgCredit(m.sent[0]) == 0 && !Handshake(m.sent[0]))
    requires e.c.ctype.Absent? ==> e.c == m.e.c
    ensures KeptAsReceiver(m, fwd, p, back)
  {
    Sent(m, fwd, p);
  }

  /** Only the receiving half of the channel differs. */
  predicate SameSender(e: End, f: End) {
    && f.rd == e.rd
    && f.c == e.c.(ostate := f.c.ostate, output := f.c.output, localConsumed := f.c.localConsumed)
    && (e.c.ostate.OutClosed? ==> f.c.ostate.OutClosed?)
  }

  lemma SenderFrame(m: Move, e: End, fwd: seq<Msg>, p: End, back: seq<Msg>)
    requires DirInv(e, fwd, p, back) && SameSender(e, m.e) && m.taken == 0 && m.sent == []
    ensures KeptAsSender(m, fwd, p, back)
  {
    assert fwd + [] == fwd;
  }

  lemma ReadShape(c: Chan, res: ReadResult)
    requires c.istate.InOpen? && c.ctype.Open?
    ensures var (d, got) := HandleRfd(c, res);
      d == c.(istate := d.istate, input := c.input + got) && !d.istate.InClosed?
  {
  }

  lemma ReadSends(e: End, fwd: seq<Msg>, p: End, back: seq<Msg>, res: ReadResult)
    requires BothInv(e, fwd, p, back) && Local(e, back, Read(res)).Some?
    ensures KeptAsSender(Local(e, back, Read(res)).value, fwd, p, back)
  {
    hide HandleRfd;
    ReadShape(e.c, res);
    assert fwd + [] == fwd;
    var got := HandleRfd(e.c, res).1;
    assert p.boot + (e.rd + got) == (p.boot + e.rd) + got;
    if p.c.ostate.OutOpen? {
      var front := p.wr + p.c.output + DataBytes(fwd);
      assert front + (e.c.input + got) == (front + e.c.input) + got;
    }
  }

  lemma ReadReceives(e: End, fwd: seq<Msg>, p: End, back: seq<Msg>, res: ReadResult)
    requires BothInv(e, fwd, p, back) && Local(e, back, Read(res)).Some?
    ensures KeptAsReceiver(Local(e, back, Read(res)).value, fwd, p, back)
  {
    hide HandleRfd, DirInv;
    ReadShape(e.c, res);
    ReceiverFrame(Local(e, back, Read(res)).value, e, fwd, p, back);
  }

  lemma PollStream(e: End, fwd: seq<Msg>, p: End, len: nat)
    requires StreamInv(e, fwd, p) && len <= |e.c.input|
    requires DataBytes(fwd + [Data(e.c.input[..len])]) == DataBytes(fwd) + e.c.input[..len]
    ensures StreamInv(e.(c := e.c.(input := e.c.input[len..])), fwd + [Data(e.c.input[..len])], p)
  {
    var front, x, y := p.wr + p.c.output, e.c.input[..len], e.c.input[len..];
    assert x + y == e.c.input;
    assert front + (DataBytes(fwd) + x) + y == front + DataBytes(fwd) + (x + y);
  }

  lemma PollDataSends(e: End, fwd: seq<Msg>, p: End, back: seq<Msg>)
    requires BothInv(e, fwd, p, back)
    requires OutputPoll(e.c).1 != [] && OutputPoll(e.c).1[0].Data?
    ensures KeptAsSender(Local(e, back, Poll).value, fwd, p, back)
  {
    var m := Local(e, back, Poll).value;
    Sent(m, fwd, p);
    var len := |m.sent[0].bytes|;
    assert m.sent == [Data(e.c.input[..len])];
    PollStream(e, fwd, p, len);
  }

  lemma PollEofSends(e: End, fwd: seq<Msg>, p: End, back: seq<Msg>)
    requires BothInv(e, fwd, p, back)
    requires OutputPoll(e.c).1 == [] || OutputPoll(e.c).1[0].Eof?
    ensures KeptAsSender(Local(e, back, Poll).value, fwd, p, back)
  {
    Sent(Local(e, back, Poll).value, fwd, p);
  }

  lemma PollReceives(e: End, fwd: seq<Msg>, p: End, back: seq<Msg>)
    requires BothInv(e, fwd, p, back)
    ensures KeptAsReceiver(Local(e, back, Poll).value, fwd, p, back)
  {
    hide DirInv;
    ReceiverFrame(Local(e, back, Poll).value, e, fwd, p, back);
  }

  lemma WriteShape(c: Chan, res: WriteResult)
    requires c.localConsumed + |c.output| < U32 && c.ctype.Open?
    ensures var (d, out) := HandleWfd(c, res);
      && d == c.(ostate := d.ostate, output := d.output, localConsumed := d.localConsumed)
      && (if d.ostate == c.ostate
          then out + d.output == c.output && d.localConsumed == c.localConsumed + |out|
          else d.ostate.OutClosed? && out == d.output == [] && c.output != [] && d.localConsumed == c.localConsumed)
  {
  }

  lemma WriteSends(e: End, fwd: seq<Msg>, p: End, back: seq<Msg>, res: WriteResult)
    requires BothInv(e, fwd, p, back) && Local(e, back, Write(res)).Some?
    ensures KeptAsSender(Local(e, back, Write(res)).value, fwd, p, back)
  {
    hide HandleWfd, WindowInv, PacketInv, StreamInv, ShutInv;
    WriteShape(e.c, res);
    SenderFrame(Local(e, back, Write(res)).value, e, fwd, p, back);
  }

  lemma WriteReceives(e: End, fwd: seq<Msg>, p: End, back: seq<Msg>, res: WriteResult)
    requires BothInv(e, fwd, p, back) && Local(e, back, Write(res)).Some?
    ensures KeptAsReceiver(Local(e, back, Write(res)).value, fwd, p, back)
  {
    hide HandleWfd, DataBytes, Credit, HasEof, HasClose, HasData, Ordered, Packets, Announces;
    WriteShape(e.c, res);
    assert fwd + [] == fwd;
    var f := Local(e, back, Write(res)).value.e;
    var out := HandleWfd(e.c, res).1;
    assert (e.wr + out) + f.c.output == e.wr + (out + f.c.output);
    assert |out + f.c.output| == |out| + |f.c.output|;
  }

  lemma CreditSends(e: End, fwd: seq<Msg>, p: End, back: seq<Msg>)
    requires BothInv(e, fwd, p, back)
    ensures KeptAsSender(Local(e, back, ReturnCredit).value, fwd, p, back)
  {
    hide DataBytes, Credit, HasEof, HasClose, HasData, Ordered, Packets, Announces, NoHandshake;
    Sent(Local(e, back, ReturnCredit).value, fwd, p);
  }

  lemma CreditReceives(e: End, fwd: seq<Msg>, p: End, back: seq<Msg>)
    requires BothInv(e, fwd, p, back)
    ensures KeptAsReceiver(Local(e, back, ReturnCredit).value, fwd, p, back)
  {
    hide DataBytes, Credit, HasEof, HasClose, HasData, Ordered, Packets, Announces, NoHandshake;
    Sent(Local(e, back, ReturnCredit).value, fwd, p);
  }

  lemma DrainSends(e: End, fwd: seq<Msg>, p: End, back: seq<Msg>)
    requires BothInv(e, fwd, p, back) && Local(e, back, Drain).Some?
    ensures KeptAsSender(Local(e, back, Drain).value, fwd, p, back)
  {
    hide DirInv;
    SenderFrame(Local(e, back, Drain).value, e, fwd, p, back);
  }

  lemma DrainReceives(e: End, fwd: seq<Msg>, p: End, back: seq<Msg>)
    requires BothInv(e, fwd, p, back) && Local(e, back, Drain).Some?
    ensures KeptAsReceiver(Local(e, back, Drain).value, fwd, p, back)
  {
    assert fwd + [] == fwd;
  }

  lemma EowSends(e: End, fwd: seq<Msg>, p: End, back: seq<Msg>)
    requires BothInv(e, fwd, p, back) && Local(e, back, PeerEow).Some?
    ensures KeptAsSender(Local(e, back, PeerEow).value, fwd, p, back)
  {
    assert fwd + [] == fwd;
  }

  lemma EowReceives(e: End, fwd: seq<Msg>, p: End, back: seq<Msg>)
    requires BothInv(e, fwd, p, back) && Local(e, back, PeerEow).Some?
    ensures KeptAsReceiver(Local(e, back, PeerEow).value, fwd, p, back)
  {
    hide DirInv;
    ReceiverFrame(Local(e, back, PeerEow).value, e, fwd, p, back);
  }

  lemma CollectShape(c: Chan)
    requires !c.ctype.Dead?
    ensures var (d, sent) := Collect(c);
      && d == c.(closeSent := d.closeSent, ctype := d.ctype)
      && (c.closeSent ==> d.closeSent)
      && (d.ctype == c.ctype || (d.ctype.Freed? && d.closeSent && d.closeRcvd))
      && (if sent == [] then d.closeSent == c.closeSent
          else sent == [Close] && !c.closeSent && d.closeSent && c.istate.InClosed? && c.ostate.OutClosed?)
      && (sent != [] && c.closeRcvd ==> d.ctype.Freed?)
  {
  }

  lemma CollectSends(e: End, fwd: seq<Msg>, p: End, back: seq<Msg>)
    requires BothInv(e, fwd, p, back)
    requires Local(e, back, GarbageCollect).Some?
    ensures KeptAsSender(Local(e, back, GarbageCollect).value, fwd, p, back)
  {
    hide DataBytes, Credit, HasEof, HasClose, HasData, Ordered, Packets, Announces, NoHandshake;
    hide Collect;
    CollectShape(e.c);
    Sent(Local(e, back, GarbageCollect).value, fwd, p);
  }

  lemma CollectReceives(e: End, fwd: seq<Msg>, p: End, back: seq<Msg>)
    requires BothInv(e, fwd, p, back)
    requires Local(e, back, GarbageCollect).Some?
    ensures KeptAsReceiver(Local(e, back, GarbageCollect).value, fwd, p, back)
  {
    hide DataBytes, Credit, HasEof, HasClose, HasData, Ordered, Packets, Announces, NoHandshake;
    hide Collect;
    CollectShape(e.c);
    Sent(Local(e, back, GarbageCollect).value, fwd, p);
  }

  // ---------------------------------------------------------------- receiving

  lemma DataSends(e: End, fwd: seq<Msg>, p: End, back: seq<Msg>)
    requires BothInv(e, fwd, p, back)
    requires back != [] && back[0].Data? && Expected(e.c, back[0]) && Deliver(e, back[0]).Some?
    ensures KeptAsSender(Deliver(e, back[0]).value, fwd, p, back)
  {
    assert fwd + [] == fwd;
  }

  lemma DataReceives(e: End, fwd: seq<Msg>, p: End, back: seq<Msg>)
    requires BothInv(e, fwd, p, back)
    requires back != [] && back[0].Data? && Expected(e.c, back[0])
    ensures Healthy(e.c, back[0])
    ensures Deliver(e, back[0]).Some?
    ensures KeptAsReceiver(Deliver(e, back[0]).value, fwd, p, back)
  {
    assert fwd + [] == fwd;
    var x, rest := back[0].bytes, DataBytes(back[1..]);
    if e.c.ostate.OutOpen? {
      var front := e.wr + e.c.output;
      assert e.wr + (e.c.output + x) == front + x;
      assert front + (x + rest) + p.c.input == front + x + rest + p.c.input;
    }
  }

  /** Taking a window adjustment or a confirmation off a link changes nothing but the credit on it. */
  lemma CreditTaken(q: seq<Msg>, mp: u32, mq: u32)
    requires q != [] && (q[0].Adjust? || q[0].Confirm?)
    ensures DataBytes(q[1..]) == DataBytes(q)
    ensures Credit(q) == MsgCredit(q[0]) + Credit(q[1..])
    ensures HasEof(q[1..]) == HasEof(q) && HasClose(q[1..]) == HasClose(q) && HasData(q[1..]) == HasData(q)
    ensures Ordered(q) ==> Ordered(q[1..])
    ensures Packets(q, mp) ==> Packets(q[1..], mp)
    ensures Announces(q, mq) ==> Announces(q[1..], mq)
  {
  }

  lemma AdjustHealthy(e: End, fwd: seq<Msg>, p: End, back: seq<Msg>)
    requires BothInv(e, fwd, p, back)
    requires back != [] && back[0].Adjust? && Expected(e.c, back[0])
    ensures Healthy(e.c, back[0]) && e.c.remoteWindow + back[0].credit <= p.c.localWindow
    ensures Deliver(e, back[0])
      == Some(Move(e.(c := e.c.(remoteWindow := e.c.remoteWindow + back[0].credit)), 1, []))
  {
  }

  lemma AdjustSends(e: End, fwd: seq<Msg>, p: End, back: seq<Msg>)
    requires BothInv(e, fwd, p, back)
    requires back != [] && back[0].Adjust? && Expected(e.c, back[0])
    ensures Healthy(e.c, back[0]) && Deliver(e, back[0]).Some?
    ensures KeptAsSender(Deliver(e, back[0]).value, fwd, p, back)
  {
    hide Deliver, Healthy, DataBytes, Credit, HasEof, HasClose, HasData, Ordered, Packets, Announces;
    assert fwd + [] == fwd;
    AdjustHealthy(e, fwd, p, back);
    CreditTaken(back, e.c.localMaxpacket, p.c.localMaxpacket);
  }

  lemma AdjustReceives(e: End, fwd: seq<Msg>, p: End, back: seq<Msg>)
    requires BothInv(e, fwd, p, back)
    requires back != [] && back[0].Adjust? && Expected(e.c, back[0])
    ensures Deliver(e, back[0]).Some?
    ensures KeptAsReceiver(Deliver(e, back[0]).value, fwd, p, back)
  {
    hide Deliver, Healthy, DataBytes, Credit, HasEof, HasClose, HasData, Ordered, Packets, Announces;
    assert fwd + [] == fwd;
    AdjustHealthy(e, fwd, p, back);
    CreditTaken(back, e.c.localMaxpacket, p.c.localMaxpacket);
  }

  lemma ConfirmSends(e: End, fwd: seq<Msg>, p: End, back: seq<Msg>)
    requires BothInv(e, fwd, p, back)
    requires back != [] && back[0].Confirm? && Expected(e.c, back[0])
    ensures Healthy(e.c, back[0])
    ensures Deliver(e, back[0]).Some?
    ensures KeptAsSender(Deliver(e, back[0]).value, fwd, p, back)
  {
    assert fwd + [] == fwd;
  }

  lemma ConfirmReceives(e: End, fwd: seq<Msg>, p: End, back: seq<Msg>)
    requires BothInv(e, fwd, p, back)
    requires back != [] && back[0].Confirm? && Expected(e.c, back[0])
    ensures Healthy(e.c, back[0])
    ensures Deliver(e, back[0]).Some?
    ensures KeptAsReceiver(Deliver(e, back[0]).value, fwd, p, back)
  {
    hide DataBytes, Credit, HasEof, HasClose, HasData, Ordered, Packets, Announces;
    CreditTaken(back, e.c.localMaxpacket, p.c.localMaxpacket);
    assert fwd + [] == fwd;
  }

  lemma {:induction false} NoData(q: seq<Msg>)
    requires !HasData(q)
    ensures DataBytes(q) == []
  {
    if q != [] {
      NoData(q[1..]);
    }
  }

  /** What an incoming EOF changes, and the EOF it may provoke under forced drain. */
  lemma IeofShape(c: Chan)
    ensures var (d, sent) := InputIeof(c);
      && d == c.(eofRcvd := true, ostate := d.ostate, istate := d.istate, eofSent := d.eofSent)
      && !d.ostate.OutOpen?
      && (d.ostate.OutClosed? ==> c.ostate.OutClosed? || c.output == [])
      && (c.ostate.OutClosed? ==> d.ostate.OutClosed?)
      && (c.istate.InClosed? ==> d.istate.InClosed?)
      && (!c.forceDrain ==> d.istate == c.istate)
      && (if sent == [] then d.eofSent == c.eofSent
          else sent == [Eof] && !c.istate.InClosed? && d.istate.InClosed? && d.eofSent && c.input == [])
  {
  }

  lemma EofSends(e: End, fwd: seq<Msg>, p: End, back: seq<Msg>)
    requires BothInv(e, fwd, p, back)
    requires back != [] && back[0].Eof? && Expected(e.c, back[0])
    ensures Healthy(e.c, back[0])
    ensures KeptAsSender(Deliver(e, back[0]).value, fwd, p, back)
  {
    hide InputIeof;
    IeofShape(e.c);
    Sent(Deliver(e, back[0]).value, fwd, p);
  }

  lemma EofReceives(e: End, fwd: seq<Msg>, p: End, back: seq<Msg>)
    requires BothInv(e, fwd, p, back)
    requires back != [] && back[0].Eof? && Expected(e.c, back[0])
    ensures KeptAsReceiver(Deliver(e, back[0]).value, fwd, p, back)
  {
    hide InputIeof;
    IeofShape(e.c);
    Sent(Deliver(e, back[0]).value, fwd, p);
    NoData(back[1..]);
    assert e.c.ostate.OutOpen? ==> e.wr + e.c.output + [] + [] == e.wr + e.c.output;
  }

  /** What an incoming CLOSE changes; a draining input side answers with an EOF at once. */
  lemma OcloseShape(c: Chan)
    ensures var (d, sent) := InputOclose(c);
      && d == c.(closeRcvd := true, ostate := d.ostate, istate := d.istate, eofSent := d.eofSent)
      && !d.ostate.OutOpen? && d.istate.InClosed?
      && (c.ostate.OutClosed? ==> d.ostate.OutClosed?)
      && (d.ostate.OutClosed? ==> c.ostate.OutClosed? || c.ctype.Larval?)
      && (c.ctype.Larval? ==> d.ostate.OutClosed?)
      && (if sent == [] then d.eofSent == c.eofSent else sent == [Eof] && !c.istate.InClosed? && d.eofSent)
  {
  }

  lemma CloseSends(e: End, fwd: seq<Msg>, p: End, back: seq<Msg>)
    requires BothInv(e, fwd, p, back)
    requires back != [] && back[0].Close? && Expected(e.c, back[0])
    ensures Healthy(e.c, back[0])
    ensures KeptAsSender(Deliver(e, back[0]).value, fwd, p, back)
  {
    hide InputOclose;
    OcloseShape(e.c);
    Sent(Deliver(e, back[0]).value, fwd, p);
  }

  lemma CloseReceives(e: End, fwd: seq<Msg>, p: End, back: seq<Msg>)
    requires BothInv(e, fwd, p, back)
    requires back != [] && back[0].Close? && Expected(e.c, back[0])
    ensures KeptAsReceiver(Deliver(e, back[0]).value, fwd, p, back)
  {
    hide InputOclose;
    OcloseShape(e.c);
    Sent(Deliver(e, back[0]).value, fwd, p);
  }

  /**
   The message takes none of the branches that drop data, complain of the peer or end the connection, and no
   unsigned subtraction or addition of its handler wraps.
   */
  predicate Healthy(c: Chan, m: Msg) {
    match m
    case OpenMsg(_, _) => c.ctype.Absent?
    case Confirm(_, _) => c.ctype.Opening?
    case Data(bytes) =>
      && (InputData(c, bytes).1.Stored? || InputData(c, bytes).1.Discarded?)
      && |bytes| <= c.localWindow
      && c.localConsumed + |bytes| < U32
    case Adjust(credit) => (c.ctype.Open? || c.ctype.Larval?) && c.remoteWindow + credit < U32
    case Eof => (c.ctype.Open? || c.ctype.Larval?) && !c.eofRcvd
    case Close => (c.ctype.Open? || c.ctype.Larval?) && !c.closeRcvd
  }

  // ---------------------------------------------------------------- opening

  lemma AcceptKeeps(e: End, fwd: seq<Msg>, p: End, back: seq<Msg>, act: Action)
    requires BothInv(e, fwd, p, back) && act.Accept? && Local(e, back, act).Some?
    requires fwd == [] && back[1..] == [] && p.c.ctype.Opening?
    ensures KeptAsSender(Local(e, back, act).value, fwd, p, back)
    ensures KeptAsReceiver(Local(e, back, act).value, fwd, p, back)
  {
    Sent(Local(e, back, act).value, fwd, p);
  }

  lemma ConnectDoneSends(e: End, fwd: seq<Msg>, p: End, back: seq<Msg>)
    requires BothInv(e, fwd, p, back) && e.c.ctype.Connecting?
    ensures KeptAsSender(Local(e, back, ConnectDone).value, fwd, p, back)
  {
    Sent(Local(e, back, ConnectDone).value, fwd, p);
  }

  lemma ConnectDoneReceives(e: End, fwd: seq<Msg>, p: End, back: seq<Msg>)
    requires BothInv(e, fwd, p, back) && e.c.ctype.Connecting?
    ensures KeptAsReceiver(Local(e, back, ConnectDone).value, fwd, p, back)
  {
    Sent(Local(e, back, ConnectDone).value, fwd, p);
  }

  lemma StartSessionKeeps(e: End, fwd: seq<Msg>, p: End, back: seq<Msg>, w: u32)
    requires BothInv(e, fwd, p, back) && e.c.ctype.Larval?
    ensures KeptAsSender(Local(e, back, StartSession(w)).value, fwd, p, back)
    ensures KeptAsReceiver(Local(e, back, StartSession(w)).value, fwd, p, back)
  {
    Sent(Local(e, back, StartSession(w)).value, fwd, p);
  }

  // ---------------------------------------------------------------- every step keeps the invariant

  lemma ReceiveKeeps(e: End, fwd: seq<Msg>, p: End, back: seq<Msg>)
    requires BothInv(e, fwd, p, back)
    requires back != [] && Expected(e.c, back[0])
    ensures Healthy(e.c, back[0]) && Deliver(e, back[0]).Some?
    ensures KeptAsSender(Deliver(e, back[0]).value, fwd, p, back)
    ensures KeptAsReceiver(Deliver(e, back[0]).value, fwd, p, back)
  {
    hide BothInv, KeptAsSender, KeptAsReceiver, Healthy;
    match back[0]
    case OpenMsg(_, _) =>
    case Confirm(_, _) =>
      ConfirmSends(e, fwd, p, back);
      ConfirmReceives(e, fwd, p, back);
    case Data(_) =>
      DataReceives(e, fwd, p, back);
      DataSends(e, fwd, p, back);
    case Adjust(_) =>
      AdjustSends(e, fwd, p, back);
      AdjustReceives(e, fwd, p, back);
    case Eof =>
      EofSends(e, fwd, p, back);
      EofReceives(e, fwd, p, back);
    case Close =>
      CloseSends(e, fwd, p, back);
      CloseReceives(e, fwd, p, back);
  }

  /** The situation of an end that answers a CHANNEL_OPEN, or takes any other step. */
  predicate CanMove(e: End, fwd: seq<Msg>, p: End, back: seq<Msg>, act: Action) {
    && (act.Receive? ==> back != [] && Expected(e.c, back[0]))
    && (act.Accept? ==> fwd == [] && back != [] && back[1..] == [] && p.c.ctype.Opening?)
  }

  lemma MoveKeeps(e: End, fwd: seq<Msg>, p: End, back: seq<Msg>, act: Action)
    requires BothInv(e, fwd, p, back) && CanMove(e, fwd, p, back, act) && Local(e, back, act).Some?
    ensures KeptAsSender(Local(e, back, act).value, fwd, p, back)
    ensures KeptAsReceiver(Local(e, back, act).value, fwd, p, back)
  {
    hide BothInv, KeptAsSender, KeptAsReceiver, Deliver;
    match act
    case Read(res) =>
      ReadSends(e, fwd, p, back, res);
      ReadReceives(e, fwd, p, back, res);
    case Poll =>
      if OutputPoll(e.c).1 != [] && OutputPoll(e.c).1[0].Data? {
        PollDataSends(e, fwd, p, back);
      } else {
        PollEofSends(e, fwd, p, back);
      }
      PollReceives(e, fwd, p, back);
    case Write(res) =>
      WriteSends(e, fwd, p, back, res);
      WriteReceives(e, fwd, p, back, res);
    case ReturnCredit =>
      CreditSends(e, fwd, p, back);
      CreditReceives(e, fwd, p, back);
    case Drain =>
      DrainSends(e, fwd, p, back);
      DrainReceives(e, fwd, p, back);
    case PeerEow =>
      EowSends(e, fwd, p, back);
      EowReceives(e, fwd, p, back);
    case GarbageCollect =>
      CollectSends(e, fwd, p, back);
      CollectReceives(e, fwd, p, back);
    case Receive =>
      ReceiveKeeps(e, fwd, p, back);
    case Accept(_, _, _, _) =>
      AcceptKeeps(e, fwd, p, back, act);
    case ConnectDone =>
      ConnectDoneSends(e, fwd, p, back);
      ConnectDoneReceives(e, fwd, p, back);
    case StartSession(w) =>
      StartSessionKeeps(e, fwd, p, back, w);
  }

  lemma DeliverShape(e: End, x: Msg)
    requires Deliver(e, x).Some?
    ensures var m := Deliver(e, x).value;
      && |m.sent| <= 1 && m.taken == 1 && !x.OpenMsg?
      && (m.sent != [] ==> m.sent[0].Eof?)
      && (e.c.ctype.Opening? && x.Confirm? ==> m.sent == [] && m.e.c.ctype.Open?)
      && (m.e.c.ctype == e.c.ctype || (e.c.ctype.Opening? && x.Confirm? && m.e.c.ctype.Open?))
      && m.e.c.localMaxpacket == e.c.localMaxpacket
  {
  }

  /** What a move may do to the handshake: the type of the channel, and handshake messages it sends. */
  lemma MoveShape(e: End, back: seq<Msg>, act: Action)
    requires Local(e, back, act).Some?
    ensures var m := Local(e, back, act).value;
      && |m.sent| <= 1
      && (m.e.c.ctype != e.c.ctype ==> match e.c.ctype
          case Absent => act.Accept? && (m.e.c.ctype.Connecting? || m.e.c.ctype.Larval? || m.e.c.ctype.Open?)
          case Opening => act.Receive? && back != [] && back[0].Confirm? && m.e.c.ctype.Open?
          case Connecting => act.ConnectDone? && m.e.c.ctype.Open?
          case Larval => (act.StartSession? && m.e.c.ctype.Open?) || m.e.c.ctype.Freed?
          case Open => m.e.c.ctype.Freed?
          case Dead => true
          case Freed => false)
      && (m.sent != [] && Handshake(m.sent[0]) ==> m.sent[0].Confirm? && !Announced(e.c) && Announced(m.e.c))
      && (Announced(m.e.c) && !Announced(e.c) ==> m.sent != [] && m.sent[0].Confirm?)
      && m.taken == (if act.Receive? || act.Accept? then 1 else 0)
      && (act.Accept? ==> e.c.ctype.Absent? && back != [] && back[0].OpenMsg? && !m.e.c.ctype.Absent?)
      && (act.Receive? ==> back != [] && !back[0].OpenMsg?)
      && (act.Receive? ==> back != [])
      && (e.c.ctype.Opening? && !act.Receive? ==>
            && m.sent == [] && m.e.c.localWindow == e.c.localWindow
            && m.e.c.localMaxpacket == e.c.localMaxpacket && m.e.c.ctype == e.c.ctype)
      && (e.c.ctype.Opening? && act.Receive? && back[0].Confirm? ==> m.sent == [] && m.e.c.ctype.Open?)
      && (!Announced(e.c) && !Announced(m.e.c) && !act.Receive? ==> m.sent == [])
  {
    hide Deliver;
    if act.Receive? {
      DeliverShape(e, back[0]);
    }
  }

  lemma PhaseKeptByA(s: Sys, act: Action)
    requires Inv(s) && StepA(s, act).Some?
    ensures PhaseInv(StepA(s, act).value)
    ensures CanMove(s.a, s.ab, s.b, s.ba, act)
  {
    hide Local, WindowInv, CreditInv, PacketInv, StreamInv;
    MoveShape(s.a, s.ba, act);
    var m := Local(s.a, s.ba, act).value;
    assert CanMove(s.a, s.ab, s.b, s.ba, act);
    Sent(m, s.ab, s.b);
  }

  lemma PhaseKeptByB(s: Sys, act: Action)
    requires Inv(s) && StepB(s, act).Some?
    ensures PhaseInv(StepB(s, act).value)
    ensures CanMove(s.b, s.ba, s.a, s.ab, act)
  {
    hide WindowInv, CreditInv, PacketInv, StreamInv, Local;
    MoveShape(s.b, s.ab, act);
    var m := Local(s.b, s.ab, act).value;
    assert CanMove(s.b, s.ba, s.a, s.ab, act);
    Sent(m, s.ba, s.a);
    if s.ba != [] && m.sent != [] {
      assert (s.ba + m.sent)[1..] == s.ba[1..] + m.sent;
      SentOne(s.ba[1..], m.sent[0], 0, 0);
      assert m.sent == [m.sent[0]];
    }
  }

  /** The same reasons hold for the same shutdown state. */
  predicate SameInput(e: End, f: End) {
    && f.c.istate == e.c.istate && f.c.forceDrain == e.c.forceDrain && f.c.eofSent == e.c.eofSent
    && f.c.eofRcvd == e.c.eofRcvd && f.c.closeRcvd == e.c.closeRcvd
    && f.ended == e.ended && f.unwanted == e.unwanted
    && (e.c.ctype.Open? || e.c.ctype.Freed? ==> f.c.ctype.Open? || f.c.ctype.Freed?)
  }

  lemma SameInputKept(e: End, f: End)
    requires InputInv(e) && SameInput(e, f)
    ensures InputInv(f)
  {
  }

  lemma InputDelivered(e: End, x: Msg)
    requires InputInv(e) && Deliver(e, x).Some? && (e.c.closeSent ==> e.c.istate.InClosed?)
    ensures InputInv(Deliver(e, x).value.e)
  {
    hide InputInv, InputIeof, InputOclose, InputData, InputConfirm, InputAdjust, SameInput;
    match x
    case OpenMsg(_, _) =>
    case Confirm(_, _) =>
      ConfirmSameInput(e, x);
      SameInputKept(e, Deliver(e, x).value.e);
    case Data(bytes) =>
      DataSameInput(e, bytes);
      SameInputKept(e, Deliver(e, x).value.e);
    case Adjust(_) =>
      ConfirmSameInput(e, x);
      SameInputKept(e, Deliver(e, x).value.e);
    case Eof => InputEof(e);
    case Close => InputClose(e);
  }

  lemma ConfirmSameInput(e: End, x: Msg)
    requires (x.Confirm? || x.Adjust?) && Deliver(e, x).Some?
    ensures SameInput(e, Deliver(e, x).value.e)
  {
    hide InputIeof, InputOclose, InputData;
  }

  lemma DataSameInput(e: End, bytes: seq<byte>)
    ensures SameInput(e, e.(c := InputData(e.c, bytes).0))
  {
  }

  lemma InputEof(e: End)
    requires InputInv(e) && (e.c.closeSent ==> e.c.istate.InClosed?)
    ensures InputInv(e.(c := InputIeof(e.c).0))
  {
  }

  lemma InputClose(e: End)
    requires InputInv(e)
    ensures InputInv(e.(c := InputOclose(e.c).0))
  {
  }

  lemma InputRead(e: End, inq: seq<Msg>, res: ReadResult)
    requires InputInv(e) && Local(e, inq, Read(res)).Some?
    ensures InputInv(Local(e, inq, Read(res)).value.e)
  {
  }

  lemma InputPolled(e: End, inq: seq<Msg>)
    requires InputInv(e) && (e.c.closeSent ==> e.c.istate.InClosed?)
    ensures InputInv(Local(e, inq, Poll).value.e)
  {
  }

  /** No move stops the reading of an end for another reason, or without the EOF that is due. */
  lemma InputKept(e: End, inq: seq<Msg>, act: Action)
    requires InputInv(e) && Local(e, inq, act).Some?
    requires (e.c.closeSent ==> e.c.istate.InClosed?) && (e.c.ctype.Absent? ==> e.c == NewChan(Absent, 0, 0))
    ensures InputInv(Local(e, inq, act).value.e)
  {
    hide InputInv, SameInput, Deliver, OutputPoll, HandleRfd;
    var f := Local(e, inq, act).value.e;
    match act
    case Read(res) => InputRead(e, inq, res);
    case Poll => InputPolled(e, inq);
    case Receive => InputDelivered(e, inq[0]);
    case Accept(_, _, _, _) => InputAccepted(e, inq, act);
    case PeerEow => InputUnwanted(e, inq);
    case Write(res) => InputElse(e, inq, act);
    case ReturnCredit => InputElse(e, inq, act);
    case Drain => InputElse(e, inq, act);
    case GarbageCollect => InputElse(e, inq, act);
    case ConnectDone => InputElse(e, inq, act);
    case StartSession(_) => InputElse(e, inq, act);
  }

  predicate Elsewhere(act: Action) {
    act.Write? || act.ReturnCredit? || act.Drain? || act.GarbageCollect? || act.ConnectDone? || act.StartSession?
  }

  lemma ElsewhereSame(e: End, inq: seq<Msg>, act: Action)
    requires Elsewhere(act) && Local(e, inq, act).Some?
    ensures SameInput(e, Local(e, inq, act).value.e)
  {
    hide HandleRfd, InputIeof, InputOclose, InputData, OutputPoll, RcvdEow, Deliver, AdjustDue, WantWrite, WantRead;
  }

  lemma InputElse(e: End, inq: seq<Msg>, act: Action)
    requires InputInv(e) && Local(e, inq, act).Some? && Elsewhere(act)
    ensures InputInv(Local(e, inq, act).value.e)
  {
    hide InputInv, Local, SameInput;
    ElsewhereSame(e, inq, act);
    SameInputKept(e, Local(e, inq, act).value.e);
  }

  lemma InputAccepted(e: End, inq: seq<Msg>, act: Action)
    requires InputInv(e) && act.Accept? && Local(e, inq, act).Some?
    requires e.c == NewChan(Absent, 0, 0)
    ensures InputInv(Local(e, inq, act).value.e)
  {
  }

  lemma InputUnwanted(e: End, inq: seq<Msg>)
    requires InputInv(e) && Local(e, inq, PeerEow).Some?
    ensures InputInv(Local(e, inq, PeerEow).value.e)
  {
  }

  /** Whatever either end does, window, credit, data, order and handshake stay accounted for. */
  lemma StepKeeps(s: Sys, t: Sys)
    requires Inv(s) && Next(s, t)
    ensures Inv(t)
  {
    hide WindowInv, PacketInv, StreamInv, PhaseInv, InputInv, Local, CanMove;
    var act :| StepA(s, act) == Some(t) || StepB(s, act) == Some(t);
    if StepA(s, act) == Some(t) {
      PhaseKeptByA(s, act);
      MoveKeeps(s.a, s.ab, s.b, s.ba, act);
      InputKept(s.a, s.ba, act);
    } else {
      PhaseKeptByB(s, act);
      MoveKeeps(s.b, s.ba, s.a, s.ab, act);
      InputKept(s.b, s.ab, act);
    }
  }

  lemma InitKeeps(window: u32, maxpacket: u32, forceDrain: bool, boot: seq<byte>, written: nat, early: seq<byte>)
    requires written <= |boot| && window + |boot| < U32
    ensures Inv(InitSys(window, maxpacket, forceDrain, boot, written, early))
  {
    var s := InitSys(window, maxpacket, forceDrain, boot, written, early);
    assert boot[..written] + boot[written..] == boot;
    assert s.ab[1..] == [];
    assert !HasEof(s.ab) && !HasClose(s.ab) && !HasData(s.ab);
  }
}
