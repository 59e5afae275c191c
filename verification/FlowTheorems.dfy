/**
 What the flow-control invariant means for whole runs of two connected endpoints: window accounting, unreachable
 error branches, bytes delivered in order and complete, and freedom from stalls.
 */
module FlowTheorems {
  import opened Bytes
  import opened Channels
  import opened FlowControl

  ghost predicate Initial(s: Sys) {
    exists window: u32, maxpacket: u32, forceDrain, boot, written: nat, early ::
      && written <= |boot| && window + |boot| < U32
      && s == InitSys(window, maxpacket, forceDrain, boot, written, early)
  }

  ghost predicate Run(tr: seq<Sys>) {
    && tr != []
    && Initial(tr[0])
    && forall i :: 0 <= i < |tr| - 1 ==> Next(tr[i], tr[i + 1])
  }

  ghost predicate Reachable(s: Sys) {
    exists tr :: Run(tr) && tr[|tr| - 1] == s
  }

  lemma {:induction false} RunKeeps(tr: seq<Sys>)
    requires Run(tr)
    ensures Inv(tr[|tr| - 1])
  {
    hide Inv, Next, Initial;
    var n := |tr| - 1;
    if n == 0 {
      InitialInv(tr[0]);
    } else {
      var front := tr[..n];
      forall i | 0 <= i < |front| - 1
        ensures Next(front[i], front[i + 1])
      {
        assert Next(tr[i], tr[i + 1]);
      }
      RunKeeps(front);
      assert Next(tr[n - 1], tr[n - 1 + 1]);
      StepKeeps(tr[n - 1], tr[n]);
    }
  }

  lemma InitialInv(s: Sys)
    requires Initial(s)
    ensures Inv(s)
  {
    hide Inv, InitSys;
    var window: u32, maxpacket: u32, forceDrain, boot, written: nat, early :|
      && written <= |boot| && window + |boot| < U32
      && s == InitSys(window, maxpacket, forceDrain, boot, written, early);
    InitKeeps(window, maxpacket, forceDrain, boot, written, early);
  }

  lemma ReachableInv(s: Sys)
    requires Reachable(s)
    ensures Inv(s)
  {
    hide Inv;
    var tr :| Run(tr) && tr[|tr| - 1] == s;
    RunKeeps(tr);
  }

  /** The two directions of a system: sender, link, receiver, link back. */
  predicate Direction(s: Sys, snd: End, fwd: seq<Msg>, rcv: End, back: seq<Msg>) {
    (snd, fwd, rcv, back) == (s.a, s.ab, s.b, s.ba) || (snd, fwd, rcv, back) == (s.b, s.ba, s.a, s.ab)
  }

  lemma DirectionInv(s: Sys, snd: End, fwd: seq<Msg>, rcv: End, back: seq<Msg>)
    requires Reachable(s) && Direction(s, snd, fwd, rcv, back)
    ensures DirInv(snd, fwd, rcv, back)
  {
    hide Reachable, DirInv, PhaseInv;
    ReachableInv(s);
  }

  // ---------------------------------------------------------------- windows and faults

  /** What may still be sent, plus data and credit on the links, is what the receiver allows (section 5.2). */
  lemma WindowsAgree(s: Sys, snd: End, fwd: seq<Msg>, rcv: End, back: seq<Msg>)
    requires Reachable(s) && Direction(s, snd, fwd, rcv, back)
    ensures snd.c.remoteWindow + |DataBytes(fwd)| + Credit(back) == if Announced(rcv.c) then rcv.c.localWindow else 0
  {
    hide Reachable;
    DirectionInv(s, snd, fwd, rcv, back);
  }

  /** Received credit is neither made nor lost: only bytes thrown away by a failed write, and SOCKS replies, show. */
  lemma CreditConserved(s: Sys, snd: End, fwd: seq<Msg>, rcv: End, back: seq<Msg>)
    requires Reachable(s) && Direction(s, snd, fwd, rcv, back)
    ensures rcv.c.localWindow + rcv.c.localConsumed + |rcv.c.output| + rcv.lost == rcv.c.localWindowMax + |rcv.boot|
  {
    hide Reachable;
    DirectionInv(s, snd, fwd, rcv, back);
  }

  lemma HeadExpected(s: Sys)
    requires Inv(s)
    ensures s.ba != [] ==> Expected(s.a.c, s.ba[0])
    ensures s.ab != [] ==> if s.ab[0].OpenMsg? then s.b.c.ctype.Absent? else Expected(s.b.c, s.ab[0])
  {
    hide WindowInv, CreditInv, PacketInv, StreamInv;
  }

  /**
   Every message that arrives can be taken: no data packet is too big, beyond the window, or for a channel that is
   closed or gone, no adjustment overflows, nothing arrives twice; and no unsigned sum wraps. The one subtraction
   that can wrap is that of a window from its maximum; FlowOvershoot says exactly when.
   */
  lemma NoFaultEver(s: Sys)
    requires Reachable(s)
    ensures s.ba != [] ==> Healthy(s.a.c, s.ba[0]) && StepA(s, Receive).Some?
    ensures s.ab != [] ==> Healthy(s.b.c, s.ab[0]) && (s.ab[0].OpenMsg? || StepB(s, Receive).Some?)
    ensures s.a.c.localWindow + s.a.c.localConsumed < U32 && s.b.c.localWindow + s.b.c.localConsumed < U32
  {
    hide Reachable, Deliver, DirInv, PhaseInv;
    ReachableInv(s);
    HeadExpected(s);
    if s.ba != [] {
      ReceiveKeeps(s.a, s.ab, s.b, s.ba);
    }
    if s.ab != [] && !s.ab[0].OpenMsg? {
      ReceiveKeeps(s.b, s.ba, s.a, s.ab);
    }
    CreditConserved(s, s.a, s.ab, s.b, s.ba);
    CreditConserved(s, s.b, s.ba, s.a, s.ab);
    SumsFit(s);
  }

  lemma SumsFit(s: Sys)
    requires Inv(s)
    ensures s.a.c.localWindow + s.a.c.localConsumed < U32 && s.b.c.localWindow + s.b.c.localConsumed < U32
  {
  }

  /** Once a channel is freed, nothing addressed to it is on its way. */
  lemma FreedIsNeverAddressed(s: Sys, snd: End, fwd: seq<Msg>, rcv: End, back: seq<Msg>)
    requires Reachable(s) && Direction(s, snd, fwd, rcv, back) && rcv.c.ctype.Freed?
    ensures fwd == [] && snd.c.closeSent
  {
    hide Reachable;
    DirectionInv(s, snd, fwd, rcv, back);
  }

  /**
   The receive window stays within its maximum when nothing was put into the output buffer locally; on a channel
   that carried SOCKS replies, whose bytes are credited although no window paid for them, a full return of credit
   overshoots the maximum by exactly their number.
   */
  lemma WindowStaysBelowMaximum(s: Sys, snd: End, fwd: seq<Msg>, rcv: End, back: seq<Msg>)
    requires Reachable(s) && Direction(s, snd, fwd, rcv, back)
    ensures rcv.c.localWindow <= rcv.c.localWindowMax + |rcv.boot|
    ensures rcv.boot == [] ==> rcv.c.localWindow <= rcv.c.localWindowMax
    ensures Sub32(rcv.c.localWindowMax, rcv.c.localWindow) == rcv.c.localWindowMax - rcv.c.localWindow
      <==> rcv.c.localWindow <= rcv.c.localWindowMax
    ensures AdjustDue(rcv.c) && rcv.c.output == [] && rcv.lost == 0 ==>
      CheckWindow(rcv.c).0.localWindow == rcv.c.localWindowMax + |rcv.boot|
  {
    hide Reachable;
    DirectionInv(s, snd, fwd, rcv, back);
  }

  // ---------------------------------------------------------------- data

  /**
   Bytes arrive in order, once, and none is lost, as long as the receiver's output side is open; whatever happens
   afterwards, what has been written is a prefix of what was read.
   */
  lemma DataInOrder(s: Sys, snd: End, fwd: seq<Msg>, rcv: End, back: seq<Msg>)
    requires Reachable(s) && Direction(s, snd, fwd, rcv, back)
    ensures rcv.c.ostate.OutOpen? ==> rcv.wr + rcv.c.output + DataBytes(fwd) + snd.c.input == rcv.boot + snd.rd
    ensures rcv.wr <= rcv.boot + snd.rd
  {
    hide Reachable;
    DirectionInv(s, snd, fwd, rcv, back);
    if rcv.c.ostate.OutOpen? {
      var rest := rcv.c.output + DataBytes(fwd) + snd.c.input;
      assert rcv.wr + rcv.c.output + DataBytes(fwd) + snd.c.input == rcv.wr + rest;
    } else {
      assert rcv.wr <= rcv.wr + rcv.c.output;
    }
  }

  /** Section 5.3: EOF tells the truth. When it has come and no write failed, everything read is written or buffered. */
  lemma EofMeansAllDelivered(s: Sys, snd: End, fwd: seq<Msg>, rcv: End, back: seq<Msg>)
    requires Reachable(s) && Direction(s, snd, fwd, rcv, back)
    requires rcv.c.eofRcvd && rcv.lost == 0
    ensures rcv.wr + rcv.c.output == rcv.boot + snd.rd
    ensures rcv.c.ostate.OutClosed? ==> rcv.wr == rcv.boot + snd.rd
    ensures snd.c.istate.InClosed?
  {
    hide Reachable;
    DirectionInv(s, snd, fwd, rcv, back);
    assert rcv.wr + [] == rcv.wr;
  }

  // ---------------------------------------------------------------- progress

  /** The steps by which the two ends move what they already hold; reading more and failing are the outside world's. */
  predicate Progress(act: Action) {
    match act
    case Poll => true
    case Write(res) => res.Wrote? && res.n > 0
    case ReturnCredit => true
    case Drain => true
    case GarbageCollect => true
    case Receive => true
    case _ => false
  }

  ghost predicate ProgressStep(s: Sys, t: Sys) {
    s != t && exists act :: Progress(act) && (StepA(s, act) == Some(t) || StepB(s, act) == Some(t))
  }

  ghost predicate Quiescent(s: Sys) {
    forall t :: !ProgressStep(s, t)
  }

  function EndWork(e: End): nat {
    5 * |e.c.input| + 3 * |e.c.output| + 2 * e.c.localConsumed
    + (if e.c.istate.InClosed? then 0 else 2)
    + (if e.c.ostate.OutClosed? then 0 else 1)
    + (if e.c.closeSent then 0 else 2)
    + (if e.c.ctype.Freed? then 0 else 1)
  }

  /** A bound on the number of progress steps still possible. */
  function Work(s: Sys): nat {
    EndWork(s.a) + EndWork(s.b) + 3 * |DataBytes(s.ab)| + 3 * |DataBytes(s.ba)| + |s.ab| + |s.ba|
  }

  lemma PollWork(c: Chan)
    ensures var (d, sent) := OutputPoll(c);
      && |sent| <= 1
      && (sent == [] ==> d == c)
      && (sent != [] && sent[0].Data? ==>
            && d == c.(input := d.input, remoteWindow := d.remoteWindow)
            && |c.input| == |d.input| + |sent[0].bytes| && sent[0].bytes != [])
      && (sent != [] && !sent[0].Data? ==>
            sent == [Eof] && !c.istate.InClosed? && d == c.(istate := InClosed, eofSent := true))
  {
  }

  lemma DeliverWork(e: End, x: Msg)
    requires Expected(e.c, x) && Healthy(e.c, x) && Deliver(e, x).Some?
    ensures var m := Deliver(e, x).value;
      && m.taken == 1 && |m.sent| <= 1 && (m.sent != [] ==> m.sent[0].Eof?)
      && EndWork(m.e) + |m.sent| <= EndWork(e) + (if x.Data? then 3 * |x.bytes| else 0)
  {
    match x
    case Eof => IeofShape(e.c);
    case Close => OcloseShape(e.c);
    case Confirm(_, _) =>
    case Data(_) =>
    case Adjust(_) =>
  }

  predicate LessWork(m: Move, e: End, fwd: seq<Msg>, back: seq<Msg>) {
    && m.taken <= |back|
    && EndWork(m.e) + 3 * |DataBytes(fwd + m.sent)| + |fwd + m.sent|
       + 3 * |DataBytes(back[m.taken..])| + |back[m.taken..]|
       < EndWork(e) + 3 * |DataBytes(fwd)| + |fwd| + 3 * |DataBytes(back)| + |back|
  }

  lemma LocalWork(e: End, fwd: seq<Msg>, p: End, back: seq<Msg>, act: Action)
    requires BothInv(e, fwd, p, back) && CanMove(e, fwd, p, back, act) && Progress(act) && Local(e, back, act).Some?
    ensures var m := Local(e, back, act).value; m == Move(e, 0, []) || LessWork(m, e, fwd, back)
  {
    if act.Receive? {
      ReceiveWork(e, fwd, p, back);
    } else {
      OwnWork(e, fwd, p, back, act);
    }
  }

  lemma ReceiveWork(e: End, fwd: seq<Msg>, p: End, back: seq<Msg>)
    requires BothInv(e, fwd, p, back) && back != [] && Expected(e.c, back[0]) && Deliver(e, back[0]).Some?
    ensures LessWork(Deliver(e, back[0]).value, e, fwd, back)
  {
    hide DirInv, Deliver, EndWork;
    var m := Deliver(e, back[0]).value;
    ReceiveKeeps(e, fwd, p, back);
    DeliverWork(e, back[0]);
    Sent(m, fwd, p);
  }

  lemma OwnWork(e: End, fwd: seq<Msg>, p: End, back: seq<Msg>, act: Action)
    requires Progress(act) && !act.Receive? && Local(e, back, act).Some?
    requires e.c.localConsumed + |e.c.output| < U32
    ensures var m := Local(e, back, act).value; m == Move(e, 0, []) || LessWork(m, e, fwd, back)
  {
    hide Local, EndWork;
    var m := Local(e, back, act).value;
    MoveShape(e, back, act);
    OwnCost(e, back, act);
    Sent(m, fwd, p);
  }

  /** A handler run on its own initiative either changes nothing or pays for the message it sends. */
  lemma OwnCost(e: End, back: seq<Msg>, act: Action)
    requires Progress(act) && !act.Receive? && Local(e, back, act).Some?
    requires e.c.localConsumed + |e.c.output| < U32
    ensures var m := Local(e, back, act).value;
      && m.taken == 0 && |m.sent| <= 1
      && (m == Move(e, 0, [])
          || EndWork(m.e) + |m.sent|
             + (if m.sent != [] && m.sent[0].Data? then 3 * |m.sent[0].bytes| else 0) < EndWork(e))
  {
    hide OutputPoll, Deliver, HandleWfd, HandleRfd, CheckWindow, Collect, WantWrite, WantRead, RcvdEow, Activate;
    match act
    case Poll => PollWork(e.c);
    case Write(res) => WriteWork(e.c, res);
    case ReturnCredit => CreditWork(e.c);
    case GarbageCollect => CollectShape(e.c);
    case Drain =>
  }

  lemma WriteWork(c: Chan, res: WriteResult)
    requires res.Wrote? && res.n > 0 && WantWrite(c) && c.localConsumed + |c.output| < U32
    ensures var (d, out) := HandleWfd(c, res);
      && out != [] && |c.output| == |d.output| + |out|
      && d == c.(output := d.output, localConsumed := c.localConsumed + |out|)
  {
  }

  lemma CreditWork(c: Chan)
    ensures var (d, sent) := CheckWindow(c);
      && (sent == [] ==> d == c)
      && (sent != [] ==>
            && sent == [Adjust(c.localConsumed)] && c.localConsumed > 0
            && d == c.(localWindow := d.localWindow, localConsumed := 0))
  {
  }

  /** Every progress step uses up work: the two ends cannot exchange messages for ever without new input. */
  lemma ProgressIsFinite(s: Sys, t: Sys)
    requires Reachable(s) && ProgressStep(s, t)
    ensures Work(t) < Work(s)
  {
    hide Reachable, DirInv, PhaseInv, Local, EndWork;
    ReachableInv(s);
    var act :| Progress(act) && (StepA(s, act) == Some(t) || StepB(s, act) == Some(t));
    if StepA(s, act) == Some(t) {
      CanMoveA(s, act);
      LocalWork(s.a, s.ab, s.b, s.ba, act);
    } else {
      CanMoveB(s, act);
      LocalWork(s.b, s.ba, s.a, s.ab, act);
    }
  }

  lemma CanMoveA(s: Sys, act: Action)
    requires Inv(s) && StepA(s, act).Some?
    ensures CanMove(s.a, s.ab, s.b, s.ba, act)
  {
    hide Inv, StepA, CanMove;
    PhaseKeptByA(s, act);
  }

  lemma CanMoveB(s: Sys, act: Action)
    requires Inv(s) && StepB(s, act).Some?
    ensures CanMove(s.b, s.ba, s.a, s.ab, act)
  {
    hide Inv, StepB, CanMove;
    PhaseKeptByB(s, act);
  }

  /** The chain of progress steps from a reachable state is no longer than the work left in it. */
  lemma {:induction false} ProgressRunsEnd(tr: seq<Sys>)
    requires tr != [] && Reachable(tr[0])
    requires forall i :: 0 <= i < |tr| - 1 ==> ProgressStep(tr[i], tr[i + 1])
    ensures |tr| - 1 <= Work(tr[0])
  {
    hide Reachable, Work, ProgressStep;
    if |tr| > 1 {
      assert ProgressStep(tr[0], tr[0 + 1]);
      ProgressIsFinite(tr[0], tr[1]);
      ProgressReaches(tr[0], tr[1]);
      var rest := tr[1..];
      forall i | 0 <= i < |rest| - 1
        ensures ProgressStep(rest[i], rest[i + 1])
      {
        assert ProgressStep(tr[i + 1], tr[i + 1 + 1]);
      }
      ProgressRunsEnd(rest);
    }
  }

  lemma ProgressReaches(s: Sys, t: Sys)
    requires Reachable(s) && (Next(s, t) || ProgressStep(s, t))
    ensures Reachable(t)
  {
    hide StepA, StepB, Initial, Progress;
    var tr :| Run(tr) && tr[|tr| - 1] == s;
    var longer := tr + [t];
    assert Next(s, t);
    forall i | 0 <= i < |longer| - 1
      ensures Next(longer[i], longer[i + 1])
    {
      if i < |tr| - 1 {
        assert Next(tr[i], tr[i + 1]);
      }
    }
    assert Run(longer) && longer[|longer| - 1] == t;
  }

  // ---------------------------------------------------------------- no stall

  /** Both ends are open, neither is closing, the reader still reads and no output was thrown away. */
  predicate Flowing(snd: End, rcv: End) {
    && snd.c.ctype.Open? && rcv.c.ctype.Open?
    && !snd.c.closeSent && !snd.c.closeRcvd && !rcv.c.closeSent && !rcv.c.closeRcvd
    && !snd.c.istate.InClosed? && rcv.c.ostate.OutOpen?
  }

  /** channel_check_window leaves a drained receiver at least half open and within three packets of its maximum. */
  lemma CheckWindowReopens(s: Sys, snd: End, fwd: seq<Msg>, rcv: End, back: seq<Msg>)
    requires Reachable(s) && Direction(s, snd, fwd, rcv, back)
    requires rcv.c.ctype.Open? && !rcv.c.closeSent && !rcv.c.closeRcvd && rcv.c.output == [] && rcv.lost == 0
    ensures var d := CheckWindow(rcv.c).0;
      && d.localWindow >= rcv.c.localWindowMax / 2
      && d.localWindow + 3 * rcv.c.localMaxpacket >= rcv.c.localWindowMax
  {
    hide Reachable, WindowInv, PacketInv, StreamInv, ShutInv, CheckWindow;
    DirectionInv(s, snd, fwd, rcv, back);
    Reopens(rcv.c);
  }

  lemma Reopens(c: Chan)
    requires c.ctype.Open? && !c.closeSent && !c.closeRcvd
    requires c.localWindowMax <= c.localWindow + c.localConsumed < U32
    ensures var d := CheckWindow(c).0;
      d.localWindow >= c.localWindowMax / 2 && d.localWindow + 3 * c.localMaxpacket >= c.localWindowMax
  {
  }

  /** Window and packet size with which a receiver can never leave its peer stuck. */
  predicate Spacious(c: Chan) {
    c.localWindowMax >= 2 && c.localMaxpacket >= 1
  }

  /**
   Freedom from stalls: when nothing moves any more on a flowing channel, every byte read at the sender has been
   written at the receiver. With ProgressRunsEnd, this is what every run arrives at.
   */
  lemma NeverStalls(s: Sys, snd: End, fwd: seq<Msg>, rcv: End, back: seq<Msg>)
    requires Reachable(s) && Quiescent(s) && Direction(s, snd, fwd, rcv, back)
    requires Flowing(snd, rcv) && Spacious(rcv.c)
    ensures snd.c.input == [] && fwd == [] && rcv.c.output == []
    ensures rcv.wr == rcv.boot + snd.rd
  {
    hide Reachable, DirInv, Inv;
    LinksEmpty(s);
    assert fwd == [] && back == [];
    EndIdle(s, rcv);
    EndIdle(s, snd);
    DirectionInv(s, snd, fwd, rcv, back);
    IdleMeansDone(snd, rcv);
  }

  lemma Busy(s: Sys, act: Action, t: Sys)
    requires Progress(act) && t != s && (StepA(s, act) == Some(t) || StepB(s, act) == Some(t))
    ensures ProgressStep(s, t)
  {
  }

  lemma LinksEmpty(s: Sys)
    requires Reachable(s) && Quiescent(s)
    requires s.a.c.ctype.Open? && s.b.c.ctype.Open?
    ensures s.ab == [] && s.ba == []
  {
    hide Reachable, Local, ProgressStep;
    NoFaultEver(s);
    if s.ba != [] {
      MoveShape(s.a, s.ba, Receive);
      Busy(s, Receive, StepA(s, Receive).value);
    }
    if s.ab != [] {
      MoveShape(s.b, s.ab, Receive);
      Busy(s, Receive, StepB(s, Receive).value);
    }
  }

  /** No progress step of the end changes it: its output is written, no credit is due, nothing can be sent. */
  lemma EndIdle(s: Sys, e: End)
    requires Quiescent(s) && (e == s.a || e == s.b) && e.c.ctype.Open?
    ensures !WantWrite(e.c) && !AdjustDue(e.c) && OutputPoll(e.c).1 == []
  {
    hide InputIeof, InputOclose, InputData, Collect, ProgressStep;
    var act := if WantWrite(e.c) then Write(Wrote(1)) else if AdjustDue(e.c) then ReturnCredit else Poll;
    if WantWrite(e.c) || AdjustDue(e.c) || OutputPoll(e.c).1 != [] {
      if e == s.a {
        Busy(s, act, StepA(s, act).value);
      } else {
        Busy(s, act, StepB(s, act).value);
      }
    }
  }

  lemma IdleMeansDone(snd: End, rcv: End)
    requires DirInv(snd, [], rcv, []) && Flowing(snd, rcv) && Spacious(rcv.c)
    requires !WantWrite(rcv.c) && !AdjustDue(rcv.c) && OutputPoll(snd.c).1 == []
    ensures snd.c.input == [] && rcv.c.output == [] && rcv.wr == rcv.boot + snd.rd
  {
    assert rcv.wr + [] + [] + [] == rcv.wr;
  }

  // ---------------------------------------------------------------- with less space, a sender can be stuck

  /** Some run leaves a flowing channel with this window and packet size stuck with unsent data. */
  ghost predicate CanStall(max: u32, maxpacket: u32) {
    exists s, snd, fwd, rcv, back ::
      && Reachable(s) && Quiescent(s) && Direction(s, snd, fwd, rcv, back)
      && Flowing(snd, rcv) && snd.c.input != []
      && rcv.c.localWindowMax == max && rcv.c.localMaxpacket == maxpacket
  }

  /** The exact condition: a sender can stay blocked for ever iff the window is below two bytes or packets are empty. */
  lemma StallExactly(max: u32, maxpacket: u32)
    ensures CanStall(max, maxpacket) <==> max < 2 || maxpacket == 0
  {
    hide Reachable, Quiescent;
    if CanStall(max, maxpacket) {
      var s, snd, fwd, rcv, back :|
        && Reachable(s) && Quiescent(s) && Direction(s, snd, fwd, rcv, back)
        && Flowing(snd, rcv) && snd.c.input != []
        && rcv.c.localWindowMax == max && rcv.c.localMaxpacket == maxpacket;
      if max >= 2 && maxpacket >= 1 {
        NeverStalls(s, snd, fwd, rcv, back);
      }
    }
    if max < 2 || maxpacket == 0 {
      var s := StuckState(max, maxpacket);
      assert Direction(s, s.a, s.ab, s.b, s.ba);
    }
  }

  /** Two bytes wait at the opener; the peer has just confirmed. */
  function Confirmed(max: u32, maxpacket: u32): Sys {
    Sys(End(NewChan(Open, 0, 1).(remoteWindow := max, remoteMaxpacket := maxpacket, input := [7, 8]),
            [], [7, 8], [], 0, false, false),
        End(NewChan(Open, max, maxpacket).(remoteMaxpacket := 1), [], [], [], 0, false, false), [], [])
  }

  /** One byte has gone through a window of one, and its credit is never returned. */
  function OneByteLater(maxpacket: u32): Sys {
    Sys(End(NewChan(Open, 0, 1).(remoteMaxpacket := maxpacket, input := [8]), [], [7, 8], [], 0, false, false),
        End(NewChan(Open, 1, maxpacket).(remoteMaxpacket := 1, localWindow := 0, localConsumed := 1),
            [], [], [7], 0, false, false), [], [])
  }

  lemma StuckState(max: u32, maxpacket: u32) returns (s: Sys)
    requires max < 2 || maxpacket == 0
    ensures Reachable(s) && Quiescent(s) && Flowing(s.a, s.b) && s.a.c.input != []
    ensures s.b.c.localWindowMax == max && s.b.c.localMaxpacket == maxpacket
  {
    hide Reachable, Quiescent;
    if max == 0 || maxpacket == 0 {
      s := Confirmed(max, maxpacket);
      ConfirmedReachable(max, maxpacket);
    } else {
      s := OneByteLater(maxpacket);
      OneByteReachable(maxpacket);
      assert Mul32(maxpacket, 3) >= 1;
    }
    NothingMoves(s);
  }

  lemma ConfirmedReachable(max: u32, maxpacket: u32)
    ensures Reachable(Confirmed(max, maxpacket))
  {
    hide Reachable, InputIeof, InputOclose;
    var start := InitSys(0, 1, false, [], 0, [7, 8]);
    StartReachable(start);
    assert [7, 8][0..] == [7, 8];
    var accepted := Sys(start.a, Confirmed(max, maxpacket).b, [], [Confirm(max, maxpacket)]);
    assert start.ab[1..] == [] && start.ba + [Confirm(max, maxpacket)] == accepted.ba;
    Reaches(start, accepted, Accept(Open, max, maxpacket, false));
    assert accepted.ba[1..] == [] && accepted.ab + [] == [];
    Reaches(accepted, Confirmed(max, maxpacket), Receive);
  }

  /** The byte is on the link, then in the peer's output buffer. */
  function OneByteSent(maxpacket: u32): Sys {
    Sys(OneByteLater(maxpacket).a, Confirmed(1, maxpacket).b, [Data([7])], [])
  }

  function OneByteStored(maxpacket: u32): Sys {
    var b := Confirmed(1, maxpacket).b;
    Sys(OneByteLater(maxpacket).a, b.(c := b.c.(localWindow := 0, output := [7])), [], [])
  }

  lemma OneByteReachable(maxpacket: u32)
    requires maxpacket >= 1
    ensures Reachable(OneByteLater(maxpacket))
  {
    hide Reachable, Confirmed, OneByteLater, OneByteSent, OneByteStored, StepA, StepB;
    ConfirmedReachable(1, maxpacket);
    SendStep(maxpacket);
    Reaches(Confirmed(1, maxpacket), OneByteSent(maxpacket), Poll);
    StoreStep(maxpacket);
    Reaches(OneByteSent(maxpacket), OneByteStored(maxpacket), Receive);
    WriteStep(maxpacket);
    Reaches(OneByteStored(maxpacket), OneByteLater(maxpacket), Write(Wrote(1)));
  }

  lemma SendStep(maxpacket: u32)
    requires maxpacket >= 1
    ensures StepA(Confirmed(1, maxpacket), Poll) == Some(OneByteSent(maxpacket))
  {
    var ready, sent := Confirmed(1, maxpacket), OneByteSent(maxpacket);
    assert [7, 8][..1] == [7] && [7, 8][1..] == [8];
    assert Local(ready.a, [], Poll) == Some(Move(sent.a, 0, [Data([7])]));
    assert ready.ab + [Data([7])] == [Data([7])] && ready.ba[0..] == [];
  }

  lemma StoreStep(maxpacket: u32)
    requires maxpacket >= 1
    ensures StepB(OneByteSent(maxpacket), Receive) == Some(OneByteStored(maxpacket))
  {
    hide InputIeof, InputOclose;
    var sent := OneByteSent(maxpacket);
    assert [] + [7] == [7] && sent.ab[1..] == [] && sent.ba + [] == [];
  }

  lemma WriteStep(maxpacket: u32)
    requires maxpacket >= 1
    ensures StepB(OneByteStored(maxpacket), Write(Wrote(1))) == Some(OneByteLater(maxpacket))
  {
    var stored, done := OneByteStored(maxpacket), OneByteLater(maxpacket);
    assert [7][..1] == [7] && [7][1..] == [] && [] + [7] == [7];
    assert Local(stored.b, [], Write(Wrote(1))) == Some(Move(done.b, 0, []));
    assert stored.ab[0..] == [] && stored.ba + [] == [];
  }

  lemma StartReachable(s: Sys)
    requires s == InitSys(0, 1, false, [], 0, [7, 8])
    ensures Reachable(s)
  {
    var tr := [s];
    assert Initial(s);
    assert Run(tr) && tr[|tr| - 1] == s;
  }

  lemma Reaches(s: Sys, t: Sys, act: Action)
    requires Reachable(s) && (StepA(s, act) == Some(t) || StepB(s, act) == Some(t))
    ensures Reachable(t)
  {
    hide Reachable, StepA, StepB;
    ProgressReaches(s, t);
  }

  predicate Still(c: Chan) {
    && c.output == [] && c.istate.InOpen? && c.ostate.OutOpen? && !AdjustDue(c)
    && (c.input == [] || c.remoteWindow == 0 || c.remoteMaxpacket == 0)
  }

  lemma StillMoves(e: End, act: Action)
    requires Still(e.c) && Progress(act)
    ensures Local(e, [], act).None? || Local(e, [], act).value == Move(e, 0, [])
  {
    hide Deliver;
  }

  lemma NothingMoves(s: Sys)
    requires s.ab == [] && s.ba == [] && Still(s.a.c) && Still(s.b.c)
    ensures Quiescent(s)
  {
    hide Local, Still;
    forall t | ProgressStep(s, t)
      ensures false
    {
      var act :| Progress(act) && (StepA(s, act) == Some(t) || StepB(s, act) == Some(t));
      StillMoves(s.a, act);
      StillMoves(s.b, act);
    }
  }
}
