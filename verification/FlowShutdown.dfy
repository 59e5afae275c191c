/** Closing comes to an end: once CLOSE has been sent and nothing more can move, both sides have freed the channel. */
module FlowShutdown {
  import opened Bytes
  import opened Channels
  import opened FlowControl
  import opened FlowTheorems

  predicate Closing(e: End) { e.c.closeSent || e.c.closeRcvd }

  /** In a quiescent state every message has been taken, except a CHANNEL_OPEN that nobody has answered. */
  lemma LinksTaken(s: Sys)
    requires Reachable(s) && Quiescent(s)
    ensures s.ba == [] && (s.ab == [] || s.ab[0].OpenMsg?)
  {
    hide Reachable, Local, ProgressStep;
    NoFaultEver(s);
    if s.ba != [] {
      MoveShape(s.a, s.ba, Receive);
      Busy(s, Receive, StepA(s, Receive).value);
    }
    if s.ab != [] && !s.ab[0].OpenMsg? {
      MoveShape(s.b, s.ab, Receive);
      Busy(s, Receive, StepB(s, Receive).value);
    }
  }

  /** A channel that has been closed by its peer still has a step to take until it is freed. */
  lemma ClosedHasStep(c: Chan)
    requires c.closeRcvd && c.istate.InClosed? && !c.ostate.OutOpen? && (c.ctype.Open? || c.ctype.Larval?)
    requires c.ctype.Larval? ==> c.ostate.OutClosed?
    requires !WantWrite(c)
    ensures if c.ostate.OutClosed? then Collect(c).0 != c else c.ctype.Open? && ObufEmpty(c) != c
  {
  }

  lemma ClosedIsFreed(s: Sys, e: End)
    requires Quiescent(s) && (e == s.a || e == s.b)
    requires e.c.closeRcvd && e.c.istate.InClosed? && !e.c.ostate.OutOpen?
    requires e.c.ctype.Larval? ==> e.c.ostate.OutClosed?
    ensures !e.c.ctype.Open? && !e.c.ctype.Larval?
  {
    hide ProgressStep;
    if e.c.ctype.Open? || e.c.ctype.Larval? {
      if e.c.ctype.Open? {
        EndIdle(s, e);
      }
      ClosedHasStep(e.c);
      var act := if e.c.ostate.OutClosed? then GarbageCollect else Drain;
      if e == s.a {
        Busy(s, act, StepA(s, act).value);
      } else {
        Busy(s, act, StepB(s, act).value);
      }
    }
  }

  /** Each side has received CLOSE exactly if the other has sent it, and a side that has received it is freed. */
  lemma ClosedBothWays(s: Sys)
    requires Reachable(s) && Quiescent(s) && (Closing(s.a) || Closing(s.b))
    ensures s.ab == [] && s.ba == []
    ensures (s.a.c.closeSent <==> s.b.c.closeRcvd) && (s.b.c.closeSent <==> s.a.c.closeRcvd)
    ensures s.a.c.closeRcvd ==> s.a.c.ctype.Freed? && s.a.c.closeSent
    ensures s.b.c.closeRcvd ==> s.b.c.ctype.Freed? && s.b.c.closeSent
  {
    hide Reachable, Quiescent, WindowInv, PacketInv, StreamInv;
    ReachableInv(s);
    LinksTaken(s);
    if s.a.c.closeRcvd {
      ClosedIsFreed(s, s.a);
    }
    if s.b.c.closeRcvd {
      ClosedIsFreed(s, s.b);
    }
  }

  /**
   Section 5.3: whichever side began to close and in whatever state the other was, when nothing can move any more both
   channels have been freed and the links are empty. With ProgressRunsEnd, this is what closing arrives at.
   */
  lemma ShutdownCompletes(s: Sys)
    requires Reachable(s) && Quiescent(s) && (Closing(s.a) || Closing(s.b))
    ensures s.a.c.ctype.Freed? && s.b.c.ctype.Freed?
    ensures s.ab == [] && s.ba == []
  {
    hide Reachable, Quiescent;
    ClosedBothWays(s);
  }

  // ---------------------------------------------------------------- the end of the input

  /** Neither side has begun to close. */
  predicate StillUp(snd: End, rcv: End) {
    snd.c.ctype.Open? && rcv.c.ctype.Open? && !Closing(snd) && !Closing(rcv)
  }

  /** Poll on a draining channel sends what is left, or the EOF. */
  lemma DrainedPollSends(c: Chan)
    requires c.ctype.Open? && !c.closeSent && !c.closeRcvd && c.istate.InWaitDrain? && c.input == []
    ensures OutputPoll(c).1 == [Eof]
  {
  }

  /** An end that stops reading with nothing left to send has said so. */
  lemma DrainedHasSentEof(s: Sys, snd: End)
    requires Quiescent(s) && (snd == s.a || snd == s.b) && InputInv(snd)
    requires snd.c.ctype.Open? && !Closing(snd) && !snd.c.istate.InOpen? && !snd.unwanted && snd.c.input == []
    ensures snd.c.eofSent
  {
    hide Quiescent, OutputPoll, WantWrite, AdjustDue;
    if !snd.c.eofSent {
      EndIdle(s, snd);
      DrainedPollSends(snd.c);
    }
  }

  /** Until EOF has come a receiver that lost nothing takes all that its sender has. */
  lemma SenderIsDrained(s: Sys, snd: End, fwd: seq<Msg>, rcv: End, back: seq<Msg>)
    requires Reachable(s) && Quiescent(s) && Direction(s, snd, fwd, rcv, back)
    requires StillUp(snd, rcv) && rcv.lost == 0 && Spacious(rcv.c) && !snd.c.istate.InClosed?
    ensures snd.c.input == []
  {
    hide Reachable, Quiescent, WindowInv, CreditInv, PacketInv, StreamInv;
    DirectionInv(s, snd, fwd, rcv, back);
    LinksEmpty(s);
    NeverStalls(s, snd, fwd, rcv, back);
  }

  /**
   Section 5.3: an end that has come to the end of its input sends everything before it and then EOF, and the peer gets
   both. Nothing else can stop it but the peer closing or throwing away what it is sent.
   */
  lemma EofReachesPeer(s: Sys, snd: End, fwd: seq<Msg>, rcv: End, back: seq<Msg>)
    requires Reachable(s) && Quiescent(s) && Direction(s, snd, fwd, rcv, back)
    requires StillUp(snd, rcv) && rcv.lost == 0 && Spacious(rcv.c) && snd.ended
    ensures snd.c.eofSent && rcv.c.eofRcvd
    ensures rcv.c.ostate.OutClosed? && rcv.wr == rcv.boot + snd.rd
  {
    hide Reachable, Quiescent, WindowInv, CreditInv, PacketInv, StreamInv;
    ReachableInv(s);
    DirectionInv(s, snd, fwd, rcv, back);
    LinksEmpty(s);
    if !snd.c.istate.InClosed? {
      SenderIsDrained(s, snd, fwd, rcv, back);
      DrainedHasSentEof(s, snd);
    }
    assert rcv.c.eofRcvd;
    OutputIsShut(s, rcv);
    EofMeansAllDelivered(s, snd, fwd, rcv, back);
  }

  /** An end that has received EOF has written out and shut its output. */
  lemma OutputIsShut(s: Sys, e: End)
    requires Quiescent(s) && (e == s.a || e == s.b) && e.c.ctype.Open? && !e.c.ostate.OutOpen?
    ensures e.c.ostate.OutClosed?
  {
    hide ProgressStep;
    if !e.c.ostate.OutClosed? {
      EndIdle(s, e);
      if e == s.a {
        Busy(s, Drain, StepA(s, Drain).value);
      } else {
        Busy(s, Drain, StepB(s, Drain).value);
      }
    }
  }

  /** With both directions shut an end has sent CLOSE. */
  lemma ShutIsClosing(s: Sys, e: End)
    requires Quiescent(s) && (e == s.a || e == s.b) && (e.c.ctype.Open? || e.c.ctype.Larval?)
    requires e.c.istate.InClosed? && e.c.ostate.OutClosed?
    ensures e.c.closeSent
  {
    hide ProgressStep;
    if !e.c.closeSent {
      if e == s.a {
        Busy(s, GarbageCollect, StepA(s, GarbageCollect).value);
      } else {
        Busy(s, GarbageCollect, StepB(s, GarbageCollect).value);
      }
    }
  }

  /** Two ends whose input has ended begin to close. */
  lemma EndedBothClose(s: Sys)
    requires Reachable(s) && Quiescent(s) && s.a.ended && s.b.ended && s.a.lost == 0 && s.b.lost == 0
    requires Spacious(s.a.c) && Spacious(s.b.c)
    ensures Closing(s.a) || Closing(s.b)
  {
    hide Reachable, Quiescent, WindowInv, CreditInv, PacketInv, StreamInv, Spacious;
    ReachableInv(s);
    if !Closing(s.a) && !Closing(s.b) {
      EofReachesPeer(s, s.a, s.ab, s.b, s.ba);
      EofReachesPeer(s, s.b, s.ba, s.a, s.ab);
      if s.a.c.istate.InClosed? {
        ShutIsClosing(s, s.a);
      } else {
        SenderIsDrained(s, s.a, s.ab, s.b, s.ba);
        StillDraining(s, s.a);
      }
    }
  }

  lemma StillDraining(s: Sys, e: End)
    requires Quiescent(s) && (e == s.a || e == s.b)
    requires e.c.ctype.Open? && !Closing(e) && e.c.input == []
    ensures !e.c.istate.InWaitDrain?
  {
    hide Quiescent, OutputPoll, WantWrite, AdjustDue;
    EndIdle(s, e);
    if e.c.istate.InWaitDrain? {
      DrainedPollSends(e.c);
    }
  }

  /**
   How an ordinary session ends: when both ends have come to the end of their input, no output was thrown away and the
   windows are not degenerate, what every run arrives at is that all bytes read are written at the other side, both
   channels are freed and no message is on its way.
   */
  lemma EverythingDelivered(s: Sys)
    requires Reachable(s) && Quiescent(s) && s.a.ended && s.b.ended && s.a.lost == 0 && s.b.lost == 0
    requires Spacious(s.a.c) && Spacious(s.b.c)
    ensures s.a.c.ctype.Freed? && s.b.c.ctype.Freed? && s.ab == [] && s.ba == []
    ensures s.b.wr == s.b.boot + s.a.rd && s.a.wr == s.a.boot + s.b.rd
  {
    hide Reachable, Quiescent, WindowInv, CreditInv, PacketInv, StreamInv, Spacious;
    EndedBothClose(s);
    ShutdownCompletes(s);
    ReachableInv(s);
    FreedIsDelivered(s, s.a, s.ab, s.b, s.ba);
    FreedIsDelivered(s, s.b, s.ba, s.a, s.ab);
  }

  lemma FreedIsDelivered(s: Sys, snd: End, fwd: seq<Msg>, rcv: End, back: seq<Msg>)
    requires Reachable(s) && Direction(s, snd, fwd, rcv, back) && fwd == [] && back == []
    requires snd.c.ctype.Freed? && rcv.c.ctype.Freed? && snd.ended && rcv.lost == 0
    ensures rcv.wr == rcv.boot + snd.rd
  {
    hide Reachable, WindowInv, CreditInv, PacketInv, StreamInv;
    ReachableInv(s);
    DirectionInv(s, snd, fwd, rcv, back);
    EofMeansAllDelivered(s, snd, fwd, rcv, back);
  }

  /** Under forced drain EOF from the peer is answered: nothing more is read, what was read is sent, and then EOF. */
  lemma ForcedDrainAnswers(s: Sys, snd: End, fwd: seq<Msg>, rcv: End, back: seq<Msg>)
    requires Reachable(s) && Quiescent(s) && Direction(s, snd, fwd, rcv, back)
    requires StillUp(snd, rcv) && rcv.lost == 0 && Spacious(rcv.c)
    requires snd.c.forceDrain && snd.c.eofRcvd && !snd.unwanted
    ensures snd.c.eofSent && rcv.c.eofRcvd && rcv.wr == rcv.boot + snd.rd
  {
    hide Reachable, Quiescent, WindowInv, CreditInv, PacketInv, StreamInv;
    ReachableInv(s);
    DirectionInv(s, snd, fwd, rcv, back);
    LinksEmpty(s);
    if !snd.c.istate.InClosed? {
      SenderIsDrained(s, snd, fwd, rcv, back);
      DrainedHasSentEof(s, snd);
    }
    assert rcv.c.eofRcvd;
    OutputIsShut(s, rcv);
    EofMeansAllDelivered(s, snd, fwd, rcv, back);
  }

  /** The reasons, and no others, for which an end has stopped reading. */
  lemma ReadsUntil(s: Sys, e: End)
    requires Reachable(s) && (e == s.a || e == s.b)
    ensures e.c.istate.InOpen?
      <==> !e.ended && !e.unwanted && !(e.c.forceDrain && e.c.eofRcvd) && !e.c.closeRcvd
  {
    hide Reachable, DirInv, PhaseInv;
    ReachableInv(s);
  }

  /** A channel that is shut in both directions is closed by itself, and the peer's with it. */
  lemma ShutBothWaysIsFreed(s: Sys, e: End)
    requires Reachable(s) && Quiescent(s) && (e == s.a || e == s.b)
    requires e.c.istate.InClosed? && e.c.ostate.OutClosed? && !e.c.ctype.Opening? && !e.c.ctype.Connecting?
    ensures s.a.c.ctype.Freed? && s.b.c.ctype.Freed?
  {
    hide Reachable, Quiescent, WindowInv, PacketInv, StreamInv;
    ReachableInv(s);
    if e.c.ctype.Open? || e.c.ctype.Larval? {
      ShutIsClosing(s, e);
    }
    ShutdownCompletes(s);
  }
}
