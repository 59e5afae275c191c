/** Exactly when a receive window can rise above its maximum, and the subtraction in channel_check_window wrap. */
module FlowOvershoot {
  import opened Bytes
  import opened Channels
  import opened FlowControl
  import opened FlowTheorems

  /**
   Some run brings the window of a channel into whose output `boot` was put locally above its maximum; then, and only
   then, the difference that channel_check_window computes is not the maximum less the window.
   */
  ghost predicate CanOvershoot(boot: seq<byte>) {
    exists s, snd, fwd, rcv, back ::
      && Reachable(s) && Direction(s, snd, fwd, rcv, back)
      && rcv.boot == boot && rcv.c.localWindow > rcv.c.localWindowMax
      && Sub32(rcv.c.localWindowMax, rcv.c.localWindow) != rcv.c.localWindowMax - rcv.c.localWindow
  }

  /** Some run brings it above its maximum by all of those bytes, which is as far as it can go. */
  ghost predicate CanReachLimit(boot: seq<byte>) {
    exists s, snd, fwd, rcv, back ::
      && Reachable(s) && Direction(s, snd, fwd, rcv, back)
      && rcv.boot == boot && rcv.c.localWindow == rcv.c.localWindowMax + |boot|
  }

  /**
   The exact condition: any bytes put in locally make it possible, up to a number that leaves no room for a window of
   two; with a smaller window credit is never returned.
   */
  lemma OvershootExactly(boot: seq<byte>)
    ensures CanOvershoot(boot) <==> boot != [] && |boot| + 2 < U32
    ensures CanOvershoot(boot) ==> CanReachLimit(boot)
  {
    hide Reachable;
    if CanOvershoot(boot) {
      var s, snd, fwd, rcv, back :|
        && Reachable(s) && Direction(s, snd, fwd, rcv, back)
        && rcv.boot == boot && rcv.c.localWindow > rcv.c.localWindowMax;
      DirectionInv(s, snd, fwd, rcv, back);
    }
    if boot != [] && |boot| + 2 < U32 {
      RunReaches(boot);
      var s := Overshot(boot);
      assert Direction(s, s.b, s.ba, s.a, s.ab);
    }
  }

  // ---------------------------------------------------------------- a run that overshoots

  /** The opener, whose replies have been written, and what its peer has sent it. */
  function Opener(boot: seq<byte>, t: ChanType, window: nat, consumed: nat, out: seq<byte>, wr: seq<byte>): End
    requires window < U32 && consumed < U32
  {
    End(NewChan(t, 2, 2).(localWindow := window, localConsumed := consumed, output := out,
                          remoteMaxpacket := if t.Open? then 1 else 0),
        boot, [], boot + wr, 0, false, false)
  }

  function Peer(window: u32, input: seq<byte>, rd: seq<byte>): End {
    End(NewChan(Open, 0, 1).(remoteWindow := window, remoteMaxpacket := 2, input := input), [], rd, [], 0, false, false)
  }

  function Accepted(boot: seq<byte>): Sys
    requires |boot| + 2 < U32
  {
    Sys(Opener(boot, Opening, 2, |boot|, [], []), Peer(2, [], []), [], [Confirm(0, 1)])
  }

  function Joined(boot: seq<byte>): Sys
    requires |boot| + 2 < U32
  {
    Sys(Opener(boot, Open, 2, |boot|, [], []), Peer(2, [], []), [], [])
  }

  function HasRead(boot: seq<byte>): Sys
    requires |boot| + 2 < U32
  {
    Sys(Opener(boot, Open, 2, |boot|, [], []), Peer(2, [7, 8], [7, 8]), [], [])
  }

  function HasSent(boot: seq<byte>): Sys
    requires |boot| + 2 < U32
  {
    Sys(Opener(boot, Open, 2, |boot|, [], []), Peer(0, [], [7, 8]), [], [Data([7, 8])])
  }

  function HasStored(boot: seq<byte>): Sys
    requires |boot| + 2 < U32
  {
    Sys(Opener(boot, Open, 0, |boot|, [7, 8], []), Peer(0, [], [7, 8]), [], [])
  }

  function HasWritten(boot: seq<byte>): Sys
    requires |boot| + 2 < U32
  {
    Sys(Opener(boot, Open, 0, |boot| + 2, [], [7, 8]), Peer(0, [], [7, 8]), [], [])
  }

  function Overshot(boot: seq<byte>): Sys
    requires |boot| + 2 < U32
  {
    Sys(Opener(boot, Open, |boot| + 2, 0, [], [7, 8]), Peer(0, [], [7, 8]), [Adjust(|boot| + 2)], [])
  }

  lemma RunReaches(boot: seq<byte>)
    requires |boot| + 2 < U32
    ensures Reachable(Overshot(boot))
  {
    hide Reachable, Initial, StepA, StepB, Accepted, Joined, HasRead, HasSent, HasStored, HasWritten, Overshot, InitSys;
    var s := InitSys(2, 2, false, boot, |boot|, []);
    BootReachable(s, boot);
    AcceptStep(boot);
    Reaches(s, Accepted(boot), Accept(Open, 0, 1, false));
    JoinStep(boot);
    Reaches(Accepted(boot), Joined(boot), Receive);
    ReadStep(boot);
    Reaches(Joined(boot), HasRead(boot), Read(ReadBytes([7, 8])));
    SendStep(boot);
    Reaches(HasRead(boot), HasSent(boot), Poll);
    StoreStep(boot);
    Reaches(HasSent(boot), HasStored(boot), Receive);
    WriteStep(boot);
    Reaches(HasStored(boot), HasWritten(boot), Write(Wrote(2)));
    CreditStep(boot);
    Reaches(HasWritten(boot), Overshot(boot), ReturnCredit);
  }

  lemma BootReachable(s: Sys, boot: seq<byte>)
    requires |boot| + 2 < U32 && s == InitSys(2, 2, false, boot, |boot|, [])
    ensures Reachable(s)
  {
    var tr := [s];
    assert Initial(s);
    assert Run(tr) && tr[|tr| - 1] == s;
  }

  lemma AcceptStep(boot: seq<byte>)
    requires |boot| + 2 < U32
    ensures StepB(InitSys(2, 2, false, boot, |boot|, []), Accept(Open, 0, 1, false)) == Some(Accepted(boot))
  {
    var s, t := InitSys(2, 2, false, boot, |boot|, []), Accepted(boot);
    assert boot[..|boot|] == boot + [] && boot[|boot|..] == [];
    assert Local(s.b, s.ab, Accept(Open, 0, 1, false)) == Some(Move(t.b, 1, [Confirm(0, 1)]));
    assert s.ab[1..] == [] && s.ba + [Confirm(0, 1)] == t.ba;
  }

  lemma JoinStep(boot: seq<byte>)
    requires |boot| + 2 < U32
    ensures StepA(Accepted(boot), Receive) == Some(Joined(boot))
  {
    hide InputIeof, InputOclose;
    var s, t := Accepted(boot), Joined(boot);
    assert Local(s.a, s.ba, Receive) == Some(Move(t.a, 1, []));
    assert s.ba[1..] == [] && s.ab + [] == [];
  }

  lemma ReadStep(boot: seq<byte>)
    requires |boot| + 2 < U32
    ensures StepB(Joined(boot), Read(ReadBytes([7, 8]))) == Some(HasRead(boot))
  {
    var s, t := Joined(boot), HasRead(boot);
    assert [7, 8][..2] == [7, 8] && [] + [7, 8] == [7, 8];
    assert Local(s.b, s.ab, Read(ReadBytes([7, 8]))) == Some(Move(t.b, 0, []));
    assert s.ab[0..] == [] && s.ba + [] == [];
  }

  lemma SendStep(boot: seq<byte>)
    requires |boot| + 2 < U32
    ensures StepB(HasRead(boot), Poll) == Some(HasSent(boot))
  {
    var s, t := HasRead(boot), HasSent(boot);
    assert [7, 8][..2] == [7, 8] && [7, 8][2..] == [];
    assert Local(s.b, s.ab, Poll) == Some(Move(t.b, 0, [Data([7, 8])]));
    assert s.ab[0..] == [] && s.ba + [Data([7, 8])] == t.ba;
  }

  lemma StoreStep(boot: seq<byte>)
    requires |boot| + 2 < U32
    ensures StepA(HasSent(boot), Receive) == Some(HasStored(boot))
  {
    hide InputIeof, InputOclose;
    var s, t := HasSent(boot), HasStored(boot);
    assert [] + [7, 8] == [7, 8];
    assert Local(s.a, s.ba, Receive) == Some(Move(t.a, 1, []));
    assert s.ba[1..] == [] && s.ab + [] == [];
  }

  lemma WriteStep(boot: seq<byte>)
    requires |boot| + 2 < U32
    ensures StepA(HasStored(boot), Write(Wrote(2))) == Some(HasWritten(boot))
  {
    var s, t := HasStored(boot), HasWritten(boot);
    assert [7, 8][..2] == [7, 8] && [7, 8][2..] == [] && boot + [] + [7, 8] == boot + [7, 8];
    assert Local(s.a, s.ba, Write(Wrote(2))) == Some(Move(t.a, 0, []));
    assert s.ba[0..] == [] && s.ab + [] == [];
  }

  lemma CreditStep(boot: seq<byte>)
    requires |boot| + 2 < U32
    ensures StepA(HasWritten(boot), ReturnCredit) == Some(Overshot(boot))
  {
    var s, t := HasWritten(boot), Overshot(boot);
    assert Local(s.a, s.ba, ReturnCredit) == Some(Move(t.a, 0, [Adjust(|boot| + 2)]));
    assert s.ba[0..] == [] && s.ab + [Adjust(|boot| + 2)] == t.ab;
  }
}
