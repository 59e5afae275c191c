/** Runs of the SOCKS5 decoder that go astray: another version byte behind the greeting, and a reply not sent. */
module Socks5Runs {
  import opened Bytes
  import opened Socks5

  predicate Acceptable(methods: seq<byte>) { |methods| < 256 && 0 in methods }

  /** What a client says that follows an acceptable greeting with another version. */
  function Strayed(methods: seq<byte>, v: byte, rest: seq<byte>): seq<byte>
    requires Acceptable(methods)
  {
    Greeting(methods) + ([v] + rest)
  }

  /** Some call found just the greeting and nothing behind it. */
  predicate Paused(events: seq<Event>, methods: seq<byte>)
    requires Acceptable(methods)
  {
    exists k | 0 <= k <= |events| :: |Arrivals(events[..k])| == |Greeting(methods)|
  }

  function Chunk(e: Event): seq<byte> { if e.Arrive? then e.chunk else [] }

  lemma ArrivalsStep(events: seq<Event>)
    requires events != []
    ensures Arrivals(events) == Arrivals(events[..|events| - 1]) + Chunk(events[|events| - 1])
  {
  }

  lemma PausedStep(events: seq<Event>, methods: seq<byte>)
    requires events != [] && Acceptable(methods)
    ensures Paused(events, methods)
      <==> Paused(events[..|events| - 1], methods) || |Arrivals(events)| == |Greeting(methods)|
  {
    hide Greeting, Arrivals;
    var front := events[..|events| - 1];
    forall k | 0 <= k <= |front|
      ensures front[..k] == events[..k]
    {
    }
    assert events[..|events|] == events;
    if Paused(events, methods) {
      var k :| 0 <= k <= |events| && |Arrivals(events[..k])| == |Greeting(methods)|;
      assert k < |events| ==> |Arrivals(front[..k])| == |Greeting(methods)|;
    }
    if Paused(front, methods) {
      var k :| 0 <= k <= |front| && |Arrivals(front[..k])| == |Greeting(methods)|;
      assert |Arrivals(events[..k])| == |Greeting(methods)|;
    }
  }

  /** The verdict on n bytes of such a client. */
  predicate Judged(v: Verdict, n: nat, g: nat, paused: bool, version: byte) {
    if n < g then v.Wait?
    else if !paused then v == FatalError
    else if n < g + 3 then v.Wait?
    else v == if version == 4 then Version4 else Dead
  }

  /** What a decoder that still waits holds. */
  predicate Holds(r: Run, g: nat) {
    r.v.Wait? ==>
      if r.s.authDone then g <= |r.arrived| && r.s.input == r.arrived[g..]
      else |r.arrived| < g && r.s.input == r.arrived
  }

  lemma StrayedGreeting(methods: seq<byte>, v: byte, rest: seq<byte>, p: seq<byte>)
    requires Acceptable(methods) && v != 5 && Prefix(p, Strayed(methods, v, rest))
    ensures var g := |Greeting(methods)|;
      g >= 3 && (|p| >= 1 ==> p[0] == 5)
      && (|p| < g ==> ParseGreeting(p) == More)
      && (|p| >= g ==> ParseGreeting(p) == Done(methods, p[g..]) && (|p| > g ==> p[g] == v))
  {
    var g := Greeting(methods);
    var whole := Strayed(methods, v, rest);
    assert whole[0] == 5 && whole[1] == |methods|;
    assert forall i | 0 <= i < |p| :: p[i] == whole[i];
    if |p| >= |g| {
      assert whole[..|g|] == g;
      assert p[..|g|] == whole[..|p|][..|g|] == g;
      assert p == g + p[|g|..];
      GreetingExactly(p, methods, p[|g|..]);
      assert whole[|g|] == v;
    }
  }

  /** The call on a decoder whose client strayed. */
  lemma StrayedPre(s: Socks, methods: seq<byte>, v: byte, rest: seq<byte>, p: seq<byte>)
    requires Acceptable(methods) && v != 5 && Prefix(p, Strayed(methods, v, rest))
    requires if s.authDone then |Greeting(methods)| <= |p| && s.input == p[|Greeting(methods)|..] else s.input == p
    ensures var g, (t, w) := |Greeting(methods)|, Pre(s);
      if s.authDone then
        (if |p| < g + 3 then w == Wait(false) && t == s else w == if v == 4 then Version4 else Dead)
      else if |p| < g then w.Wait? && t == s
      else if |p| == g then w.Wait? && t.authDone && t.input == []
      else w == FatalError
  {
    hide Greeting, ParseGreeting;
    StrayedGreeting(methods, v, rest, p);
  }

  /**
   The exact condition over runs. The branch that is marked as impossible ends the process exactly when no call found
   the greeting alone: the byte that is not 5 came with the greeting's last bytes. Otherwise the same bytes are waited
   for, and with the third of them taken for SOCKS4 or refused.
   */
  lemma {:induction false} OtherVersionExactly(events: seq<Event>, methods: seq<byte>, v: byte, rest: seq<byte>)
    requires Acceptable(methods) && v != 5 && Prefix(Arrivals(events), Strayed(methods, v, rest))
    ensures Judged(RunOf(events).v, |Arrivals(events)|, |Greeting(methods)|, Paused(events, methods), v)
    ensures Holds(RunOf(events), |Greeting(methods)|)
    ensures RunOf(events).v.Wait? ==> RunOf(events).arrived == Arrivals(events)
  {
    hide Greeting, Pre, Happen, Gone, Paused;
    if events == [] {
      EmptyRun(methods, v, rest);
    } else {
      var front, e := events[..|events| - 1], events[|events| - 1];
      ArrivalsStep(events);
      PausedStep(events, methods);
      PrefixLess(Arrivals(front), Chunk(e), Strayed(methods, v, rest));
      OtherVersionExactly(front, methods, v, rest);
      var r := RunOf(front);
      PausedMeans(front, methods);
      if r.v.Wait? {
        HappenKeeps(r, e);
        var s := Happen(r.s, e);
        StrayedPre(s, methods, v, rest, Arrivals(events));
      }
    }
  }

  lemma EmptyRun(methods: seq<byte>, v: byte, rest: seq<byte>)
    requires Acceptable(methods)
    ensures |Greeting(methods)| >= 3 && Holds(Start(), |Greeting(methods)|)
  {
  }

  /** A pause means that the greeting is complete. */
  lemma PausedMeans(events: seq<Event>, methods: seq<byte>)
    requires Acceptable(methods)
    ensures Paused(events, methods) ==> |Arrivals(events)| >= |Greeting(methods)|
    ensures |Arrivals(events)| == |Greeting(methods)| ==> Paused(events, methods)
  {
    hide Greeting;
    assert events[..|events|] == events;
    if Paused(events, methods) {
      var k :| 0 <= k <= |events| && |Arrivals(events[..k])| == |Greeting(methods)|;
      ArrivalsGrow(events, k);
    }
  }

  lemma {:induction false} ArrivalsGrow(events: seq<Event>, k: nat)
    requires k <= |events|
    ensures |Arrivals(events[..k])| <= |Arrivals(events)|
    decreases |events|
  {
    if k == |events| {
      assert events[..k] == events;
    } else {
      var front := events[..|events| - 1];
      assert front[..k] == events[..k];
      ArrivalsGrow(front, k);
    }
  }

  /** What has arrived is an acceptable greeting and a byte other than 5 behind it. */
  ghost predicate Astray(arrived: seq<byte>) {
    exists methods, v: byte, rest :: Acceptable(methods) && v != 5 && arrived == Strayed(methods, v, rest)
  }

  /** No other input takes that branch. */
  lemma {:induction false} FatalOnlyFor(events: seq<Event>)
    ensures RunOf(events).v == FatalError ==> Astray(RunOf(events).arrived)
  {
    hide Pre, Happen, Gone, Astray;
    if events != [] {
      var front, e := events[..|events| - 1], events[|events| - 1];
      var r := RunOf(front);
      FatalOnlyFor(front);
      if r.v.Wait? && RunOf(events).v == FatalError {
        ConnectsOnlyFor(front);
        HappenKeeps(r, e);
        FatalExactly(Happen(r.s, e));
        FatalInput(r.arrived + Chunk(e));
      }
    }
  }

  lemma FatalInput(p: seq<byte>)
    requires ParseGreeting(p).Done? && ParseGreeting(p).rest != [] && ParseGreeting(p).rest[0] != 5
    ensures Astray(p)
  {
    hide Greeting, ParseGreeting;
    var methods, rest := ParseGreeting(p).value, ParseGreeting(p).rest;
    GreetingExactly(p, methods, rest);
    assert rest == [rest[0]] + rest[1..];
    assert p == Strayed(methods, rest[0], rest[1..]);
  }

  /** One read or two: the shortest such conversation, ending the process or not. */
  lemma TogetherOrApart(methods: seq<byte>, v: byte, rest: seq<byte>)
    requires Acceptable(methods) && v != 5 && |rest| >= 2
    ensures RunOf([Arrive(Strayed(methods, v, rest))]).v == FatalError
    ensures RunOf([Arrive(Greeting(methods)), Arrive([v] + rest)]).v == if v == 4 then Version4 else Dead
  {
    hide Greeting, RunOf;
    var whole := Strayed(methods, v, rest);
    var g := Greeting(methods);
    var one, two := [Arrive(whole)], [Arrive(g), Arrive([v] + rest)];
    OneArrival(whole);
    OneArrival(g);
    assert two[..1] == [Arrive(g)] && two[..2] == two && two[..0] == [];
    ArrivalsStep(two);
    assert Arrivals(two) == whole;
    assert whole[..|whole|] == whole;
    OtherVersionExactly(one, methods, v, rest);
    OtherVersionExactly(two, methods, v, rest);
    assert |Arrivals(two[..1])| == |g|;
    assert Paused(two, methods);
    if Paused(one, methods) {
      var k :| 0 <= k <= 1 && |Arrivals(one[..k])| == |g|;
      assert one[..0] == [] && one[..1] == one;
      EmptyRun(methods, v, rest);
    }
  }

  lemma OneArrival(chunk: seq<byte>)
    ensures Arrivals([Arrive(chunk)]) == chunk && Arrivals([]) == []
  {
    assert [Arrive(chunk)][..0] == [];
    assert [] + chunk == chunk;
  }

  // ---------------------------------------------------------------- the reply to the greeting

  /** The events up to and including the one that completes the greeting, which the client sends and then waits. */
  predicate Greets(front: seq<Event>, e: Event, m: Message)
    requires WellFormed(m)
  {
    |Arrivals(front)| < |Greeting(m.methods)| && Arrivals(front + [e]) == Greeting(m.methods)
  }

  /** While the client waits nothing arrives, and bytes go out only when the decoder asked to write. */
  predicate Waits(done: seq<Event>, tail: seq<Event>) {
    forall i | 0 <= i < |tail| ::
      Chunk(tail[i]) == [] && (Taken(tail[i]) > 0 ==> RunOf(done + tail[..i]).v == Wait(true))
  }

  function Taken(e: Event): nat { if e.Flush? then e.n else 0 }

  lemma RunStep(done: seq<Event>, e: Event)
    ensures RunOf(done + [e]) == Step(RunOf(done), e)
    ensures Arrivals(done + [e]) == Arrivals(done) + Chunk(e)
  {
    assert (done + [e])[..|done|] == done;
  }

  /** Just after the greeting the whole reply is there and is offered for writing. */
  lemma GreetedState(front: seq<Event>, e: Event, m: Message)
    requires WellFormed(m) && Greets(front, e, m)
    ensures var r := RunOf(front + [e]);
      r.v == Wait(true) && r.s.authDone && r.s.input == [] && r.s.output == [5, 0]
  {
    hide Greeting, Request, HostOf, ConnectReply, RunOf;
    var g := Greeting(m.methods);
    RunStep(front, e);
    assert Arrivals(front) + Chunk(e) == g;
    assert Said(m) + [] == g + Request(m.address, m.port);
    assert (g + Request(m.address, m.port))[..|g|] == g;
    PrefixLess(Arrivals(front), Chunk(e), Said(m) + []);
    AnyCutting(front, m, []);
    AnyCutting(front + [e], m, []);
    GreetingStarts(m, g, []);
    GreetedStep(RunOf(front), e, m);
  }

  lemma GreetedStep(r: Run, e: Event, m: Message)
    requires WellFormed(m) && Follows(r, m) && r.v.Wait? && !r.s.authDone
    requires r.arrived + Chunk(e) == Greeting(m.methods)
    ensures var t := Step(r, e);
      t.v == Wait(true) && t.s.authDone && t.s.input == [] && t.s.output == [5, 0]
  {
    hide Greeting, Request, HostOf, ConnectReply, ParseGreeting;
    var g := Greeting(m.methods);
    HappenKeeps(r, e);
    assert r.gone == [] && r.s.output == [];
    assert g + [] == g;
    GreetingExactly(g, m.methods, []);
    GreetingHead(m);
  }

  lemma GreetingHead(m: Message)
    requires WellFormed(m)
    ensures |Greeting(m.methods)| >= 3 && Greeting(m.methods)[0] == 5
  {
  }

  /** A call without input asks for nothing to be written, whatever output is pending. */
  lemma IdleStep(r: Run, e: Event)
    requires r.v.Wait? && r.s.authDone && r.s.input == [] && Chunk(e) == []
    ensures var t := Step(r, e);
      t.v == Wait(false) && t.s.authDone && t.s.input == [] && t.s.output == r.s.output[Min(Taken(e), |r.s.output|)..]
  {
    HappenKeeps(r, e);
    assert Happen(r.s, e).input == [] + [];
  }

  /**
   The reply while the client waits for it, as RFC 1928 requires before its request. It is offered for writing only
   once: what the first step after the greeting leaves of it stays in the buffer, and is never offered again.
   */
  lemma {:induction false} ReplyStays(front: seq<Event>, e: Event, tail: seq<Event>, m: Message)
    requires WellFormed(m) && Greets(front, e, m) && Waits(front + [e], tail)
    ensures var r := RunOf(front + [e] + tail);
      r.v == Wait(tail == []) && r.s.authDone && r.s.input == []
      && r.s.output == if tail == [] then [5, 0] else [5, 0][Min(Taken(tail[0]), 2)..]
  {
    hide Greets, RunOf, Step;
    var done := front + [e];
    if tail == [] {
      assert done + tail == done;
      GreetedState(front, e, m);
    } else {
      var k := |tail| - 1;
      var less := tail[..k];
      forall i | 0 <= i < |less|
        ensures Chunk(less[i]) == [] && (Taken(less[i]) > 0 ==> RunOf(done + less[..i]).v == Wait(true))
      {
        assert less[..i] == tail[..i] && less[i] == tail[i];
      }
      ReplyStays(front, e, less, m);
      assert done + tail == (done + less) + [tail[k]];
      RunStep(done + less, tail[k]);
      assert tail[..k] == less;
      IdleStep(RunOf(done + less), tail[k]);
      if k > 0 {
        assert less[0] == tail[0] && Taken(tail[k]) == 0;
      }
    }
  }

  /** Exactly the runs that leave the client waiting for ever: those whose first step after the greeting takes less than
      both bytes of the reply. */
  lemma ReplyStuckExactly(front: seq<Event>, e: Event, tail: seq<Event>, m: Message)
    requires WellFormed(m) && Greets(front, e, m) && Waits(front + [e], tail)
    ensures var r := RunOf(front + [e] + tail);
      r.s.output != [] && r.v == Wait(false) <==> tail != [] && Taken(tail[0]) < 2
  {
    hide Greets, RunOf, Waits;
    ReplyStays(front, e, tail, m);
  }

  /** The shortest such run: the greeting, and then a step in which the client's socket takes nothing. */
  lemma ReplyStuck()
    ensures var r := RunOf([Arrive([5, 1, 0]), Flush(0)]);
      r.v == Wait(false) && r.s.output == [5, 0]
  {
    hide RunOf;
    var m := Message([0], IPv4([0, 0, 0, 0]), 0);
    var e, tail := Arrive([5, 1, 0]), [Flush(0)];
    OneArrival([5, 1, 0]);
    assert [] + [e] == [e] && [e] + tail == [e, Flush(0)];
    assert Greeting([0]) == [5, 1, 0];
    assert Greets([], e, m);
    assert Waits([] + [e], tail);
    ReplyStays([], e, tail, m);
  }
}
