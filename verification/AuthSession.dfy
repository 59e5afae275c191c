/** Whole runs of authentication requests: who gets in, how failures are counted, and when there have been too many. */
module AuthSession {
  import opened Bytes
  import opened AuthMethods

  /**
   A request, or the end of a postponed one when it is not `started`, as its method leaves it: whether it waits for
   more, whether a failure is the server's own, and its result.
   */
  datatype Call = Call(started: bool, postponed: bool, serverCaused: bool, result: Result)

  function Begin(s: Ctx, c: Call): Ctx {
    s.(attempt := s.attempt + (if c.started then 1 else 0), postponed := c.postponed,
       serverCausedFailure := c.serverCaused)
  }

  /** The connection goes on after these replies. */
  predicate GoesOn(replies: seq<Reply>) {
    replies == [] || replies[|replies| - 1].FailureReply? || replies[|replies| - 1].Silent?
  }

  /** The context and the replies after the calls, up to one that ends authentication or the connection. */
  function Serve(s: Ctx, calls: seq<Call>, maxTries: nat): (r: (Ctx, seq<Reply>))
    requires Consistent(s) && !s.success
    ensures |r.1| <= |calls| && (GoesOn(r.1) ==> Consistent(r.0) && !r.0.success && |r.1| == |calls|)
  {
    if calls == [] then (s, [])
    else
      var (t, replies) := Serve(s, calls[..|calls| - 1], maxTries);
      var c := calls[|calls| - 1];
      if !GoesOn(replies) then (t, replies)
      else
        BeginConsistent(t, c);
        FinishMeans(Begin(t, c), c.result, maxTries);
        var (u, reply) := Finish(Begin(t, c), c.result, maxTries);
        (u, replies + [reply])
  }

  function Attempts(calls: seq<Call>): nat {
    if calls == [] then 0
    else Attempts(calls[..|calls| - 1]) + if calls[|calls| - 1].started then 1 else 0
  }

  /** The call proved something that the lists weigh. */
  predicate Proves(configured: bool, c: Call) { c.result.authed && !c.result.rootDenied && configured }

  function Proven(configured: bool, calls: seq<Call>): seq<Success> {
    if calls == [] then []
    else
      var front, c := Proven(configured, calls[..|calls| - 1]), calls[|calls| - 1];
      if Proves(configured, c) then front + [Success(NameOf(c.result), c.result.sub)] else front
  }

  /** The call is answered with a failure that is neither the server's own nor that of the first request, "none". */
  predicate Counts(s: Ctx, before: nat, c: Call, reply: Reply) {
    (reply.FailureReply? || reply.TooManyTries?) && !Proves(s.configured, c) && !c.serverCaused
    && !(s.attempt + before <= 1 && NameOf(c.result) == "none")
  }

  /** The failures that count among the calls answered. */
  function Penalties(s: Ctx, calls: seq<Call>, replies: seq<Reply>): nat
    requires |calls| == |replies|
  {
    if calls == [] then 0
    else
      var n := |calls| - 1;
      Penalties(s, calls[..n], replies[..n]) + if Counts(s, Attempts(calls), calls[n], replies[n]) then 1 else 0
  }

  lemma OneMore(s: Ctx, calls: seq<Call>, replies: seq<Reply>, c: Call, reply: Reply)
    requires |calls| == |replies|
    ensures Attempts(calls + [c]) == Attempts(calls) + if c.started then 1 else 0
    ensures Proven(s.configured, calls + [c]) ==
      Proven(s.configured, calls) + if Proves(s.configured, c) then [Success(NameOf(c.result), c.result.sub)] else []
    ensures Penalties(s, calls + [c], replies + [reply]) ==
      Penalties(s, calls, replies) + if Counts(s, Attempts(calls + [c]), c, reply) then 1 else 0
  {
    hide Counts, Proves;
    var n := |calls|;
    assert (calls + [c])[..n] == calls && (replies + [reply])[..n] == replies;
    assert (calls + [c])[n] == c && (replies + [reply])[n] == reply;
  }

  /** The context is what the calls answered so far have made of it. */
  predicate Accounted(s: Ctx, calls: seq<Call>, replies: seq<Reply>, t: Ctx) {
    |calls| == |replies|
    && t.failures == s.failures + Penalties(s, calls, replies)
    && t.hist == s.hist + Proven(s.configured, calls)
    && t.attempt == s.attempt + Attempts(calls)
    && t.lists == s.lists && t.configured == s.configured
  }

  /** The last answer is what the lists and the number of failures ask for. */
  ghost predicate Answered(s: Ctx, c: Call, reply: Reply, t: Ctx, maxTries: nat) {
    (t.success <==> reply.SuccessReply?)
    && (reply.TooManyTries? <==> !reply.SuccessReply? && !reply.Silent? && t.failures >= maxTries)
    && t.failures <= maxTries
    && (GoesOn([reply]) ==> t.failures < maxTries)
    && (reply.SuccessReply? ==>
          c.result.authed && !c.result.rootDenied
          && (s.configured ==> exists j :: 0 <= j < |s.lists| && Embeds(s.lists[j], t.hist)))
    && (c.result.authed && !c.result.rootDenied && !s.configured ==> reply.SuccessReply?)
  }

  lemma BeginConsistent(t: Ctx, c: Call)
    ensures Consistent(Begin(t, c)) == Consistent(t)
  {
  }

  lemma CallMeans(s: Ctx, calls: seq<Call>, replies: seq<Reply>, t: Ctx, c: Call, maxTries: nat)
    requires Consistent(t) && !t.success && t.failures < maxTries && Accounted(s, calls, replies, t)
    requires Consistent(Begin(t, c))
    ensures var (u, reply) := Finish(Begin(t, c), c.result, maxTries);
      if reply.FatalExit? then !u.success
      else Accounted(s, calls + [c], replies + [reply], u) && Answered(s, c, reply, u, maxTries)
  {
    hide Consistent, Embeds, Penalties, Attempts, Proven, Finish;
    var (u, reply) := Finish(Begin(t, c), c.result, maxTries);
    FinishMeans(Begin(t, c), c.result, maxTries);
    FatalKeeps(Begin(t, c), c.result, maxTries);
    OneMore(s, calls, replies, c, reply);
  }

  lemma FatalKeeps(s: Ctx, r: Result, maxTries: nat)
    requires Consistent(s) && !s.success
    ensures var (t, reply) := Finish(s, r, maxTries); reply.FatalExit? ==> t == s
  {
  }

  lemma ServeStep(s: Ctx, calls: seq<Call>, maxTries: nat)
    requires Consistent(s) && !s.success && calls != []
    ensures var (front, c) := (calls[..|calls| - 1], calls[|calls| - 1]);
      var (t, replies) := Serve(s, front, maxTries);
      if !GoesOn(replies) then Serve(s, calls, maxTries) == (t, replies)
      else
        Consistent(Begin(t, c)) && !t.success
        && var (u, reply) := Finish(Begin(t, c), c.result, maxTries);
           Serve(s, calls, maxTries) == (u, replies + [reply])
  {
    hide Finish, Consistent;
    BeginConsistent(Serve(s, calls[..|calls| - 1], maxTries).0, calls[|calls| - 1]);
  }

  /** What is true of a run: no call after a decision is answered, all accounts are kept, the last answer is right. */
  ghost predicate Served(s: Ctx, calls: seq<Call>, t: Ctx, replies: seq<Reply>, maxTries: nat) {
    var k := |replies|;
    k <= |calls| && (k < |calls| ==> !GoesOn(replies))
    && (forall i | 0 <= i < k - 1 :: replies[i].FailureReply? || replies[i].Silent?)
    && (k == 0 ==> t == s)
    && (k > 0 && replies[k - 1].FatalExit? ==> !t.success)
    && (k > 0 && !replies[k - 1].FatalExit? ==>
          Accounted(s, calls[..k], replies, t) && Answered(s, calls[k - 1], replies[k - 1], t, maxTries))
  }

  /**
   A user is authenticated exactly by a call that is answered with success, and with lists configured only if what has
   been proved so far has one of them as a subsequence. Failures are counted as they should be; while the connection
   goes on there are fewer than are allowed, and it is ended for too many exactly as they are reached.
   */
  lemma {:induction false} ServeMeans(s: Ctx, calls: seq<Call>, maxTries: nat)
    requires Consistent(s) && !s.success && s.failures < maxTries
    ensures var (t, replies) := Serve(s, calls, maxTries); Served(s, calls, t, replies, maxTries)
  {
    hide Finish, Consistent, Accounted, Answered, Serve;
    if calls == [] {
      ServeNone(s, maxTries);
    } else {
      var n := |calls| - 1;
      var front, c := calls[..n], calls[n];
      ServeMeans(s, front, maxTries);
      ServeStep(s, calls, maxTries);
      var (t, replies) := Serve(s, front, maxTries);
      var k := |replies|;
      assert calls[..k] == front[..k];
      if GoesOn(replies) {
        assert front[..k] == front && calls == front + [c] && calls[..n + 1] == calls;
        if k == 0 {
          NothingServed(s);
        } else {
          AnsweredGoesOn(s, front[k - 1], replies[k - 1], t, maxTries);
        }
        ServedConsistent(s, front, maxTries);
        CallMeans(s, front, replies, t, c, maxTries);
      }
    }
  }

  lemma ServeNone(s: Ctx, maxTries: nat)
    requires Consistent(s) && !s.success
    ensures Serve(s, [], maxTries) == (s, [])
  {
  }

  lemma NothingServed(s: Ctx)
    ensures Accounted(s, [], [], s)
  {
  }

  lemma AnsweredGoesOn(s: Ctx, c: Call, reply: Reply, t: Ctx, maxTries: nat)
    requires Answered(s, c, reply, t, maxTries)
    ensures GoesOn([reply]) ==> t.failures < maxTries
  {
    hide Embeds;
  }

  lemma ServedConsistent(s: Ctx, calls: seq<Call>, maxTries: nat)
    requires Consistent(s) && !s.success
    ensures var (t, replies) := Serve(s, calls, maxTries);
      GoesOn(replies) ==> Consistent(t) && !t.success && |replies| == |calls|
  {
    hide Consistent, Finish;
  }
}
