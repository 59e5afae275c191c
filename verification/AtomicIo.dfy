/** Moving all bytes of a scatter/gather list through a descriptor that may take them in any portions. */
module AtomicIo {
  import opened Bytes

  type positive = n: nat | n > 0 witness 1

  /** One call on the descriptor, with what the progress callback then says. */
  datatype Call =
    | Interrupted(abort: bool)
    | Again
    | Fails
    | Closed
    | Moves(n: positive, abort: bool)

  datatype Errno = NoError | EINTR | EPIPE | EFAULT | EINVAL | OtherError

  /** The function's return, or the state in which it waits for a call that the script does not have. */
  datatype End = Returned(count: nat, errno: Errno) | Waiting

  /** A stretch of memory. */
  datatype Iovec = Iovec(base: nat, len: nat)

  const IOV_MAX := 1024

  // ---------------------------------------------------------------- memory

  function Span(base: nat, len: nat): (r: seq<nat>)
    ensures |r| == len
  {
    seq(len, i requires 0 <= i < len => base + i)
  }

  /** The addresses of a list's bytes, in order. */
  function Addrs(iov: seq<Iovec>): seq<nat> {
    if iov == [] then [] else Span(iov[0].base, iov[0].len) + Addrs(iov[1..])
  }

  // ---------------------------------------------------------------- a counter of bytes

  /** How a transfer ends, how many bytes it has moved, and how many calls it took. */
  datatype Outcome = Outcome(end: End, moved: nat, calls: nat)

  function Later(o: Outcome): Outcome { o.(calls := o.calls + 1) }

  /** A transfer of `total` bytes of which `pos` are done. A descriptor that claims more bytes than it was given
      is caught when `checked`. */
  function Transfer(total: nat, pos: nat, script: seq<Call>, checked: bool): Outcome
    requires pos <= total
    decreases |script|
  {
    if pos == total then Outcome(Returned(pos, NoError), pos, 0)
    else if script == [] then Outcome(Waiting, pos, 0)
    else
      match script[0]
      case Interrupted(abort) =>
        if abort then Outcome(Returned(pos, EINTR), pos, 1) else Later(Transfer(total, pos, script[1..], checked))
      case Again => Later(Transfer(total, pos, script[1..], checked))
      case Fails => Outcome(Returned(0, OtherError), pos, 1)
      case Closed => Outcome(Returned(pos, EPIPE), pos, 1)
      case Moves(n, abort) =>
        if pos + n > total then
          Outcome(if checked then Returned(0, EFAULT)
                  else Returned(pos + n, if abort then EINTR else NoError), total, 1)
        else if abort then Outcome(Returned(pos + n, EINTR), pos + n, 1)
        else Later(Transfer(total, pos + n, script[1..], checked))
  }

  // ---------------------------------------------------------------- theorems about transfers

  lemma {:induction false} Bounds(total: nat, pos: nat, script: seq<Call>, checked: bool)
    requires pos <= total
    ensures var o := Transfer(total, pos, script, checked);
      pos <= o.moved <= total && o.calls <= |script|
    decreases |script|
  {
    if pos < total && script != [] {
      Bounds(total, pos, script[1..], checked);
      if script[0].Moves? && pos + script[0].n <= total {
        Bounds(total, pos + script[0].n, script[1..], checked);
      }
    }
  }

  /** What the return tells the caller: without an error everything has moved; after an interruption or a close the
      count is what has moved; after another error it is 0, whatever has moved. */
  lemma {:induction false} ReturnMeans(total: nat, pos: nat, script: seq<Call>)
    requires pos <= total
    ensures var o := Transfer(total, pos, script, true);
      o.end.Returned? ==>
        match o.end.errno
        case NoError => o.end.count == o.moved == total
        case EINTR => o.end.count == o.moved
        case EPIPE => o.end.count == o.moved < total
        case EFAULT => o.end.count == 0
        case OtherError => o.end.count == 0 && o.moved < total
        case EINVAL => false
    decreases |script|
  {
    if pos < total && script != [] {
      ReturnMeans(total, pos, script[1..]);
      if script[0].Moves? && pos + script[0].n <= total {
        ReturnMeans(total, pos + script[0].n, script[1..]);
      }
    }
  }

  /** Which error the last call stands for; a transfer that needs no call, or is completed by its last, has none. */
  lemma {:induction false} ErrnoMeans(total: nat, pos: nat, script: seq<Call>)
    requires pos <= total
    ensures var o := Transfer(total, pos, script, true);
      o.calls <= |script|
      && (o.end.Waiting? <==> o.calls == |script| && o.moved < total && Quiet(script))
      && (o.end.Returned? && o.calls > 0 ==>
            var last := script[o.calls - 1];
            && (o.end.errno == EPIPE <==> last == Closed)
            && (o.end.errno == OtherError <==> last == Fails)
            && (o.end.errno == EINTR <==>
                  last == Interrupted(true) || (last.Moves? && last.abort && o.end.errno != EFAULT))
            && (o.end.errno == NoError ==> last.Moves? && !last.abort)
            && Quiet(script[..o.calls - 1]))
      && (o.calls == 0 ==> o.end == (if pos == total then Returned(pos, NoError) else Waiting))
    decreases |script|
  {
    if pos < total && script != [] {
      var tail := script[1..];
      var next := if script[0].Moves? then pos + script[0].n else pos;
      if next <= total {
        ErrnoMeans(total, next, tail);
        FaultExactly(total, next, tail);
        var later := Transfer(total, next, tail, true);
        if Transfer(total, pos, script, true) == Later(later) {
          assert script == [script[0]] + tail;
          QuietCons(script[0], tail);
          if later.calls > 0 {
            assert script[..later.calls] == [script[0]] + tail[..later.calls - 1];
            QuietCons(script[0], tail[..later.calls - 1]);
          }
        }
      }
    }
  }

  lemma QuietCons(c: Call, tail: seq<Call>)
    ensures Quiet([c] + tail) <==> Quiet([c]) && Quiet(tail)
  {
    var all := [c] + tail;
    if Quiet(all) {
      assert all[0] == c;
      forall i | 0 <= i < |tail|
        ensures tail[i] == all[i + 1]
      {
      }
    }
  }

  function Sum(script: seq<Call>): nat {
    if script == [] then 0 else Sum(script[1..]) + if script[0].Moves? then script[0].n else 0
  }

  /** The calls made: all but the last leave something to move, none moves more than was asked for. */
  lemma {:induction false} FaultExactly(total: nat, pos: nat, script: seq<Call>)
    requires pos <= total
    ensures var o := Transfer(total, pos, script, true);
      o.calls <= |script|
      && (o.end == Returned(0, EFAULT) <==> pos + Sum(script[..o.calls]) > total)
      && (o.end != Returned(0, EFAULT) ==> o.moved == pos + Sum(script[..o.calls]))
    decreases |script|
  {
    var o := Transfer(total, pos, script, true);
    if pos < total && script != [] {
      var n := if script[0].Moves? then script[0].n else 0;
      assert script[..1][1..] == [];
      assert Sum(script[..1]) == n;
      if pos + n <= total {
        FaultExactly(total, pos + n, script[1..]);
        var later := Transfer(total, pos + n, script[1..], true);
        if o == Later(later) {
          assert script[..o.calls][1..] == script[1..][..later.calls];
        }
      }
    }
  }

  /** No callback stops the transfer and no call fails or finds the other side closed. */
  predicate Quiet(script: seq<Call>) {
    forall i | 0 <= i < |script| ::
      match script[i]
      case Interrupted(abort) => !abort
      case Again => true
      case Fails => false
      case Closed => false
      case Moves(_, abort) => !abort
  }

  /** Left undisturbed, a transfer completes exactly when the portions add up to what there was to move. */
  lemma {:induction false} CompletesExactly(total: nat, pos: nat, script: seq<Call>)
    requires pos <= total && Quiet(script)
    ensures Transfer(total, pos, script, true).end == Returned(total, NoError)
      <==> exists k | 0 <= k <= |script| :: pos + Sum(script[..k]) == total
    decreases |script|
  {
    if pos == total {
      assert pos + Sum(script[..0]) == total;
    } else if script == [] {
    } else {
      var n := if script[0].Moves? then script[0].n else 0;
      var tail := script[1..];
      forall i | 0 <= i < |tail|
        ensures tail[i] == script[i + 1]
      {
      }
      forall k | 0 < k <= |script|
        ensures Sum(script[..k]) == n + Sum(tail[..k - 1])
      {
        assert script[..k][1..] == tail[..k - 1];
      }
      if pos + n <= total {
        CompletesExactly(total, pos + n, tail);
        if j :| 0 <= j <= |tail| && pos + n + Sum(tail[..j]) == total {
          assert pos + Sum(script[..j + 1]) == total;
        }
        if k :| 0 <= k <= |script| && pos + Sum(script[..k]) == total {
          assert k > 0;
          assert pos + n + Sum(tail[..k - 1]) == total;
        }
      }
    }
  }

  /** On a descriptor that never claims too much, the check changes nothing. */
  lemma {:induction false} CheckOnlyCatches(total: nat, pos: nat, script: seq<Call>)
    requires pos <= total && Transfer(total, pos, script, true).end != Returned(0, EFAULT)
    ensures Transfer(total, pos, script, false) == Transfer(total, pos, script, true)
    decreases |script|
  {
    if pos < total && script != [] {
      match script[0]
      case Interrupted(abort) =>
        if !abort {
          CheckOnlyCatches(total, pos, script[1..]);
        }
      case Again => CheckOnlyCatches(total, pos, script[1..]);
      case Fails =>
      case Closed =>
      case Moves(n, abort) =>
        if !abort && pos + n <= total {
          CheckOnlyCatches(total, pos + n, script[1..]);
        }
    }
  }

  // ---------------------------------------------------------------- the descriptor and the two functions

  /** The descriptor: what its calls will answer, and the addresses of the bytes it has taken or filled so far. */
  class Descriptor {
    var script: seq<Call>
    var passed: seq<nat>

    constructor (calls: seq<Call>)
      ensures script == calls && passed == []
    {
      script, passed := calls, [];
    }

    /** readv or writev: whatever it moves are the first bytes it was given. */
    method Vector(iov: seq<Iovec>) returns (c: Call)
      requires script != []
      modifies this
      ensures c == old(script[0]) && script == old(script[1..])
      ensures passed == old(passed) + if c.Moves? then Addrs(iov)[..Min(c.n, |Addrs(iov)|)] else []
    {
      c := script[0];
      script := script[1..];
      if c.Moves? {
        passed := passed + Addrs(iov)[..Min(c.n, |Addrs(iov)|)];
      }
    }
  }

  /** The bytes that are left of a list are the last ones of the whole. */
  predicate Left(whole: seq<nat>, pos: nat, iov: seq<Iovec>) {
    pos <= |whole| && Addrs(iov) == whole[pos..]
  }

  lemma SpanSplit(base: nat, len: nat, k: nat)
    requires k <= len
    ensures Span(base, len) == Span(base, k) + Span(base + k, len - k)
  {
  }

  /** The loop over completed entries. */
  method Skip(iov: array<Iovec>, at: nat, n: nat) returns (next: nat, rem: nat)
    requires at <= iov.Length
    ensures at <= next <= iov.Length
    ensures next < iov.Length ==> rem < iov[next].len
    ensures n - rem <= |Addrs(iov[at..])| && rem <= n
    ensures Addrs(iov[next..]) == Addrs(iov[at..])[n - rem..]
  {
    ghost var all := Addrs(iov[at..]);
    next, rem := at, n;
    while next < iov.Length && rem >= iov[next].len
      invariant at <= next <= iov.Length && rem <= n
      invariant n - rem <= |all| && Addrs(iov[next..]) == all[n - rem..]
    {
      var e := iov[next];
      assert iov[next..][0] == e && iov[next..][1..] == iov[next + 1..];
      assert all[n - rem..][e.len..] == all[n - rem + e.len..];
      rem := rem - e.len;
      next := next + 1;
    }
  }

  /** Moving the start of a partly completed entry. */
  method Cut(iov: array<Iovec>, at: nat, rem: nat)
    requires at < iov.Length && rem < iov[at].len
    modifies iov
    ensures rem <= |old(Addrs(iov[at..]))|
    ensures Addrs(iov[at..]) == old(Addrs(iov[at..]))[rem..]
    ensures iov[at].len > 0
  {
    ghost var e, rest, all := iov[at], iov[at + 1..], Addrs(iov[at..]);
    assert iov[at..][0] == e && iov[at..][1..] == rest;
    SpanSplit(e.base, e.len, rem);
    assert all[rem..] == Span(e.base + rem, e.len - rem) + Addrs(rest);
    iov[at] := Iovec(iov[at].base + rem, iov[at].len - rem);
    assert iov[at..][0] == iov[at] && iov[at..][1..] == rest;
  }

  lemma AddrsOne(iov: seq<Iovec>)
    requires iov != []
    ensures |Addrs(iov)| >= iov[0].len
  {
  }

  /** How a call of atomiciov6 looks from outside. */
  ghost predicate Transferred(o: Outcome, end: End, whole: seq<nat>, script: seq<Call>, left: seq<Call>,
                              before: seq<nat>, after: seq<nat>)
  {
    end == o.end && o.calls <= |script| && left == script[o.calls..]
    && o.moved <= |whole| && after == before + whole[..o.moved]
  }

  /** The state between calls: the outcome from here is the outcome as a whole. */
  ghost predicate Midway(o: Outcome, whole: seq<nat>, pos: nat, script: seq<Call>, left: seq<Call>,
                         before: seq<nat>, after: seq<nat>, checked: bool)
  {
    pos <= |whole| && |left| <= |script| && left == script[|script| - |left|..]
    && after == before + whole[..pos]
    && var t := Transfer(|whole|, pos, left, checked);
      o == t.(calls := |script| - |left| + t.calls)
  }

  lemma MidwayStart(whole: seq<nat>, script: seq<Call>, before: seq<nat>, checked: bool)
    ensures Midway(Transfer(|whole|, 0, script, checked), whole, 0, script, script, before, before, checked)
  {
  }

  /** A call that moves n bytes, of those left, or none. */
  lemma MidwayCall(o: Outcome, whole: seq<nat>, pos: nat, script: seq<Call>, left: seq<Call>,
                   before: seq<nat>, after: seq<nat>, checked: bool, n: nat, next: seq<nat>)
    requires Midway(o, whole, pos, script, left, before, after, checked)
    requires left != [] && pos < |whole| && next == after + whole[pos..][..Min(n, |whole| - pos)]
    requires n == if left[0].Moves? then left[0].n else 0
    ensures next == before + whole[..Min(pos + n, |whole|)]
    ensures left[1..] == script[|script| - |left| + 1..]
    ensures var t := Transfer(|whole|, pos, left, checked);
      t == Later(Transfer(|whole|, Min(pos + n, |whole|), left[1..], checked)) ==>
        Midway(o, whole, Min(pos + n, |whole|), script, left[1..], before, next, checked)
    ensures var t := Transfer(|whole|, pos, left, checked);
      t.calls == 1 && t.moved == Min(pos + n, |whole|) ==>
        Transferred(o, t.end, whole, script, left[1..], before, next)
  {
    var k := Min(n, |whole| - pos);
    assert whole[..pos] + whole[pos..][..k] == whole[..pos + k];
  }

  lemma MidwayEnd(o: Outcome, whole: seq<nat>, pos: nat, script: seq<Call>, left: seq<Call>,
                  before: seq<nat>, after: seq<nat>, checked: bool)
    requires Midway(o, whole, pos, script, left, before, after, checked)
    ensures pos == |whole| ==> Transferred(o, Returned(pos, NoError), whole, script, left, before, after)
    ensures pos < |whole| && left == [] ==> Transferred(o, Waiting, whole, script, left, before, after)
  {
  }

  /** What follows a call that moved n bytes; it fails exactly when there were fewer. */
  method Advance(iov: array<Iovec>, at: nat, n: nat) returns (ok: bool, next: nat)
    requires at <= iov.Length
    modifies iov
    ensures at <= next <= iov.Length
    ensures ok <==> n <= |old(Addrs(iov[at..]))|
    ensures ok ==> Addrs(iov[next..]) == old(Addrs(iov[at..]))[n..]
    ensures ok && next < iov.Length ==> iov[next].len > 0
  {
    hide Addrs;
    ghost var all := Addrs(iov[at..]);
    var rem;
    next, rem := Skip(iov, at, n);
    AddrsNone(iov[next..]);
    if next < iov.Length {
      AddrsOne(iov[next..]);
    }
    if rem > 0 && (next == iov.Length || rem > iov[next].len) {
      return false, next;
    }
    if next < iov.Length {
      Cut(iov, next, rem);
      assert all[n - rem..][rem..] == all[n..];
    }
    return true, next;
  }

  lemma AddrsNone(iov: seq<Iovec>)
    ensures iov == [] ==> Addrs(iov) == []
  {
  }

  /** atomiciov6: the list is moved exactly as one stretch of memory would be, each byte once and in order.
      A list whose first entry is empty moves nothing at all. */
  method AtomicIov(fd: Descriptor, iovs: seq<Iovec>) returns (r: End)
    modifies fd
    ensures |iovs| > 1024 ==>
      r == Returned(0, EINVAL) && fd.script == old(fd.script) && fd.passed == old(fd.passed)
    ensures |iovs| <= 1024 && (iovs == [] || iovs[0].len > 0) ==>
      Transferred(Transfer(|Addrs(iovs)|, 0, old(fd.script), true), r, Addrs(iovs),
                  old(fd.script), fd.script, old(fd.passed), fd.passed)
    ensures |iovs| <= 1024 && iovs != [] && iovs[0].len == 0 ==>
      r == Returned(0, NoError) && fd.script == old(fd.script) && fd.passed == old(fd.passed)
  {
    hide Midway, Transferred, Addrs, Left;
    if |iovs| > IOV_MAX {
      return Returned(0, EINVAL);
    }
    var iov := new Iovec[|iovs|](i requires 0 <= i < |iovs| => iovs[i]);
    assert iov[..] == iovs && iov[0..] == iovs;
    if iov.Length > 0 && iov[0].len == 0 {
      return Returned(0, NoError);
    }
    r := MoveAll(fd, iov);
  }

  lemma LeftSome(whole: seq<nat>, pos: nat, iov: seq<Iovec>)
    requires Left(whole, pos, iov)
    ensures pos <= |whole| && |Addrs(iov)| == |whole| - pos && Addrs(iov) == whole[pos..]
    ensures iov == [] ==> pos == |whole|
    ensures iov != [] && iov[0].len > 0 ==> pos < |whole|
  {
  }

  lemma LeftMore(whole: seq<nat>, pos: nat, iov: seq<Iovec>, n: nat, next: seq<Iovec>)
    requires Left(whole, pos, iov) && n <= |Addrs(iov)| && Addrs(next) == Addrs(iov)[n..]
    ensures Left(whole, pos + n, next)
  {
    assert whole[pos..][n..] == whole[pos + n..];
  }

  /** The loop over calls, entered with bytes to move. */
  method MoveAll(fd: Descriptor, iov: array<Iovec>) returns (r: End)
    requires iov.Length > 0 ==> iov[0].len > 0
    modifies fd, iov
    ensures Transferred(Transfer(|old(Addrs(iov[..]))|, 0, old(fd.script), true), r, old(Addrs(iov[..])),
                        old(fd.script), fd.script, old(fd.passed), fd.passed)
  {
    hide Midway, Transferred, Addrs, Left;
    var at, pos := 0, 0;
    ghost var whole, script, before := Addrs(iov[..]), fd.script, fd.passed;
    ghost var o := Transfer(|whole|, 0, script, true);
    MidwayStart(whole, script, before, true);
    LeftAll(iov[..]);
    assert iov[0..] == iov[..];
    while at < iov.Length && iov[at].len > 0
      invariant at <= iov.Length && (at < iov.Length ==> iov[at].len > 0)
      invariant Left(whole, pos, iov[at..])
      invariant Midway(o, whole, pos, script, fd.script, before, fd.passed, true)
      decreases |fd.script|
    {
      LeftSome(whole, pos, iov[at..]);
      if fd.script == [] {
        MidwayEnd(o, whole, pos, script, fd.script, before, fd.passed, true);
        return Waiting;
      }
      ghost var left, after := fd.script, fd.passed;
      var res := fd.Vector(iov[at..]);
      ghost var n := if res.Moves? then res.n else 0;
      assert |Addrs(iov[at..])| == |whole| - pos;
      MidwayCall(o, whole, pos, script, left, before, after, true, n, fd.passed);
      match res {
        case Interrupted(abort) =>
          if abort {
            return Returned(pos, EINTR);
          }
        case Again =>
        case Fails =>
          return Returned(0, OtherError);
        case Closed =>
          return Returned(pos, EPIPE);
        case Moves(k, abort) =>
          ghost var rest := iov[at..];
          var ok, next := Advance(iov, at, k);
          if !ok {
            return Returned(0, EFAULT);
          }
          LeftMore(whole, pos, rest, k, iov[next..]);
          pos, at := pos + k, next;
          if abort {
            return Returned(pos, EINTR);
          }
      }
    }
    LeftSome(whole, pos, iov[at..]);
    MidwayEnd(o, whole, pos, script, fd.script, before, fd.passed, true);
    return Returned(pos, NoError);
  }

  lemma LeftAll(iov: seq<Iovec>)
    ensures Left(Addrs(iov), 0, iov)
  {
  }

  /** atomicio6, on one stretch of memory. */
  method AtomicIo(fd: Descriptor, base: nat, n: nat) returns (r: End)
    modifies fd
    ensures Transferred(Transfer(n, 0, old(fd.script), false), r, Span(base, n),
                        old(fd.script), fd.script, old(fd.passed), fd.passed)
  {
    hide Midway, Transferred, Span;
    var pos := 0;
    ghost var whole, script, before := Span(base, n), fd.script, fd.passed;
    ghost var o := Transfer(n, 0, script, false);
    MidwayStart(whole, script, before, false);
    while n > pos
      invariant pos <= n
      invariant Midway(o, whole, pos, script, fd.script, before, fd.passed, false)
      decreases |fd.script|
    {
      if fd.script == [] {
        MidwayEnd(o, whole, pos, script, fd.script, before, fd.passed, false);
        return Waiting;
      }
      ghost var left, after := fd.script, fd.passed;
      var res := fd.Vector([Iovec(base + pos, n - pos)]);
      SpanRest(base, n, pos);
      ghost var k := if res.Moves? then res.n else 0;
      MidwayCall(o, whole, pos, script, left, before, after, false, k, fd.passed);
      match res {
        case Interrupted(abort) =>
          if abort {
            return Returned(pos, EINTR);
          }
        case Again =>
        case Fails =>
          return Returned(0, OtherError);
        case Closed =>
          return Returned(pos, EPIPE);
        case Moves(m, abort) =>
          pos := pos + m;
          if abort {
            return Returned(pos, EINTR);
          }
          if pos > n {
            return Returned(pos, NoError);
          }
      }
    }
    MidwayEnd(o, whole, pos, script, fd.script, before, fd.passed, false);
    return Returned(pos, NoError);
  }

  lemma SpanRest(base: nat, n: nat, pos: nat)
    requires pos <= n
    ensures Addrs([Iovec(base + pos, n - pos)]) == Span(base, n)[pos..]
  {
    SpanSplit(base, n, pos);
    assert [Iovec(base + pos, n - pos)][1..] == [];
  }
}
