/** Packing the descriptors of all channels into one pollfd array, and unpacking what poll reports. */
module PollFds {
  import opened Bytes

  /** SSH_CHAN_IO_*. */
  datatype Dir = Rfd | Wfd | EfdR | EfdW | SockR | SockW

  datatype Event = In | Out | Hup | Err | Nval

  datatype Pollfd = Pollfd(fd: int, events: set<Event>, revents: set<Event>)

  /** The fields of a Channel that polling uses. */
  datatype Chan = Chan(rfd: int, wfd: int, efd: int, sock: int, ioWant: set<Dir>, ioReady: set<Dir>, pfds: seq<int>)

  type Table = seq<Option<Chan>>

  const INT_MAX := 0x7fff_ffff

  // ---------------------------------------------------------------- which entry holds which direction

  function Mask(d: Dir): Event { if d == Rfd || d == EfdR || d == SockR then In else Out }

  function FdOf(c: Chan, d: Dir): int {
    match d
    case Rfd => c.rfd
    case Wfd => c.wfd
    case EfdR => c.efd
    case EfdW => c.efd
    case SockR => c.sock
    case SockW => c.sock
  }

  function SlotFd(c: Chan, k: nat): int {
    if k == 0 then c.rfd else if k == 1 then c.wfd else if k == 2 then c.efd else c.sock
  }

  /** The slot whose entry a direction is reported in: its own, or the read descriptor's when that is the same. */
  function Holder(c: Chan, d: Dir): (k: nat)
    ensures k < 4
  {
    if FdOf(c, d) == c.rfd then 0
    else if d == Wfd then 1
    else if d == EfdR || d == EfdW then 2
    else 3
  }

  /** A wanted direction that slot k is to wait for. */
  predicate Waits(c: Chan, k: nat, d: Dir) { d in c.ioWant && FdOf(c, d) != -1 && Holder(c, d) == k }

  function SlotEvents(c: Chan, k: nat): set<Event> {
    (if Waits(c, k, Rfd) || Waits(c, k, EfdR) || Waits(c, k, SockR) then {In} else {})
    + (if Waits(c, k, Wfd) || Waits(c, k, EfdW) || Waits(c, k, SockW) then {Out} else {})
  }

  predicate Armed(c: Chan, k: nat) { SlotEvents(c, k) != {} }

  /** A slot's events are those of the directions it holds. */
  lemma EventsExactly(c: Chan, k: nat, e: Event)
    ensures e in SlotEvents(c, k) <==> exists d :: Waits(c, k, d) && Mask(d) == e
  {
    if d :| Waits(c, k, d) && Mask(d) == e {
      match d
      case Rfd => case Wfd => case EfdR => case EfdW => case SockR => case SockW =>
    }
    if e in SlotEvents(c, k) {
      assert Mask(Rfd) == In && Mask(EfdR) == In && Mask(SockR) == In;
      assert Mask(Wfd) == Out && Mask(EfdW) == Out && Mask(SockW) == Out;
    }
  }

  /** Every wanted direction with a descriptor is armed somewhere. */
  lemma WantedIsArmed(c: Chan, d: Dir)
    requires d in c.ioWant && FdOf(c, d) != -1
    ensures Waits(c, Holder(c, d), d) && Armed(c, Holder(c, d)) && SlotFd(c, Holder(c, d)) == FdOf(c, d)
  {
    match d
    case Rfd => case Wfd => case EfdR => case EfdW => case SockR => case SockW =>
  }

  // ---------------------------------------------------------------- layout

  /** The number of armed slots below k. */
  function Count(c: Chan, k: nat): (n: nat)
    ensures n <= k
  {
    if k == 0 then 0 else Count(c, k - 1) + if Armed(c, k - 1) then 1 else 0
  }

  function Offset(c: Chan, p: nat, k: nat): int { if Armed(c, k) then p + Count(c, k) else -1 }

  function Offsets(c: Chan, p: nat): seq<int> { [Offset(c, p, 0), Offset(c, p, 1), Offset(c, p, 2), Offset(c, p, 3)] }

  /** A slot's entry is in place: its descriptor and its events, whatever poll has reported. */
  predicate EntryAt(c: Chan, k: nat, pfd: seq<Pollfd>, p: nat) {
    Armed(c, k) ==>
      p + Count(c, k) < |pfd|
      && pfd[p + Count(c, k)].fd == SlotFd(c, k) && pfd[p + Count(c, k)].events == SlotEvents(c, k)
  }

  predicate PackedChan(c: Chan, pfd: seq<Pollfd>, p: nat) {
    c.pfds == Offsets(c, p)
    && EntryAt(c, 0, pfd, p) && EntryAt(c, 1, pfd, p) && EntryAt(c, 2, pfd, p) && EntryAt(c, 3, pfd, p)
  }

  function Size(c: Option<Chan>): (n: nat)
    ensures n <= 4
  {
    if c.None? then 0 else Count(c.value, 4)
  }

  /** Where channel i's entries begin. */
  function Begin(t: Table, reserved: nat, i: nat): (p: nat)
    requires i <= |t|
    ensures reserved <= p <= reserved + 4 * i
  {
    if i == 0 then reserved else Begin(t, reserved, i - 1) + Size(t[i - 1])
  }

  predicate PackedBelow(t: Table, pfd: seq<Pollfd>, reserved: nat, n: nat)
    requires n <= |t|
  {
    forall i | 0 <= i < n && t[i].Some? :: PackedChan(t[i].value, pfd, Begin(t, reserved, i))
  }

  predicate Packed(t: Table, pfd: seq<Pollfd>, reserved: nat) { PackedBelow(t, pfd, reserved, |t|) }

  /** Two tables with the same descriptors and wants. */
  predicate SameLayout(t: Table, u: Table) {
    |t| == |u| && forall i | 0 <= i < |t| ::
      t[i].Some? == u[i].Some?
      && (t[i].Some? ==> u[i].value == t[i].value.(pfds := u[i].value.pfds, ioReady := u[i].value.ioReady))
  }

  lemma SlotOnly(c: Chan, f: seq<int>, r: set<Dir>, k: nat)
    ensures var d := c.(pfds := f, ioReady := r);
      SlotEvents(d, k) == SlotEvents(c, k) && SlotFd(d, k) == SlotFd(c, k) && Armed(d, k) == Armed(c, k)
  {
  }

  lemma {:induction false} LayoutOnly(c: Chan, f: seq<int>, r: set<Dir>, k: nat)
    ensures Count(c.(pfds := f, ioReady := r), k) == Count(c, k)
  {
    hide Armed;
    if k > 0 {
      SlotOnly(c, f, r, k - 1);
      LayoutOnly(c, f, r, k - 1);
    }
  }

  lemma {:induction false} BeginSame(t: Table, u: Table, reserved: nat, i: nat)
    requires SameLayout(t, u) && i <= |t|
    ensures Begin(t, reserved, i) == Begin(u, reserved, i)
  {
    if i > 0 {
      BeginSame(t, u, reserved, i - 1);
      if t[i - 1].Some? {
        LayoutOnly(t[i - 1].value, u[i - 1].value.pfds, u[i - 1].value.ioReady, 4);
      }
    }
  }

  lemma {:induction false} BeginGrows(t: Table, reserved: nat, i: nat, j: nat)
    requires i < j <= |t|
    ensures Begin(t, reserved, i) + Size(t[i]) <= Begin(t, reserved, j)
    decreases j
  {
    if i + 1 < j {
      BeginGrows(t, reserved, i, j - 1);
    }
  }

  lemma {:induction false} CountGrows(c: Chan, j: nat, k: nat)
    requires j < k
    ensures Count(c, j) + (if Armed(c, j) then 1 else 0) <= Count(c, k)
    decreases k
  {
    if j + 1 < k {
      CountGrows(c, j, k - 1);
    }
  }

  lemma OffsetRange(t: Table, pfd: seq<Pollfd>, reserved: nat, i: nat, k: nat)
    requires Packed(t, pfd, reserved)
    requires i < |t| && t[i].Some? && k < 4 && t[i].value.pfds[k] != -1
    ensures Armed(t[i].value, k) && t[i].value.pfds[k] == Begin(t, reserved, i) + Count(t[i].value, k)
    ensures t[i].value.pfds[k] < Begin(t, reserved, i) + Size(t[i]) <= Begin(t, reserved, |t|)
  {
    hide Armed, EntryAt;
    var c := t[i].value;
    assert PackedChan(c, pfd, Begin(t, reserved, i));
    CountGrows(c, k, 4);
    BeginGrows(t, reserved, i, |t|);
  }

  /** All entries lie above the reserved ones and within four for each table slot, and no two share a place. */
  lemma EntriesDisjoint(t: Table, pfd: seq<Pollfd>, reserved: nat, i: nat, k: nat, j: nat, l: nat)
    requires Packed(t, pfd, reserved)
    requires i < |t| && t[i].Some? && k < 4 && t[i].value.pfds[k] != -1
    requires j < |t| && t[j].Some? && l < 4 && t[j].value.pfds[l] != -1
    ensures reserved <= t[i].value.pfds[k] < Begin(t, reserved, |t|) <= reserved + 4 * |t|
    ensures t[i].value.pfds[k] == t[j].value.pfds[l] <==> i == j && k == l
  {
    hide Armed, Packed, Size, Begin, Count;
    OffsetRange(t, pfd, reserved, i, k);
    OffsetRange(t, pfd, reserved, j, l);
    if i < j {
      BeginGrows(t, reserved, i, j);
    } else if j < i {
      BeginGrows(t, reserved, j, i);
    } else if k < l {
      CountGrows(t[i].value, k, l);
    } else if l < k {
      CountGrows(t[i].value, l, k);
    }
  }

  // ---------------------------------------------------------------- readiness

  /** What makes a direction ready: its own event, or a hangup or an error. */
  predicate Reported(e: Pollfd, d: Dir) { Mask(d) in e.revents || Hup in e.revents || Err in e.revents }

  /** The direction's entry reported it. */
  predicate Ready(c: Chan, pfd: seq<Pollfd>, p: nat, d: Dir) {
    FdOf(c, d) != -1 && Armed(c, Holder(c, d)) && p + Count(c, Holder(c, d)) < |pfd|
    && Reported(pfd[p + Count(c, Holder(c, d))], d)
  }

  function ReadySet(c: Chan, pfd: seq<Pollfd>, p: nat): set<Dir> {
    set d | d in c.ioWant && Ready(c, pfd, p, d)
  }

  /** The descriptors the check in channel_after_poll rejects. */
  predicate Unexpected(c: Chan) {
    c.rfd != -1 && c.wfd != -1 && c.rfd != c.wfd && (c.rfd == c.efd || c.rfd == c.sock)
  }

  predicate SlotInvalid(c: Chan, k: nat, pfd: seq<Pollfd>, p: nat) {
    Armed(c, k) && p + Count(c, k) < |pfd| && Nval in pfd[p + Count(c, k)].revents
  }

  /** A descriptor of the channel that poll calls invalid. */
  predicate Invalid(c: Chan, pfd: seq<Pollfd>, p: nat) {
    SlotInvalid(c, 0, pfd, p) || SlotInvalid(c, 1, pfd, p) || SlotInvalid(c, 2, pfd, p) || SlotInvalid(c, 3, pfd, p)
  }

  // ---------------------------------------------------------------- packing, in place

  lemma EntryKept(c: Chan, k: nat, s: seq<Pollfd>, t: seq<Pollfd>, p: nat, q: nat)
    requires EntryAt(c, k, s, p) && p + Count(c, k + 1) <= q <= |s| == |t|
    requires s[..q] == t[..q]
    ensures EntryAt(c, k, t, p)
  {
    hide SlotEvents, SlotFd;
    if Armed(c, k) {
      assert s[..q][p + Count(c, k)] == t[..q][p + Count(c, k)];
    }
  }

  /** One entry, if there is any event to wait for. */
  method PackSlot(pfd: array<Pollfd>, p: nat, fd: int, ev: set<Event>) returns (index: int, next: nat)
    requires p < pfd.Length
    modifies pfd
    ensures pfd[..p] == old(pfd[..p]) && pfd[p + 1..] == old(pfd[p + 1..])
    ensures ev == {} ==> index == -1 && next == p && pfd[..] == old(pfd[..])
    ensures ev != {} ==> index == p && next == p + 1 && pfd[p].fd == fd && pfd[p].events == ev
  {
    index, next := -1, p;
    if ev != {} {
      index := p;
      pfd[p] := pfd[p].(fd := fd, events := ev);
      next := p + 1;
    }
  }

  function Want(c: Chan, d: Dir): set<Event> { if d in c.ioWant then {Mask(d)} else {} }

  /** The events of the read descriptor's entry, with those of the descriptors it is shared with. */
  method EventsOfRfd(c: Chan) returns (ev: set<Event>)
    ensures ev == SlotEvents(c, 0)
  {
    ev := {};
    if c.rfd != -1 {
      ev := ev + Want(c, Rfd);
      if c.wfd == c.rfd {
        ev := ev + Want(c, Wfd);
      }
      if c.efd == c.rfd {
        ev := ev + Want(c, EfdR) + Want(c, EfdW);
      }
      if c.sock == c.rfd {
        ev := ev + Want(c, SockR) + Want(c, SockW);
      }
    }
  }

  method EventsOfWfd(c: Chan) returns (ev: set<Event>)
    ensures ev == SlotEvents(c, 1)
  {
    ev := {};
    if c.wfd != -1 && c.rfd != c.wfd {
      ev := Want(c, Wfd);
    }
  }

  method EventsOfEfd(c: Chan) returns (ev: set<Event>)
    ensures ev == SlotEvents(c, 2)
  {
    ev := {};
    if c.efd != -1 && c.rfd != c.efd {
      ev := Want(c, EfdR) + Want(c, EfdW);
    }
  }

  method EventsOfSock(c: Chan) returns (ev: set<Event>)
    ensures ev == SlotEvents(c, 3)
  {
    ev := {};
    if c.sock != -1 && c.rfd != c.sock {
      ev := Want(c, SockR) + Want(c, SockW);
    }
  }

  lemma CountStep(c: Chan, k: nat)
    ensures Count(c, 0) == 0 && Count(c, k + 1) == Count(c, k) + if Armed(c, k) then 1 else 0
    ensures Armed(c, k) <==> SlotEvents(c, k) != {}
  {
  }

  /** One of the four parts of channel_prepare_pollfd. */
  method PackOne(c: Chan, k: nat, ev: set<Event>, p0: nat, p: nat, pfd: array<Pollfd>) returns (index: int, next: nat)
    requires k < 4 && ev == SlotEvents(c, k) && p == p0 + Count(c, k) && p < pfd.Length
    modifies pfd
    ensures pfd[..p] == old(pfd[..p]) && pfd[p + 1..] == old(pfd[p + 1..])
    ensures index == Offset(c, p0, k) && next == p0 + Count(c, k + 1) && next <= p + 1
    ensures EntryAt(c, k, pfd[..], p0)
  {
    hide SlotEvents, SlotFd;
    CountStep(c, k);
    index, next := PackSlot(pfd, p, SlotFd(c, k), ev);
  }

  /** channel_prepare_pollfd for a channel; it fails when four entries might not fit. */
  method PreparePollfd(c: Chan, p: nat, pfd: array<Pollfd>, npfd: nat) returns (ok: bool, d: Chan, next: nat)
    requires npfd <= pfd.Length
    modifies pfd
    ensures ok <==> p + 4 <= npfd
    ensures ok ==> d == c.(pfds := Offsets(c, p)) && next == p + Count(c, 4) && PackedChan(d, pfd[..], p)
    ensures ok ==> pfd[..p] == old(pfd[..p])
  {
    hide SlotEvents, SlotFd, EntryAt, Armed;
    d, next := c, p;
    if p + 4 > npfd {
      return false, c, p;
    }
    CountStep(c, 0);
    var ev0 := EventsOfRfd(c);
    var i0, p1 := PackOne(c, 0, ev0, p, p, pfd);
    ghost var s0 := pfd[..];
    var ev1 := EventsOfWfd(c);
    var i1, p2 := PackOne(c, 1, ev1, p, p1, pfd);
    ghost var s1 := pfd[..];
    assert s1[..p1] == s0[..p1];
    EntryKept(c, 0, s0, s1, p, p1);
    var ev2 := EventsOfEfd(c);
    var i2, p3 := PackOne(c, 2, ev2, p, p2, pfd);
    ghost var s2 := pfd[..];
    assert s2[..p2] == s1[..p2];
    EntryKept(c, 0, s1, s2, p, p2);
    EntryKept(c, 1, s1, s2, p, p2);
    var ev3 := EventsOfSock(c);
    var i3, p4 := PackOne(c, 3, ev3, p, p3, pfd);
    ghost var s3 := pfd[..];
    assert s3[..p3] == s2[..p3];
    EntryKept(c, 0, s2, s3, p, p3);
    EntryKept(c, 1, s2, s3, p, p3);
    EntryKept(c, 2, s2, s3, p, p3);
    d, next, ok := c.(pfds := [i0, i1, i2, i3]), p4, true;
    PackedAgain(c, s3, p);
    assert s3[..p] == s0[..p] by {
      assert s1[..p1][..p] == s1[..p] && s0[..p1][..p] == s0[..p];
      assert s2[..p2][..p] == s2[..p] && s1[..p2][..p] == s1[..p];
      assert s3[..p3][..p] == s3[..p] && s2[..p3][..p] == s2[..p];
    }
  }

  lemma OffsetsOnly(c: Chan, f: seq<int>, r: set<Dir>, p: nat)
    ensures Offsets(c.(pfds := f, ioReady := r), p) == Offsets(c, p)
  {
    hide Armed, Count;
    forall k: nat | k < 4
      ensures Offset(c.(pfds := f, ioReady := r), p, k) == Offset(c, p, k)
    {
      SlotOnly(c, f, r, k);
      LayoutOnly(c, f, r, k);
    }
  }

  lemma EntryOnly(c: Chan, f: seq<int>, r: set<Dir>, k: nat, s: seq<Pollfd>, p: nat)
    ensures EntryAt(c.(pfds := f, ioReady := r), k, s, p) == EntryAt(c, k, s, p)
  {
    hide Armed, Count, SlotEvents, SlotFd;
    SlotOnly(c, f, r, k);
    LayoutOnly(c, f, r, k);
  }

  lemma PackedAgain(c: Chan, s: seq<Pollfd>, p: nat)
    requires EntryAt(c, 0, s, p) && EntryAt(c, 1, s, p) && EntryAt(c, 2, s, p) && EntryAt(c, 3, s, p)
    ensures PackedChan(c.(pfds := Offsets(c, p)), s, p)
  {
    hide EntryAt, Offsets;
    var f := Offsets(c, p);
    var d := c.(pfds := f);
    assert d == c.(pfds := f, ioReady := c.ioReady);
    OffsetsOnly(c, f, c.ioReady, p);
    EntryOnly(c, f, c.ioReady, 0, s, p);
    EntryOnly(c, f, c.ioReady, 1, s, p);
    EntryOnly(c, f, c.ioReady, 2, s, p);
    EntryOnly(c, f, c.ioReady, 3, s, p);
  }

  // ---------------------------------------------------------------- unpacking, in place

  /** The errors that end the process. */
  datatype Fatal = Fine | TooManyChannels | AllocChanged | BadOffset | UnexpectedFds | InconsistentFd | InvalidFd

  function Gain(c: Chan, e: Pollfd, d: Dir): set<Dir> { if d in c.ioWant && Reported(e, d) then {d} else {} }

  /** fd_ready for one direction. */
  method FdReady(c: Chan, ready: set<Dir>, p: int, pfd: array<Pollfd>, npfd: nat, fd: int, d: Dir)
      returns (f: Fatal, r: set<Dir>)
    requires npfd <= pfd.Length
    ensures fd == -1 ==> f == Fine && r == ready
    ensures fd != -1 ==>
      if p < 0 || p >= npfd then f == BadOffset
      else if pfd[p].fd != fd then f == InconsistentFd
      else if Nval in pfd[p].revents then f == InvalidFd
      else f == Fine && r == ready + Gain(c, pfd[p], d)
  {
    f, r := Fine, ready;
    if fd == -1 {
      return;
    }
    if p < 0 || p >= npfd {
      return BadOffset, r;
    }
    if pfd[p].fd != fd {
      return InconsistentFd, r;
    }
    if Nval in pfd[p].revents {
      return InvalidFd, r;
    }
    if Mask(d) in pfd[p].revents || Hup in pfd[p].revents || Err in pfd[p].revents {
      r := r + {d} * c.ioWant;
    }
  }

  /** What slot k adds to io_ready. */
  function SlotReady(c: Chan, k: nat, pfd: seq<Pollfd>, p: nat): set<Dir> {
    set d | d in c.ioWant && Holder(c, d) == k && Ready(c, pfd, p, d)
  }

  function EntryReady(c: Chan, k: nat, e: Pollfd): set<Dir> {
    set d | d in c.ioWant && FdOf(c, d) != -1 && Holder(c, d) == k && Reported(e, d)
  }

  lemma SlotReadyIs(c: Chan, k: nat, pfd: seq<Pollfd>, p: nat)
    requires k < 4 && EntryAt(c, k, pfd, p)
    ensures Armed(c, k) ==> SlotReady(c, k, pfd, p) == EntryReady(c, k, pfd[p + Count(c, k)])
    ensures !Armed(c, k) ==> SlotReady(c, k, pfd, p) == {}
  {
    hide Count, SlotEvents, Reported;
  }

  /** Both directions of a descriptor. */
  method FdReadyBoth(c: Chan, ready: set<Dir>, p: int, pfd: array<Pollfd>, npfd: nat, fd: int, d: Dir, e: Dir)
      returns (f: Fatal, r: set<Dir>)
    requires npfd <= pfd.Length
    ensures fd != -1 && 0 <= p < npfd && pfd[p].fd == fd && Nval !in pfd[p].revents ==>
      f == Fine && r == ready + Gain(c, pfd[p], d) + Gain(c, pfd[p], e)
    ensures fd != -1 && 0 <= p < npfd && pfd[p].fd == fd && Nval in pfd[p].revents ==> f == InvalidFd
  {
    hide Gain;
    f, r := FdReady(c, ready, p, pfd, npfd, fd, d);
    if f == Fine {
      f, r := FdReady(c, r, p, pfd, npfd, fd, e);
    }
  }

  /** What the read descriptor's entry can make ready, one descriptor at a time. */
  lemma RfdShares(c: Chan, e: Pollfd)
    requires c.rfd != -1
    ensures EntryReady(c, 0, e)
         == Gain(c, e, Rfd)
            + (if c.rfd == c.wfd then Gain(c, e, Wfd) else {})
            + (if c.rfd == c.efd then Gain(c, e, EfdR) + Gain(c, e, EfdW) else {})
            + (if c.rfd == c.sock then Gain(c, e, SockR) + Gain(c, e, SockW) else {})
  {
    hide Reported;
  }

  method UnpackRfd(c: Chan, ready: set<Dir>, pfd: array<Pollfd>, npfd: nat, ghost e: Pollfd)
      returns (f: Fatal, r: set<Dir>)
    requires npfd <= pfd.Length && |c.pfds| == 4 && (c.rfd == -1 ==> c.pfds[0] == -1)
    requires c.pfds[0] != -1 ==> 0 <= c.pfds[0] < npfd && pfd[c.pfds[0]] == e && e.fd == c.rfd
    ensures c.pfds[0] == -1 ==> f == Fine && r == ready
    ensures c.pfds[0] != -1 ==>
      f == (if Nval in e.revents then InvalidFd else Fine)
      && (f == Fine ==> r == ready + EntryReady(c, 0, e))
  {
    hide Reported;
    hide Gain, EntryReady;
    f, r := Fine, ready;
    var p := c.pfds[0];
    if c.rfd != -1 && p != -1 {
      RfdShares(c, e);
      f, r := FdReady(c, r, p, pfd, npfd, c.rfd, Rfd);
      if f != Fine {
        return;
      }
      if c.rfd == c.wfd {
        f, r := FdReady(c, r, p, pfd, npfd, c.wfd, Wfd);
      }
      assert f == Fine && r == ready + Gain(c, e, Rfd) + (if c.rfd == c.wfd then Gain(c, e, Wfd) else {});
      ghost var r1 := r;
      if c.rfd == c.efd {
        f, r := FdReadyBoth(c, r, p, pfd, npfd, c.efd, EfdR, EfdW);
      }
      assert f == Fine && r == r1 + (if c.rfd == c.efd then Gain(c, e, EfdR) + Gain(c, e, EfdW) else {});
      if c.rfd == c.sock {
        f, r := FdReadyBoth(c, r, p, pfd, npfd, c.sock, SockR, SockW);
      }
    }
  }

  method UnpackWfd(c: Chan, ready: set<Dir>, pfd: array<Pollfd>, npfd: nat, ghost e: Pollfd)
      returns (f: Fatal, r: set<Dir>)
    requires npfd <= pfd.Length && |c.pfds| == 4 && (c.wfd == -1 || c.wfd == c.rfd ==> c.pfds[1] == -1)
    requires c.pfds[1] != -1 ==> 0 <= c.pfds[1] < npfd && pfd[c.pfds[1]] == e && e.fd == c.wfd
    ensures c.pfds[1] == -1 ==> f == Fine && r == ready
    ensures c.pfds[1] != -1 ==>
      f == (if Nval in e.revents then InvalidFd else Fine)
      && (f == Fine ==> r == ready + EntryReady(c, 1, e))
  {
    hide Reported;
    f, r := Fine, ready;
    var p := c.pfds[1];
    if c.wfd != -1 && c.wfd != c.rfd && p != -1 {
      f, r := FdReady(c, r, p, pfd, npfd, c.wfd, Wfd);
      assert Gain(c, e, Wfd) == EntryReady(c, 1, e);
    }
  }

  method UnpackEfd(c: Chan, ready: set<Dir>, pfd: array<Pollfd>, npfd: nat, ghost e: Pollfd)
      returns (f: Fatal, r: set<Dir>)
    requires npfd <= pfd.Length && |c.pfds| == 4 && (c.efd == -1 || c.efd == c.rfd ==> c.pfds[2] == -1)
    requires c.pfds[2] != -1 ==> 0 <= c.pfds[2] < npfd && pfd[c.pfds[2]] == e && e.fd == c.efd
    ensures c.pfds[2] == -1 ==> f == Fine && r == ready
    ensures c.pfds[2] != -1 ==>
      f == (if Nval in e.revents then InvalidFd else Fine)
      && (f == Fine ==> r == ready + EntryReady(c, 2, e))
  {
    hide Reported;
    f, r := Fine, ready;
    var p := c.pfds[2];
    if c.efd != -1 && c.efd != c.rfd && p != -1 {
      f, r := FdReadyBoth(c, r, p, pfd, npfd, c.efd, EfdR, EfdW);
      assert Gain(c, e, EfdR) + Gain(c, e, EfdW) == EntryReady(c, 2, e);
    }
  }

  method UnpackSock(c: Chan, ready: set<Dir>, pfd: array<Pollfd>, npfd: nat, ghost e: Pollfd)
      returns (f: Fatal, r: set<Dir>)
    requires npfd <= pfd.Length && |c.pfds| == 4 && (c.sock == -1 || c.sock == c.rfd ==> c.pfds[3] == -1)
    requires c.pfds[3] != -1 ==> 0 <= c.pfds[3] < npfd && pfd[c.pfds[3]] == e && e.fd == c.sock
    ensures c.pfds[3] == -1 ==> f == Fine && r == ready
    ensures c.pfds[3] != -1 ==>
      f == (if Nval in e.revents then InvalidFd else Fine)
      && (f == Fine ==> r == ready + EntryReady(c, 3, e))
  {
    hide Reported;
    f, r := Fine, ready;
    var p := c.pfds[3];
    if c.sock != -1 && c.sock != c.rfd && p != -1 {
      f, r := FdReadyBoth(c, r, p, pfd, npfd, c.sock, SockR, SockW);
      assert Gain(c, e, SockR) + Gain(c, e, SockW) == EntryReady(c, 3, e);
    }
  }

  lemma SlotShape(c: Chan, k: nat, s: seq<Pollfd>, p: nat, npfd: nat)
    requires k < 4 && PackedChan(c, s, p) && p + Count(c, 4) <= npfd <= |s|
    ensures EntryAt(c, k, s, p) && c.pfds[k] == Offset(c, p, k)
    ensures c.pfds[k] != -1 <==> Armed(c, k)
    ensures Armed(c, k) ==> 0 <= c.pfds[k] == p + Count(c, k) < npfd && s[c.pfds[k]].fd == SlotFd(c, k)
    ensures SlotFd(c, k) == -1 || (k > 0 && SlotFd(c, k) == c.rfd) ==> !Armed(c, k)
  {
    SlotUnused(c, k);
    hide SlotEvents, SlotFd, Armed;
    CountGrows(c, k, 4);
  }

  lemma SlotUnused(c: Chan, k: nat)
    requires k < 4
    ensures SlotFd(c, k) == -1 || (k > 0 && SlotFd(c, k) == c.rfd) ==> !Armed(c, k)
  {
  }

  function SlotEntry(c: Chan, k: nat, s: seq<Pollfd>): Pollfd
    requires k < 4 && |c.pfds| == 4
  {
    if 0 <= c.pfds[k] < |s| then s[c.pfds[k]] else Pollfd(-1, {}, {})
  }

  lemma ReadyBySlots(c: Chan, s: seq<Pollfd>, p: nat)
    ensures ReadySet(c, s, p) ==
      SlotReady(c, 0, s, p) + SlotReady(c, 1, s, p) + SlotReady(c, 2, s, p) + SlotReady(c, 3, s, p)
  {
    hide Ready;
    forall d
      ensures Holder(c, d) == 0 || Holder(c, d) == 1 || Holder(c, d) == 2 || Holder(c, d) == 3
    {
    }
  }

  /** The part of channel_after_poll for one channel, on the array it was packed into. */
  method UnpackChan(c: Chan, pfd: array<Pollfd>, npfd: nat, ghost p: nat) returns (f: Fatal, d: Chan)
    requires PackedChan(c, pfd[..], p) && p + Count(c, 4) <= npfd <= pfd.Length
    ensures f == if Unexpected(c) then UnexpectedFds else if Invalid(c, pfd[..], p) then InvalidFd else Fine
    ensures f == Fine ==> d == c.(ioReady := ReadySet(c, pfd[..], p))
  {
    hide SlotEvents, Armed, Count, Ready, Reported, SlotReady, EntryReady, PackedChan, Holder, ReadySet, EntryAt, FdOf;
    d := c;
    if c.rfd != -1 && c.wfd != -1 && c.rfd != c.wfd && (c.rfd == c.efd || c.rfd == c.sock) {
      return UnexpectedFds, d;
    }
    ghost var s := pfd[..];
    SlotShape(c, 0, s, p, npfd);
    SlotShape(c, 1, s, p, npfd);
    SlotShape(c, 2, s, p, npfd);
    SlotShape(c, 3, s, p, npfd);
    SlotReadyIs(c, 0, s, p);
    SlotReadyIs(c, 1, s, p);
    SlotReadyIs(c, 2, s, p);
    SlotReadyIs(c, 3, s, p);
    PackedLength(c, s, p);
    var r: set<Dir> := {};
    f, r := UnpackRfd(c, r, pfd, npfd, SlotEntry(c, 0, s));
    if f != Fine {
      return;
    }
    assert r == SlotReady(c, 0, s, p);
    f, r := UnpackWfd(c, r, pfd, npfd, SlotEntry(c, 1, s));
    if f != Fine {
      return;
    }
    assert r == SlotReady(c, 0, s, p) + SlotReady(c, 1, s, p);
    f, r := UnpackEfd(c, r, pfd, npfd, SlotEntry(c, 2, s));
    if f != Fine {
      return;
    }
    assert r == SlotReady(c, 0, s, p) + SlotReady(c, 1, s, p) + SlotReady(c, 2, s, p);
    f, r := UnpackSock(c, r, pfd, npfd, SlotEntry(c, 3, s));
    if f != Fine {
      return;
    }
    ReadyBySlots(c, s, p);
    d := c.(ioReady := r);
  }

  lemma PackedLength(c: Chan, s: seq<Pollfd>, p: nat)
    requires PackedChan(c, s, p)
    ensures |c.pfds| == 4
  {
  }

  // ---------------------------------------------------------------- the whole table

  lemma ChanKept(c: Chan, s: seq<Pollfd>, t: seq<Pollfd>, b: nat, p: nat)
    requires PackedChan(c, s, b) && b + Count(c, 4) <= p <= |s| == |t| && s[..p] == t[..p]
    ensures PackedChan(c, t, b)
  {
    hide EntryAt, Armed, Offsets;
    CountGrows(c, 0, 4);
    CountGrows(c, 1, 4);
    CountGrows(c, 2, 4);
    CountStep(c, 0);
    CountStep(c, 1);
    CountStep(c, 2);
    CountStep(c, 3);
    EntryKept(c, 0, s, t, b, p);
    EntryKept(c, 1, s, t, b, p);
    EntryKept(c, 2, s, t, b, p);
    EntryKept(c, 3, s, t, b, p);
  }

  /** One more channel packed behind those before it. */
  lemma PackedStep(t: Table, u: Table, s: seq<Pollfd>, v: seq<Pollfd>, reserved: nat, i: nat, c: Chan)
    requires i < |t| && PackedBelow(t, s, reserved, i) && t[i].Some? && u == t[i := Some(c)] && SameLayout(t, u)
    requires |v| == |s| && Begin(t, reserved, i) <= |s| && v[..Begin(t, reserved, i)] == s[..Begin(t, reserved, i)]
    requires PackedChan(c, v, Begin(t, reserved, i))
    ensures PackedBelow(u, v, reserved, i + 1)
  {
    hide PackedChan, Begin;
    forall j | 0 <= j < i + 1 && u[j].Some?
      ensures PackedChan(u[j].value, v, Begin(u, reserved, j))
    {
      BeginSame(t, u, reserved, j);
      if j < i {
        BeginGrows(t, reserved, j, i);
        ChanKept(t[j].value, s, v, Begin(t, reserved, j), Begin(t, reserved, i));
      }
    }
  }

  lemma LayoutTrans(t: Table, u: Table, i: nat, c: Chan, f: seq<int>)
    requires SameLayout(t, u) && i < |u| && u[i].Some? && c == u[i].value.(pfds := f)
    ensures SameLayout(t, u[i := Some(c)]) && SameLayout(u, u[i := Some(c)])
  {
  }

  lemma BeginNext(t: Table, reserved: nat, i: nat)
    requires i < |t|
    ensures Begin(t, reserved, i + 1) == Begin(t, reserved, i) + Size(t[i])
  {
  }

  lemma PackedNone(t: Table, s: seq<Pollfd>, reserved: nat, i: nat)
    requires i < |t| && t[i].None? && PackedBelow(t, s, reserved, i)
    ensures PackedBelow(t, s, reserved, i + 1)
  {
  }

  /** struct ssh_channels and the poll array of the main loop. */
  class Poller {
    var channels: array<Option<Chan>>
    var pfd: array<Pollfd>
    var npfd: nat

    constructor (t: Table)
      ensures channels[..] == t && pfd.Length == 0 && fresh(channels) && fresh(pfd)
    {
      channels := new Option<Chan>[|t|](i requires 0 <= i < |t| => t[i]);
      pfd := new Pollfd[0];
      npfd := 0;
    }

    /** Growing the poll array, as xrecallocarray does. */
    method Grow(n: nat)
      modifies this`pfd
      ensures pfd.Length >= n && pfd.Length >= old(pfd.Length)
      ensures pfd == old(pfd) || fresh(pfd)
      ensures pfd[..old(pfd.Length)] == old(pfd[..])
    {
      if n > pfd.Length {
        var was := pfd;
        pfd := new Pollfd[n](i requires 0 <= i < n reads was => if i < was.Length then was[i] else Pollfd(0, {}, {}));
        assert pfd[..was.Length] == was[..];
      }
    }

    /**
     channel_prepare_poll. `pre` is the table as the pre-poll handlers leave it; the array may still be empty, as it
     is when the main loop starts.
     */
    method PreparePoll(reserved: nat, pre: Table) returns (f: Fatal)
      requires reserved <= INT_MAX / 4
      modifies this`pfd, this`npfd, channels, pfd
      ensures channels == old(channels)
      ensures f == if channels.Length >= INT_MAX / 4 - reserved then TooManyChannels
                   else if |pre| != channels.Length then AllocChanged else Fine
      ensures f == Fine ==> SameLayout(pre, channels[..]) && Packed(channels[..], pfd[..], reserved)
      ensures f == Fine ==> npfd == Begin(channels[..], reserved, |pre|) <= pfd.Length
      ensures f == Fine ==> pfd.Length >= old(pfd.Length) && pfd.Length >= reserved
      ensures f == Fine ==>
        pfd[..Min(reserved, old(pfd.Length))] == old(pfd[..Min(reserved, pfd.Length)])
    {
      hide PackedBelow, PackedChan, SameLayout, Begin;
      ghost var kept := Min(reserved, pfd.Length);
      ghost var head := pfd[..kept];
      if channels.Length >= INT_MAX / 4 - reserved {
        return TooManyChannels;
      }
      var limit := reserved + channels.Length * 4;
      Grow(limit);
      assert pfd[..kept] == head;
      ghost var front := pfd[..reserved];
      assert front[..kept] == head;
      npfd := reserved;
      if |pre| != channels.Length {
        return AllocChanged;
      }
      forall i | 0 <= i < |pre| {
        channels[i] := pre[i];
      }
      assert channels[..] == pre;
      f := PackAll(reserved, limit, pre);
      assert pfd[..reserved] == front && pfd[..kept] == front[..kept];
    }

    /** The loop over the table. */
    method PackAll(reserved: nat, limit: nat, ghost pre: Table) returns (f: Fatal)
      requires limit == reserved + channels.Length * 4 <= pfd.Length && channels[..] == pre
      modifies this`npfd, channels, pfd
      ensures f == Fine
      ensures SameLayout(pre, channels[..]) && Packed(channels[..], pfd[..], reserved)
      ensures npfd == Begin(channels[..], reserved, |pre|) <= pfd.Length
      ensures pfd[..reserved] == old(pfd[..reserved])
    {
      hide PackedBelow, PackedChan, SameLayout, Begin;
      ghost var head := pfd[..reserved];
      StartPacked(pre, pfd[..], reserved);
      var p := reserved;
      for i := 0 to channels.Length
        invariant SameLayout(pre, channels[..]) && |pre| == channels.Length
        invariant PackedBelow(channels[..], pfd[..], reserved, i)
        invariant p == Begin(channels[..], reserved, i) && p <= reserved + 4 * i
        invariant pfd[..reserved] == head && p >= reserved
      {
        ghost var t, s := channels[..], pfd[..];
        BeginNext(t, reserved, i);
        match channels[i] {
          case None =>
            PackedNone(t, s, reserved, i);
          case Some(c) =>
            var ok, d, next := PreparePollfd(c, p, pfd, limit);
            if !ok {
              assert false;
              return BadOffset;
            }
            ghost var v := pfd[..];
            LayoutTrans(pre, t, i, d, d.pfds);
            PackedStep(t, t[i := Some(d)], s, v, reserved, i, d);
            BeginSame(t, t[i := Some(d)], reserved, i + 1);
            assert v[..reserved] == v[..p][..reserved] && s[..reserved] == s[..p][..reserved];
            channels[i] := Some(d);
            assert channels[..] == t[i := Some(d)];
            p := next;
        }
      }
      npfd := p;
      return Fine;
    }

    /** channel_after_poll up to the handlers: io_ready from what poll reported. */
    method AfterPoll(ghost reserved: nat) returns (f: Fatal)
      requires Packed(channels[..], pfd[..], reserved)
      requires npfd == Begin(channels[..], reserved, channels.Length) <= pfd.Length
      modifies channels
      ensures f == Fine <==> AllPolled(old(channels[..]), pfd[..], reserved)
      ensures f == Fine || f == UnexpectedFds || f == InvalidFd
      ensures f == Fine ==> Unpacked(old(channels[..]), channels[..], pfd[..], reserved, channels.Length)
    {
      hide PackedChan, Begin, Unexpected, Invalid, ReadySet, Offsets;
      ghost var t, s := channels[..], pfd[..];
      for i := 0 to channels.Length
        invariant pfd[..] == s && |channels[..]| == |t|
        invariant Unpacked(t, channels[..], s, reserved, i)
        invariant forall j | 0 <= j < i && t[j].Some? ::
          !Unexpected(t[j].value) && !Invalid(t[j].value, s, Begin(t, reserved, j))
      {
        match channels[i] {
          case None =>
          case Some(c) =>
            ghost var p := Begin(t, reserved, i);
            assert t[i] == Some(c) && PackedChan(c, s, p);
            BeginNext(t, reserved, i);
            BeginEnd(t, reserved, i);
            var g, d := UnpackChan(c, pfd, npfd, p);
            if g != Fine {
              return g;
            }
            channels[i] := Some(d);
        }
      }
      return Fine;
    }
  }

  lemma BeginEnd(t: Table, reserved: nat, i: nat)
    requires i < |t|
    ensures Begin(t, reserved, i) + Size(t[i]) <= Begin(t, reserved, |t|)
  {
    BeginGrows(t, reserved, i, |t|);
  }

  lemma StartPacked(t: Table, s: seq<Pollfd>, reserved: nat)
    ensures PackedBelow(t, s, reserved, 0) && SameLayout(t, t) && Begin(t, reserved, 0) == reserved
  {
  }

  /** No channel has an aliasing the check rejects, and poll calls no descriptor invalid. */
  predicate AllPolled(t: Table, s: seq<Pollfd>, reserved: nat) {
    forall j | 0 <= j < |t| && t[j].Some? :: !Unexpected(t[j].value) && !Invalid(t[j].value, s, Begin(t, reserved, j))
  }

  /** The first n channels have their io_ready set from the array; nothing else differs. */
  predicate Unpacked(t: Table, u: Table, s: seq<Pollfd>, reserved: nat, n: nat) {
    n <= |t| == |u|
    && (forall i | 0 <= i < n ::
          u[i] == if t[i].None? then None
                  else Some(t[i].value.(ioReady := ReadySet(t[i].value, s, Begin(t, reserved, i)))))
    && (forall i | n <= i < |t| :: u[i] == t[i])
  }

  /** After unpacking, exactly the wanted directions are ready whose descriptor's entry, which asked for the direction's
      own event, reported it, a hangup or an error. */
  lemma ReadyExactly(t: Table, u: Table, s: seq<Pollfd>, reserved: nat, i: nat, d: Dir)
    requires Packed(t, s, reserved) && Unpacked(t, u, s, reserved, |t|) && i < |t| && t[i].Some?
    ensures u[i].Some? && u[i].value.ioReady <= u[i].value.ioWant
    ensures var c := t[i].value;
      if d !in c.ioWant || FdOf(c, d) == -1 then d !in u[i].value.ioReady
      else
        |c.pfds| == 4
        && var q := c.pfds[Holder(c, d)];
        0 <= q < |s| && s[q].fd == FdOf(c, d) && Mask(d) in s[q].events
        && (d in u[i].value.ioReady <==> Reported(s[q], d))
  {
    hide Armed, Count, Reported, Begin;
    var c := t[i].value;
    var p := Begin(t, reserved, i);
    assert PackedChan(c, s, p);
    assert u[i].value == c.(ioReady := ReadySet(c, s, p));
    if d in c.ioWant && FdOf(c, d) != -1 {
      WantedIsArmed(c, d);
      EventsExactly(c, Holder(c, d), Mask(d));
      EntryOf(c, s, p, Holder(c, d));
    }
  }

  lemma EntryOf(c: Chan, s: seq<Pollfd>, p: nat, k: nat)
    requires PackedChan(c, s, p) && k < 4 && Armed(c, k)
    ensures c.pfds[k] == p + Count(c, k) < |s|
    ensures s[p + Count(c, k)].fd == SlotFd(c, k) && s[p + Count(c, k)].events == SlotEvents(c, k)
  {
    hide Armed, Count, SlotEvents, SlotFd;
    assert EntryAt(c, k, s, p);
  }

  /** The same direction by direction: reading waits for input, writing for room; a hangup or an error ends both. */
  lemma ReadyMeans(t: Table, u: Table, s: seq<Pollfd>, reserved: nat, i: nat)
    requires Packed(t, s, reserved) && Unpacked(t, u, s, reserved, |t|) && i < |t| && t[i].Some?
    ensures u[i].Some?
    ensures var c, r := t[i].value, u[i].value.ioReady;
      && (Rfd in r <==> Rfd in c.ioWant && c.rfd != -1 && Says(s, c.pfds, c, Rfd, In))
      && (Wfd in r <==> Wfd in c.ioWant && c.wfd != -1 && Says(s, c.pfds, c, Wfd, Out))
      && (EfdR in r <==> EfdR in c.ioWant && c.efd != -1 && Says(s, c.pfds, c, EfdR, In))
      && (EfdW in r <==> EfdW in c.ioWant && c.efd != -1 && Says(s, c.pfds, c, EfdW, Out))
      && (SockR in r <==> SockR in c.ioWant && c.sock != -1 && Says(s, c.pfds, c, SockR, In))
      && (SockW in r <==> SockW in c.ioWant && c.sock != -1 && Says(s, c.pfds, c, SockW, Out))
  {
    hide Holder, Packed, Unpacked;
    ReadyExactly(t, u, s, reserved, i, Rfd);
    ReadyExactly(t, u, s, reserved, i, Wfd);
    ReadyExactly(t, u, s, reserved, i, EfdR);
    ReadyExactly(t, u, s, reserved, i, EfdW);
    ReadyExactly(t, u, s, reserved, i, SockR);
    ReadyExactly(t, u, s, reserved, i, SockW);
  }

  /** The entry of the direction's descriptor asked for the event and got it, a hangup or an error. */
  predicate Says(s: seq<Pollfd>, pfds: seq<int>, c: Chan, d: Dir, event: Event) {
    |pfds| == 4
    && var q := pfds[Holder(c, d)];
    0 <= q < |s| && s[q].fd == FdOf(c, d) && event in s[q].events
    && (event in s[q].revents || Hup in s[q].revents || Err in s[q].revents)
  }

  /** Which slot that is. */
  lemma HolderMeans(c: Chan)
    ensures Holder(c, Rfd) == 0
    ensures Holder(c, Wfd) == if c.wfd == c.rfd then 0 else 1
    ensures Holder(c, EfdR) == Holder(c, EfdW) == if c.efd == c.rfd then 0 else 2
    ensures Holder(c, SockR) == Holder(c, SockW) == if c.sock == c.rfd then 0 else 3
    ensures FdOf(c, Rfd) == c.rfd && FdOf(c, Wfd) == c.wfd
    ensures FdOf(c, EfdR) == FdOf(c, EfdW) == c.efd && FdOf(c, SockR) == FdOf(c, SockW) == c.sock
  {
  }

  /**
   Unpacking succeeds exactly if each channel that shares its read descriptor for other uses writes on it, too, if it
   writes at all, and poll has called none of the descriptors invalid.
   */
  lemma AllPolledMeans(t: Table, s: seq<Pollfd>, reserved: nat)
    requires Packed(t, s, reserved)
    ensures AllPolled(t, s, reserved) <==>
      forall i | 0 <= i < |t| && t[i].Some? :: Shares(t[i].value) && NoneInvalid(t[i].value, s)
  {
    hide Unexpected, Invalid, Shares, NoneInvalid;
    forall i | 0 <= i < |t| && t[i].Some?
      ensures !Unexpected(t[i].value) && !Invalid(t[i].value, s, Begin(t, reserved, i))
        <==> Shares(t[i].value) && NoneInvalid(t[i].value, s)
    {
      assert PackedChan(t[i].value, s, Begin(t, reserved, i));
      SharesMeans(t[i].value);
      InvalidMeans(t[i].value, s, Begin(t, reserved, i));
    }
  }

  predicate Shares(c: Chan) {
    c.rfd != -1 && c.wfd != -1 && (c.rfd == c.efd || c.rfd == c.sock) ==> c.wfd == c.rfd
  }

  predicate NoneInvalid(c: Chan, s: seq<Pollfd>) {
    forall k | 0 <= k < |c.pfds| && 0 <= c.pfds[k] < |s| :: Nval !in s[c.pfds[k]].revents
  }

  lemma SharesMeans(c: Chan)
    ensures Shares(c) <==> !Unexpected(c)
  {
  }

  lemma InvalidMeans(c: Chan, s: seq<Pollfd>, p: nat)
    requires PackedChan(c, s, p)
    ensures NoneInvalid(c, s) <==> !Invalid(c, s, p)
  {
    hide Armed, Count, EntryAt;
    SlotInvalidMeans(c, s, p, 0);
    SlotInvalidMeans(c, s, p, 1);
    SlotInvalidMeans(c, s, p, 2);
    SlotInvalidMeans(c, s, p, 3);
  }

  lemma SlotInvalidMeans(c: Chan, s: seq<Pollfd>, p: nat, k: nat)
    requires PackedChan(c, s, p) && k < 4
    ensures SlotInvalid(c, k, s, p) <==> 0 <= c.pfds[k] < |s| && Nval in s[c.pfds[k]].revents
  {
    hide Armed, Count, EntryAt;
  }
}
