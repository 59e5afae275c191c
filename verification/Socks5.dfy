/** The incremental SOCKS5 decoder of a dynamic forwarding channel. */
module Socks5 {
  import opened Bytes
  import opened Sshbufs

  // ---------------------------------------------------------------- messages

  /** The address of a CONNECT request. */
  datatype Address = IPv4(bytes: seq<byte>) | Domain(name: seq<byte>) | IPv6(bytes: seq<byte>)

  /** What a client says: the authentication methods it offers, and where it wants to connect to. */
  datatype Message = Message(methods: seq<byte>, address: Address, port: nat)

  predicate WellFormed(m: Message) {
    |m.methods| < 256 && 0 in m.methods && m.port < U16
    && match m.address
       case IPv4(b) => |b| == 4
       case IPv6(b) => |b| == 16
       case Domain(n) => |n| < 256
  }

  function Greeting(methods: seq<byte>): seq<byte>
    requires |methods| < 256
  {
    [5, |methods|] + methods
  }

  function AddressBytes(a: Address): seq<byte>
    requires a.Domain? ==> |a.name| < 256
  {
    match a
    case IPv4(b) => [1] + b
    case IPv6(b) => [4] + b
    case Domain(n) => [3, |n|] + n
  }

  function PortBytes(port: nat): (r: seq<byte>)
    requires port < U16
    ensures |r| == 2
  {
    [port / 256, port % 256]
  }

  function Request(a: Address, port: nat): seq<byte>
    requires port < U16 && (a.Domain? ==> |a.name| < 256)
  {
    [5, 1, 0] + AddressBytes(a) + PortBytes(port)
  }

  // ---------------------------------------------------------------- parsing

  /** More input needed, a refusal, a version byte other than 5, or a value and the bytes after it. */
  datatype Parse<+T> = More | Bad | OtherVersion | Done(value: T, rest: seq<byte>)

  function ParseGreeting(m: seq<byte>): Parse<seq<byte>> {
    if |m| < 1 then More
    else if m[0] != 5 then OtherVersion
    else if |m| < 2 || |m| < 2 + m[1] as nat then More
    else if 0 !in m[2..2 + m[1]] then Bad
    else Done(m[2..2 + m[1]], m[2 + m[1]..])
  }

  datatype Target = Target(address: Address, port: nat)

  /** The address bytes and the port, once type and length are known. */
  function ParseTail(m: seq<byte>, kind: byte, n: nat): Parse<Target> {
    if |m| < n + 2 then More
    else
      var b := m[..n];
      Done(Target(if kind == 1 then IPv4(b) else if kind == 4 then IPv6(b) else Domain(b), Peek16(m[n], m[n + 1])),
           m[n + 2..])
  }

  function ParseRequest(m: seq<byte>): Parse<Target> {
    if |m| < 1 then More
    else if m[0] != 5 then OtherVersion
    else if |m| < 4 then More
    else if m[1] != 1 || m[2] != 0 then Bad
    else if m[3] == 1 then ParseTail(m[4..], 1, 4)
    else if m[3] == 4 then ParseTail(m[4..], 4, 16)
    else if m[3] != 3 then Bad
    else if |m| < 5 then More
    else ParseTail(m[5..], 3, m[4])
  }

  /** A greeting is accepted exactly when it is complete and offers the method without authentication. */
  lemma GreetingExactly(m: seq<byte>, methods: seq<byte>, rest: seq<byte>)
    ensures ParseGreeting(m) == Done(methods, rest)
      <==> |methods| < 256 && 0 in methods && m == Greeting(methods) + rest
  {
    if |methods| < 256 && m == Greeting(methods) + rest {
      assert m[0] == 5 && m[1] == |methods|;
      assert m[2..2 + m[1]] == methods && m[2 + m[1]..] == rest;
    }
    if ParseGreeting(m) == Done(methods, rest) {
      assert m == [m[0], m[1]] + m[2..2 + m[1]] + m[2 + m[1]..];
    }
  }

  predicate GoodTarget(t: Target) {
    t.port < U16
    && match t.address
       case IPv4(b) => |b| == 4
       case IPv6(b) => |b| == 16
       case Domain(n) => |n| < 256
  }

  lemma TailExactly(m: seq<byte>, kind: byte, n: byte, t: Target, rest: seq<byte>)
    requires (kind == 1 && n == 4) || (kind == 4 && n == 16) || kind == 3
    ensures ParseTail(m, kind, n) == Done(t, rest)
      <==> (GoodTarget(t) && m == AddressTail(t.address) + PortBytes(t.port) + rest
            && Kind(t.address) == kind && |AddressTail(t.address)| == n)
  {
    if |m| >= n + 2 {
      PortValue(m[n], m[n + 1]);
      assert m == m[..n] + [m[n], m[n + 1]] + m[n + 2..];
    }
    if GoodTarget(t) && m == AddressTail(t.address) + PortBytes(t.port) + rest && |AddressTail(t.address)| == n {
      assert m[..n] == AddressTail(t.address) && m[n + 2..] == rest;
      assert m[n] == t.port / 256 && m[n + 1] == t.port % 256;
    }
  }

  lemma PortValue(a: byte, b: byte)
    ensures PortBytes(Peek16(a, b)) == [a, b]
  {
  }

  function AddressTail(a: Address): seq<byte> {
    match a
    case IPv4(b) => b
    case IPv6(b) => b
    case Domain(n) => n
  }

  function Kind(a: Address): byte {
    match a
    case IPv4(_) => 1
    case IPv6(_) => 4
    case Domain(_) => 3
  }

  lemma RequestShape(t: Target, rest: seq<byte>)
    requires GoodTarget(t)
    ensures Request(t.address, t.port) + rest
         == [5, 1, 0, Kind(t.address)] + (if t.address.Domain? then [|t.address.name|] else [])
            + (AddressTail(t.address) + PortBytes(t.port) + rest)
  {
  }

  /** A request is accepted exactly when it is the CONNECT of a target. */
  lemma RequestExactly(m: seq<byte>, t: Target, rest: seq<byte>)
    ensures ParseRequest(m) == Done(t, rest)
      <==> GoodTarget(t) && m == Request(t.address, t.port) + rest
  {
    hide ParseTail, Request, PortBytes;
    if ParseRequest(m) == Done(t, rest) {
      RequestTaken(m, t, rest);
    }
    if GoodTarget(t) && m == Request(t.address, t.port) + rest {
      RequestParsed(t, rest);
    }
  }

  lemma RequestTaken(m: seq<byte>, t: Target, rest: seq<byte>)
    requires ParseRequest(m) == Done(t, rest)
    ensures GoodTarget(t) && m == Request(t.address, t.port) + rest
  {
    hide ParseTail, Request, PortBytes, GoodTarget;
    if m[3] == 3 {
      assert m == m[..5] + m[5..];
      TailExactly(m[5..], 3, m[4], t, rest);
    } else {
      assert m == m[..4] + m[4..];
      TailExactly(m[4..], m[3], if m[3] == 1 then 4 else 16, t, rest);
    }
    RequestShape(t, rest);
  }

  lemma RequestParsed(t: Target, rest: seq<byte>)
    requires GoodTarget(t)
    ensures ParseRequest(Request(t.address, t.port) + rest) == Done(t, rest)
  {
    hide ParseTail, Request, PortBytes;
    var m := Request(t.address, t.port) + rest;
    var tail := AddressTail(t.address) + PortBytes(t.port) + rest;
    RequestShape(t, rest);
    TailExactly(tail, Kind(t.address), |AddressTail(t.address)|, t, rest);
    if t.address.Domain? {
      assert m[5..] == tail;
    } else {
      assert m[4..] == tail;
    }
  }

  /** An answer other than "more" stays the same whatever comes behind. */
  lemma RequestExtends(m: seq<byte>, s: seq<byte>)
    ensures ParseRequest(m).Done? ==> ParseRequest(m + s) == Done(ParseRequest(m).value, ParseRequest(m).rest + s)
    ensures ParseRequest(m) == Bad ==> ParseRequest(m + s) == Bad
  {
    if |m| >= 4 {
      assert (m + s)[4..] == m[4..] + s;
      TailExtends(m[4..], s, 1, 4);
      TailExtends(m[4..], s, 4, 16);
      if |m| >= 5 {
        assert (m + s)[5..] == m[5..] + s;
        TailExtends(m[5..], s, 3, m[4]);
      }
    }
    hide ParseTail;
  }

  lemma TailExtends(m: seq<byte>, s: seq<byte>, kind: byte, n: nat)
    ensures ParseTail(m, kind, n) != Bad
    ensures ParseTail(m, kind, n).Done? ==>
      ParseTail(m + s, kind, n) == Done(ParseTail(m, kind, n).value, ParseTail(m, kind, n).rest + s)
  {
    if |m| >= n + 2 {
      assert (m + s)[..n] == m[..n] && (m + s)[n + 2..] == m[n + 2..] + s;
    }
  }

  // ---------------------------------------------------------------- the channel

  /** c->path: a name as C sees it, or an address that inet_ntop writes out. */
  datatype Host = Named(name: seq<byte>) | Numeric4(bytes: seq<byte>) | Numeric6(bytes: seq<byte>)

  /** Up to the first NUL. */
  function CText(s: seq<byte>): seq<byte> {
    if s == [] || s[0] == 0 then [] else [s[0]] + CText(s[1..])
  }

  /** The host a request names: an address byte for byte, or the name up to its first NUL. */
  predicate Names(h: Host, a: Address) {
    match a
    case IPv4(b) => h == Numeric4(b)
    case IPv6(b) => h == Numeric6(b)
    case Domain(n) => h.Named? && h.name <= n && 0 !in h.name && (h.name == n || n[|h.name|] == 0)
  }

  lemma HostIsNamed(a: Address)
    ensures Names(HostOf(a), a)
  {
    if a.Domain? {
      TextIsFirst(a.name);
    }
  }

  lemma {:induction false} TextIsFirst(n: seq<byte>)
    ensures CText(n) <= n && 0 !in CText(n) && (CText(n) == n || n[|CText(n)|] == 0)
  {
    if n != [] && n[0] != 0 {
      TextIsFirst(n[1..]);
      assert n == [n[0]] + n[1..];
      assert CText(n)[1..] == CText(n[1..]);
    }
  }

  function HostOf(a: Address): Host {
    match a
    case IPv4(b) => Numeric4(b)
    case IPv6(b) => Numeric6(b)
    case Domain(n) => Named(CText(n))
  }

  /** A name arrives whole exactly when it holds no NUL. */
  lemma {:induction false} NameExactly(n: seq<byte>)
    ensures CText(n) == n <==> 0 !in n
  {
    if n != [] {
      NameExactly(n[1..]);
      assert n == [n[0]] + n[1..];
      if n[0] != 0 && CText(n) == n {
        assert CText(n)[1..] == CText(n[1..]);
      }
    }
  }

  /** The decoder's part of a channel. */
  datatype Socks = Socks(input: seq<byte>, output: seq<byte>, authDone: bool, host: Option<Host>, port: nat)

  /** What channel_pre_dynamic does next: wait, reading and perhaps writing; mark the channel dead; open the
      connection; or leave this decoder. */
  datatype Verdict = Wait(wantWrite: bool) | Dead | Connect | FatalError | Version4

  const AUTH_REPLY: seq<byte> := [5, 0]

  function ConnectReply(port: nat): seq<byte>
    requires port < U16
  {
    [5, 0, 0, 1, 0, 0, 0, 0] + PortBytes(port)
  }

  /** The request stage on the bytes after the greeting. */
  function AfterAuth(s: Socks): (Socks, Verdict) {
    match ParseRequest(s.input)
    case More => (s, Wait(s.output != []))
    case Bad => (s, Dead)
    case OtherVersion => (s, FatalError)
    case Done(t, rest) =>
      (s.(input := rest, output := s.output + ConnectReply(t.port % 0x1_0000),
          host := Some(HostOf(t.address)), port := t.port),
       Connect)
  }

  /** channel_decode_socks5. */
  function Decode(s: Socks): (Socks, Verdict) {
    if s.authDone then AfterAuth(s)
    else
      match ParseGreeting(s.input)
      case More => (s, Wait(s.output != []))
      case Bad => (s, Dead)
      case OtherVersion => (s, FatalError)
      case Done(_, rest) => AfterAuth(s.(input := rest, output := s.output + AUTH_REPLY, authDone := true))
  }

  /** channel_pre_dynamic. */
  function Pre(s: Socks): (Socks, Verdict) {
    if |s.input| < 3 then (s, Wait(false))
    else if s.input[0] == 4 then (s, Version4)
    else if s.input[0] == 5 then Decode(s)
    else (s, Dead)
  }

  // ---------------------------------------------------------------- any cutting into chunks

  /** What happens between two calls: bytes arrive, or output goes out. */
  datatype Event = Arrive(chunk: seq<byte>) | Flush(n: nat)

  function Happen(s: Socks, e: Event): Socks {
    match e
    case Arrive(chunk) => s.(input := s.input + chunk)
    case Flush(n) => s.(output := s.output[Min(n, |s.output|)..])
  }

  function Gone(s: Socks, e: Event): seq<byte> {
    match e
    case Arrive(_) => []
    case Flush(n) => s.output[..Min(n, |s.output|)]
  }

  /** A decoder while it runs: its channel, the last verdict, all that arrived and all that went out. */
  datatype Run = Run(s: Socks, v: Verdict, arrived: seq<byte>, gone: seq<byte>)

  function Start(): Run { Run(Socks([], [], false, None, 0), Wait(false), [], []) }

  /** One event and the call after it. The decoder is not called again once it has decided. */
  function Step(r: Run, e: Event): Run {
    if !r.v.Wait? then r
    else
      var (s, v) := Pre(Happen(r.s, e));
      Run(s, v, r.arrived + (if e.Arrive? then e.chunk else []), r.gone + Gone(r.s, e))
  }

  function RunOf(events: seq<Event>): Run {
    if events == [] then Start() else Step(RunOf(events[..|events| - 1]), events[|events| - 1])
  }

  /** All reply bytes made so far, gone or still in the buffer. */
  function Replies(r: Run): seq<byte> { r.gone + r.s.output }

  /** The method chosen, and the success reply with an empty address and the requested port. */
  predicate AllReplied(b: seq<byte>, port: nat)
    requires port < U16
  {
    b == [5, 0, 5, 0, 0, 1, 0, 0, 0, 0, port / 256, port % 256]
  }

  /** What holds of a decoder whose client has said a beginning of `whole`. */
  predicate Follows(r: Run, m: Message)
    requires WellFormed(m)
  {
    var g := Greeting(m.methods);
    var q := g + Request(m.address, m.port);
    match r.v
    case Wait(_) =>
      |r.arrived| < |q|
      && r.s.host == None
      && (if r.s.authDone
          then |g| <= |r.arrived| && r.s.input == r.arrived[|g|..] && Replies(r) == [5, 0]
          else |r.arrived| < |g| && r.s.input == r.arrived && Replies(r) == [])
    case Connect =>
      |q| <= |r.arrived| && r.s.input == r.arrived[|q|..]
      && r.s.host.Some? && Names(r.s.host.value, m.address) && r.s.port == m.port
      && AllReplied(Replies(r), m.port)
    case _ => false
  }

  function Said(m: Message): seq<byte>
    requires WellFormed(m)
  {
    Greeting(m.methods) + Request(m.address, m.port)
  }

  lemma RepliedAll(gone: seq<byte>, out: seq<byte>, port: nat)
    requires port < U16 && gone + out == AUTH_REPLY
    ensures AllReplied(gone + (out + ConnectReply(port)), port)
  {
    assert gone + (out + ConnectReply(port)) == AUTH_REPLY + ConnectReply(port);
  }

  /** The conversation byte by byte (sections 3 to 5 of RFC 1928). */
  lemma SaidBytes(m: Message)
    requires WellFormed(m)
    ensures Said(m) ==
      [5, |m.methods|] + m.methods + [5, 1, 0]
      + (match m.address
         case IPv4(b) => [1] + b
         case Domain(n) => [3, |n|] + n
         case IPv6(b) => [4] + b)
      + [m.port / 256, m.port % 256]
  {
  }

  predicate Prefix(p: seq<byte>, s: seq<byte>) { |p| <= |s| && p == s[..|p|] }

  lemma GreetingShort(m: Message, p: seq<byte>, s: seq<byte>)
    requires WellFormed(m) && Prefix(p, Said(m) + s)
    ensures ParseGreeting(p) == if |p| < |Greeting(m.methods)| then More
                                else Done(m.methods, p[|Greeting(m.methods)|..])
  {
    hide Request;
    var g := Greeting(m.methods);
    if |p| >= |g| {
      assert p == g + p[|g|..];
      GreetingExactly(p, m.methods, p[|g|..]);
    } else {
      var whole := Said(m) + s;
      assert whole[..|g|] == g;
      assert forall i | 0 <= i < |p| :: p[i] == whole[i];
      if |p| >= 1 {
        assert p[0] == g[0];
      }
      if |p| >= 2 {
        assert p[1] == g[1];
      }
    }
  }

  lemma RequestShort(t: Target, p: seq<byte>, s: seq<byte>)
    requires GoodTarget(t) && Prefix(p, Request(t.address, t.port) + s)
    ensures ParseRequest(p) == if |p| < |Request(t.address, t.port)| then More
                               else Done(t, p[|Request(t.address, t.port)|..])
  {
    hide Request;
    var q := Request(t.address, t.port);
    if |p| >= |q| {
      assert p == q + p[|q|..];
      RequestExactly(p, t, p[|q|..]);
    } else {
      var tail := q[|p|..];
      assert p + tail == q;
      RequestExactly(q, t, []);
      assert q + [] == q;
      RequestExtends(p, tail);
      RequestSameVersion(p, tail);
    }
  }

  lemma RequestSameVersion(p: seq<byte>, s: seq<byte>)
    ensures ParseRequest(p) == OtherVersion ==> ParseRequest(p + s) == OtherVersion
  {
  }

  /** All bytes that arrive over a series of events. */
  function Arrivals(events: seq<Event>): seq<byte> {
    if events == [] then []
    else Arrivals(events[..|events| - 1]) + if events[|events| - 1].Arrive? then events[|events| - 1].chunk else []
  }

  lemma PrefixLess(p: seq<byte>, d: seq<byte>, s: seq<byte>)
    requires Prefix(p + d, s)
    ensures Prefix(p, s)
  {
    assert (p + d)[..|p|] == p;
    assert s[..|p + d|][..|p|] == s[..|p|];
  }

  lemma PrefixRest(p: seq<byte>, g: seq<byte>, s: seq<byte>)
    requires Prefix(p, g + s) && |g| <= |p|
    ensures Prefix(p[|g|..], s)
  {
    var q := p[|g|..];
    assert (g + s)[..|p|] == p;
    assert (g + s)[..|p|][|g|..] == s[..|q|];
  }

  /** The effect of one event before the decoder is called. */
  lemma HappenKeeps(r: Run, e: Event)
    ensures var s := Happen(r.s, e);
      r.gone + Gone(r.s, e) + s.output == r.gone + r.s.output
      && s.input == r.s.input + (if e.Arrive? then e.chunk else [])
      && s.authDone == r.s.authDone && s.host == r.s.host
  {
    if e.Flush? {
      var n := Min(e.n, |r.s.output|);
      assert r.s.output[..n] + r.s.output[n..] == r.s.output;
    }
  }

  /** The call after an event, for a decoder past the greeting. */
  lemma AuthedStep(r: Run, s: Socks, gone: seq<byte>, arrived: seq<byte>, m: Message, trail: seq<byte>)
    requires WellFormed(m) && Prefix(arrived, Said(m) + trail)
    requires |Greeting(m.methods)| <= |arrived| && s.input == arrived[|Greeting(m.methods)|..]
    requires s.authDone && s.host == None && gone + s.output == AUTH_REPLY
    ensures var (t, v) := AfterAuth(s);
      Follows(Run(t, v, arrived, gone), m)
      && (v == Connect <==> |arrived| >= |Said(m)|)
  {
    hide Greeting, Request, Follows, ParseRequest, HostOf, ConnectReply;
    var g, q := Greeting(m.methods), Request(m.address, m.port);
    assert Said(m) + trail == g + (q + trail);
    PrefixRest(arrived, g, q + trail);
    RequestShort(Target(m.address, m.port), s.input, trail);
    if |s.input| >= |q| {
      assert s.input[|q|..] == arrived[|g + q|..];
      ConnectFollows(s, s.input[|q|..], gone, arrived, m);
    } else {
      WaitFollows(s, gone, arrived, m);
    }
  }

  lemma ConnectFollows(s: Socks, rest: seq<byte>, gone: seq<byte>, arrived: seq<byte>, m: Message)
    requires WellFormed(m) && |Said(m)| <= |arrived| && rest == arrived[|Said(m)|..]
    requires gone + s.output == AUTH_REPLY
    ensures var t := s.(input := rest, output := s.output + ConnectReply(m.port % 0x1_0000),
                        host := Some(HostOf(m.address)), port := m.port);
      Follows(Run(t, Connect, arrived, gone), m)
  {
    hide Greeting, Request, HostOf, ConnectReply, Names, AllReplied;
    HostIsNamed(m.address);
    RepliedAll(gone, s.output, m.port);
  }

  lemma WaitFollows(s: Socks, gone: seq<byte>, arrived: seq<byte>, m: Message)
    requires WellFormed(m) && |Greeting(m.methods)| <= |arrived| < |Said(m)|
    requires s.input == arrived[|Greeting(m.methods)|..]
    requires s.authDone && s.host == None && gone + s.output == AUTH_REPLY
    ensures forall w :: Follows(Run(s, Wait(w), arrived, gone), m)
  {
    hide Greeting, Request;
  }

  lemma AuthedPre(s: Socks, m: Message, arrived: seq<byte>, trail: seq<byte>)
    requires WellFormed(m) && Prefix(arrived, Said(m) + trail)
    requires |Greeting(m.methods)| <= |arrived| && s.input == arrived[|Greeting(m.methods)|..] && s.authDone
    ensures Pre(s) == AfterAuth(s) || (|s.input| < 3 && Pre(s) == (s, Wait(false)))
    ensures |s.input| < 3 ==> |arrived| < |Said(m)|
  {
    var g, q := Greeting(m.methods), Request(m.address, m.port);
    assert Said(m) + trail == g + (q + trail);
    PrefixRest(arrived, g, q + trail);
    if |s.input| >= 3 {
      assert s.input[0] == (q + trail)[0] == 5;
    }
  }

  lemma StepFollows(r: Run, e: Event, m: Message, trail: seq<byte>)
    requires WellFormed(m) && Follows(r, m) && r.v.Wait?
    requires Prefix(Step(r, e).arrived, Said(m) + trail)
    ensures Follows(Step(r, e), m)
    ensures Step(r, e).v == Connect <==> |Step(r, e).arrived| >= |Said(m)|
  {
    hide Greeting, Request, HostOf, ConnectReply, Names, AllReplied, Happen, Gone, AfterAuth;
    var s := Happen(r.s, e);
    var chunk := if e.Arrive? then e.chunk else [];
    var arrived, gone := r.arrived + chunk, r.gone + Gone(r.s, e);
    HappenKeeps(r, e);
    var g := Greeting(m.methods);
    if s.authDone {
      assert s.input == arrived[|g|..];
      AuthedPre(s, m, arrived, trail);
      AuthedStep(r, s, gone, arrived, m, trail);
    } else {
      assert Said(m) + trail == g + (Request(m.address, m.port) + trail);
      GreetingStarts(m, arrived, trail);
      GreetingShort(m, arrived, trail);
      if |arrived| >= |g| {
        var t := s.(input := arrived[|g|..], output := s.output + AUTH_REPLY, authDone := true);
        assert gone + s.output == [];
        assert gone + t.output == AUTH_REPLY;
        AuthedStep(r, t, gone, arrived, m, trail);
      }
    }
  }

  lemma GreetingStarts(m: Message, p: seq<byte>, s: seq<byte>)
    requires WellFormed(m) && Prefix(p, Said(m) + s)
    ensures |p| > 0 ==> p[0] == 5
    ensures |Greeting(m.methods)| >= 3 && |Said(m)| >= |Greeting(m.methods)| + 3
  {
    assert |p| > 0 ==> p[0] == (Said(m) + s)[0];
  }

  /** Whatever pieces a well-formed conversation arrives in, and whenever replies are sent: the decoder waits on every
      proper beginning of it, connects as soon as it is complete to the host and port it names, has then consumed just
      the conversation, and has made the same replies. */
  lemma {:induction false} AnyCutting(events: seq<Event>, m: Message, trail: seq<byte>)
    requires WellFormed(m) && Prefix(Arrivals(events), Said(m) + trail)
    ensures Follows(RunOf(events), m)
    ensures RunOf(events).v == Connect <==> |Arrivals(events)| >= |Said(m)|
    ensures RunOf(events).v != Connect ==> RunOf(events).arrived == Arrivals(events)
  {
    hide Greeting, Request, HostOf, ConnectReply, Step, Follows;
    if events == [] {
      StartFollows(m);
    } else {
      var front, e := events[..|events| - 1], events[|events| - 1];
      PrefixLess(Arrivals(front), if e.Arrive? then e.chunk else [], Said(m) + trail);
      AnyCutting(front, m, trail);
      var r := RunOf(front);
      FollowsVerdict(r, m);
      StepVerdict(r, e);
      if r.v.Wait? {
        StepFollows(r, e, m, trail);
      }
    }
  }

  lemma StartFollows(m: Message)
    requires WellFormed(m)
    ensures Follows(Start(), m) && |Said(m)| > 0
  {
  }

  lemma FollowsVerdict(r: Run, m: Message)
    requires WellFormed(m) && Follows(r, m)
    ensures r.v.Wait? || r.v == Connect
  {
  }

  lemma StepVerdict(r: Run, e: Event)
    ensures if r.v.Wait? then Step(r, e).arrived == r.arrived + (if e.Arrive? then e.chunk else [])
            else Step(r, e) == r
  {
  }

  // ---------------------------------------------------------------- only such conversations connect

  /** The input is what follows an acceptable greeting. */
  ghost predicate Greeted(arrived: seq<byte>, input: seq<byte>) {
    exists methods :: |methods| < 256 && 0 in methods && arrived == Greeting(methods) + input
  }

  lemma GreetedMore(arrived: seq<byte>, input: seq<byte>, chunk: seq<byte>)
    requires Greeted(arrived, input)
    ensures Greeted(arrived + chunk, input + chunk)
  {
    hide Greeting;
    var methods :| |methods| < 256 && 0 in methods && arrived == Greeting(methods) + input;
    assert arrived + chunk == Greeting(methods) + (input + chunk);
  }

  ghost predicate Sound(r: Run) {
    r.v.Wait? ==>
      r.s.host == None
      && (if r.s.authDone
          then Replies(r) == AUTH_REPLY
            && Greeted(r.arrived, r.s.input)
          else r.s.input == r.arrived && Replies(r) == [])
  }

  /** A well-formed conversation the decoder has connected for. */
  ghost predicate Answered(r: Run) {
    exists m :: WellFormed(m) && Prefix(Said(m), r.arrived) && Follows(r, m)
  }

  lemma SoundRequest(s: Socks, gone: seq<byte>, arrived: seq<byte>)
    requires Greeted(arrived, s.input)
    requires s.authDone && s.host == None && gone + s.output == AUTH_REPLY
    ensures var r := Run(AfterAuth(s).0, AfterAuth(s).1, arrived, gone);
      Sound(r) && (r.v == Connect ==> Answered(r))
  {
    hide Greeting, Request, ParseRequest, HostOf, ConnectReply, Names, AllReplied;
    match ParseRequest(s.input)
    case More =>
    case Bad =>
    case OtherVersion =>
    case Done(t, rest) =>
      var methods :| |methods| < 256 && 0 in methods && arrived == Greeting(methods) + s.input;
      RequestExactly(s.input, t, rest);
      var m := Message(methods, t.address, t.port);
      assert arrived == Said(m) + rest;
      assert arrived[|Said(m)|..] == rest;
      HostIsNamed(t.address);
      RepliedAll(gone, s.output, t.port);
  }

  lemma GreetingIsGreeted(m: seq<byte>, methods: seq<byte>, rest: seq<byte>)
    requires ParseGreeting(m) == Done(methods, rest)
    ensures Greeted(m, rest)
  {
    GreetingExactly(m, methods, rest);
  }

  lemma StepSound(r: Run, e: Event)
    requires Sound(r) && r.v.Wait?
    ensures Sound(Step(r, e)) && (Step(r, e).v == Connect ==> Answered(Step(r, e)))
  {
    hide Greeting, ParseGreeting, Happen, Gone, AfterAuth, Answered, Greeted;
    var s := Happen(r.s, e);
    var chunk := if e.Arrive? then e.chunk else [];
    var arrived, gone := r.arrived + chunk, r.gone + Gone(r.s, e);
    HappenKeeps(r, e);
    if s.authDone {
      GreetedMore(r.arrived, r.s.input, chunk);
      SoundRequest(s, gone, arrived);
    } else if ParseGreeting(s.input).Done? {
      var methods, rest := ParseGreeting(s.input).value, ParseGreeting(s.input).rest;
      GreetingIsGreeted(s.input, methods, rest);
      var t := s.(input := rest, output := s.output + AUTH_REPLY, authDone := true);
      assert gone + t.output == AUTH_REPLY;
      SoundRequest(t, gone, arrived);
    }
  }

  /** The decoder connects only for a complete well-formed conversation, and then as `AnyCutting` says. */
  lemma {:induction false} ConnectsOnlyFor(events: seq<Event>)
    ensures Sound(RunOf(events)) && (RunOf(events).v == Connect ==> Answered(RunOf(events)))
  {
    hide Step, Sound, Answered;
    if events == [] {
      StartSound();
    } else {
      var front, e := events[..|events| - 1], events[|events| - 1];
      ConnectsOnlyFor(front);
      StepVerdict(RunOf(front), e);
      if RunOf(front).v.Wait? {
        StepSound(RunOf(front), e);
      }
    }
  }

  lemma StartSound()
    ensures Sound(Start())
  {
  }

  /** The branch marked as impossible is taken exactly when a greeting and a different version arrive together. */
  lemma FatalExactly(s: Socks)
    ensures Pre(s).1 == FatalError <==>
      !s.authDone && ParseGreeting(s.input).Done?
      && ParseGreeting(s.input).rest != [] && ParseGreeting(s.input).rest[0] != 5
  {
  }

  /** While the decoder waits, a pending reply is offered for writing exactly when three bytes of input are there. */
  lemma ReplyOffered(s: Socks)
    ensures Pre(s).1.Wait? ==> (Pre(s).1.wantWrite <==> |s.input| >= 3 && Pre(s).0.output != [])
  {
  }

  // ---------------------------------------------------------------- in place

  datatype Answer = NeedMore | Refused | Accepted | Impossible

  /** The fields of a dynamic-forwarding Channel. */
  class SocksChannel {
    var input: seq<byte>
    var output: seq<byte>
    var authDone: bool
    var path: Option<Host>
    var hostPort: nat

    function State(): Socks
      reads this
    {
      Socks(input, output, authDone, path, hostPort)
    }

    constructor ()
      ensures State() == Socks([], [], false, None, 0)
    {
      input, output, authDone, path, hostPort := [], [], false, None, 0;
    }

    /** channel_socks5_check_auth; `b` is a copy of the input. */
    method CheckAuth(b: Sshbuf) returns (a: Answer)
      requires b.data == input
      modifies this, b
      ensures match ParseGreeting(old(input))
        case More => a == NeedMore && State() == old(State())
        case Bad => a == Refused && State() == old(State())
        case OtherVersion => a == Impossible && State() == old(State())
        case Done(_, rest) =>
          a == Accepted && b.data == rest
          && State() == old(State()).(input := rest, output := old(output) + AUTH_REPLY)
    {
      ghost var m := input;
      var ver := b.GetU8();
      if ver.Err? {
        return NeedMore;
      }
      if ver.value != 5 {
        return Impossible;
      }
      var n := b.GetU8();
      if n.Err? {
        return NeedMore;
      }
      var found := false;
      for i := 0 to n.value
        invariant State() == old(State()) && 2 + i <= |m| && b.data == m[2 + i..]
        invariant found <==> 0 in m[2..2 + i]
      {
        var k := b.GetU8();
        if k.Err? {
          return NeedMore;
        }
        assert m[2..2 + i + 1] == m[2..2 + i] + [k.value];
        if k.value == 0 {
          found := true;
        }
      }
      if !found {
        return Refused;
      }
      input := b.data;
      output := output + [5];
      output := output + [0];
      return Accepted;
    }

    /** The request stage of channel_decode_socks5. */
    method DecodeRequest(b: Sshbuf) returns (a: Answer)
      requires b.data == input
      modifies this, b
      ensures var (s, v) := AfterAuth(old(State()));
        State() == s
        && a == match v
                case Wait(_) => NeedMore
                case Dead => Refused
                case Connect => Accepted
                case FatalError => Impossible
                case Version4 => Impossible
    {
      hide ParseTail;
      var ver := b.GetU8();
      if ver.Err? {
        return NeedMore;
      }
      if ver.value != 5 {
        return Impossible;
      }
      var cmd := b.GetU8();
      if cmd.Err? {
        return NeedMore;
      }
      var reserved := b.GetU8();
      if reserved.Err? {
        return NeedMore;
      }
      var atyp := b.GetU8();
      if atyp.Err? {
        return NeedMore;
      }
      if cmd.value != 1 || reserved.value != 0 {
        return Refused;
      }
      var len: byte := 0;
      if atyp.value == 1 {
        len := 4;
      } else if atyp.value == 3 {
        var l := b.GetU8();
        if l.Err? {
          return NeedMore;
        }
        len := l.value;
      } else if atyp.value == 4 {
        len := 16;
      } else {
        return Refused;
      }
      a := DecodeTail(b, atyp.value, len);
    }

    /** Address and port, and the request consumed once they are there. */
    method DecodeTail(b: Sshbuf, atyp: byte, len: byte) returns (a: Answer)
      requires atyp == 1 || atyp == 3 || atyp == 4
      modifies this, b
      ensures match ParseTail(old(b.data), atyp, len)
        case More => a == NeedMore && State() == old(State())
        case Done(t, rest) =>
          a == Accepted
          && State() == old(State()).(input := rest, output := old(output) + ConnectReply(t.port % 0x1_0000),
                                      host := Some(HostOf(t.address)), port := t.port)
        case _ => false
    {
      hide CText;
      ghost var m := b.data;
      var addr := b.GetBytes(len);
      if addr.Err? {
        return NeedMore;
      }
      var port := b.GetU16();
      if port.Err? {
        return NeedMore;
      }
      PortValue(m[len], m[len + 1]);
      input := b.data;
      path := None;
      path := Some(if atyp == 3 then Named(CText(addr.value))
                   else if atyp == 1 then Numeric4(addr.value) else Numeric6(addr.value));
      hostPort := port.value;
      output := output + [5, 0, 0, 1];
      output := output + [0, 0, 0, 0];
      output := output + PortBytes(port.value % 0x1_0000);
      return Accepted;
    }

    /** channel_decode_socks5. */
    method DecodeSocks5() returns (a: Answer)
      modifies this
      ensures var (s, v) := Decode(old(State()));
        State() == s
        && a == match v
                case Wait(_) => NeedMore
                case Dead => Refused
                case Connect => Accepted
                case FatalError => Impossible
                case Version4 => Impossible
    {
      hide ParseGreeting, ParseRequest;
      var b := new Sshbuf(input);
      if !authDone {
        a := CheckAuth(b);
        if a != Accepted {
          return;
        }
        authDone := true;
      }
      a := DecodeRequest(b);
    }

    /** channel_pre_dynamic. */
    method PreDynamic() returns (v: Verdict)
      modifies this
      ensures (State(), v) == Pre(old(State()))
    {
      hide ParseGreeting, ParseRequest;
      if |input| < 3 {
        return Wait(false);
      }
      match input[0] {
        case 4 =>
          return Version4;
        case 5 =>
          var a := DecodeSocks5();
          match a {
            case Refused => return Dead;
            case NeedMore => return Wait(output != []);
            case Accepted => return Connect;
            case Impossible => return FatalError;
          }
        case _ =>
          return Dead;
      }
    }
  }
}
