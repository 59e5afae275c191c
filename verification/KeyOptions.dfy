/** Options attached to keys and certificates: their encoding, and how sets of options merge over a session. */
module KeyOptions {
  import opened Bytes
  import opened Sshbufs

  type Text = Option<seq<byte>>

  /** struct sshauthopt. */
  datatype Opts = Opts(
    permitPortForwarding: int,
    permitAgentForwarding: int,
    permitX11Forwarding: int,
    permitPty: int,
    permitUserRc: int,
    restricted: int,
    validBefore: nat,
    certAuthority: int,
    certPrincipals: Text,
    forceTunDevice: int,
    forceCommand: Text,
    env: seq<seq<byte>>,
    permitOpen: seq<seq<byte>>,
    permitListen: seq<seq<byte>>,
    requiredFromHostCert: Text,
    requiredFromHostKeys: Text,
    noRequireUserPresence: int,
    requireVerify: int)

  const INT_MAX := 0x7fff_ffff

  predicate IsText(t: Text) { t.Some? ==> IsCString(t.value) && |t.value| < U32 }

  predicate IsTexts(a: seq<seq<byte>>) { forall i | 0 <= i < |a| :: IsCString(a[i]) && |a[i]| < U32 }

  /** What the C types of the fields hold: ints, a uint64_t, NUL-terminated strings. */
  predicate Representable(o: Opts) {
    o.validBefore < U64 && -INT_MAX - 1 <= o.forceTunDevice <= INT_MAX
    && IsText(o.certPrincipals) && IsText(o.forceCommand)
    && IsText(o.requiredFromHostCert) && IsText(o.requiredFromHostKeys)
    && IsTexts(o.env) && IsTexts(o.permitOpen) && IsTexts(o.permitListen)
  }

  // ---------------------------------------------------------------- encoding

  function Flags(o: Opts): seq<byte> {
    [o.permitPortForwarding % 256, o.permitAgentForwarding % 256, o.permitX11Forwarding % 256,
     o.permitPty % 256, o.permitUserRc % 256, o.restricted % 256, o.certAuthority % 256,
     o.noRequireUserPresence % 256, o.requireVerify % 256]
  }

  function PutFlags(w: Wrote, f: seq<byte>): Wrote {
    if f == [] then w else Put(PutFlags(w, f[..|f| - 1]), [f[|f| - 1]])
  }

  function TunUnset(tun: int): byte { if tun == -1 then 1 else 0 }

  function TunNumber(tun: int): nat { if tun < 0 then 0 else tun }

  function PutNumbers(w: Wrote, validBefore: nat, tun: int): Wrote
    requires validBefore < U64 && tun <= INT_MAX
  {
    Put(Put(Put(w, U64Bytes(validBefore)), [TunUnset(tun)]), Be32(TunNumber(tun)))
  }

  function Body(t: Text): seq<byte> { if t.Some? then t.value else [] }

  function PutText(w: Wrote, t: Text): Wrote
    requires IsText(t)
  {
    Put(Put(w, [if t.None? then 1 else 0]), StringBytes(Body(t)))
  }

  function Concat(a: seq<seq<byte>>): seq<byte>
    requires IsTexts(a)
  {
    if a == [] then [] else StringBytes(a[0]) + Concat(a[1..])
  }

  /** The entries go to a buffer of their own, which has the same size limit; then their number and that buffer. */
  function PutTexts(w: Wrote, a: seq<seq<byte>>): Wrote
    requires IsTexts(a)
  {
    if w.error.Some? then w
    else if |a| > INT_MAX then Wrote(Some(InternalError), w.data)
    else if |Concat(a)| > SIZE_MAX then Wrote(Some(NoBufferSpace), w.data)
    else Put(Put(w, Be32(|a|)), StringBytes(Concat(a)))
  }

  function Ascii(s: string): (r: seq<byte>)
    requires forall i | 0 <= i < |s| :: 0 < s[i] as int < 256
    ensures |r| == |s| && IsCString(r)
  {
    seq(|s|, i requires 0 <= i < |s| => s[i] as int)
  }

  /** What is sent to an untrusted process in place of the options: only that strings exist, not what they are. */
  function View(o: Opts, untrusted: bool): (v: Opts)
    ensures Representable(o) ==> Representable(v)
  {
    if !untrusted then o
    else o.(certPrincipals := Some(Ascii("yes")), forceCommand := Some(Ascii("true")),
            requiredFromHostCert := None, requiredFromHostKeys := None,
            env := [], permitOpen := [], permitListen := [])
  }

  function PutScalars(w: Wrote, v: Opts): Wrote
    requires Representable(v)
  {
    PutNumbers(PutFlags(w, Flags(v)), v.validBefore, v.forceTunDevice)
  }

  function PutAllTexts(w: Wrote, v: Opts): Wrote
    requires Representable(v)
  {
    PutText(PutText(PutText(PutText(w, v.certPrincipals), v.forceCommand), v.requiredFromHostCert),
            v.requiredFromHostKeys)
  }

  function PutAllLists(w: Wrote, v: Opts): Wrote
    requires Representable(v)
  {
    PutTexts(PutTexts(PutTexts(w, v.env), v.permitOpen), v.permitListen)
  }

  /** A buffer after sshauthopt_serialise. */
  function Serialised(data: seq<byte>, v: Opts): Wrote
    requires Representable(v)
  {
    PutAllLists(PutAllTexts(PutScalars(Wrote(None, data), v), v), v)
  }

  // ---------------------------------------------------------------- decoding

  function TakeFlags(m: seq<byte>, n: nat): Read<seq<byte>> {
    if |m| < n then Failed(MessageIncomplete, []) else Got(m[..n], m[n..])
  }

  datatype Numbers = Numbers(validBefore: nat, tun: int)

  /** The cast from u_int to int. */
  function Signed(v: u32): int { if v <= INT_MAX then v else v as int - 0x1_0000_0000 }

  function TakeNumbers(m: seq<byte>): Read<Numbers> {
    match TakeU64(m)
    case Failed(e, r) => Failed(e, r)
    case Got(v, m1) =>
      match TakeU8(m1)
      case Failed(e, r) => Failed(e, r)
      case Got(f, m2) =>
        match TakeU32(m2)
        case Failed(e, r) => Failed(e, r)
        case Got(t, m3) => Got(Numbers(v, if f != 0 then -1 else Signed(t)), m3)
  }

  function TakeText(m: seq<byte>): Read<Text> {
    match TakeU8(m)
    case Failed(e, r) => Failed(e, r)
    case Got(f, m1) =>
      match TakeCString(m1)
      case Failed(e, r) => Failed(e, r)
      case Got(s, m2) => Got(if f != 0 then None else Some(s), m2)
  }

  datatype Texts = Texts(certPrincipals: Text, forceCommand: Text, fromCert: Text, fromKeys: Text)

  function TakeAllTexts(m: seq<byte>): Read<Texts> {
    match TakeText(m)
    case Failed(e, r) => Failed(e, r)
    case Got(a, m1) =>
      match TakeText(m1)
      case Failed(e, r) => Failed(e, r)
      case Got(b, m2) =>
        match TakeText(m2)
        case Failed(e, r) => Failed(e, r)
        case Got(c, m3) =>
          match TakeText(m3)
          case Failed(e, r) => Failed(e, r)
          case Got(d, m4) => Got(Texts(a, b, c, d), m4)
  }

  function TakeEntries(b: seq<byte>, n: nat): Read<seq<seq<byte>>>
    decreases n
  {
    if n == 0 then Got([], b)
    else
      match TakeCString(b)
      case Failed(e, r) => Failed(e, r)
      case Got(s, rest) =>
        match TakeEntries(rest, n - 1)
        case Failed(e, r) => Failed(e, r)
        case Got(a, r) => Got([s] + a, r)
  }

  /** The entries are taken from the inner string; what is left of that is dropped. */
  function TakeTexts(m: seq<byte>): Read<seq<seq<byte>>> {
    match TakeU32(m)
    case Failed(e, r) => Failed(e, r)
    case Got(n, m1) =>
      match TakeString(m1)
      case Failed(e, r) => Failed(e, r)
      case Got(b, m2) =>
        if n > INT_MAX then Failed(InvalidFormat, m2)
        else
          match TakeEntries(b, n)
          case Failed(e, _) => Failed(e, m2)
          case Got(a, _) => Got(a, m2)
  }

  datatype Lists = Lists(env: seq<seq<byte>>, permitOpen: seq<seq<byte>>, permitListen: seq<seq<byte>>)

  function TakeAllLists(m: seq<byte>): Read<Lists> {
    match TakeTexts(m)
    case Failed(e, r) => Failed(e, r)
    case Got(a, m1) =>
      match TakeTexts(m1)
      case Failed(e, r) => Failed(e, r)
      case Got(b, m2) =>
        match TakeTexts(m2)
        case Failed(e, r) => Failed(e, r)
        case Got(c, m3) => Got(Lists(a, b, c), m3)
  }

  function Assembled(f: seq<byte>, n: Numbers, t: Texts, l: Lists): Opts
    requires |f| == 9
  {
    Opts(f[0], f[1], f[2], f[3], f[4], f[5], n.validBefore, f[6], t.certPrincipals, n.tun, t.forceCommand,
         l.env, l.permitOpen, l.permitListen, t.fromCert, t.fromKeys, f[7], f[8])
  }

  /** sshauthopt_deserialise on a buffer. */
  function Deserialised(m: seq<byte>): Read<Opts> {
    match TakeFlags(m, 9)
    case Failed(e, r) => Failed(e, r)
    case Got(f, m1) =>
      match TakeNumbers(m1)
      case Failed(e, r) => Failed(e, r)
      case Got(n, m2) =>
        match TakeAllTexts(m2)
        case Failed(e, r) => Failed(e, r)
        case Got(t, m3) =>
          match TakeAllLists(m3)
          case Failed(e, r) => Failed(e, r)
          case Got(l, m4) => Got(Assembled(f, n, t, l), m4)
  }

  // ---------------------------------------------------------------- round trip

  /** A series of appends adds these bytes, and succeeds exactly when all of them fit. */
  predicate Added(w: Wrote, v: Wrote, piece: seq<byte>) {
    (v.error.None? <==> w.error.None? && |w.data| + |piece| <= SIZE_MAX)
    && (v.error.None? ==> v.data == w.data + piece)
  }

  lemma AddedThen(w: Wrote, v: Wrote, x: Wrote, p: seq<byte>, q: seq<byte>)
    requires Added(w, v, p) && Added(v, x, q)
    ensures Added(w, x, p + q)
  {
    if x.error.None? {
      assert w.data + p + q == w.data + (p + q);
    }
  }

  function NumberBytes(v: nat, tun: int): seq<byte>
    requires v < U64 && tun <= INT_MAX
  {
    U64Bytes(v) + [TunUnset(tun)] + Be32(TunNumber(tun))
  }

  function TextBytes(t: Text): seq<byte>
    requires IsText(t)
  {
    [if t.None? then 1 else 0] + StringBytes(Body(t))
  }

  lemma {:induction false} FlagsAdded(w: Wrote, f: seq<byte>)
    requires |w.data| <= SIZE_MAX
    ensures Added(w, PutFlags(w, f), f)
  {
    if f != [] {
      var k := |f| - 1;
      FlagsAdded(w, f[..k]);
      assert f == f[..k] + [f[k]];
    }
  }

  lemma NumbersAdded(w: Wrote, v: nat, tun: int)
    requires v < U64 && tun <= INT_MAX && |w.data| <= SIZE_MAX
    ensures Added(w, PutNumbers(w, v, tun), NumberBytes(v, tun)) && |PutNumbers(w, v, tun).data| <= SIZE_MAX
  {
    hide Be32, U64Bytes;
  }

  lemma TextAdded(w: Wrote, t: Text)
    requires IsText(t) && |w.data| <= SIZE_MAX
    ensures Added(w, PutText(w, t), TextBytes(t)) && |PutText(w, t).data| <= SIZE_MAX
    ensures PutText(w, t).error.None? ==> |Body(t)| <= SIZE_MAX - 4
  {
    hide Be32;
  }

  lemma NumbersTaken(v: nat, tun: int, s: seq<byte>)
    requires v < U64 && -INT_MAX - 1 <= tun <= INT_MAX
    ensures TakeNumbers(NumberBytes(v, tun) + s)
         == Got(Numbers(v, if tun < -1 then 0 else tun), s)
  {
    hide TakeU64, TakeU32, TakeU8, U64Bytes, Be32;
    var t := Be32(TunNumber(tun)) + s;
    assert NumberBytes(v, tun) + s == U64Bytes(v) + ([TunUnset(tun)] + t);
    U64RoundTrip(v, [TunUnset(tun)] + t);
    U8RoundTrip(TunUnset(tun), t);
    U32RoundTrip(TunNumber(tun), s);
  }

  lemma TextTaken(t: Text, s: seq<byte>)
    requires IsText(t) && |Body(t)| <= SIZE_MAX - 4
    ensures TakeText(TextBytes(t) + s) == Got(t, s)
  {
    hide TakeU8, TakeCString, StringBytes;
    var f: byte := if t.None? then 1 else 0;
    assert TextBytes(t) + s == [f] + (StringBytes(Body(t)) + s);
    U8RoundTrip(f, StringBytes(Body(t)) + s);
    CStringRoundTrip(Body(t), s);
  }

  lemma {:induction false} EntriesTaken(a: seq<seq<byte>>, s: seq<byte>)
    requires IsTexts(a) && |Concat(a)| <= SIZE_MAX
    ensures TakeEntries(Concat(a) + s, |a|) == Got(a, s)
  {
    hide TakeCString, Be32;
    if a == [] {
      assert [] + s == s;
    } else {
      var rest := Concat(a[1..]) + s;
      assert Concat(a) + s == StringBytes(a[0]) + rest;
      CStringRoundTrip(a[0], rest);
      EntriesTaken(a[1..], s);
      assert a == [a[0]] + a[1..];
    }
  }

  lemma TextsTaken(a: seq<seq<byte>>, s: seq<byte>)
    requires IsTexts(a) && |Concat(a)| <= SIZE_MAX - 4 && |a| <= INT_MAX
    ensures TakeTexts(Be32(|a|) + StringBytes(Concat(a)) + s) == Got(a, s)
  {
    hide TakeU32, TakeString, TakeEntries, StringBytes, Concat, Be32;
    var b := Concat(a);
    assert Be32(|a|) + StringBytes(b) + s == Be32(|a|) + (StringBytes(b) + s);
    U32RoundTrip(|a|, StringBytes(b) + s);
    StringRoundTrip(b, s);
    EntriesTaken(a, []);
    assert b + [] == b;
  }

  function Scalars(v: Opts): seq<byte>
    requires Representable(v)
  {
    Flags(v) + NumberBytes(v.validBefore, v.forceTunDevice)
  }

  function AllTexts(v: Opts): seq<byte>
    requires Representable(v)
  {
    TextBytes(v.certPrincipals) + TextBytes(v.forceCommand)
    + TextBytes(v.requiredFromHostCert) + TextBytes(v.requiredFromHostKeys)
  }

  predicate TextsFit(v: Opts) {
    |Body(v.certPrincipals)| <= SIZE_MAX - 4 && |Body(v.forceCommand)| <= SIZE_MAX - 4
    && |Body(v.requiredFromHostCert)| <= SIZE_MAX - 4 && |Body(v.requiredFromHostKeys)| <= SIZE_MAX - 4
  }

  predicate ListFits(a: seq<seq<byte>>) { IsTexts(a) && |Concat(a)| <= SIZE_MAX - 4 && |a| <= INT_MAX }

  function ListBytes(a: seq<seq<byte>>): seq<byte>
    requires ListFits(a)
  {
    Be32(|a|) + StringBytes(Concat(a))
  }

  predicate ListsFit(v: Opts) { ListFits(v.env) && ListFits(v.permitOpen) && ListFits(v.permitListen) }

  function AllLists(v: Opts): seq<byte>
    requires ListsFit(v)
  {
    ListBytes(v.env) + ListBytes(v.permitOpen) + ListBytes(v.permitListen)
  }

  lemma ScalarsAdded(w: Wrote, v: Opts)
    requires Representable(v) && |w.data| <= SIZE_MAX
    ensures Added(w, PutScalars(w, v), Scalars(v)) && |PutScalars(w, v).data| <= SIZE_MAX
  {
    hide PutFlags, PutNumbers, Flags, NumberBytes, Added;
    FlagsAdded(w, Flags(v));
    FlagsBounded(w, Flags(v));
    NumbersAdded(PutFlags(w, Flags(v)), v.validBefore, v.forceTunDevice);
    AddedThen(w, PutFlags(w, Flags(v)), PutScalars(w, v), Flags(v), NumberBytes(v.validBefore, v.forceTunDevice));
  }

  lemma {:induction false} FlagsBounded(w: Wrote, f: seq<byte>)
    requires |w.data| <= SIZE_MAX
    ensures |PutFlags(w, f).data| <= SIZE_MAX
  {
    if f != [] {
      FlagsBounded(w, f[..|f| - 1]);
    }
  }

  lemma AllTextsAdded(w: Wrote, v: Opts)
    requires Representable(v) && |w.data| <= SIZE_MAX
    ensures Added(w, PutAllTexts(w, v), AllTexts(v)) && |PutAllTexts(w, v).data| <= SIZE_MAX
    ensures PutAllTexts(w, v).error.None? ==> TextsFit(v)
  {
    hide PutText, TextBytes, Body;
    var w1 := PutText(w, v.certPrincipals);
    var w2 := PutText(w1, v.forceCommand);
    var w3 := PutText(w2, v.requiredFromHostCert);
    TextAdded(w, v.certPrincipals);
    TextAdded(w1, v.forceCommand);
    TextAdded(w2, v.requiredFromHostCert);
    TextAdded(w3, v.requiredFromHostKeys);
    var p1, p2 := TextBytes(v.certPrincipals), TextBytes(v.forceCommand);
    AddedThen(w, w1, w2, p1, p2);
    AddedThen(w, w2, w3, p1 + p2, TextBytes(v.requiredFromHostCert));
    AddedThen(w, w3, PutText(w3, v.requiredFromHostKeys), p1 + p2 + TextBytes(v.requiredFromHostCert),
              TextBytes(v.requiredFromHostKeys));
  }

  lemma ListAdded(w: Wrote, a: seq<seq<byte>>)
    requires IsTexts(a) && |w.data| <= SIZE_MAX
    ensures PutTexts(w, a).error.None? ==> w.error.None? && ListFits(a)
    ensures ListFits(a) ==> Added(w, PutTexts(w, a), ListBytes(a))
    ensures |PutTexts(w, a).data| <= SIZE_MAX
  {
    hide Be32, Concat;
  }

  lemma AllListsAdded(w: Wrote, v: Opts)
    requires Representable(v) && |w.data| <= SIZE_MAX
    ensures PutAllLists(w, v).error.None? ==> ListsFit(v)
    ensures ListsFit(v) ==> Added(w, PutAllLists(w, v), AllLists(v))
  {
    hide PutTexts, StringBytes, Concat, ListFits, ListBytes;
    var w1 := PutTexts(w, v.env);
    var w2 := PutTexts(w1, v.permitOpen);
    ListAdded(w, v.env);
    ListAdded(w1, v.permitOpen);
    ListAdded(w2, v.permitListen);
    if ListsFit(v) {
      AddedThen(w, w1, w2, ListBytes(v.env), ListBytes(v.permitOpen));
      AddedThen(w, w2, PutTexts(w2, v.permitListen), ListBytes(v.env) + ListBytes(v.permitOpen),
                ListBytes(v.permitListen));
    }
  }

  function Encoding(v: Opts): seq<byte>
    requires Representable(v) && ListsFit(v)
  {
    Scalars(v) + AllTexts(v) + AllLists(v)
  }

  /** sshauthopt_serialise appends the whole encoding, and fails exactly when the buffer cannot take it. */
  lemma SerialisedExactly(data: seq<byte>, v: Opts)
    requires Representable(v) && |data| <= SIZE_MAX
    ensures Serialised(data, v).error.None? <==> ListsFit(v) && |data| + |Encoding(v)| <= SIZE_MAX
    ensures Serialised(data, v).error.None? ==> Serialised(data, v).data == data + Encoding(v) && TextsFit(v)
  {
    hide PutScalars, PutAllTexts, PutAllLists, Scalars, AllTexts, AllLists, ListFits, TextsFit, ListsFit;
    var w := Wrote(None, data);
    var w1 := PutScalars(w, v);
    var w2 := PutAllTexts(w1, v);
    ScalarsAdded(w, v);
    AllTextsAdded(w1, v);
    AllListsAdded(w2, v);
    AddedThen(w, w1, w2, Scalars(v), AllTexts(v));
    if ListsFit(v) {
      AddedThen(w, w2, PutAllLists(w2, v), Scalars(v) + AllTexts(v), AllLists(v));
    }
  }

  // ---------------------------------------------------------------- and back

  lemma AllTextsTaken(v: Opts, s: seq<byte>)
    requires Representable(v) && TextsFit(v)
    ensures TakeAllTexts(AllTexts(v) + s)
         == Got(Texts(v.certPrincipals, v.forceCommand, v.requiredFromHostCert, v.requiredFromHostKeys), s)
  {
    hide TakeText, TextBytes, IsText, Body;
    var p1, p2 := TextBytes(v.certPrincipals), TextBytes(v.forceCommand);
    var p3, p4 := TextBytes(v.requiredFromHostCert), TextBytes(v.requiredFromHostKeys);
    assert AllTexts(v) + s == p1 + (p2 + (p3 + (p4 + s)));
    TextTaken(v.certPrincipals, p2 + (p3 + (p4 + s)));
    TextTaken(v.forceCommand, p3 + (p4 + s));
    TextTaken(v.requiredFromHostCert, p4 + s);
    TextTaken(v.requiredFromHostKeys, s);
  }

  lemma AllListsTaken(v: Opts, s: seq<byte>)
    requires ListsFit(v)
    ensures TakeAllLists(AllLists(v) + s) == Got(Lists(v.env, v.permitOpen, v.permitListen), s)
  {
    hide TakeTexts;
    ListTaken(v.env, ListBytes(v.permitOpen) + (ListBytes(v.permitListen) + s));
    ListTaken(v.permitOpen, ListBytes(v.permitListen) + s);
    ListTaken(v.permitListen, s);
    hide ListBytes, ListFits;
    assert AllLists(v) + s == ListBytes(v.env) + (ListBytes(v.permitOpen) + (ListBytes(v.permitListen) + s));
  }

  lemma ListTaken(a: seq<seq<byte>>, s: seq<byte>)
    requires ListFits(a)
    ensures TakeTexts(ListBytes(a) + s) == Got(a, s)
  {
    hide TakeTexts, Concat, StringBytes;
    TextsTaken(a, s);
  }

  /** What the encoding keeps: flags as u_char, and a tunnel number below -1 becomes 0. */
  function Kept(v: Opts): Opts {
    v.(permitPortForwarding := v.permitPortForwarding % 256,
       permitAgentForwarding := v.permitAgentForwarding % 256,
       permitX11Forwarding := v.permitX11Forwarding % 256,
       permitPty := v.permitPty % 256,
       permitUserRc := v.permitUserRc % 256,
       restricted := v.restricted % 256,
       certAuthority := v.certAuthority % 256,
       noRequireUserPresence := v.noRequireUserPresence % 256,
       requireVerify := v.requireVerify % 256,
       forceTunDevice := if v.forceTunDevice < -1 then 0 else v.forceTunDevice)
  }

  predicate IsU8(f: int) { 0 <= f < 256 }

  /** Every flag fits a u_char and the tunnel number is at least -1. */
  predicate KeepsAll(v: Opts) {
    IsU8(v.permitPortForwarding) && IsU8(v.permitAgentForwarding) && IsU8(v.permitX11Forwarding)
    && IsU8(v.permitPty) && IsU8(v.permitUserRc) && IsU8(v.restricted) && IsU8(v.certAuthority)
    && IsU8(v.noRequireUserPresence) && IsU8(v.requireVerify) && v.forceTunDevice >= -1
  }

  lemma KeptExactly(v: Opts)
    ensures Kept(v) == v <==> KeepsAll(v)
  {
  }

  /** Decoding the encoding with anything behind it yields what was kept and leaves just that suffix. */
  lemma Decoded(v: Opts, suffix: seq<byte>)
    requires Representable(v) && TextsFit(v) && ListsFit(v)
    ensures Deserialised(Encoding(v) + suffix) == Got(Kept(v), suffix)
  {
    hide AllTexts, AllLists, TakeNumbers, TakeAllTexts, TakeAllLists, NumberBytes, TextsFit, ListsFit;
    var s3 := AllLists(v) + suffix;
    var s2 := AllTexts(v) + s3;
    var s1 := NumberBytes(v.validBefore, v.forceTunDevice) + s2;
    assert Encoding(v) + suffix == Flags(v) + s1;
    assert (Flags(v) + s1)[..9] == Flags(v) && (Flags(v) + s1)[9..] == s1;
    NumbersTaken(v.validBefore, v.forceTunDevice, s2);
    AllTextsTaken(v, s3);
    AllListsTaken(v, suffix);
  }

  /** Whenever options fit a buffer they come back from it, all of them exactly when `KeepsAll`. */
  lemma RoundTrip(o: Opts, untrusted: bool, data: seq<byte>, suffix: seq<byte>)
    requires Representable(o) && |data| <= SIZE_MAX
    requires Serialised(data, View(o, untrusted)).error.None?
    ensures var v := View(o, untrusted);
      var m := Serialised(data, v).data;
      |data| <= |m| && m[..|data|] == data
      && Deserialised(m[|data|..] + suffix) == Got(Kept(v), suffix)
      && (Deserialised(m[|data|..] + suffix) == Got(v, suffix) <==> KeepsAll(v))
  {
    hide Serialised, Encoding, Deserialised, Kept, KeepsAll, Representable, TextsFit, ListsFit;
    var v := View(o, untrusted);
    SerialisedExactly(data, v);
    var m := Serialised(data, v).data;
    assert m[|data|..] == Encoding(v);
    Decoded(v, suffix);
    KeptExactly(v);
  }

  // ---------------------------------------------------------------- what is on the wire

  /** Where each field stands: nine flags, the expiry, whether a tunnel is unset and its number, then the strings. */
  lemma Layout(v: Opts)
    requires Representable(v) && ListsFit(v)
    ensures Encoding(v) ==
      [v.permitPortForwarding % 256, v.permitAgentForwarding % 256, v.permitX11Forwarding % 256, v.permitPty % 256,
       v.permitUserRc % 256, v.restricted % 256, v.certAuthority % 256, v.noRequireUserPresence % 256,
       v.requireVerify % 256]
      + Be32(v.validBefore / 0x1_0000_0000) + Be32(v.validBefore % 0x1_0000_0000)
      + [if v.forceTunDevice == -1 then 1 else 0] + Be32(if v.forceTunDevice < 0 then 0 else v.forceTunDevice)
      + AllTexts(v) + AllLists(v)
  {
    hide Be32, AllTexts, AllLists;
  }

  /** Of two sets of options with the same scalar fields an untrusted process sees the same bytes. */
  lemma UntrustedSeesNoStrings(o: Opts, p: Opts, data: seq<byte>)
    requires Representable(o) && Representable(p)
    requires Scalars(o) == Scalars(p) && o.validBefore == p.validBefore && o.forceTunDevice == p.forceTunDevice
    requires Flags(o) == Flags(p)
    ensures Serialised(data, View(o, true)) == Serialised(data, View(p, true))
  {
    hide PutFlags, PutNumbers, PutText, PutTexts, Flags, Scalars, Representable;
    ViewScalars(o);
    ViewScalars(p);
    ViewStrings(o, p);
  }

  lemma ViewScalars(o: Opts)
    ensures var v := View(o, true);
      Flags(v) == Flags(o) && v.validBefore == o.validBefore && v.forceTunDevice == o.forceTunDevice
  {
  }

  lemma ViewStrings(o: Opts, p: Opts)
    ensures var v, w := View(o, true), View(p, true);
      && v.certPrincipals == w.certPrincipals && v.forceCommand == w.forceCommand
      && v.requiredFromHostCert == w.requiredFromHostCert && v.requiredFromHostKeys == w.requiredFromHostKeys
      && v.env == w.env && v.permitOpen == w.permitOpen && v.permitListen == w.permitListen
  {
  }

  /** It is told that the principals are "yes" and the command "true", and of no list; a trusted one is told all. */
  lemma ViewMeans(o: Opts)
    ensures View(o, false) == o
    ensures var v := View(o, true);
      && v.certPrincipals == Some([121, 101, 115]) && v.forceCommand == Some([116, 114, 117, 101])
      && v.requiredFromHostCert == None && v.requiredFromHostKeys == None
      && v.env == [] && v.permitOpen == [] && v.permitListen == []
  {
    assert Ascii("yes") == [121, 101, 115];
    assert Ascii("true") == [116, 114, 117, 101];
  }
}
