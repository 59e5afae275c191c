/** sshauthopt_serialise and sshauthopt_deserialise as they fill and drain a buffer. */
module KeyOptionsBuffer {
  import opened Bytes
  import opened Sshbufs
  import opened KeyOptions

  // ---------------------------------------------------------------- serialising

  lemma {:induction false} FlagsFailed(w: Wrote, f: seq<byte>, k: nat)
    requires k <= |f| && PutFlags(w, f[..k]).error.Some?
    ensures PutFlags(w, f) == PutFlags(w, f[..k])
    decreases |f| - k
  {
    if k < |f| {
      assert f[..k + 1][..k] == f[..k];
      FlagsFailed(w, f, k + 1);
    } else {
      assert f[..k] == f;
    }
  }

  method SerialiseFlags(m: Sshbuf, o: Opts) returns (error: Option<Error>)
    modifies m
    ensures Wrote(error, m.data) == PutFlags(Wrote(None, old(m.data)), Flags(o))
  {
    hide Flags, Put;
    ghost var w := Wrote(None, m.data);
    var f := Flags(o);
    for i := 0 to |f|
      invariant Wrote(None, m.data) == PutFlags(w, f[..i])
    {
      assert f[..i + 1][..i] == f[..i];
      error := m.PutU8(f[i]);
      assert Wrote(error, m.data) == PutFlags(w, f[..i + 1]);
      if error.Some? {
        FlagsFailed(w, f, i + 1);
        return;
      }
    }
    assert f[..|f|] == f;
    return None;
  }

  lemma PutFailed(w: Wrote, piece: seq<byte>)
    ensures w.error.Some? ==> Put(w, piece) == w
  {
  }

  method SerialiseNumbers(m: Sshbuf, validBefore: nat, tun: int) returns (error: Option<Error>)
    requires validBefore < U64 && tun <= INT_MAX
    modifies m
    ensures Wrote(error, m.data) == PutNumbers(Wrote(None, old(m.data)), validBefore, tun)
  {
    hide Put, Be32, U64Bytes;
    ghost var w := Wrote(None, m.data);
    error := m.PutU64(validBefore);
    ghost var w1 := Wrote(error, m.data);
    PutFailed(w1, [TunUnset(tun)]);
    if error.None? {
      error := m.PutU8(TunUnset(tun));
    }
    PutFailed(Wrote(error, m.data), Be32(TunNumber(tun)));
    if error.None? {
      error := m.PutU32(TunNumber(tun));
    }
  }

  /** serialise_nullable_string. */
  method SerialiseText(m: Sshbuf, t: Text) returns (error: Option<Error>)
    requires IsText(t)
    modifies m
    ensures Wrote(error, m.data) == PutText(Wrote(None, old(m.data)), t)
  {
    hide Put, StringBytes;
    error := m.PutU8(if t.None? then 1 else 0);
    PutFailed(Wrote(error, m.data), StringBytes(Body(t)));
    if error.None? {
      error := m.PutString(if t.None? then [] else t.value);
    }
  }

  lemma {:induction false} ConcatSnoc(a: seq<seq<byte>>, i: nat)
    requires IsTexts(a) && i < |a|
    ensures IsTexts(a[..i]) && IsTexts(a[..i + 1])
    ensures Concat(a[..i + 1]) == Concat(a[..i]) + StringBytes(a[i])
    decreases i
  {
    hide StringBytes;
    var s := a[..i + 1];
    if i == 0 {
      assert s[1..] == [] && a[..0] == [];
    } else {
      ConcatSnoc(a[1..], i - 1);
      assert s[1..] == a[1..][..i] && a[..i][1..] == a[1..][..i - 1];
    }
  }

  lemma {:induction false} ConcatGrows(a: seq<seq<byte>>, i: nat)
    requires IsTexts(a) && i <= |a|
    ensures IsTexts(a[..i]) && |Concat(a[..i])| <= |Concat(a)|
    decreases |a| - i
  {
    if i == |a| {
      assert a[..i] == a;
    } else {
      ConcatSnoc(a, i);
      ConcatGrows(a, i + 1);
    }
  }

  /** serialise_array. */
  method SerialiseTexts(m: Sshbuf, a: seq<seq<byte>>) returns (error: Option<Error>)
    requires IsTexts(a)
    modifies m
    ensures Wrote(error, m.data) == PutTexts(Wrote(None, old(m.data)), a)
  {
    hide StringBytes, Concat, IsTexts, Be32;
    if |a| > INT_MAX {
      return Some(InternalError);
    }
    var b := new Sshbuf([]);
    ConcatGrows(a, 0);
    assert b.data == Concat([]) by { NoEntries(); }
    assert a[..0] == [];
    for i := 0 to |a|
      invariant IsTexts(a[..i]) && b.data == Concat(a[..i]) && |b.data| <= SIZE_MAX
      invariant m.data == old(m.data)
    {
      EntryIsText(a, i);
      ConcatSnoc(a, i);
      ConcatGrows(a, i + 1);
      error := b.PutString(a[i]);
      if error.Some? {
        return;
      }
    }
    assert a[..|a|] == a;
    error := m.PutU32(|a|);
    if error.None? {
      error := m.PutString(b.data);
    }
  }

  lemma NoEntries()
    ensures IsTexts([]) && Concat([]) == []
  {
  }

  lemma EntryIsText(a: seq<seq<byte>>, i: nat)
    requires IsTexts(a) && i < |a|
    ensures |a[i]| < U32
  {
  }

  method SerialiseAllTexts(m: Sshbuf, v: Opts) returns (error: Option<Error>)
    requires Representable(v)
    modifies m
    ensures Wrote(error, m.data) == PutAllTexts(Wrote(None, old(m.data)), v)
  {
    hide PutText;
    error := SerialiseText(m, v.certPrincipals);
    TextFailed(Wrote(error, m.data), v.forceCommand);
    if error.None? {
      error := SerialiseText(m, v.forceCommand);
    }
    TextFailed(Wrote(error, m.data), v.requiredFromHostCert);
    if error.None? {
      error := SerialiseText(m, v.requiredFromHostCert);
    }
    TextFailed(Wrote(error, m.data), v.requiredFromHostKeys);
    if error.None? {
      error := SerialiseText(m, v.requiredFromHostKeys);
    }
  }

  lemma TextFailed(w: Wrote, t: Text)
    requires IsText(t)
    ensures w.error.Some? ==> PutText(w, t) == w
  {
  }

  lemma TextsFailed(w: Wrote, a: seq<seq<byte>>)
    requires IsTexts(a)
    ensures w.error.Some? ==> PutTexts(w, a) == w
  {
  }

  method SerialiseAllLists(m: Sshbuf, v: Opts) returns (error: Option<Error>)
    requires Representable(v)
    modifies m
    ensures Wrote(error, m.data) == PutAllLists(Wrote(None, old(m.data)), v)
  {
    hide PutTexts;
    error := SerialiseTexts(m, v.env);
    TextsFailed(Wrote(error, m.data), v.permitOpen);
    if error.None? {
      error := SerialiseTexts(m, v.permitOpen);
    }
    TextsFailed(Wrote(error, m.data), v.permitListen);
    if error.None? {
      error := SerialiseTexts(m, v.permitListen);
    }
  }

  lemma AllFailed(w: Wrote, v: Opts)
    requires Representable(v) && w.error.Some?
    ensures PutNumbers(w, v.validBefore, v.forceTunDevice) == w
    ensures PutAllTexts(w, v) == w && PutAllLists(w, v) == w
  {
  }

  /** sshauthopt_serialise. */
  method Serialise(o: Opts, m: Sshbuf, untrusted: bool) returns (error: Option<Error>)
    requires Representable(o)
    modifies m
    ensures Wrote(error, m.data) == Serialised(old(m.data), View(o, untrusted))
  {
    hide PutFlags, PutNumbers, PutAllTexts, PutAllLists, View;
    ghost var w := Wrote(None, m.data);
    var v := View(o, untrusted);
    ViewFlags(o, untrusted);
    error := SerialiseFlags(m, o);
    if error.Some? {
      AllFailed(Wrote(error, m.data), v);
      return;
    }
    error := SerialiseNumbers(m, o.validBefore, o.forceTunDevice);
    if error.Some? {
      AllFailed(Wrote(error, m.data), v);
      return;
    }
    error := SerialiseAllTexts(m, v);
    if error.Some? {
      AllFailed(Wrote(error, m.data), v);
      return;
    }
    error := SerialiseAllLists(m, v);
  }

  lemma ViewFlags(o: Opts, untrusted: bool)
    ensures var v := View(o, untrusted);
      Flags(v) == Flags(o) && v.validBefore == o.validBefore && v.forceTunDevice == o.forceTunDevice
  {
  }

  // ---------------------------------------------------------------- deserialising

  method DeserialiseFlags(m: Sshbuf, n: nat) returns (r: Result<seq<byte>>)
    modifies m
    ensures Outcome(r, m.data) == TakeFlags(old(m.data), n)
  {
    ghost var d := m.data;
    var f: seq<byte> := [];
    for i := 0 to n
      invariant i <= |d| && f == d[..i] && m.data == d[i..]
    {
      var b := m.GetU8();
      if b.Err? {
        return Err(b.error);
      }
      f := f + [b.value];
    }
    return Ok(f);
  }

  method DeserialiseNumbers(m: Sshbuf) returns (r: Result<Numbers>)
    modifies m
    ensures Outcome(r, m.data) == TakeNumbers(old(m.data))
  {
    hide TakeU64, TakeU8, TakeU32;
    var v := m.GetU64();
    if v.Err? {
      return Err(v.error);
    }
    var f := m.GetU8();
    if f.Err? {
      return Err(f.error);
    }
    var t := m.GetU32();
    if t.Err? {
      return Err(t.error);
    }
    return Ok(Numbers(v.value, if f.value != 0 then -1 else Signed(t.value)));
  }

  /** deserialise_nullable_string. */
  method DeserialiseText(m: Sshbuf) returns (r: Result<Text>)
    modifies m
    ensures Outcome(r, m.data) == TakeText(old(m.data))
  {
    hide TakeU8, TakeCString;
    var f := m.GetU8();
    if f.Err? {
      return Err(f.error);
    }
    var s := m.GetCString();
    if s.Err? {
      return Err(s.error);
    }
    return Ok(if f.value != 0 then None else Some(s.value));
  }

  /** What the rest of the loop over entries makes of those already taken. */
  function After(a: seq<seq<byte>>, r: Read<seq<seq<byte>>>): Read<seq<seq<byte>>> {
    if r.Failed? then r else Got(a + r.value, r.rest)
  }

  lemma EntriesStep(a: seq<seq<byte>>, b: seq<byte>, n: nat)
    requires n > 0
    ensures match TakeCString(b)
      case Failed(e, r) => After(a, TakeEntries(b, n)) == Failed(e, r)
      case Got(s, rest) => After(a, TakeEntries(b, n)) == After(a + [s], TakeEntries(rest, n - 1))
  {
    hide TakeCString;
    match TakeCString(b)
    case Failed(_, _) =>
    case Got(s, rest) =>
      var t := TakeEntries(rest, n - 1);
      if t.Got? {
        assert a + ([s] + t.value) == a + [s] + t.value;
      }
  }

  /** deserialise_array. */
  method DeserialiseTexts(m: Sshbuf) returns (r: Result<seq<seq<byte>>>)
    modifies m
    ensures Outcome(r, m.data) == TakeTexts(old(m.data))
  {
    hide TakeU32, TakeString, TakeCString, TakeEntries, After;
    var n := m.GetU32();
    if n.Err? {
      return Err(n.error);
    }
    var s := m.GetString();
    if s.Err? {
      return Err(s.error);
    }
    ghost var rest := m.data;
    if n.value > INT_MAX {
      return Err(InvalidFormat);
    }
    var b := new Sshbuf(s.value);
    var a: seq<seq<byte>> := [];
    ghost var all := TakeEntries(s.value, n.value);
    AfterNone(all);
    for i := 0 to n.value
      invariant After(a, TakeEntries(b.data, n.value - i)) == all
      invariant m.data == rest
    {
      EntriesStep(a, b.data, n.value - i);
      var e := b.GetCString();
      if e.Err? {
        return Err(e.error);
      }
      a := a + [e.value];
    }
    AfterEnd(a, b.data);
    return Ok(a);
  }

  lemma AfterNone(r: Read<seq<seq<byte>>>)
    ensures After([], r) == r
  {
    if r.Got? {
      assert [] + r.value == r.value;
    }
  }

  lemma AfterEnd(a: seq<seq<byte>>, b: seq<byte>)
    ensures After(a, TakeEntries(b, 0)) == Got(a, b)
  {
    assert a + [] == a;
  }

  method DeserialiseAllTexts(m: Sshbuf) returns (r: Result<Texts>)
    modifies m
    ensures Outcome(r, m.data) == TakeAllTexts(old(m.data))
  {
    hide TakeText;
    var a := DeserialiseText(m);
    if a.Err? {
      return Err(a.error);
    }
    var b := DeserialiseText(m);
    if b.Err? {
      return Err(b.error);
    }
    var c := DeserialiseText(m);
    if c.Err? {
      return Err(c.error);
    }
    var d := DeserialiseText(m);
    if d.Err? {
      return Err(d.error);
    }
    return Ok(Texts(a.value, b.value, c.value, d.value));
  }

  method DeserialiseAllLists(m: Sshbuf) returns (r: Result<Lists>)
    modifies m
    ensures Outcome(r, m.data) == TakeAllLists(old(m.data))
  {
    hide TakeTexts;
    var a := DeserialiseTexts(m);
    if a.Err? {
      return Err(a.error);
    }
    var b := DeserialiseTexts(m);
    if b.Err? {
      return Err(b.error);
    }
    var c := DeserialiseTexts(m);
    if c.Err? {
      return Err(c.error);
    }
    return Ok(Lists(a.value, b.value, c.value));
  }

  /** sshauthopt_deserialise. */
  method Deserialise(m: Sshbuf) returns (r: Result<Opts>)
    modifies m
    ensures Outcome(r, m.data) == Deserialised(old(m.data))
  {
    hide TakeNumbers, TakeAllTexts, TakeAllLists;
    var f := DeserialiseFlags(m, 9);
    if f.Err? {
      return Err(f.error);
    }
    var n := DeserialiseNumbers(m);
    if n.Err? {
      return Err(n.error);
    }
    var t := DeserialiseAllTexts(m);
    if t.Err? {
      return Err(t.error);
    }
    var l := DeserialiseAllLists(m);
    if l.Err? {
      return Err(l.error);
    }
    return Ok(Assembled(f.value, n.value, t.value, l.value));
  }
}
