/** `struct xaddr` and the functions that read it and write through pointers to it. */
module AddressStruct {
  import opened Bytes
  import opened Words
  import opened AddressNumbers
  import opened Addresses

  class Xaddr {
    var af: Family
    const addr32: array<u32>
    var scopeId: u32

    ghost predicate Valid() { addr32.Length == 4 }

    function State(): Addr
      reads this, addr32
    {
      Addr(af, addr32[..], scopeId)
    }

    constructor ()
      ensures Valid() && fresh(addr32)
    {
      af, scopeId := OtherFamily, 0;
      addr32 := new u32[4](_ => 0);
    }

    /** memcpy from another address, which may be this one */
    method CopyFrom(a: Xaddr)
      requires Valid() && a.Valid()
      modifies this, addr32
      ensures State() == old(a.State())
    {
      var w := a.addr32[..];
      af, scopeId := a.af, a.scopeId;
      for i := 0 to 4
        invariant forall j :: 0 <= j < i ==> addr32[j] == w[j]
        invariant af == old(a.af) && scopeId == old(a.scopeId)
      {
        addr32[i] := w[i];
      }
      assert addr32[..] == w;
    }

    /** addr_netmask into this address: false for a length the family does not have */
    method SetNetmask(family: Family, masklen: u32) returns (ok: bool)
      requires Valid()
      modifies this, addr32
      ensures ok == MasklenValid(family, masklen)
      ensures State() == if ok then Netmask(family, masklen) else old(State())
    {
      hide MaskWord;
      MaskWordEnds();
      if !MasklenValid(family, masklen) {
        return false;
      }
      af, scopeId := family, 0;
      forall i | 0 <= i < 4 {
        addr32[i] := 0;
      }
      if family.Inet? {
        if masklen != 0 {
          addr32[0] := MaskWord(masklen);
        }
        assert addr32[..] == Netmask(family, masklen).words;
        return true;
      }
      var i, l := 0, masklen;
      while i < 4 && l >= 32
        invariant 0 <= i <= 4 && l + 32 * i == masklen
        invariant forall j :: 0 <= j < i ==> addr32[j] == ALL_ONES
        invariant forall j :: i <= j < 4 ==> addr32[j] == 0
        invariant af == family && scopeId == 0
        decreases l
      {
        addr32[i] := ALL_ONES;
        i, l := i + 1, l - 32;
      }
      if i < 4 && l != 0 {
        addr32[i] := MaskWord(l);
      }
      forall j | 0 <= j < 4
        ensures addr32[j] == MaskWord(Left(masklen, j))
      {
        MaskWordFull(Left(masklen, j));
      }
      assert addr32[..] == Netmask(family, masklen).words;
      ok := true;
    }

    /** addr_invert */
    method Invert() returns (ok: bool)
      requires Valid()
      modifies addr32
      ensures ok == !af.OtherFamily?
      ensures State() == Addresses.Invert(old(State()))
    {
      hide Not32;
      if af.Inet? {
        addr32[0] := Not32(addr32[0]);
        assert addr32[..] == old(addr32[..])[0 := Not32(old(addr32[0]))];
        return true;
      }
      if af.OtherFamily? {
        return false;
      }
      for i := 0 to 4
        invariant forall j :: 0 <= j < i ==> addr32[j] == Not32(old(addr32[j]))
        invariant forall j :: i <= j < 4 ==> addr32[j] == old(addr32[j])
      {
        addr32[i] := Not32(addr32[i]);
      }
      assert addr32[..] == Addresses.Invert(old(State())).words;
      ok := true;
    }

    /** addr_hostmask into this address */
    method SetHostmask(family: Family, masklen: u32) returns (ok: bool)
      requires Valid()
      modifies this, addr32
      ensures ok == MasklenValid(family, masklen)
      ensures State() == if ok then Addresses.Invert(Netmask(family, masklen)) else old(State())
    {
      ok := SetNetmask(family, masklen);
      if !ok {
        return;
      }
      ok := Invert();
    }

    /** addr_and into this address. If this is also the second operand, the first has overwritten it before its use. */
    method SetAnd(a: Xaddr, b: Xaddr) returns (ok: bool)
      requires Valid() && a.Valid() && b.Valid() && (b == this || b.addr32 != addr32)
      modifies this, addr32
      ensures ok == (old(a.af) == old(b.af) && !old(a.af).OtherFamily?)
      ensures State() ==
        if old(a.af) != old(b.af) then old(State())
        else And(old(a.State()), if b == this then old(a.State()) else old(b.State()))
    {
      hide And32;
      if a.af != b.af {
        return false;
      }
      ghost var x, y := a.State(), if b == this then a.State() else b.State();
      CopyFrom(a);
      if af.Inet? {
        addr32[0] := And32(addr32[0], b.addr32[0]);
        assert addr32[..] == And(x, y).words;
        return true;
      }
      if af.OtherFamily? {
        return false;
      }
      for i := 0 to 4
        invariant forall j :: 0 <= j < i ==> addr32[j] == And32(x.words[j], y.words[j])
        invariant forall j :: i <= j < 4 ==> addr32[j] == x.words[j]
        invariant (b != this ==> b.addr32[..] == y.words) && af == x.af && scopeId == x.scope
      {
        addr32[i] := And32(addr32[i], b.addr32[i]);
      }
      assert addr32[..] == And(x, y).words;
      ok := true;
    }

    /** addr_or into this address. If this is also the second operand, the first has overwritten it before its use. */
    method SetOr(a: Xaddr, b: Xaddr) returns (ok: bool)
      requires Valid() && a.Valid() && b.Valid() && (b == this || b.addr32 != addr32)
      modifies this, addr32
      ensures ok == (old(a.af) == old(b.af) && !old(a.af).OtherFamily?)
      ensures State() ==
        if old(a.af) != old(b.af) then old(State())
        else Or(old(a.State()), if b == this then old(a.State()) else old(b.State()))
    {
      hide Or32;
      if a.af != b.af {
        return false;
      }
      ghost var x, y := a.State(), if b == this then a.State() else b.State();
      CopyFrom(a);
      if af.Inet? {
        addr32[0] := Or32(addr32[0], b.addr32[0]);
        assert addr32[..] == Or(x, y).words;
        return true;
      }
      if af.OtherFamily? {
        return false;
      }
      for i := 0 to 4
        invariant forall j :: 0 <= j < i ==> addr32[j] == Or32(x.words[j], y.words[j])
        invariant forall j :: i <= j < 4 ==> addr32[j] == x.words[j]
        invariant (b != this ==> b.addr32[..] == y.words) && af == x.af && scopeId == x.scope
      {
        addr32[i] := Or32(addr32[i], b.addr32[i]);
      }
      assert addr32[..] == Or(x, y).words;
      ok := true;
    }

    /** addr_cmp */
    method CompareTo(b: Xaddr) returns (r: int)
      requires Valid() && b.Valid()
      ensures r == Cmp(State(), b.State())
    {
      hide AddrByte;
      if af != b.af {
        return if af.Inet6? then 1 else -1;
      }
      match af
      case Inet =>
        if addr32[0] == b.addr32[0] {
          return 0;
        }
        return if addr32[0] > b.addr32[0] then 1 else -1;
      case Inet6 =>
        var i := 0;
        while i < 16
          invariant 0 <= i <= 16
          invariant Cmp(State(), b.State()) == CmpBytes(State(), b.State(), i)
        {
          var d := AddrByte(State(), i) - AddrByte(b.State(), i);
          if d != 0 {
            return d;
          }
          i := i + 1;
        }
        if scopeId == b.scopeId {
          return 0;
        }
        return if scopeId > b.scopeId then 1 else -1;
      case OtherFamily =>
        return -1;
    }

    /** addr_increment */
    method Increment()
      requires Valid()
      modifies addr32
      ensures State() == Addresses.Increment(old(State()))
    {
      match af
      case Inet =>
        addr32[0] := Add32(addr32[0], 1);
        assert addr32[..] == old(addr32[..])[0 := Add32(old(addr32[0]), 1)];
      case Inet6 =>
        IncrementWords(addr32);
      case OtherFamily =>
    }

    /** addr_host_is_all0s */
    method HostIsAll0s(masklen: u32) returns (zero: bool)
      requires Valid()
      ensures zero <==> MasklenValid(af, masklen) && HostPartZero(State(), masklen)
    {
      hide And, Addresses.Invert, Netmask, HostPartZero;
      var mask := new Xaddr();
      var result := new Xaddr();
      var ok := mask.SetHostmask(af, masklen);
      if !ok {
        return false;
      }
      NetmaskShape(af, masklen);
      InvertShape(Netmask(af, masklen));
      HostAnd(State(), masklen);
      ok := result.SetAnd(this, mask);
      ghost var m := result.State();
      assert m == And(State(), Addresses.Invert(Netmask(af, masklen)));
      if result.af.Inet? {
        assert Used(m) == [m.words[0]];
        zero := result.addr32[0] == 0;
        assert zero <==> Used(m)[0] == 0;
        return;
      }
      var i := 0;
      while i < 4
        invariant 0 <= i <= 4 && forall j :: 0 <= j < i ==> result.addr32[j] == 0
      {
        if result.addr32[i] != 0 {
          assert Used(m)[i] != 0;
          return false;
        }
        i := i + 1;
      }
      zero := true;
    }

    /** addr_host_to_all1s */
    method HostToAll1s(masklen: u32) returns (ok: bool)
      requires Valid()
      modifies this, addr32
      ensures ok == MasklenValid(old(af), masklen)
      ensures State() == if ok then Addresses.HostToAll1s(old(State()), masklen) else old(State())
    {
      var mask := new Xaddr();
      ok := mask.SetHostmask(af, masklen);
      if !ok {
        return;
      }
      ok := SetOr(this, mask);
    }

    /** addr_netmatch with this address as the host */
    method NetMatches(net: Xaddr, masklen: u32) returns (r: int)
      requires Valid() && net.Valid()
      ensures r == Netmatch(State(), net.State(), masklen)
    {
      if af != net.af {
        return -1;
      }
      var mask := new Xaddr();
      var result := new Xaddr();
      var ok := mask.SetNetmask(af, masklen);
      if !ok {
        return -1;
      }
      ok := result.SetAnd(this, mask);
      if !ok {
        return -1;
      }
      r := result.CompareTo(net);
    }
  }

  /** The words from i on are done, and the word before them still gets a carry. */
  predicate Carrying(w: seq<u32>, now: seq<u32>, i: nat) {
    |now| == |w| && i <= |w| && now[..i] == w[..i] && IncWords(w) == IncWords(w[..i]) + now[i..]
  }

  lemma CarryStart(w: seq<u32>)
    ensures Carrying(w, w, |w|)
  {
    assert w[..|w|] == w;
  }

  lemma CarryStep(w: seq<u32>, now: seq<u32>, i: nat)
    requires i < |w| && Carrying(w, now, i + 1)
    ensures var next := now[i := Add32(now[i], 1)];
      if next[i] != 0 then next == IncWords(w) else Carrying(w, next, i)
  {
    hide Add32, IncWords;
    var front, x := w[..i + 1], Add32(now[i], 1);
    assert now[i] == now[..i + 1][i] && front[..i] == w[..i];
    IncLast(front);
    var next := now[i := x];
    assert next[..i] == now[..i + 1][..i];
    assert next[i..] == [x] + now[i + 1..];
    assert next == next[..i] + next[i..];
  }

  lemma CarryEnd(w: seq<u32>, now: seq<u32>)
    requires Carrying(w, now, 0)
    ensures now == IncWords(w)
  {
    assert w[..0] == [] && now[0..] == now;
  }

  /** The carrying loop of addr_increment. */
  method IncrementWords(a: array<u32>)
    requires a.Length == 4
    modifies a
    ensures a[..] == IncWords(old(a[..]))
  {
    hide IncWords, Add32, Carrying;
    ghost var w := a[..];
    CarryStart(w);
    var i := 3;
    while i >= 0
      invariant -1 <= i <= 3
      invariant Carrying(w, a[..], i + 1)
    {
      ghost var now := a[..];
      CarryStep(w, now, i);
      a[i] := Add32(a[i], 1);
      assert a[..] == now[i := Add32(now[i], 1)];
      if a[i] != 0 {
        return;
      }
      i := i - 1;
    }
    CarryEnd(w, a[..]);
  }
}
