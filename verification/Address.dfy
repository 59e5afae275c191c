/**
 IPv4 and IPv6 address arithmetic: word-wise masks, byte-wise ordering and carrying increment, as arithmetic on the
 32- or 128-bit number an address denotes (CIDR prefixes, section 3.1 of RFC 4632).

 `words` holds the four 32-bit words of the address in host order, as ntohl() gives them; an IPv4 address is the
 first of them.
 */
module Addresses {
  import opened Bytes
  import opened Words
  import opened AddressNumbers

  datatype Family = Inet | Inet6 | OtherFamily

  datatype Addr = Addr(af: Family, words: seq<u32>, scope: u32)

  predicate Shaped(a: Addr) { |a.words| == 4 }

  const ALL_ONES: u32 := 0xFFFF_FFFF

  // ---------------------------------------------------------------- the number an address denotes

  function Width(af: Family): nat {
    match af
    case Inet => 32
    case Inet6 => 128
    case OtherFamily => 0
  }

  /** The words that belong to the address. */
  function Used(a: Addr): seq<u32>
    requires Shaped(a)
  {
    match a.af
    case Inet => a.words[..1]
    case Inet6 => a.words
    case OtherFamily => []
  }

  function Value(a: Addr): nat
    requires Shaped(a)
  {
    Number(Used(a))
  }

  // ---------------------------------------------------------------- operations on values

  predicate MasklenValid(af: Family, masklen: nat) {
    !af.OtherFamily? && masklen <= Width(af)
  }

  /** The word with the p highest bits set, as `0xffffffff << (32 - p)` gives it for p > 0. */
  function MaskWord(p: nat): u32 {
    if p == 0 then 0 else if p >= 32 then ALL_ONES else Shl32(ALL_ONES, 32 - p)
  }

  function Left(l: nat, i: nat): nat { if l < 32 * i then 0 else l - 32 * i }

  /** addr_netmask on a valid length */
  function Netmask(af: Family, l: nat): Addr {
    if af.Inet? then Addr(af, [MaskWord(l), 0, 0, 0], 0)
    else Addr(af, [MaskWord(Left(l, 0)), MaskWord(Left(l, 1)), MaskWord(Left(l, 2)), MaskWord(Left(l, 3))], 0)
  }

  type WordOp = (u32, u32) -> u32

  function Zip(v: seq<u32>, w: seq<u32>, f: WordOp): seq<u32>
    requires |v| == |w|
  {
    seq(|v|, i requires 0 <= i < |v| => f(v[i], w[i]))
  }

  /** The words an operation works on: the first for IPv4, all for IPv6. */
  function Combine(a: Addr, b: Addr, f: WordOp): Addr
    requires Shaped(a) && Shaped(b)
  {
    match a.af
    case Inet => a.(words := a.words[0 := f(a.words[0], b.words[0])])
    case Inet6 => a.(words := Zip(a.words, b.words, f))
    case OtherFamily => a
  }

  function And(a: Addr, b: Addr): Addr
    requires Shaped(a) && Shaped(b)
  {
    Combine(a, b, (v, w) => And32(v, w))
  }

  function Or(a: Addr, b: Addr): Addr
    requires Shaped(a) && Shaped(b)
  {
    Combine(a, b, (v, w) => Or32(v, w))
  }

  function Invert(a: Addr): Addr
    requires Shaped(a)
  {
    Combine(a, a, (v, w) => Not32(v))
  }

  /** Byte i of the address in memory. */
  function AddrByte(a: Addr, i: nat): byte
    requires Shaped(a) && i < 16
  {
    Shr(a.words[i / 4], 24 - 8 * (i % 4)) % 256
  }

  /** The byte-wise comparison of IPv6 addresses, from byte i on. */
  function CmpBytes(a: Addr, b: Addr, i: nat): int
    requires Shaped(a) && Shaped(b) && i <= 16
    decreases 16 - i
  {
    if i == 16 then (if a.scope == b.scope then 0 else if a.scope > b.scope then 1 else -1)
    else if AddrByte(a, i) - AddrByte(b, i) != 0 then AddrByte(a, i) - AddrByte(b, i)
    else CmpBytes(a, b, i + 1)
  }

  function Cmp(a: Addr, b: Addr): int
    requires Shaped(a) && Shaped(b)
  {
    if a.af != b.af then (if a.af.Inet6? then 1 else -1)
    else
      match a.af
      case Inet => if a.words[0] == b.words[0] then 0 else if a.words[0] > b.words[0] then 1 else -1
      case Inet6 => CmpBytes(a, b, 0)
      case OtherFamily => -1
  }

  function Increment(a: Addr): Addr
    requires Shaped(a)
  {
    match a.af
    case Inet => a.(words := a.words[0 := Add32(a.words[0], 1)])
    case Inet6 => a.(words := IncWords(a.words))
    case OtherFamily => a
  }

  function HostToAll1s(a: Addr, masklen: nat): Addr
    requires Shaped(a)
  {
    Or(a, Invert(Netmask(a.af, masklen)))
  }

  /** addr_netmatch: 0 for a match */
  function Netmatch(host: Addr, net: Addr, masklen: nat): int
    requires Shaped(host) && Shaped(net)
  {
    if host.af != net.af || !MasklenValid(host.af, masklen) then -1
    else Cmp(And(host, Netmask(host.af, masklen)), net)
  }

  // ---------------------------------------------------------------- increment

  /** addr_increment adds one modulo 2^32 or 2^128 and changes nothing else. */
  lemma IncrementAddsOne(a: Addr)
    requires Shaped(a) && !a.af.OtherFamily?
    ensures Shaped(Increment(a)) && Increment(a).af == a.af && Increment(a).scope == a.scope
    ensures Value(Increment(a)) == (Value(a) + 1) % Pow2(Width(a.af))
  {
    NumberBound(Used(a));
    var p := Pow2(Width(a.af));
    if a.af.Inet? {
      assert Used(Increment(a)) == IncWords(Used(a));
    }
    IncNumber(Used(a));
    var x := Value(a) + 1;
    if x < p {
      Quotient(x, p, 0, x);
    } else {
      Quotient(x, p, 1, 0);
    }
  }

  // ---------------------------------------------------------------- ordering

  /** The number the first i bytes denote. */
  function Head(a: Addr, i: nat): nat
    requires Shaped(a) && i <= 16
  {
    if i == 0 then 0 else Head(a, i - 1) * 256 + AddrByte(a, i - 1)
  }

  lemma HeadWord(a: Addr, m: nat)
    requires Shaped(a) && m < 4
    ensures Head(a, 4 * m + 4) == Head(a, 4 * m) * 0x1_0000_0000 + a.words[m]
  {
    hide AddrByte;
    var w := a.words[m];
    WordBytes(w);
    BytesOfWord(a, m);
    var b0, b1, b2, b3 := AddrByte(a, 4 * m), AddrByte(a, 4 * m + 1), AddrByte(a, 4 * m + 2), AddrByte(a, 4 * m + 3);
    assert Head(a, 4 * m + 1) == Head(a, 4 * m) * 256 + b0;
    assert Head(a, 4 * m + 2) == Head(a, 4 * m + 1) * 256 + b1;
    assert Head(a, 4 * m + 3) == Head(a, 4 * m + 2) * 256 + b2;
    assert Head(a, 4 * m + 4) == Head(a, 4 * m + 3) * 256 + b3;
  }

  lemma BytesOfWord(a: Addr, m: nat)
    requires Shaped(a) && m < 4
    ensures AddrByte(a, 4 * m) == Shr(a.words[m], 24) % 256 && AddrByte(a, 4 * m + 1) == Shr(a.words[m], 16) % 256
    ensures AddrByte(a, 4 * m + 2) == Shr(a.words[m], 8) % 256 && AddrByte(a, 4 * m + 3) == Shr(a.words[m], 0) % 256
  {
    hide Shr;
  }

  lemma HeadIsNumber(a: Addr)
    requires Shaped(a)
    ensures Head(a, 16) == Number(a.words)
  {
    hide AddrByte;
    HeadWord(a, 0);
    HeadWord(a, 1);
    HeadWord(a, 2);
    HeadWord(a, 3);
    var w := a.words;
    assert w[..4] == w && w[..4][..3] == w[..3] && w[..3][..2] == w[..2] && w[..2][..1] == w[..1] && w[..1][..0] == [];
    assert Number(w[..1]) == w[0];
    assert Number(w[..2]) == Number(w[..1]) * 0x1_0000_0000 + w[1];
    assert Number(w[..3]) == Number(w[..2]) * 0x1_0000_0000 + w[2];
    assert Number(w[..4]) == Number(w[..3]) * 0x1_0000_0000 + w[3];
  }

  /** Once a prefix is smaller, the whole is. */
  lemma {:induction false} HeadLess(a: Addr, b: Addr, i: nat, j: nat)
    requires Shaped(a) && Shaped(b) && i <= j <= 16 && Head(a, i) < Head(b, i)
    ensures Head(a, j) < Head(b, j)
  {
    hide AddrByte;
    if i < j {
      HeadLess(a, b, i, j - 1);
    }
  }

  lemma {:induction false} CmpBytesOrder(a: Addr, b: Addr, i: nat)
    requires Shaped(a) && Shaped(b) && i <= 16 && Head(a, i) == Head(b, i)
    ensures CmpBytes(a, b, i) < 0 <==>
      Number(a.words) < Number(b.words) || (Number(a.words) == Number(b.words) && a.scope < b.scope)
    ensures CmpBytes(a, b, i) == 0 <==> Number(a.words) == Number(b.words) && a.scope == b.scope
    decreases 16 - i
  {
    hide AddrByte, Number;
    HeadIsNumber(a);
    HeadIsNumber(b);
    if i < 16 {
      var d := AddrByte(a, i) - AddrByte(b, i);
      if d < 0 {
        HeadLess(a, b, i + 1, 16);
      } else if d > 0 {
        HeadLess(b, a, i + 1, 16);
      } else {
        CmpBytesOrder(a, b, i + 1);
      }
    }
  }

  /** Within a family addr_cmp is the numeric order, ties between IPv6 addresses being broken by the scope. */
  lemma CmpIsNumeric(a: Addr, b: Addr)
    requires Shaped(a) && Shaped(b) && a.af == b.af && !a.af.OtherFamily?
    ensures Cmp(a, b) < 0 <==>
      Value(a) < Value(b) || (a.af.Inet6? && Value(a) == Value(b) && a.scope < b.scope)
    ensures Cmp(a, b) == 0 <==> Value(a) == Value(b) && (a.af.Inet6? ==> a.scope == b.scope)
  {
    if a.af.Inet6? {
      CmpBytesOrder(a, b, 0);
    } else {
      OneWord(a.words[0]);
      OneWord(b.words[0]);
      assert Used(a) == [a.words[0]] && Used(b) == [b.words[0]];
    }
  }

  /** addr_cmp is a total order on IPv4 and IPv6 addresses together, IPv4 first. */
  lemma CmpIsTotalOrder(a: Addr, b: Addr, c: Addr)
    requires Shaped(a) && Shaped(b) && Shaped(c)
    requires !a.af.OtherFamily? && !b.af.OtherFamily? && !c.af.OtherFamily?
    ensures Cmp(a, b) < 0 <==> Cmp(b, a) > 0
    ensures Cmp(a, b) == 0 <==> Cmp(b, a) == 0
    ensures Cmp(a, b) <= 0 && Cmp(b, c) <= 0 ==> Cmp(a, c) <= 0
    ensures Cmp(a, b) == 0 ==> Used(a) == Used(b) && a.af == b.af
  {
    if a.af == b.af {
      CmpIsNumeric(a, b);
      CmpIsNumeric(b, a);
      if Cmp(a, b) == 0 {
        NumberInjective(Used(a), Used(b));
      }
    }
    if b.af == c.af {
      CmpIsNumeric(b, c);
    }
    if a.af == c.af {
      CmpIsNumeric(a, c);
    }
  }

  // ---------------------------------------------------------------- masks

  lemma {:induction false} OnesBit(n: nat, k: nat)
    ensures Bit(Pow2(n) - 1, k) == (k < n)
  {
    if n == 0 {
      ZeroBit(k);
    } else {
      assert (Pow2(n) - 1) / 2 == Pow2(n - 1) - 1 && (Pow2(n) - 1) % 2 == 1;
      if k > 0 {
        OnesBit(n - 1, k - 1);
      }
    }
  }

  lemma MaskWordBit(p: nat, k: nat)
    requires k < 32
    ensures Bit(MaskWord(p), k) == (p >= 32 || k >= 32 - p)
  {
    hide Shl32;
    Pow2_32();
    if p == 0 {
      ZeroBit(k);
    } else if p >= 32 {
      OnesBit(32, k);
    } else {
      ShlBit(ALL_ONES, 32 - p, k);
      if k >= 32 - p {
        OnesBit(32, k - (32 - p));
      }
    }
  }

  /** A netmask has exactly its first l bits set. */
  lemma NetmaskBit(af: Family, l: nat, k: nat)
    requires MasklenValid(af, l) && k < Width(af)
    ensures Bit(Value(Netmask(af, l)), k) == (k >= Width(af) - l)
  {
    hide MaskWord, Bit, Number;
    var m := Netmask(af, l);
    NumberBit(Used(m), k);
    var i := |Used(m)| - 1 - k / 32;
    MaskWordBit(Left(l, i), k % 32);
  }

  lemma CombineBit(a: Addr, b: Addr, f: WordOp, k: nat)
    requires Shaped(a) && Shaped(b) && a.af == b.af && k < Width(a.af)
    ensures Shaped(Combine(a, b, f)) && Combine(a, b, f).af == a.af && Combine(a, b, f).scope == a.scope
    ensures var i := |Used(a)| - 1 - k / 32;
      && Bit(Value(Combine(a, b, f)), k) == Bit(f(Used(a)[i], Used(b)[i]), k % 32)
      && Bit(Value(a), k) == Bit(Used(a)[i], k % 32)
      && Bit(Value(b), k) == Bit(Used(b)[i], k % 32)
  {
    hide Bit, Number;
    NumberBit(Used(a), k);
    NumberBit(Used(b), k);
    NumberBit(Used(Combine(a, b, f)), k);
  }

  lemma AndAddrBit(a: Addr, b: Addr, k: nat)
    requires Shaped(a) && Shaped(b) && a.af == b.af && k < Width(a.af)
    ensures Shaped(And(a, b)) && Bit(Value(And(a, b)), k) == (Bit(Value(a), k) && Bit(Value(b), k))
  {
    hide Combine, Value, Bit;
    var i := |Used(a)| - 1 - k / 32;
    CombineBit(a, b, (v, w) => And32(v, w), k);
    AndBit(Used(a)[i], Used(b)[i], k % 32);
  }

  lemma OrAddrBit(a: Addr, b: Addr, k: nat)
    requires Shaped(a) && Shaped(b) && a.af == b.af && k < Width(a.af)
    ensures Shaped(Or(a, b)) && Bit(Value(Or(a, b)), k) == (Bit(Value(a), k) || Bit(Value(b), k))
  {
    hide Combine, Value, Bit;
    var i := |Used(a)| - 1 - k / 32;
    CombineBit(a, b, (v, w) => Or32(v, w), k);
    OrBit(Used(a)[i], Used(b)[i], k % 32);
  }

  lemma InvertBit(a: Addr, k: nat)
    requires Shaped(a) && k < Width(a.af)
    ensures Shaped(Invert(a)) && Invert(a).af == a.af && Bit(Value(Invert(a)), k) == !Bit(Value(a), k)
  {
    hide Combine, Value, Bit;
    var i := |Used(a)| - 1 - k / 32;
    CombineBit(a, a, (v, w) => Not32(v), k);
    NotBit(Used(a)[i], k % 32);
  }

  // ---------------------------------------------------------------- prefixes and intervals

  /** The host part of the address, below the first l bits, is zero. */
  predicate HostPartZero(a: Addr, l: nat)
    requires Shaped(a) && l <= Width(a.af)
  {
    forall k: nat | k < Width(a.af) - l :: !Bit(Value(a), k)
  }

  /** The first l bits agree. */
  predicate SamePrefix(a: Addr, b: Addr, l: nat)
    requires Shaped(a) && Shaped(b) && a.af == b.af && l <= Width(a.af)
  {
    forall k: nat | Width(a.af) - l <= k < Width(a.af) :: Bit(Value(a), k) == Bit(Value(b), k)
  }

  lemma ValueBound(a: Addr)
    requires Shaped(a)
    ensures Value(a) < Pow2(Width(a.af))
  {
    NumberBound(Used(a));
  }

  /** Clearing the host bits leaves the largest multiple of the block size below the address. */
  lemma MaskedValue(a: Addr, l: nat)
    requires Shaped(a) && MasklenValid(a.af, l)
    ensures var m, size := And(a, Netmask(a.af, l)), Pow2(Width(a.af) - l);
      && Shaped(m) && m.af == a.af && m.scope == a.scope
      && Value(m) == Value(a) / size * size
  {
    hide And, Bit, Value, Pow2, MaskWord;
    var w, j := Width(a.af), Width(a.af) - l;
    var m := And(a, Netmask(a.af, l));
    AndShape(a, Netmask(a.af, l));
    var v := Value(a) / Pow2(j) * Pow2(j);
    assert v <= Value(a);
    ValueBound(a);
    ValueBound(m);
    forall k: nat | k < w
      ensures Bit(Value(m), k) == Bit(v, k)
    {
      AndAddrBit(a, Netmask(a.af, l), k);
      NetmaskBit(a.af, l, k);
      ConcatBit(Value(a) / Pow2(j), 0, j, k);
      ZeroBit(k);
      if k >= j {
        ShrIsDiv(Value(a), j);
        ShrBit(Value(a), j, k - j);
      }
    }
    SameBits(Value(m), v, w);
  }

  lemma AndShape(a: Addr, b: Addr)
    requires Shaped(a) && Shaped(b)
    ensures Shaped(And(a, b)) && And(a, b).af == a.af && And(a, b).scope == a.scope
  {
  }

  lemma HostPartIsRemainder(a: Addr, l: nat)
    requires Shaped(a) && MasklenValid(a.af, l)
    ensures HostPartZero(a, l) <==> Value(a) % Pow2(Width(a.af) - l) == 0
  {
    hide Bit, Value, Pow2;
    var j := Width(a.af) - l;
    var r := Value(a) % Pow2(j);
    forall k: nat
      ensures Bit(r, k) == (k < j && Bit(Value(a), k))
    {
      ModBit(Value(a), j, k);
    }
    forall k: nat
      ensures !Bit(0, k)
    {
      ZeroBit(k);
    }
    if HostPartZero(a, l) {
      SameBits(r, 0, j);
    } else {
      var k: nat :| k < j && Bit(Value(a), k);
      assert Bit(r, k);
    }
  }

  /** The highest address of a block is its first plus the block size less one. */
  lemma All1sValue(net: Addr, l: nat)
    requires Shaped(net) && MasklenValid(net.af, l) && HostPartZero(net, l)
    ensures var top := HostToAll1s(net, l);
      && Shaped(top) && top.af == net.af && top.scope == net.scope
      && Value(top) == Value(net) + Pow2(Width(net.af) - l) - 1
  {
    hide Or, Invert, Bit, Value, Pow2, MaskWord, HostPartZero;
    var w, j := Width(net.af), Width(net.af) - l;
    var size, q := Pow2(j), Value(net) / Pow2(j);
    var mask := Invert(Netmask(net.af, l));
    InvertShape(Netmask(net.af, l));
    OrShape(net, mask);
    var top := Or(net, mask);
    HostPartIsRemainder(net, l);
    var v := q * size + (size - 1);
    ValueBound(net);
    ValueBound(top);
    BlockFits(Value(net), w, j);
    forall k: nat | k < w
      ensures Bit(Value(top), k) == Bit(v, k)
    {
      OrAddrBit(net, mask, k);
      InvertBit(Netmask(net.af, l), k);
      NetmaskBit(net.af, l, k);
      ConcatBit(q, size - 1, j, k);
      ConcatBit(q, 0, j, k);
      OnesBit(j, k);
    }
    SameBits(Value(top), v, w);
  }

  lemma InvertShape(a: Addr)
    requires Shaped(a)
    ensures Shaped(Invert(a)) && Invert(a).af == a.af
  {
  }

  lemma OrShape(a: Addr, b: Addr)
    requires Shaped(a) && Shaped(b)
    ensures Shaped(Or(a, b)) && Or(a, b).af == a.af && Or(a, b).scope == a.scope
  {
  }

  lemma PrefixIffSameBlock(a: Addr, b: Addr, l: nat)
    requires Shaped(a) && Shaped(b) && a.af == b.af && MasklenValid(a.af, l)
    ensures SamePrefix(a, b, l) <==> Value(a) / Pow2(Width(a.af) - l) == Value(b) / Pow2(Width(a.af) - l)
  {
    hide Bit, Value, Pow2;
    var w, j := Width(a.af), Width(a.af) - l;
    var x, y := Value(a) / Pow2(j), Value(b) / Pow2(j);
    forall k: nat
      ensures Bit(x, k) == Bit(Value(a), j + k) && Bit(y, k) == Bit(Value(b), j + k)
    {
      ShrIsDiv(Value(a), j);
      ShrIsDiv(Value(b), j);
      ShrBit(Value(a), j, k);
      ShrBit(Value(b), j, k);
    }
    if SamePrefix(a, b, l) {
      forall k: nat | k < l
        ensures Bit(x, k) == Bit(y, k)
      {
        assert Bit(Value(a), j + k) == Bit(Value(b), j + k);
      }
      QuotientBound(a, l);
      QuotientBound(b, l);
      SameBits(x, y, l);
    }
    if x == y {
      forall k: nat | j <= k < w
        ensures Bit(Value(a), k) == Bit(Value(b), k)
      {
        assert Bit(x, k - j) == Bit(y, k - j);
      }
    }
  }

  lemma QuotientBound(a: Addr, l: nat)
    requires Shaped(a) && MasklenValid(a.af, l)
    ensures Value(a) / Pow2(Width(a.af) - l) < Pow2(l)
  {
    hide Value, Pow2;
    var j := Width(a.af) - l;
    ValueBound(a);
    Pow2Add(l, j);
    Fits(Value(a), Pow2(j), Pow2(l));
  }

  /**
   For a network without host bits and a host of its family and scope, addr_netmatch reports a match exactly when
   the first masklen bits agree, and exactly when the host lies between the network's first and last address.
   */
  lemma NetmatchExactly(host: Addr, net: Addr, l: nat)
    requires Shaped(host) && Shaped(net) && host.af == net.af && MasklenValid(net.af, l)
    requires HostPartZero(net, l) && host.scope == net.scope
    ensures Netmatch(host, net, l) == 0 <==> SamePrefix(host, net, l)
    ensures Netmatch(host, net, l) == 0 <==> Cmp(net, host) <= 0 && Cmp(host, HostToAll1s(net, l)) <= 0
    ensures Netmatch(host, net, l) == 0 <==>
      Value(net) <= Value(host) <= Value(net) + Pow2(Width(net.af) - l) - 1
  {
    hide Value, Pow2, Cmp, And, HostPartZero, SamePrefix, Netmask, HostToAll1s;
    var size := Pow2(Width(net.af) - l);
    NetmaskShape(host.af, l);
    var m := And(host, Netmask(host.af, l));
    MaskedValue(host, l);
    HostPartIsRemainder(net, l);
    All1sValue(net, l);
    CmpIsNumeric(m, net);
    CmpIsNumeric(net, host);
    CmpIsNumeric(host, HostToAll1s(net, l));
    PrefixIffSameBlock(host, net, l);
    InBlock(Value(host), Value(net), size);
  }

  lemma NetmaskShape(af: Family, l: nat)
    ensures Shaped(Netmask(af, l)) && (!af.OtherFamily? ==> Netmask(af, l).af == af)
  {
  }

  /** With host bits set in the network, or another family or IPv6 scope, nothing ever matches. */
  lemma NetmatchNeverOtherwise(host: Addr, net: Addr, l: nat)
    requires Shaped(host) && Shaped(net)
    requires host.af != net.af || !MasklenValid(net.af, l) || !HostPartZero(net, l)
      || (net.af.Inet6? && host.scope != net.scope)
    ensures Netmatch(host, net, l) != 0
  {
    hide Value, Pow2, Cmp, And, HostPartZero, Netmask;
    if host.af == net.af && MasklenValid(net.af, l) {
      var size := Pow2(Width(net.af) - l);
      NetmaskShape(host.af, l);
      MaskedValue(host, l);
      HostPartIsRemainder(net, l);
      CmpIsNumeric(And(host, Netmask(host.af, l)), net);
      MultipleRemainder(Value(host) / size, size);
    }
  }

  // ---------------------------------------------------------------- walking through a network

  function IncrementTimes(a: Addr, n: nat): (b: Addr)
    requires Shaped(a)
    ensures Shaped(b)
  {
    if n == 0 then a else Increment(IncrementTimes(a, n - 1))
  }

  /** While they stay below 2^W, n increments add n. */
  lemma {:induction false} IncrementTimesAdds(a: Addr, n: nat)
    requires Shaped(a) && !a.af.OtherFamily? && Value(a) + n < Pow2(Width(a.af))
    ensures var b := IncrementTimes(a, n);
      Value(b) == Value(a) + n && b.af == a.af && b.scope == a.scope
  {
    if n > 0 {
      IncrementTimesAdds(a, n - 1);
      IncrementAddsOne(IncrementTimes(a, n - 1));
      Quotient(Value(a) + n, Pow2(Width(a.af)), 0, Value(a) + n);
    }
  }

  /** The n-th address of a network, counted from its first. */
  lemma NthAddress(net: Addr, l: nat, n: nat)
    requires Shaped(net) && MasklenValid(net.af, l) && HostPartZero(net, l) && n < Pow2(Width(net.af) - l)
    ensures var b := IncrementTimes(net, n);
      Value(b) == Value(net) + n && b.af == net.af && b.scope == net.scope
  {
    hide Value, Pow2, HostPartZero, IncrementTimes;
    HostPartIsRemainder(net, l);
    ValueBound(net);
    BlockFits(Value(net), Width(net.af), Width(net.af) - l);
    IncrementTimesAdds(net, n);
  }

  /** Repeated increments from the network address visit exactly the addresses that match it. */
  lemma WalkVisitsMatches(net: Addr, l: nat, host: Addr)
    requires Shaped(net) && Shaped(host) && host.af == net.af && MasklenValid(net.af, l)
    requires HostPartZero(net, l) && host.scope == net.scope
    ensures Netmatch(host, net, l) == 0 <==>
      exists n :: 0 <= n < Pow2(Width(net.af) - l) && Cmp(IncrementTimes(net, n), host) == 0
  {
    hide Value, Pow2, Cmp, Netmatch, HostPartZero, IncrementTimes;
    var size := Pow2(Width(net.af) - l);
    NetmatchExactly(host, net, l);
    if Netmatch(host, net, l) == 0 {
      var n := Value(host) - Value(net);
      NthAddress(net, l, n);
      CmpIsNumeric(IncrementTimes(net, n), host);
      assert 0 <= n < size && Cmp(IncrementTimes(net, n), host) == 0;
    }
    if exists n :: 0 <= n < size && Cmp(IncrementTimes(net, n), host) == 0 {
      var n :| 0 <= n < size && Cmp(IncrementTimes(net, n), host) == 0;
      NthAddress(net, l, n);
      CmpIsNumeric(IncrementTimes(net, n), host);
    }
  }

  /** The walk goes strictly upwards, so it meets no address twice. */
  lemma WalkAscends(net: Addr, l: nat, m: nat, n: nat)
    requires Shaped(net) && MasklenValid(net.af, l) && HostPartZero(net, l)
    requires m < n < Pow2(Width(net.af) - l)
    ensures Cmp(IncrementTimes(net, m), IncrementTimes(net, n)) < 0
  {
    hide Value, Pow2, Cmp, HostPartZero, IncrementTimes;
    NthAddress(net, l, m);
    NthAddress(net, l, n);
    CmpIsNumeric(IncrementTimes(net, m), IncrementTimes(net, n));
  }

  lemma MaskWordEnds()
    ensures MaskWord(0) == 0 && MaskWord(32) == ALL_ONES
  {
  }

  lemma MaskWordFull(p: nat)
    ensures p >= 32 ==> MaskWord(p) == ALL_ONES
  {
  }

  /** The host mask picks out the host part. */
  lemma HostAnd(a: Addr, l: nat)
    requires Shaped(a) && MasklenValid(a.af, l)
    ensures var m := And(a, Invert(Netmask(a.af, l)));
      && Shaped(m) && m.af == a.af
      && (HostPartZero(a, l) <==> forall i :: 0 <= i < |Used(m)| ==> Used(m)[i] == 0)
  {
    hide And, Invert, Bit, MaskWord, Number;
    var w, j := Width(a.af), Width(a.af) - l;
    InvertShape(Netmask(a.af, l));
    var mask := Invert(Netmask(a.af, l));
    AndShape(a, mask);
    var m := And(a, mask);
    ValueBound(m);
    forall k: nat
      ensures k < w ==> Bit(Value(m), k) == (k < j && Bit(Value(a), k))
      ensures !Bit(0, k)
    {
      ZeroBit(k);
      if k < w {
        AndAddrBit(a, mask, k);
        InvertBit(Netmask(a.af, l), k);
        NetmaskBit(a.af, l, k);
      }
    }
    if HostPartZero(a, l) {
      SameBits(Value(m), 0, w);
    }
    ZeroNumber(Used(m));
    if Value(m) == 0 {
      forall k: nat | k < j
        ensures !Bit(Value(a), k)
      {
        assert Bit(Value(m), k) == Bit(Value(a), k);
      }
    }
  }
}
