/**
 The growable bit vector: a word array whose top index is maintained lazily, as a set of naturals, and its
 conversion to and from big-endian byte strings.
 */
module Bitmaps {
  import opened Bytes
  import opened Words

  const BITMAP_MAX := 0x100_0000
  const SIZE_MAX := U64 - 1

  // ---------------------------------------------------------------- the set a word array stands for

  predicate Has(d: seq<u32>, n: nat) {
    n / 32 < |d| && Bit(d[n / 32], n % 32)
  }

  function Members(d: seq<u32>): set<nat> {
    set n: nat | 0 <= n < 32 * |d| && Has(d, n)
  }

  lemma MembersHas(d: seq<u32>, n: nat)
    ensures n in Members(d) <==> Has(d, n)
  {
  }

  lemma SameMembers(d: seq<u32>, e: seq<u32>)
    requires forall n: nat :: Has(d, n) == Has(e, n)
    ensures Members(d) == Members(e)
  {
    forall n: nat
      ensures n in Members(d) <==> n in Members(e)
    {
      MembersHas(d, n);
      MembersHas(e, n);
      assert Has(d, n) == Has(e, n);
    }
  }

  /** One more than the largest member, 0 for the empty set. */
  ghost function Width(s: set<nat>): (w: nat)
    ensures IsWidth(s, w)
  {
    if s == {} then 0
    else
      var m :| m in s;
      var w := Width(s - {m});
      assert forall n :: n in s <==> n == m || n in s - {m};
      if m < w then w else m + 1
  }

  ghost predicate IsWidth(s: set<nat>, w: nat) {
    && (w > 0 ==> w - 1 in s)
    && forall n :: n in s ==> n < w
  }

  ghost function ByteCount(s: set<nat>): nat { (Width(s) + 7) / 8 }

  /** No member lies beyond what `reserve` admits. */
  ghost predicate Bounded(s: set<nat>) {
    forall n :: n in s ==> n <= BITMAP_MAX
  }

  lemma AboveTop(d: seq<u32>, top: nat, n: nat)
    requires ZeroAbove(d, top) && Bounded(Members(d))
    ensures n > BITMAP_MAX || n / 32 > top ==> n !in Members(d)
  {
    MembersHas(d, n);
    ZeroBit(n % 32);
  }

  predicate ZeroAbove(d: seq<u32>, top: nat) {
    forall i :: top < i < |d| ==> d[i] == 0
  }

  lemma WidthUnique(s: set<nat>, w: nat)
    requires IsWidth(s, w)
    ensures w == Width(s)
  {
    assert IsWidth(s, Width(s));
  }

  lemma BelowWidth(s: set<nat>, n: nat)
    ensures n in s ==> n < Width(s)
  {
    assert IsWidth(s, Width(s));
  }

  // ---------------------------------------------------------------- the set a byte string stands for

  /** Bit n of a big-endian number given as bytes. */
  predicate StrBit(s: seq<byte>, n: nat) {
    n / 8 < |s| && Bit(s[|s| - 1 - n / 8], n % 8)
  }

  /** Byte t, counted from the least significant, of a word array. */
  function ByteAt(d: seq<u32>, t: nat): byte
    requires t / 4 < |d|
  {
    Shr(d[t / 4], t % 4 * 8) % 256
  }

  lemma ByteAtBit(d: seq<u32>, t: nat, k: nat)
    requires t / 4 < |d| && k < 8
    ensures Bit(ByteAt(d, t), k) == Has(d, 8 * t + k)
  {
    var w, j := d[t / 4], t % 4 * 8;
    Pow2_32();
    ModBit(Shr(w, j), 8, k);
    ShrBit(w, j, k);
    assert 8 * t + k == 32 * (t / 4) + (j + k);
    Quotient(8 * t + k, 32, t / 4, j + k);
  }

  /** A string of the right length whose bytes are those of the words holds the words' bits. */
  lemma StringOfWords(d: seq<u32>, s: seq<byte>)
    requires |s| == ByteCount(Members(d))
    requires forall t :: 0 <= t < |s| ==> t / 4 < |d| && s[|s| - 1 - t] == ByteAt(d, t)
    ensures forall n: nat :: StrBit(s, n) <==> n in Members(d)
  {
    forall n: nat
      ensures StrBit(s, n) <==> n in Members(d)
    {
      MembersHas(d, n);
      if n / 8 < |s| {
        ByteAtBit(d, n / 8, n % 8);
      } else {
        BelowWidth(Members(d), n);
      }
    }
  }

  /** Strings of one length with the same bits are equal. */
  lemma SameStrings(s: seq<byte>, t: seq<byte>)
    requires |s| == |t| && forall n: nat :: StrBit(s, n) == StrBit(t, n)
    ensures s == t
  {
    forall i | 0 <= i < |s|
      ensures s[i] == t[i]
    {
      var b := |s| - 1 - i;
      forall k: nat | k < 8
        ensures Bit(s[i], k) == Bit(t[i], k)
      {
        Quotient(8 * b + k, 8, b, k);
        assert StrBit(s, 8 * b + k) == StrBit(t, 8 * b + k);
      }
      Pow2_32();
      SameBits(s[i], t[i], 8);
    }
  }

  function StripZeros(s: seq<byte>): seq<byte> {
    if s != [] && s[0] == 0 then StripZeros(s[1..]) else s
  }

  lemma {:induction false} StripKeepsBits(s: seq<byte>, n: nat)
    ensures StrBit(StripZeros(s), n) == StrBit(s, n)
  {
    if s != [] && s[0] == 0 {
      StripKeepsBits(s[1..], n);
      ZeroBit(n % 8);
      assert forall i :: 0 <= i < |s[1..]| ==> s[1..][i] == s[i + 1];
    }
  }

  lemma {:induction false} StripLeads(s: seq<byte>)
    ensures StripZeros(s) == [] || StripZeros(s)[0] != 0
  {
    if s != [] && s[0] == 0 {
      StripLeads(s[1..]);
    }
  }

  /** The number of bytes that hold a set is the length of any string for it without leading zeros. */
  lemma CanonicalLength(s: seq<byte>, m: set<nat>)
    requires s == [] || s[0] != 0
    requires forall n: nat :: StrBit(s, n) <==> n in m
    ensures |s| == ByteCount(m)
  {
    var w := Width(m);
    assert w > 0 ==> StrBit(s, w - 1);
    if s != [] {
      Pow2_32();
      var k := HasBitFrom(s[0], 0);
      if k >= 8 {
        HighBit(s[0], 8, k);
      }
      var top := 8 * (|s| - 1) + k;
      Quotient(top, 8, |s| - 1, k);
      assert StrBit(s, top);
      BelowWidth(m, top);
    }
  }

  /**
   Bytes to bitmap and back: the string that comes out is the one that went in, less its leading zero bytes.
   `m` is the bitmap in between.
   */
  lemma BytesRoundTrip(s: seq<byte>, m: set<nat>, t: seq<byte>)
    requires forall n: nat :: StrBit(s, n) <==> n in m
    requires |t| == ByteCount(m) && forall n: nat :: StrBit(t, n) <==> n in m
    ensures t == StripZeros(s)
  {
    var z := StripZeros(s);
    forall n: nat
      ensures StrBit(z, n) == StrBit(t, n) && (StrBit(z, n) <==> n in m)
    {
      StripKeepsBits(s, n);
      assert StrBit(s, n) <==> n in m;
      assert StrBit(t, n) <==> n in m;
    }
    StripLeads(s);
    CanonicalLength(z, m);
    SameStrings(z, t);
  }

  /** Of the bitmaps `reserve` admits, exactly the one bit 1<<24 has an encoding `from_string` refuses. */
  lemma EncodingFits(m: set<nat>)
    requires Bounded(m)
    ensures ByteCount(m) <= BITMAP_MAX / 8 <==> BITMAP_MAX !in m
  {
    var w := Width(m);
    if BITMAP_MAX in m {
      assert w == BITMAP_MAX + 1;
    }
  }

  // ---------------------------------------------------------------- the object

  class Bitmap {
    var d: array<u32>
    var len: nat
    var top: nat

    ghost predicate Valid()
      reads this, d
    {
      && len == d.Length && 1 <= len <= BITMAP_MAX / 32 + 1 && top < len
      && ZeroAbove(d[..], top)
      && Bounded(Bits())
    }

    ghost function Bits(): set<nat>
      reads this, d
    {
      Members(d[..])
    }

    constructor ()
      ensures Valid() && Bits() == {} && fresh(d)
    {
      d := new u32[1](_ => 0);
      len := 1;
      top := 0;
      new;
      NoBits(d[..]);
    }

    method Zero()
      requires Valid()
      modifies this, d
      ensures Valid() && d == old(d) && top == 0 && len == old(len) && Bits() == {}
    {
      forall i | 0 <= i < len {
        d[i] := 0;
      }
      top := 0;
      NoBits(d[..]);
    }

    method TestBit(n: u32) returns (r: bool)
      requires Valid()
      ensures r <==> n in Bits()
    {
      MembersHas(d[..], n);
      if top >= len {
        return false;
      }
      if len == 0 || n / 32 > top {
        if n / 32 < len {
          ZeroBit(n % 32);
        }
        return false;
      }
      r := Bit(d[n / 32], n % 32);
    }

    /** Makes room for bit n; `alloc` says whether the allocator has memory to give. */
    method Reserve(n: u32, alloc: bool) returns (ok: bool)
      requires Valid()
      modifies this
      ensures Valid() && (d == old(d) || fresh(d)) && Bits() == old(Bits()) && top == old(top)
      ensures ok == (n <= BITMAP_MAX && (n / 32 < old(len) || alloc))
      ensures if ok then n / 32 < len else d == old(d)
    {
      if top >= len || n > BITMAP_MAX {
        return false;
      }
      var nlen := n / 32 + 1;
      if len < nlen {
        if !alloc {
          return false;
        }
        var was := d[..];
        var tmp := new u32[nlen](i => if 0 <= i < |was| then was[i] else 0);
        Grown(was, tmp[..]);
        d := tmp;
        len := nlen;
      }
      ok := true;
    }

    method SetBit(n: u32, alloc: bool) returns (ok: bool)
      requires Valid()
      modifies this, d
      ensures Valid() && (d == old(d) || fresh(d))
      ensures ok == (n <= BITMAP_MAX && (n / 32 < old(len) || alloc))
      ensures Bits() == if ok then old(Bits()) + {n} else old(Bits())
    {
      hide Or32, Shl32, Members, Bit, ZeroAbove, Bounded;
      ok := Reserve(n, alloc);
      if !ok {
        return;
      }
      var offset := n / 32;
      if offset > top {
        ZeroHigher(d[..], top, offset);
        top := offset;
      }
      ghost var was := d[..];
      SetOne(was, n);
      SetOneBounded(was, n, top);
      d[offset] := Or32(d[offset], Shl32(1, n % 32));
      assert d[..] == WithBit(was, n);
    }

    /** Moves top down to the highest word that is not zero. */
    method Retop()
      requires Valid()
      modifies this`top
      ensures Valid() && top <= old(top) && (top == 0 || d[top] != 0)
    {
      if top >= len {
        return;
      }
      while top > 0 && d[top] == 0
        invariant Valid() && top <= old(top)
      {
        top := top - 1;
      }
    }

    method ClearBit(n: u32)
      requires Valid()
      modifies this`top, d
      ensures Valid()
      ensures Bits() == old(Bits()) - {n}
    {
      hide And32, Not32, Shl32, Members, Bit, ZeroAbove, Bounded;
      AboveTop(d[..], top, n);
      if top >= len || n > BITMAP_MAX {
        return;
      }
      var offset := n / 32;
      if offset > top {
        return;
      }
      ghost var was := d[..];
      ClearOne(was, n);
      ClearOneBounded(was, n, top);
      d[offset] := And32(d[offset], Not32(Shl32(1, n % 32)));
      assert d[..] == WithoutBit(was, n);
      Retop();
    }

    /** The position after the most significant bit. */
    method NBits() returns (bits: nat)
      requires Valid()
      modifies this`top
      ensures Valid() && Bits() == old(Bits())
      ensures bits == Width(Bits())
      ensures bits <= 32 * (top + 1)
    {
      bits := 0;
      Retop();
      if top >= len {
        return;
      }
      if len == 0 || (top == 0 && d[0] == 0) {
        NoBits(d[..]);
        return;
      }
      bits := FindMsb(d[top], (top + 1) * 32);
      TopBit(d[..], top, 31 - ((top + 1) * 32 - bits));
    }

    method NBytes() returns (n: nat)
      requires Valid()
      modifies this`top
      ensures Valid() && Bits() == old(Bits()) && n == ByteCount(Bits())
      ensures n <= 4 * (top + 1)
    {
      var bits := NBits();
      n := (bits + 7) / 8;
    }

    /** Writes the set to `p` as a big-endian number, if it fits in `l` bytes. */
    method ToString(p: array<byte>, l: nat) returns (ok: bool)
      requires Valid() && l <= p.Length && p as object != d as object
      modifies this`top, p
      ensures Valid() && Bits() == old(Bits())
      ensures ok == (ByteCount(Bits()) <= l)
      ensures ok ==> forall n: nat :: StrBit(p[..ByteCount(Bits())], n) <==> n in Bits()
      ensures forall x :: (if ok then ByteCount(Bits()) else 0) <= x < p.Length ==> p[x] == old(p[x])
    {
      hide Members, ZeroAbove, Bounded, ByteAt, StrBit;
      var need := NBytes();
      if l < need || top >= len {
        return false;
      }
      var lim := Min(l, need);
      ghost var t := top;
      var i, k := 0, 0;
      while i < top + 1
        invariant Valid() && Bits() == old(Bits()) && top == t
        invariant 0 <= i <= top + 1 && k == Min(4 * i, lim)
        invariant forall x :: 0 <= x < k ==> p[need - 1 - x] == ByteAt(d[..], x)
        invariant forall x :: need <= x < p.Length ==> p[x] == old(p[x])
      {
        var j := 0;
        while j < 4
          invariant Valid() && Bits() == old(Bits()) && top == t
          invariant 0 <= j <= 4 && k == Min(4 * i + j, lim)
          invariant forall x :: 0 <= x < k ==> p[need - 1 - x] == ByteAt(d[..], x)
          invariant forall x :: need <= x < p.Length ==> p[x] == old(p[x])
        {
          if k >= lim {
            break;
          }
          ByteOfWord(d[..], i, j);
          p[need - 1 - k] := Shr(d[i], j * 8) % 256;
          k := k + 1;
          j := j + 1;
        }
        i := i + 1;
      }
      StringOfWords(d[..], p[..need]);
      ok := true;
    }

    /** Replaces the set by the big-endian number in `s`; `alloc` says whether memory is to be had. */
    method FromString(s: seq<byte>, alloc: bool) returns (ok: bool)
      requires Valid()
      modifies this, d
      ensures Valid() && (d == old(d) || fresh(d))
      ensures ok == (|s| <= BITMAP_MAX / 8 && (|s| * 8 / 32 < old(len) || alloc))
      ensures ok ==> forall n: nat :: n in Bits() <==> StrBit(s, n)
      ensures !ok ==> Bits() == old(Bits())
    {
      hide Members, ZeroAbove, Bounded, StrBit, Loaded, Or32, Shl32, Width;
      if |s| > BITMAP_MAX / 8 {
        return false;
      }
      ok := Reserve(|s| * 8, alloc);
      if !ok {
        return;
      }
      Zero();
      NothingLoaded(d[..], s);
      if |s| == 0 {
        AllLoaded(d[..], s);
        return;
      }
      var offset, shift := (|s| + 3) / 4 - 1, (|s| + 3) % 4 * 8;
      ZeroHigher(d[..], 0, offset);
      top := offset;
      ghost var t, dd := top, d;
      var i := 0;
      while i < |s|
        invariant 0 <= i <= |s| && top == t && d == dd && len == d.Length && t < len
        invariant i < |s| ==> offset == (|s| - 1 - i) / 4 && shift == (|s| - 1 - i) % 4 * 8
        invariant Loaded(d[..], s, i) && ZeroAbove(d[..], t)
      {
        ghost var was := d[..];
        LoadByte(was, s, i, t);
        d[offset] := Or32(d[offset], Shl32(s[i], shift));
        assert d[..] == was[offset := d[offset]];
        if shift == 0 {
          offset := if offset == 0 then SIZE_MAX else offset - 1;
          shift := 32 - 8;
        } else {
          shift := shift - 8;
        }
        i := i + 1;
      }
      AllLoaded(d[..], s);
      Retop();
    }
  }

  lemma ByteOfWord(d: seq<u32>, i: nat, j: nat)
    requires i < |d| && j < 4
    ensures ByteAt(d, 4 * i + j) == Shr(d[i], j * 8) % 256
  {
    Quotient(4 * i + j, 4, i, j);
  }

  /** The first i bytes of `s` have been stored, and nothing else. */
  ghost predicate Loaded(d: seq<u32>, s: seq<byte>, i: nat) {
    forall n: nat :: Has(d, n) <==> StrBit(s, n) && |s| - 1 - n / 8 < i
  }

  lemma NothingLoaded(d: seq<u32>, s: seq<byte>)
    requires Members(d) == {}
    ensures Loaded(d, s, 0)
  {
    forall n: nat
      ensures !Has(d, n)
    {
      MembersHas(d, n);
    }
  }

  lemma AllLoaded(d: seq<u32>, s: seq<byte>)
    requires Loaded(d, s, |s|) && |s| <= BITMAP_MAX / 8
    ensures forall n: nat :: n in Members(d) <==> StrBit(s, n)
    ensures Bounded(Members(d))
  {
    forall n: nat
      ensures n in Members(d) <==> StrBit(s, n)
    {
      MembersHas(d, n);
    }
  }

  lemma ZeroHigher(d: seq<u32>, t: nat, u: nat)
    requires ZeroAbove(d, t) && t <= u
    ensures ZeroAbove(d, u)
  {
  }

  lemma LoadByte(d: seq<u32>, s: seq<byte>, i: nat, t: nat)
    requires i < |s| && Loaded(d, s, i) && ZeroAbove(d, t) && (|s| - 1 - i) / 4 <= t < |d|
    ensures var pos := |s| - 1 - i;
      var e := d[pos / 4 := Or32(d[pos / 4], Shl32(s[i], pos % 4 * 8))];
      Loaded(e, s, i + 1) && ZeroAbove(e, t)
  {
    hide Or32, Shl32, Bit;
    var pos := |s| - 1 - i;
    var shift := pos % 4 * 8;
    var e := d[pos / 4 := Or32(d[pos / 4], Shl32(s[i], shift))];
    forall n: nat
      ensures Has(e, n) <==> StrBit(s, n) && |s| - 1 - n / 8 < i + 1
    {
      assert Has(d, n) <==> StrBit(s, n) && |s| - 1 - n / 8 < i;
      var k := n % 32;
      if n / 32 == pos / 4 {
        OrBit(d[pos / 4], Shl32(s[i], shift), k);
        ShlBit(s[i], shift, k);
        Pow2_32();
        if k >= shift + 8 {
          HighBit(s[i], 8, k - shift);
        }
      }
    }
  }

  /** `w` is `w0` shifted left k times, and no set bit has been shifted out. */
  predicate Shifted(w: u32, w0: u32, k: nat) {
    && (forall j: nat :: j < 32 ==> Bit(w, j) == (j >= k && Bit(w0, j - k)))
    && (forall j: nat :: 32 - k <= j < 32 ==> !Bit(w0, j))
  }

  lemma ShiftOnce(w: u32, w0: u32, k: nat)
    requires k <= 31 && Shifted(w, w0, k) && !Bit(w, 31) && w0 != 0
    ensures k < 31 && Shifted(Shl32(w, 1), w0, k + 1)
  {
    hide Shl32, Bit;
    assert !Bit(w0, 31 - k);
    LowBitExists(w0, k);
    forall j: nat | j < 32
      ensures Bit(Shl32(w, 1), j) == (j >= k + 1 && Bit(w0, j - (k + 1)))
    {
      ShlBit(w, 1, j);
    }
  }

  /** Shifts a word left until its most significant bit is set, counting `bits` down. */
  method FindMsb(w0: u32, bits0: nat) returns (bits: nat)
    requires w0 != 0 && bits0 >= 32
    ensures bits <= bits0 <= bits + 31
    ensures Bit(w0, 31 - (bits0 - bits)) && forall j: nat :: 31 - (bits0 - bits) < j < 32 ==> !Bit(w0, j)
  {
    hide Shl32, Bit;
    var w := w0;
    ghost var k := 0;
    bits := bits0;
    while !Bit(w, 31)
      invariant k <= 31 && bits == bits0 - k && Shifted(w, w0, k)
      decreases 31 - k
    {
      hide Shifted;
      ShiftOnce(w, w0, k);
      w := Shl32(w, 1);
      bits := bits - 1;
      k := k + 1;
    }
    assert Bit(w0, 31 - k);
  }

  /** A word other than zero whose bits from 31 - k on are clear has a bit further down. */
  lemma LowBitExists(w: u32, k: nat)
    requires w != 0 && k <= 31 && forall j: nat :: 31 - k <= j < 32 ==> !Bit(w, j)
    ensures k < 31
  {
    var j := HasBitFrom(w, 0);
    WordHighBit(w, j);
  }

  lemma NoBits(d: seq<u32>)
    requires forall i :: 0 <= i < |d| ==> d[i] == 0
    ensures Members(d) == {} && Width(Members(d)) == 0
  {
    forall n: nat
      ensures !Has(d, n)
    {
      ZeroBit(n % 32);
    }
    WidthUnique(Members(d), 0);
  }

  lemma Grown(d: seq<u32>, e: seq<u32>)
    requires |d| <= |e| && e[..|d|] == d && forall i :: |d| <= i < |e| ==> e[i] == 0
    ensures Members(e) == Members(d)
  {
    forall n: nat
      ensures Has(d, n) == Has(e, n)
    {
      ZeroBit(n % 32);
      if n / 32 < |d| {
        assert e[..|d|][n / 32] == e[n / 32];
      }
    }
    SameMembers(d, e);
  }

  lemma SetOneBit(w: u32, j: nat, k: nat)
    requires j < 32 && k < 32
    ensures Bit(Or32(w, Shl32(1, j)), k) == (k == j || Bit(w, k))
  {
    hide Or32, Shl32;
    OrBit(w, Shl32(1, j), k);
    ShlBit(1, j, k);
    if k >= j {
      OneBit(k - j);
    }
  }

  lemma ClearOneBit(w: u32, j: nat, k: nat)
    requires j < 32 && k < 32
    ensures Bit(And32(w, Not32(Shl32(1, j))), k) == (k != j && Bit(w, k))
  {
    hide And32, Not32, Shl32;
    AndBit(w, Not32(Shl32(1, j)), k);
    NotBit(Shl32(1, j), k);
    ShlBit(1, j, k);
    if k >= j {
      OneBit(k - j);
    }
  }

  /** What bitmap_set_bit does to the words. */
  function WithBit(d: seq<u32>, n: nat): seq<u32>
    requires n / 32 < |d|
  {
    d[n / 32 := Or32(d[n / 32], Shl32(1, n % 32))]
  }

  /** What bitmap_clear_bit does to the words. */
  function WithoutBit(d: seq<u32>, n: nat): seq<u32>
    requires n / 32 < |d|
  {
    d[n / 32 := And32(d[n / 32], Not32(Shl32(1, n % 32)))]
  }

  lemma SetOne(d: seq<u32>, n: nat)
    requires n / 32 < |d|
    ensures Members(WithBit(d, n)) == Members(d) + {n}
  {
    hide Or32, Shl32, Members;
    forall m: nat
      ensures m in Members(WithBit(d, n)) <==> m in Members(d) || m == n
    {
      MembersHas(d, m);
      MembersHas(WithBit(d, n), m);
      SetOneBit(d[n / 32], n % 32, m % 32);
    }
  }

  lemma ClearOne(d: seq<u32>, n: nat)
    requires n / 32 < |d|
    ensures Members(WithoutBit(d, n)) == Members(d) - {n}
  {
    hide And32, Not32, Shl32, Members;
    forall m: nat
      ensures m in Members(WithoutBit(d, n)) <==> m in Members(d) && m != n
    {
      MembersHas(d, m);
      MembersHas(WithoutBit(d, n), m);
      ClearOneBit(d[n / 32], n % 32, m % 32);
    }
  }

  lemma SetOneBounded(d: seq<u32>, n: nat, top: nat)
    requires n / 32 < |d| && n / 32 <= top && ZeroAbove(d, top) && Bounded(Members(d)) && n <= BITMAP_MAX
    ensures ZeroAbove(WithBit(d, n), top) && Bounded(Members(WithBit(d, n)))
  {
    hide Members;
    SetOne(d, n);
  }

  lemma ClearOneBounded(d: seq<u32>, n: nat, top: nat)
    requires n / 32 < |d| && n / 32 <= top && ZeroAbove(d, top) && Bounded(Members(d))
    ensures ZeroAbove(WithoutBit(d, n), top) && Bounded(Members(WithoutBit(d, n)))
  {
    hide Members;
    ClearOne(d, n);
  }

  /** The width of an array whose highest non-zero word is known, with its highest bit. */
  lemma TopBit(d: seq<u32>, top: nat, k: nat)
    requires top < |d| && k < 32 && Bit(d[top], k)
    requires ZeroAbove(d, top)
    requires forall j: nat :: k < j < 32 ==> !Bit(d[top], j)
    ensures Width(Members(d)) == 32 * top + k + 1
  {
    var w := 32 * top + k + 1;
    Quotient(w - 1, 32, top, k);
    MembersHas(d, w - 1);
    forall n | n in Members(d)
      ensures n < w
    {
      MembersHas(d, n);
      ZeroBit(n % 32);
    }
    WidthUnique(Members(d), w);
  }

  // ---------------------------------------------------------------- round trips

  /** A set survives its encoding exactly when it does not hold the one bit whose encoding is too long to read. */
  method ThroughString(b: Bitmap) returns (c: Bitmap, ok: bool)
    requires b.Valid()
    modifies b`top
    ensures b.Valid() && c.Valid() && b.Bits() == old(b.Bits())
    ensures ok <==> BITMAP_MAX !in b.Bits()
    ensures ok ==> c.Bits() == b.Bits()
  {
    hide StrBit, Members;
    var n := b.NBytes();
    var p := new byte[n](_ => 0);
    ok := b.ToString(p, n);
    assert p[..] == p[..n];
    ghost var bits := b.Bits();
    EncodingFits(bits);
    c := new Bitmap();
    ok := c.FromString(p[..], true);
    if ok {
      assert forall k: nat :: k in c.Bits() <==> k in bits;
    }
  }

  /** A byte string read in and written out again loses exactly its leading zero bytes. */
  method ThroughBitmap(s: seq<byte>) returns (t: seq<byte>, ok: bool)
    ensures ok <==> |s| <= BITMAP_MAX / 8
    ensures ok ==> t == StripZeros(s)
  {
    hide StrBit, Members, StripZeros;
    var b := new Bitmap();
    t := [];
    ok := b.FromString(s, true);
    if ok {
      ghost var bits := b.Bits();
      var n := b.NBytes();
      var p := new byte[n](_ => 0);
      var done := b.ToString(p, n);
      t := p[..n];
      BytesRoundTrip(s, bits, t);
    }
  }
}
