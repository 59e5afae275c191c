/** The bits of an unsigned number, and C's bitwise operators on 32-bit words in terms of them. */
module Words {
  import opened Bytes

  function Pow2(n: nat): (p: nat)
    ensures p >= 1
  {
    if n == 0 then 1 else 2 * Pow2(n - 1)
  }

  predicate Bit(w: nat, k: nat) {
    if k == 0 then w % 2 == 1 else Bit(w / 2, k - 1)
  }

  /** The number whose low `n` bits are given by `f`. */
  function FromBits(f: nat -> bool, n: nat): (w: nat)
    ensures w < Pow2(n)
  {
    if n == 0 then 0 else (if f(0) then 1 else 0) + 2 * FromBits((k: nat) => f(k + 1), n - 1)
  }

  lemma {:induction false} FromBitsBit(f: nat -> bool, n: nat, k: nat)
    ensures Bit(FromBits(f, n), k) == (k < n && f(k))
  {
    if n == 0 {
      ZeroBit(k);
    } else {
      var g := (j: nat) => f(j + 1);
      var rest := FromBits(g, n - 1);
      assert FromBits(f, n) / 2 == rest;
      if k > 0 {
        FromBitsBit(g, n - 1, k - 1);
      }
    }
  }

  lemma {:induction false} ZeroBit(k: nat)
    ensures !Bit(0, k)
  {
    if k > 0 {
      ZeroBit(k - 1);
    }
  }

  /** Numbers below 2^n with the same bits are equal. */
  lemma {:induction false} SameBits(w: nat, v: nat, n: nat)
    requires w < Pow2(n) && v < Pow2(n)
    requires forall k: nat :: k < n ==> Bit(w, k) == Bit(v, k)
    ensures w == v
  {
    if n > 0 {
      assert Bit(w, 0) == Bit(v, 0);
      forall k: nat | k < n - 1
        ensures Bit(w / 2, k) == Bit(v / 2, k)
      {
        assert Bit(w, k + 1) == Bit(v, k + 1);
      }
      SameBits(w / 2, v / 2, n - 1);
    }
  }

  lemma {:induction false} HighBit(w: nat, n: nat, k: nat)
    requires w < Pow2(n) && k >= n
    ensures !Bit(w, k)
  {
    if n == 0 {
      ZeroBit(k);
    } else {
      HighBit(w / 2, n - 1, k - 1);
    }
  }

  /** A number above zero has a bit set, and any number at least 2^n has one from n on. */
  lemma {:induction false} HasBitFrom(w: nat, n: nat) returns (k: nat)
    requires w >= Pow2(n)
    ensures k >= n && Bit(w, k)
  {
    if n > 0 {
      k := HasBitFrom(w / 2, n - 1);
      k := k + 1;
    } else if w % 2 == 1 {
      k := 0;
    } else {
      k := HasBitFrom(w / 2, 0);
      k := k + 1;
    }
  }

  // ---------------------------------------------------------------- shifts

  function Shr(w: nat, j: nat): nat {
    if j == 0 then w else Shr(w / 2, j - 1)
  }

  lemma {:induction false} ShrBit(w: nat, j: nat, k: nat)
    ensures Bit(Shr(w, j), k) == Bit(w, j + k)
  {
    if j > 0 {
      ShrBit(w / 2, j - 1, k);
    }
  }

  lemma {:induction false} ShrIsDiv(w: nat, j: nat)
    ensures Shr(w, j) == w / Pow2(j)
  {
    if j > 0 {
      ShrIsDiv(w / 2, j - 1);
      DivDiv(w, Pow2(j - 1));
    }
  }

  lemma {:induction false} ShrAdd(w: nat, i: nat, j: nat)
    ensures Shr(w, i + j) == Shr(Shr(w, i), j)
  {
    if i > 0 {
      ShrAdd(w / 2, i - 1, j);
    }
  }

  lemma DivDiv(w: nat, m: nat)
    requires m > 0
    ensures (w / 2) / m == w / (2 * m)
  {
    var q, r := w / (2 * m), w % (2 * m);
    assert w == 2 * m * q + r;
    assert w / 2 == m * q + r / 2;
    assert r / 2 < m;
    Quotient(m * q + r / 2, m, q, r / 2);
  }

  lemma Quotient(n: nat, m: nat, q: nat, r: nat)
    requires r < m && n == m * q + r
    ensures n / m == q && n % m == r
  {
    var q', r' := n / m, n % m;
    assert n == m * q' + r';
    if q' > q {
      MulMono(m, q + 1, q');
    } else if q' < q {
      MulMono(m, q' + 1, q);
    }
  }

  lemma MulMono(m: nat, a: nat, b: nat)
    requires a <= b
    ensures m * a <= m * b
  {
  }

  /** Keeping the low `n` bits. */
  lemma {:induction false} ModBit(w: nat, n: nat, k: nat)
    ensures Bit(w % Pow2(n), k) == (k < n && Bit(w, k))
  {
    if n == 0 {
      ZeroBit(k);
    } else {
      ModHalf(w, Pow2(n - 1));
      if k > 0 {
        ModBit(w / 2, n - 1, k - 1);
      }
    }
  }

  lemma ModHalf(w: nat, m: nat)
    requires m > 0
    ensures (w % (2 * m)) / 2 == (w / 2) % m && (w % (2 * m)) % 2 == w % 2
  {
    var q, r, b := w / 2 / m, w / 2 % m, w % 2;
    assert w / 2 == m * q + r;
    assert (2 * m) * q == 2 * (m * q);
    Quotient(w, 2 * m, q, 2 * r + b);
  }

  // ---------------------------------------------------------------- words

  lemma Pow2_32()
    ensures Pow2(8) == 256 && Pow2(16) == U16 && Pow2(32) == U32
  {
    assert Pow2(8) == 256;
    assert Pow2(16) == 256 * Pow2(8) by { Pow2Add(8, 8); }
    assert Pow2(32) == U16 * U16 by { Pow2Add(16, 16); }
  }

  lemma {:induction false} Pow2Add(a: nat, b: nat)
    ensures Pow2(a + b) == Pow2(a) * Pow2(b)
  {
    if a > 0 {
      Pow2Add(a - 1, b);
    }
  }

  lemma {:induction false} Pow2Mono(a: nat, b: nat)
    requires a <= b
    ensures Pow2(a) <= Pow2(b)
  {
    if a < b {
      Pow2Mono(a, b - 1);
    }
  }

  function Word(f: nat -> bool): u32 {
    Pow2_32();
    FromBits(f, 32)
  }

  function AndBits(w: nat, v: nat): nat -> bool { (k: nat) => Bit(w, k) && Bit(v, k) }

  function OrBits(w: nat, v: nat): nat -> bool { (k: nat) => Bit(w, k) || Bit(v, k) }

  function XorBits(w: nat, v: nat): nat -> bool { (k: nat) => Bit(w, k) != Bit(v, k) }

  function NotBits(w: nat): nat -> bool { (k: nat) => !Bit(w, k) }

  function ShlBits(w: nat, j: nat): nat -> bool { (k: nat) => k >= j && Bit(w, k - j) }

  function And32(w: u32, v: u32): u32 { Word(AndBits(w, v)) }

  function Or32(w: u32, v: u32): u32 { Word(OrBits(w, v)) }

  function Xor32(w: u32, v: u32): u32 { Word(XorBits(w, v)) }

  function Xor8(a: byte, b: byte): byte {
    Pow2_32();
    FromBits(XorBits(a, b), 8)
  }

  function Not32(w: u32): u32 { Word(NotBits(w)) }

  /** Left shift, dropping what leaves the word. */
  function Shl32(w: u32, j: nat): u32 { Word(ShlBits(w, j)) }

  lemma AndBit(w: u32, v: u32, k: nat)
    ensures Bit(And32(w, v), k) == (Bit(w, k) && Bit(v, k))
  {
    hide FromBits;
    FromBitsBit(AndBits(w, v), 32, k);
    WordHighBit(w, k);
  }

  lemma OrBit(w: u32, v: u32, k: nat)
    ensures Bit(Or32(w, v), k) == (Bit(w, k) || Bit(v, k))
  {
    hide FromBits;
    FromBitsBit(OrBits(w, v), 32, k);
    WordHighBit(w, k);
    WordHighBit(v, k);
  }

  lemma XorBit(w: u32, v: u32, k: nat)
    ensures k < 32 ==> Bit(Xor32(w, v), k) == (Bit(w, k) != Bit(v, k))
  {
    hide FromBits;
    FromBitsBit(XorBits(w, v), 32, k);
  }

  lemma Xor8Bit(a: byte, b: byte, k: nat)
    ensures k < 8 ==> Bit(Xor8(a, b), k) == (Bit(a, k) != Bit(b, k))
  {
    hide FromBits;
    FromBitsBit(XorBits(a, b), 8, k);
  }

  lemma SameBytes(a: byte, b: byte)
    requires forall k: nat :: k < 8 ==> Bit(a, k) == Bit(b, k)
    ensures a == b
  {
    Pow2_32();
    SameBits(a, b, 8);
  }

  /** Masking twice with the same key byte gives the byte back. */
  lemma Xor8Twice(a: byte, k: byte)
    ensures Xor8(Xor8(a, k), k) == a
  {
    hide Xor8, Bit;
    forall i: nat | i < 8
      ensures Bit(Xor8(Xor8(a, k), k), i) == Bit(a, i)
    {
      Xor8Bit(Xor8(a, k), k, i);
      Xor8Bit(a, k, i);
    }
    SameBytes(Xor8(Xor8(a, k), k), a);
  }

  lemma NotBit(w: u32, k: nat)
    ensures Bit(Not32(w), k) == (k < 32 && !Bit(w, k))
  {
    hide FromBits;
    FromBitsBit(NotBits(w), 32, k);
  }

  lemma ShlBit(w: u32, j: nat, k: nat)
    ensures Bit(Shl32(w, j), k) == (j <= k < 32 && Bit(w, k - j))
  {
    hide FromBits;
    FromBitsBit(ShlBits(w, j), 32, k);
  }

  lemma WordHighBit(w: u32, k: nat)
    ensures k >= 32 ==> !Bit(w, k)
  {
    if k >= 32 {
      Pow2_32();
      HighBit(w, 32, k);
    }
  }

  /** Words with the same bits are equal. */
  lemma SameWords(w: u32, v: u32)
    requires forall k: nat :: k < 32 ==> Bit(w, k) == Bit(v, k)
    ensures w == v
  {
    Pow2_32();
    SameBits(w, v, 32);
  }

  lemma OneBit(k: nat)
    ensures Bit(1, k) == (k == 0)
  {
    if k > 0 {
      ZeroBit(k - 1);
    }
  }
}
