/** The number that 32-bit words denote, most significant word first, and arithmetic on blocks of such numbers. */
module AddressNumbers {
  import opened Bytes
  import opened Words

  function Number(words: seq<u32>): nat {
    if words == [] then 0 else Number(words[..|words| - 1]) * 0x1_0000_0000 + words[|words| - 1]
  }

  lemma {:induction false} NumberBound(words: seq<u32>)
    ensures Number(words) < Pow2(32 * |words|)
  {
    if words != [] {
      var n := |words| - 1;
      NumberBound(words[..n]);
      Pow2_32();
      Pow2Add(32 * n, 32);
      assert 32 * n + 32 == 32 * |words|;
    }
  }

  /** Bits of a number put together from a high and a low part. */
  lemma {:induction false} ConcatBit(hi: nat, lo: nat, n: nat, k: nat)
    requires lo < Pow2(n)
    ensures Bit(hi * Pow2(n) + lo, k) == if k < n then Bit(lo, k) else Bit(hi, k - n)
  {
    if n > 0 {
      var h := hi * Pow2(n - 1);
      assert hi * Pow2(n) == 2 * h;
      assert (2 * h + lo) / 2 == h + lo / 2 && (2 * h + lo) % 2 == lo % 2;
      if k > 0 {
        ConcatBit(hi, lo / 2, n - 1, k - 1);
      }
    }
  }

  /** Bit k of the number is bit k % 32 of the word it falls into. */
  lemma {:induction false} NumberBit(words: seq<u32>, k: nat)
    requires k < 32 * |words|
    ensures Bit(Number(words), k) == Bit(words[|words| - 1 - k / 32], k % 32)
  {
    var n := |words| - 1;
    Pow2_32();
    ConcatBit(Number(words[..n]), words[n], 32, k);
    if k >= 32 {
      NumberBit(words[..n], k - 32);
    }
  }

  lemma {:induction false} NumberInjective(v: seq<u32>, w: seq<u32>)
    requires |v| == |w| && Number(v) == Number(w)
    ensures v == w
  {
    if v != [] {
      var n := |v| - 1;
      NumberInjective(v[..n], w[..n]);
      assert v == v[..n] + [v[n]] && w == w[..n] + [w[n]];
    }
  }

  /** The words after adding one to the last of them, with carry. */
  function IncWords(w: seq<u32>): (v: seq<u32>)
    ensures |v| == |w|
  {
    if w == [] then []
    else
      var n := |w| - 1;
      var x := Add32(w[n], 1);
      (if x != 0 then w[..n] else IncWords(w[..n])) + [x]
  }

  lemma {:induction false} IncNumber(w: seq<u32>)
    ensures Number(IncWords(w)) == if Number(w) + 1 == Pow2(32 * |w|) then 0 else Number(w) + 1
  {
    if w != [] {
      var n := |w| - 1;
      var front, v := w[..n], IncWords(w);
      IncNumber(front);
      NumberBound(front);
      Pow2Word(n);
      hide Pow2;
      assert v[n] == Add32(w[n], 1);
      assert v[..n] == if v[n] != 0 then front else IncWords(front);
    }
  }

  lemma Pow2Word(n: nat)
    ensures Pow2(32 * (n + 1)) == Pow2(32 * n) * 0x1_0000_0000
  {
    Pow2_32();
    Pow2Add(32 * n, 32);
    assert 32 * n + 32 == 32 * (n + 1);
  }

  lemma IncLast(w: seq<u32>)
    requires w != []
    ensures var front, x := w[..|w| - 1], Add32(w[|w| - 1], 1);
      IncWords(w) == (if x != 0 then front else IncWords(front)) + [x]
  {
  }

  lemma ShrByte(w: nat)
    ensures Shr(w, 8) == w / 256
  {
    ShrIsDiv(w, 8);
    Pow2_32();
  }

  lemma WordBytes(w: u32)
    ensures ((Shr(w, 24) % 256 * 256 + Shr(w, 16) % 256) * 256 + Shr(w, 8) % 256) * 256 + Shr(w, 0) % 256 == w
  {
    hide Shr;
    var w1, w2 := w / 256, w / 256 / 256;
    ShrByte(w);
    ShrAdd(w, 8, 8);
    ShrByte(w1);
    ShrAdd(w, 16, 8);
    ShrByte(w2);
    ShrAdd(w, 0, 0);
    ShrNone(w);
  }

  lemma ShrNone(w: nat)
    ensures Shr(w, 0) == w
  {
  }

  /** A multiple of the block size leaves room for the rest of its block. */
  lemma BlockFits(v: nat, w: nat, j: nat)
    requires j <= w && v < Pow2(w) && v % Pow2(j) == 0
    ensures v == v / Pow2(j) * Pow2(j) && v + Pow2(j) <= Pow2(w)
  {
    hide Pow2;
    Pow2Add(w - j, j);
    Fits(v, Pow2(j), Pow2(w - j));
  }

  lemma Fits(v: nat, size: nat, n: nat)
    requires size > 0 && v < n * size
    ensures v / size < n
    ensures v % size == 0 ==> v == v / size * size && v + size <= n * size
  {
    var q := v / size;
    assert v == size * q + v % size;
    if q >= n {
      MulMono(size, n, q);
    } else {
      MulMono(size, q + 1, n);
      assert size * (q + 1) == size * q + size;
    }
  }

  lemma InBlock(h: nat, n: nat, size: nat)
    requires size > 0 && n % size == 0
    ensures h / size * size == n <==> n <= h <= n + size - 1
    ensures h / size * size == n <==> h / size == n / size
  {
    var q, p := h / size, n / size;
    assert h == size * q + h % size && n == size * p;
    if q < p {
      MulMono(size, q + 1, p);
    } else if q > p {
      MulMono(size, p + 1, q);
    }
  }

  lemma MultipleRemainder(q: nat, size: nat)
    requires size > 0
    ensures q * size % size == 0
  {
    Quotient(q * size, size, q, 0);
  }

  lemma OneWord(w: u32)
    ensures Number([w]) == w
  {
    assert [w][..0] == [];
  }

  lemma {:induction false} ZeroNumber(w: seq<u32>)
    ensures Number(w) == 0 <==> forall i :: 0 <= i < |w| ==> w[i] == 0
  {
    if w != [] {
      var n := |w| - 1;
      ZeroNumber(w[..n]);
      assert Number(w) == 0 ==> forall i :: 0 <= i < n ==> w[..n][i] == w[i];
      assert w[n] == 0 && (forall i :: 0 <= i < n ==> w[..n][i] == 0) ==> Number(w) == 0;
    }
  }
}
