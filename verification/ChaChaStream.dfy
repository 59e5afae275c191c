/** The cipher context updated in place, and the encryption loop over caller buffers. */
module ChaChaStream {
  import opened Bytes
  import opened Words
  import opened Buffers
  import opened ChaCha

  /** QUARTERROUND on four of the working words. */
  method QuarterRoundInPlace(x: array<u32>, a: nat, b: nat, c: nat, d: nat)
    requires x.Length == 16 && a < b < 16 && b < c < 16 && c < d < 16
    modifies x
    ensures x[..] == OnWords(old(x[..]), a, b, c, d)
  {
    hide Add32, Xor32, Rotl;
    x[a] := Add32(x[a], x[b]);
    x[d] := Rotl(Xor32(x[d], x[a]), 16);
    x[c] := Add32(x[c], x[d]);
    x[b] := Rotl(Xor32(x[b], x[c]), 12);
    x[a] := Add32(x[a], x[b]);
    x[d] := Rotl(Xor32(x[d], x[a]), 8);
    x[c] := Add32(x[c], x[d]);
    x[b] := Rotl(Xor32(x[b], x[c]), 7);
  }

  lemma ColumnsNone(x: Block)
    ensures Columns(x, 0) == x && Diagonals(x, 0) == x
  {
  }

  lemma ColumnStep(x: Block, n: nat, y: Block)
    requires n < 4 && y == Columns(x, n)
    ensures Columns(x, n + 1) == OnWords(y, n, n + 4, n + 8, n + 12)
  {
    hide OnWords;
  }

  lemma DiagonalStep(x: Block, n: nat, y: Block)
    requires n < 4 && y == Diagonals(x, n)
    ensures Diagonals(x, n + 1) == OnWords(y, n, 4 + (n + 1) % 4, 8 + (n + 2) % 4, 12 + (n + 3) % 4)
  {
    hide OnWords;
  }

  /** The round loop. */
  method RoundsInPlace(x: array<u32>)
    requires x.Length == 16
    modifies x
    ensures x[..] == DoubleRounds(old(x[..]), 10)
  {
    hide OnWords, Columns, Diagonals;
    ghost var j: Block := x[..];
    var i := 20;
    while i > 0
      invariant i <= 20 && i % 2 == 0 && i >= 0
      invariant x[..] == DoubleRounds(j, (20 - i) / 2)
    {
      ghost var b: Block := x[..];
      assert Columns(b, 0) == b by { ColumnsNone(b); }
      ColumnStep(b, 0, x[..]);
      QuarterRoundInPlace(x, 0, 4, 8, 12);
      ColumnStep(b, 1, x[..]);
      QuarterRoundInPlace(x, 1, 5, 9, 13);
      ColumnStep(b, 2, x[..]);
      QuarterRoundInPlace(x, 2, 6, 10, 14);
      ColumnStep(b, 3, x[..]);
      QuarterRoundInPlace(x, 3, 7, 11, 15);
      ghost var d: Block := x[..];
      assert Diagonals(d, 0) == d by { ColumnsNone(d); }
      DiagonalStep(d, 0, x[..]);
      QuarterRoundInPlace(x, 0, 5, 10, 15);
      DiagonalStep(d, 1, x[..]);
      QuarterRoundInPlace(x, 1, 6, 11, 12);
      DiagonalStep(d, 2, x[..]);
      QuarterRoundInPlace(x, 2, 7, 8, 13);
      DiagonalStep(d, 3, x[..]);
      QuarterRoundInPlace(x, 3, 4, 9, 14);
      i := i - 2;
    }
  }

  /** The sixteen words of a message block. */
  function MessageWord(b: seq<byte>, k: nat): u32
    requires |b| == 64 && k < 16
  {
    Le32(b[4 * k..4 * k + 4])
  }

  function XorWords(x: Block, b: seq<byte>): Block
    requires |b| == 64
  {
    seq(16, k requires 0 <= k < 16 => Xor32(x[k], MessageWord(b, k)))
  }

  function StoreWords(x: Block): (r: seq<byte>)
    ensures |r| == 64
  {
    seq(64, i requires 0 <= i < 64 => LeByte(x[i / 4], i % 4))
  }

  lemma KeyOfFirst(j: Block, i: nat)
    requires i < 64
    ensures Key(j, i) == KeyByte(j, i)
  {
    hide KeyByte, AddBlocks;
    AddBlocksAdds(j, 0, 0);
  }

  lemma Xor8Commutes(a: byte, b: byte)
    ensures Xor8(a, b) == Xor8(b, a)
  {
    hide Xor8, Bit;
    forall i: nat | i < 8
      ensures Bit(Xor8(a, b), i) == Bit(Xor8(b, a), i)
    {
      Xor8Bit(a, b, i);
      Xor8Bit(b, a, i);
    }
    SameBytes(Xor8(a, b), Xor8(b, a));
  }

  /** Working on words loaded and stored little-endian gives the keystream bytewise. */
  lemma BlockIsKeystream(j: Block, b: seq<byte>)
    requires |b| == 64
    ensures StoreWords(XorWords(Core(j), b)) == Crypt(j, b)
  {
    hide Core, Key, Xor8, Xor32, Le32, LeByte;
    var x := Core(j);
    forall i | 0 <= i < 64
      ensures StoreWords(XorWords(x, b))[i] == Crypt(j, b)[i]
    {
      var k, r := i / 4, i % 4;
      LeByteOfXor(x[k], MessageWord(b, k), r);
      LeByteOfLe32(b[4 * k..4 * k + 4], r);
      KeyOfFirst(j, i);
      Xor8Commutes(b[i], Key(j, i));
    }
  }

  /** One block: all of the input is read before any output is written. */
  method CryptBlockInPlace(j: Block, m: array<byte>, mo: nat, c: array<byte>, co: nat)
    requires mo + 64 <= m.Length && co + 64 <= c.Length
    modifies c
    ensures c[..] == old(c[..co]) + Crypt(j, old(m[mo..mo + 64])) + old(c[co + 64..])
  {
    hide DoubleRounds, Crypt, Add32, Xor32, LeByte, MessageWord;
    ghost var b, was := m[mo..mo + 64], c[..];
    var x := new u32[16](i requires 0 <= i < 16 => j[i]);
    assert x[..] == j;
    RoundsInPlace(x);
    ghost var r := x[..];
    forall i | 0 <= i < 16 {
      x[i] := Add32(x[i], j[i]);
    }
    assert x[..] == AddWords(r, j);
    var block := m[mo..mo + 64];
    assert block == b;
    forall i | 0 <= i < 16 {
      x[i] := Xor32(x[i], MessageWord(block, i));
    }
    assert x[..] == XorWords(Core(j), b);
    BlockIsKeystream(j, b);
    forall i | 0 <= i < 64 {
      c[co + i] := LeByte(x[i / 4], i % 4);
    }
    assert c[co..co + 64] == StoreWords(x[..]);
    assert c[..] == was[..co] + c[co..co + 64] + was[co + 64..];
    assert was[..co] == old(c[..co]) && was[co + 64..] == old(c[co + 64..]);
    assert c[co..co + 64] == Crypt(j, b);
  }

  lemma NextCounter(lo: u32, hi: u32)
    ensures var v := lo as nat + 0x1_0000_0000 * hi as nat + 1;
      v % 0x1_0000_0000 == Add32(lo, 1)
      && v / 0x1_0000_0000 % 0x1_0000_0000 == if Add32(lo, 1) == 0 then Add32(hi, 1) else hi
  {
  }

  /** PLUSONE on word 12, carried into word 13 when it wraps. */
  method NextBlock(j: Block) returns (r: Block)
    ensures r == AddBlocks(j, 1)
  {
    var lo, hi := j[12], j[13];
    NextCounter(lo, hi);
    lo := Add32(lo, 1);
    if lo == 0 {
      hi := Add32(hi, 1);
    }
    r := j[12 := lo][13 := hi];
  }

  /** A stretch of the ciphertext that starts on a block boundary. */
  lemma CryptSlice(j: Block, data: seq<byte>, n: nat, k: nat)
    requires 64 * n + k <= |data|
    ensures Crypt(j, data)[64 * n..64 * n + k] == Crypt(AddBlocks(j, n), data[64 * n..64 * n + k])
  {
    hide Key, AddBlocks, Xor8;
    var whole, part := Crypt(j, data), Crypt(AddBlocks(j, n), data[64 * n..64 * n + k]);
    forall i | 0 <= i < k
      ensures whole[64 * n..64 * n + k][i] == part[i]
    {
      KeyShift(j, n, i);
    }
  }

  lemma CryptPrefix(j: Block, data: seq<byte>, k: nat)
    requires k <= |data|
    ensures Crypt(j, data)[..k] == Crypt(j, data[..k])
  {
    hide Key, Xor8;
  }

  method Copy(from: array<byte>, fo: nat, to: array<byte>, at: nat, n: nat)
    requires from != to && fo + n <= from.Length && at + n <= to.Length
    modifies to
    ensures to[..] == old(to[..at]) + from[fo..fo + n] + old(to[at + n..])
  {
    hide Splice;
    ghost var data, was := from[fo..fo + n], to[..];
    SpliceAll(was, at, data);
    for i := 0 to n
      invariant to[..] == Splice(was, at, data, i)
    {
      SpliceMore(was, at, data, i, [data[i]]);
      ghost var b := to[..];
      to[at + i] := from[fo + i];
      assert to[..] == b[..at + i] + [data[i]] + b[at + i + 1..];
    }
  }

  /** The last block: through a temporary buffer when it is short. */
  method CryptTail(j: Block, m: array<byte>, mo: nat, c: array<byte>, co: nat, bytes: nat)
    requires 0 < bytes <= 64 && mo + bytes <= m.Length && co + bytes <= c.Length
    modifies c
    ensures c[..] == old(c[..co]) + Crypt(j, old(m[mo..mo + bytes])) + old(c[co + bytes..])
  {
    hide Crypt;
    if bytes == 64 {
      CryptBlockInPlace(j, m, mo, c, co);
    } else {
      var tmp := new byte[64];
      Copy(m, mo, tmp, 0, bytes);
      ghost var whole := tmp[0..64];
      assert whole[..bytes] == m[mo..mo + bytes];
      CryptPrefix(j, whole, bytes);
      CryptBlockInPlace(j, tmp, 0, tmp, 0);
      assert tmp[0..bytes] == Crypt(j, whole)[..bytes];
      Copy(tmp, 0, c, co, bytes);
    }
  }

  /** The rounds of the block loop before its last one. */
  method CryptBlocks(j0: Block, m: array<byte>, mo: nat, c: array<byte>, co: nat, bytes: nat)
      returns (j: Block, n: nat)
    requires 0 < bytes && mo + bytes <= m.Length && co + bytes <= c.Length
    requires m == c ==> mo == co
    modifies c
    ensures 64 * n < bytes <= 64 * n + 64
    ensures j == AddBlocks(j0, n)
    ensures c[..] == Splice(old(c[..]), co, Crypt(j0, old(m[mo..mo + bytes])), 64 * n)
    ensures Kept(m[..], mo, old(m[mo..mo + bytes]), 64 * n)
  {
    hide Crypt, AddBlocks, Splice, Kept;
    ghost var data, was := m[mo..mo + bytes], c[..];
    ghost var out := Crypt(j0, data);
    AddBlocksAdds(j0, 0, 0);
    SpliceAll(was, co, out);
    KeptAll(m[..], mo, bytes);
    j, n := j0, 0;
    var left, mp, cp := bytes, mo, co;
    while left > 64
      invariant 0 < left && 64 * n + left == bytes && mp == mo + 64 * n && cp == co + 64 * n
      invariant j == AddBlocks(j0, n)
      invariant c[..] == Splice(was, co, out, 64 * n)
      invariant Kept(m[..], mo, data, 64 * n)
    {
      ghost var s := m[..];
      KeptSlice(s, mo, data, 64 * n, 64);
      assert m[mp..mp + 64] == s[mp..mp + 64];
      CryptSlice(j0, data, n, 64);
      SpliceMore(was, co, out, 64 * n, out[64 * n..64 * n + 64]);
      CryptBlockInPlace(j, m, mp, c, cp);
      assert m[..][mp + 64..] == s[mp + 64..];
      KeptMore(s, m[..], mo, data, 64 * n, 64);
      j := NextBlock(j);
      AddBlocksAdds(j0, n, 1);
      left, mp, cp := left - 64, mp + 64, cp + 64;
      n := n + 1;
    }
  }

  /** The loop over all blocks; the result is the state after the last one. */
  method CryptBuffer(j0: Block, m: array<byte>, mo: nat, c: array<byte>, co: nat, bytes: nat) returns (j: Block)
    requires 0 < bytes && mo + bytes <= m.Length && co + bytes <= c.Length
    requires m == c ==> mo == co
    modifies c
    ensures j == After(j0, bytes)
    ensures c[..] == old(c[..co]) + Crypt(j0, old(m[mo..mo + bytes])) + old(c[co + bytes..])
  {
    hide Crypt, AddBlocks, Splice, Kept, After;
    ghost var data, was := m[mo..mo + bytes], c[..];
    var n;
    j, n := CryptBlocks(j0, m, mo, c, co, bytes);
    ghost var mid := c[..];
    LastBlock(j0, data, n, m[..], mo, was, co, mid);
    CryptTail(j, m, mo + 64 * n, c, co + 64 * n, bytes - 64 * n);
    assert c[..] == mid[..co + 64 * n] + Crypt(j, data[64 * n..]) + mid[co + bytes..];
    j := NextBlock(j);
  }

  /** What the last block adds completes the buffer. */
  lemma LastBlock(j0: Block, data: seq<byte>, n: nat, m: seq<byte>, mo: nat, was: seq<byte>, co: nat, mid: seq<byte>)
    requires 64 * n < |data| <= 64 * n + 64 && co + |data| <= |was|
    requires Kept(m, mo, data, 64 * n) && mid == Splice(was, co, Crypt(j0, data), 64 * n)
    ensures |mid| == |was| && m[mo + 64 * n..mo + |data|] == data[64 * n..]
    ensures mid[..co + 64 * n] + Crypt(AddBlocks(j0, n), data[64 * n..]) + mid[co + |data|..]
         == was[..co] + Crypt(j0, data) + was[co + |data|..]
    ensures AddBlocks(AddBlocks(j0, n), 1) == After(j0, |data|)
  {
    hide Crypt, AddBlocks, Splice;
    var left := |data| - 64 * n;
    var out := Crypt(j0, data);
    SpliceAll(was, co, out);
    CryptSlice(j0, data, n, left);
    assert data[64 * n..] == data[64 * n..64 * n + left];
    SpliceMore(was, co, out, 64 * n, out[64 * n..64 * n + left]);
    AddBlocksAdds(j0, n, 1);
    assert (|data| + 63) / 64 == n + 1;
  }

  /** struct chacha_ctx. */
  class ChachaCtx {
    const input: array<u32>

    ghost predicate Valid()
    {
      input.Length == 16
    }

    ghost function State(): (j: Block)
      requires Valid()
      reads input
      ensures j == input[..]
    {
      input[..]
    }

    constructor ()
      ensures Valid() && fresh(input)
    {
      input := new u32[16];
    }

    method SetWords(at: nat, w: seq<u32>)
      requires Valid() && at + |w| <= 16
      modifies input
      ensures State() == old(State()[..at]) + w + old(State()[at + |w|..])
    {
      forall i | 0 <= i < |w| {
        input[at + i] := w[i];
      }
    }

    /** chacha_keysetup. */
    method KeySetup(k: seq<byte>, kbits: nat)
      requires Valid() && |k| == if kbits == 256 then 32 else 16
      modifies input
      ensures State() == KeyWords(k) + old(State()[12..])
    {
      hide Words4, Chars;
      ghost var was := State();
      SetWords(4, Words4(k[..16]));
      if kbits == 256 {
        SetWords(8, Words4(k[16..]));
        SetWords(0, Words4(Chars(SIGMA)));
      } else {
        SetWords(8, Words4(k[..16]));
        SetWords(0, Words4(Chars(TAU)));
        assert k[..16] == k;
      }
      assert State() == KeyWords(k) + was[12..];
    }

    /** chacha_ivsetup. */
    method IvSetup(iv: seq<byte>, counter: Option<seq<byte>>)
      requires Valid() && |iv| == 8
      requires counter.Some? ==> |counter.value| == 8
      modifies input
      ensures State() == old(State()[..12]) + IvWords(iv, counter)
    {
      SetWords(12, IvWords(iv, counter));
    }

    /** chacha_encrypt_bytes. */
    method EncryptBytes(m: array<byte>, mo: nat, c: array<byte>, co: nat, bytes: nat)
      requires Valid() && mo + bytes <= m.Length && co + bytes <= c.Length
      requires m == c ==> mo == co
      modifies input, c
      ensures State() == After(old(State()), bytes)
      ensures c[..] == old(c[..co]) + Crypt(old(State()), old(m[mo..mo + bytes])) + old(c[co + bytes..])
    {
      hide Crypt, AddBlocks;
      ghost var j0 := State();
      AddBlocksAdds(j0, 0, 0);
      if bytes == 0 {
        assert c[..] == c[..co] + [] + c[co..];
        return;
      }
      var j := CryptBuffer(input[..], m, mo, c, co, bytes);
      CounterAdvances(j0, (bytes + 63) / 64);
      input[12] := j[12];
      input[13] := j[13];
      assert State() == j;
    }
  }
}
