/** The ChaCha20 stream cipher on values: the block function, the 64-bit block counter, and the keystream. */
module ChaCha {
  import opened Bytes
  import opened Words

  type Block = s: seq<u32> | |s| == 16 witness seq(16, _ => 0)

  // ---------------------------------------------------------------- the block function

  /** ROTL32. */
  function Rotl(v: u32, n: nat): u32
    requires 0 < n < 32
  {
    Or32(Shl32(v, n), Shr32(v, 32 - n))
  }

  function Shr32(v: u32, n: nat): u32 {
    ShrSmaller(v, n);
    Shr(v, n)
  }

  lemma {:induction false} ShrSmaller(v: nat, n: nat)
    ensures Shr(v, n) <= v
  {
    if n > 0 {
      ShrSmaller(v / 2, n - 1);
    }
  }

  /** Four of the sixteen words. */
  datatype Quad = Quad(a: u32, b: u32, c: u32, d: u32)

  /** The first and third line of QUARTERROUND add b to a and turn d; the others add d to c and turn b. */
  function TurnD(q: Quad, n: nat): Quad
    requires 0 < n < 32
  {
    var a := Add32(q.a, q.b);
    Quad(a, q.b, q.c, Rotl(Xor32(q.d, a), n))
  }

  function TurnB(q: Quad, n: nat): Quad
    requires 0 < n < 32
  {
    var c := Add32(q.c, q.d);
    Quad(q.a, Rotl(Xor32(q.b, c), n), c, q.d)
  }

  function HalfRound(q: Quad, d: nat, b: nat): Quad
    requires 0 < d < 32 && 0 < b < 32
  {
    TurnB(TurnD(q, d), b)
  }

  function QuarterRound(q: Quad): Quad {
    HalfRound(HalfRound(q, 16, 12), 8, 7)
  }

  function Take(x: Block, a: nat, b: nat, c: nat, d: nat): Quad
    requires a < 16 && b < 16 && c < 16 && d < 16
  {
    Quad(x[a], x[b], x[c], x[d])
  }

  function Put(x: Block, a: nat, b: nat, c: nat, d: nat, q: Quad): Block
    requires a < 16 && b < 16 && c < 16 && d < 16
  {
    x[a := q.a][b := q.b][c := q.c][d := q.d]
  }

  function OnWords(x: Block, a: nat, b: nat, c: nat, d: nat): Block
    requires a < 16 && b < 16 && c < 16 && d < 16
  {
    Put(x, a, b, c, d, QuarterRound(Take(x, a, b, c, d)))
  }

  /** The first n quarter rounds of a column round. */
  function Columns(x: Block, n: nat): Block
    requires n <= 4
  {
    if n == 0 then x else OnWords(Columns(x, n - 1), n - 1, n + 3, n + 7, n + 11)
  }

  /** The first n quarter rounds of a diagonal round. */
  function Diagonals(x: Block, n: nat): Block
    requires n <= 4
  {
    if n == 0 then x else OnWords(Diagonals(x, n - 1), n - 1, 4 + n % 4, 8 + (n + 1) % 4, 12 + (n + 2) % 4)
  }

  function DoubleRounds(x: Block, n: nat): Block {
    if n == 0 then x else Diagonals(Columns(DoubleRounds(x, n - 1), 4), 4)
  }

  function AddWords(x: Block, j: Block): Block {
    seq(16, i requires 0 <= i < 16 => Add32(x[i], j[i]))
  }

  /** Twenty rounds and the final addition. */
  function Core(j: Block): Block { AddWords(DoubleRounds(j, 10), j) }

  // ---------------------------------------------------------------- little-endian words

  /** Byte k of a word, as U32TO8_LITTLE stores it. */
  function LeByte(w: nat, k: nat): byte {
    if k == 0 then w % 0x100 else LeByte(w / 0x100, k - 1)
  }

  /** U8TO32_LITTLE; the shifted bytes do not overlap, so their disjunction is their sum. */
  function Le32(b: seq<byte>): u32
    requires |b| == 4
  {
    (b[0] as nat) + 0x100 * (b[1] as nat) + 0x1_0000 * (b[2] as nat) + 0x100_0000 * (b[3] as nat)
  }

  lemma LeByteOfLe32(b: seq<byte>, k: nat)
    requires |b| == 4 && k < 4
    ensures LeByte(Le32(b), k) == b[k]
  {
    var b0: nat, b1: nat, b2: nat, b3: nat := b[0], b[1], b[2], b[3];
    var w3 := b3;
    var w2 := b2 + 0x100 * w3;
    var w1 := b1 + 0x100 * w2;
    var w0 := b0 + 0x100 * w1;
    assert Le32(b) == w0;
    LeStep(b0, w1, k);
    LeStep(b1, w2, k - 1);
    LeStep(b2, w3, k - 2);
    LeStep(b3, 0, k - 3);
  }

  lemma LeStep(b: nat, rest: nat, k: int)
    requires b < 0x100
    ensures k == 0 ==> LeByte(b + 0x100 * rest, k) == b
    ensures k > 0 ==> LeByte(b + 0x100 * rest, k) == LeByte(rest, k - 1)
  {
  }

  lemma {:induction false} LeByteBit(w: nat, k: nat, i: nat)
    ensures Bit(LeByte(w, k), i) == (i < 8 && Bit(w, 8 * k + i))
  {
    Pow2_32();
    if k == 0 {
      ModBit(w, 8, i);
    } else {
      LeByteBit(w / 0x100, k - 1, i);
      ShrIsDiv(w, 8);
      ShrBit(w, 8, 8 * (k - 1) + i);
    }
  }

  /** Combining words and storing them is combining the stored bytes. */
  lemma LeByteOfXor(v: u32, w: u32, k: nat)
    requires k < 4
    ensures LeByte(Xor32(v, w), k) == Xor8(LeByte(v, k), LeByte(w, k))
  {
    hide Bit, Xor32, Xor8, LeByte;
    forall i: nat | i < 8
      ensures Bit(LeByte(Xor32(v, w), k), i) == Bit(Xor8(LeByte(v, k), LeByte(w, k)), i)
    {
      LeByteBit(Xor32(v, w), k, i);
      LeByteBit(v, k, i);
      LeByteBit(w, k, i);
      XorBit(v, w, 8 * k + i);
      Xor8Bit(LeByte(v, k), LeByte(w, k), i);
    }
    SameBytes(LeByte(Xor32(v, w), k), Xor8(LeByte(v, k), LeByte(w, k)));
  }

  // ---------------------------------------------------------------- counter and keystream

  /** The block counter in words 12 and 13. */
  function Counter(j: Block): nat { (j[12] as nat) + 0x1_0000_0000 * (j[13] as nat) }

  function WithCounter(j: Block, v: nat): Block {
    j[12 := v % 0x1_0000_0000][13 := v / 0x1_0000_0000 % 0x1_0000_0000]
  }

  /** The state with its counter moved on by n blocks, modulo 2^64. */
  function AddBlocks(j: Block, n: nat): Block { WithCounter(j, Counter(j) + n) }

  lemma CounterOf(j: Block, v: nat)
    ensures Counter(WithCounter(j, v)) == v % 0x1_0000_0000_0000_0000
  {
    WideMod(v);
  }

  lemma WideMod(v: nat)
    ensures v % 0x1_0000_0000 + 0x1_0000_0000 * (v / 0x1_0000_0000 % 0x1_0000_0000) == v % 0x1_0000_0000_0000_0000
  {
    var lo, hi := v % 0x1_0000_0000, v / 0x1_0000_0000;
    var q, r := hi / 0x1_0000_0000, hi % 0x1_0000_0000;
    assert hi == 0x1_0000_0000 * q + r;
    assert v == 0x1_0000_0000_0000_0000 * q + (lo + 0x1_0000_0000 * r);
    Quotient(v, 0x1_0000_0000_0000_0000, q, lo + 0x1_0000_0000 * r);
  }

  /** Two counters agree on the 64 bits kept exactly when they differ by a multiple of 2^64. */
  lemma WithCounterMod(j: Block, v: nat)
    ensures WithCounter(j, v) == WithCounter(j, v % 0x1_0000_0000_0000_0000)
  {
    var w := v % 0x1_0000_0000_0000_0000;
    var q := v / 0x1_0000_0000_0000_0000;
    assert v == w + 0x1_0000_0000 * (0x1_0000_0000 * q);
    assert v / 0x1_0000_0000 == w / 0x1_0000_0000 + 0x1_0000_0000 * q;
  }

  lemma WithCounterTwice(j: Block, v: nat, w: nat)
    ensures WithCounter(WithCounter(j, v), w) == WithCounter(j, w)
    ensures WithCounter(j, Counter(j)) == j
  {
  }

  lemma AddBlocksAdds(j: Block, m: nat, n: nat)
    ensures AddBlocks(AddBlocks(j, m), n) == AddBlocks(j, m + n)
    ensures AddBlocks(j, 0) == j
  {
    var v := Counter(j) + m;
    var w := v % 0x1_0000_0000_0000_0000 + n;
    CounterOf(j, v);
    hide WithCounter, Counter;
    WithCounterTwice(j, v, w);
    WithCounterMod(j, w);
    WithCounterMod(j, v + n);
    SumMod(v, n);
  }

  lemma SumMod(v: nat, n: nat)
    ensures (v % 0x1_0000_0000_0000_0000 + n) % 0x1_0000_0000_0000_0000 == (v + n) % 0x1_0000_0000_0000_0000
  {
  }

  /** The words outside the counter stay as they are, and the counter counts modulo 2^64. */
  lemma CounterAdvances(j: Block, n: nat)
    ensures Counter(AddBlocks(j, n)) == (Counter(j) + n) % 0x1_0000_0000_0000_0000
    ensures forall i | 0 <= i < 16 && i != 12 && i != 13 :: AddBlocks(j, n)[i] == j[i]
  {
    CounterOf(j, Counter(j) + n);
  }

  /** Keystream byte i of the state's block. */
  function KeyByte(j: Block, i: nat): byte
    requires i < 64
  {
    LeByte(Core(j)[i / 4], i % 4)
  }

  /** Keystream byte i counted from the state's block on. */
  function Key(j: Block, i: nat): byte { KeyByte(AddBlocks(j, i / 64), i % 64) }

  function Crypt(j: Block, data: seq<byte>): (r: seq<byte>)
    ensures |r| == |data|
  {
    seq(|data|, i requires 0 <= i < |data| => Xor8(data[i], Key(j, i)))
  }

  /** The state after that many bytes: a block started is a block used up. */
  function After(j: Block, len: nat): Block { AddBlocks(j, (len + 63) / 64) }

  /** Encrypting twice from equal states gives the message back. */
  lemma CryptTwice(j: Block, data: seq<byte>)
    ensures Crypt(j, Crypt(j, data)) == data
  {
    hide Key, Xor8;
    forall i | 0 <= i < |data|
      ensures Crypt(j, Crypt(j, data))[i] == data[i]
    {
      Xor8Twice(data[i], Key(j, i));
    }
  }

  /** Keystream bytes after n whole blocks. */
  lemma KeyShift(j: Block, n: nat, i: nat)
    ensures Key(j, 64 * n + i) == Key(AddBlocks(j, n), i)
  {
    hide KeyByte, AddBlocks;
    Quotient(64 * n + i, 64, n + i / 64, i % 64);
    AddBlocksAdds(j, n, i / 64);
  }

  /** Cutting a message after whole blocks changes neither its ciphertext nor the final state. */
  lemma CryptCut(j: Block, n: nat, front: seq<byte>, rest: seq<byte>)
    requires |front| == 64 * n
    ensures Crypt(j, front + rest) == Crypt(j, front) + Crypt(After(j, |front|), rest)
    ensures After(j, |front + rest|) == After(After(j, |front|), |rest|)
  {
    hide Key, Xor8, AddBlocks;
    assert (64 * n + 63) / 64 == n;
    forall i | 0 <= i < |rest|
      ensures Key(j, |front| + i) == Key(After(j, |front|), i)
    {
      KeyShift(j, n, i);
    }
    AddBlocksAdds(j, n, (|rest| + 63) / 64);
    assert (|front| + |rest| + 63) / 64 == n + (|rest| + 63) / 64;
  }

  // ---------------------------------------------------------------- keys and nonces

  function Chars(s: string): (r: seq<byte>)
    requires forall i | 0 <= i < |s| :: s[i] as int < 256
    ensures |r| == |s|
  {
    seq(|s|, i requires 0 <= i < |s| => s[i] as int)
  }

  const SIGMA := "expand 32-byte k"
  const TAU := "expand 16-byte k"

  function Words4(b: seq<byte>): (r: seq<u32>)
    requires |b| == 16
    ensures |r| == 4
  {
    [Le32(b[..4]), Le32(b[4..8]), Le32(b[8..12]), Le32(b[12..])]
  }

  /** The words 0 to 11 a key gives: a 16-byte key is used twice. */
  function KeyWords(k: seq<byte>): (r: seq<u32>)
    requires |k| == 32 || |k| == 16
    ensures |r| == 12
  {
    if |k| == 32 then Words4(Chars(SIGMA)) + Words4(k[..16]) + Words4(k[16..])
    else Words4(Chars(TAU)) + Words4(k) + Words4(k)
  }

  function Words2(b: seq<byte>): (r: seq<u32>)
    requires |b| == 8
    ensures |r| == 2
  {
    [Le32(b[..4]), Le32(b[4..])]
  }

  /** The words 12 to 15: the counter, zero when there is none, and the nonce. */
  function IvWords(iv: seq<byte>, counter: Option<seq<byte>>): (r: seq<u32>)
    requires |iv| == 8
    requires counter.Some? ==> |counter.value| == 8
    ensures |r| == 4
  {
    (if counter.None? then [0, 0] else Words2(counter.value)) + Words2(iv)
  }

  lemma Le32Injective(a: seq<byte>, b: seq<byte>)
    requires |a| == |b| == 4 && Le32(a) == Le32(b)
    ensures a == b
  {
    hide Le32;
    forall k | 0 <= k < 4
      ensures a[k] == b[k]
    {
      LeByteOfLe32(a, k);
      LeByteOfLe32(b, k);
    }
  }

  lemma Words4Injective(a: seq<byte>, b: seq<byte>)
    requires |a| == |b| == 16 && Words4(a) == Words4(b)
    ensures a == b
  {
    hide Le32;
    assert a == a[..4] + a[4..8] + a[8..12] + a[12..];
    assert b == b[..4] + b[4..8] + b[8..12] + b[12..];
    assert Words4(a)[0] == Words4(b)[0] && Words4(a)[1] == Words4(b)[1];
    assert Words4(a)[2] == Words4(b)[2] && Words4(a)[3] == Words4(b)[3];
    Le32Injective(a[..4], b[..4]);
    Le32Injective(a[4..8], b[4..8]);
    Le32Injective(a[8..12], b[8..12]);
    Le32Injective(a[12..], b[12..]);
  }

  lemma Words2Injective(a: seq<byte>, b: seq<byte>)
    requires |a| == |b| == 8 && Words2(a) == Words2(b)
    ensures a == b
  {
    hide Le32;
    assert a == a[..4] + a[4..] && b == b[..4] + b[4..];
    assert Words2(a)[0] == Words2(b)[0] && Words2(a)[1] == Words2(b)[1];
    Le32Injective(a[..4], b[..4]);
    Le32Injective(a[4..], b[4..]);
  }

  /** Different keys of one size, nonces or counters give different states. */
  lemma StateDetermines(k: seq<byte>, l: seq<byte>, iv: seq<byte>, jv: seq<byte>)
    requires |k| == |l| && (|k| == 32 || |k| == 16) && |iv| == |jv| == 8
    requires KeyWords(k) + IvWords(iv, None) == KeyWords(l) + IvWords(jv, None)
    ensures k == l && iv == jv
  {
    hide Words4, Words2;
    var s, t := KeyWords(k) + IvWords(iv, None), KeyWords(l) + IvWords(jv, None);
    assert Words2(iv) == s[14..] && Words2(jv) == t[14..];
    Words2Injective(iv, jv);
    if |k| == 32 {
      assert Words4(k[..16]) == s[4..8] && Words4(l[..16]) == t[4..8];
      assert Words4(k[16..]) == s[8..12] && Words4(l[16..]) == t[8..12];
      Words4Injective(k[..16], l[..16]);
      Words4Injective(k[16..], l[16..]);
      assert k == k[..16] + k[16..] && l == l[..16] + l[16..];
    } else {
      assert Words4(k) == s[4..8] && Words4(l) == t[4..8];
      Words4Injective(k, l);
    }
  }
}
