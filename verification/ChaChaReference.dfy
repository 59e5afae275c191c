/** ChaCha20 against its definition in section 2 of RFC 8439, which is stated here by bits, sums and positions. */
module ChaChaReference {
  import opened Bytes
  import opened Words
  import opened ChaCha

  // ---------------------------------------------------------------- the quarter round (section 2.1)

  /** r is the exclusive or of v and w, rotated left by n bits. */
  ghost predicate Mixed(v: u32, w: u32, r: u32, n: nat) {
    forall k: nat | k < 32 :: Bit(r, (k + n) % 32) == (Bit(v, k) != Bit(w, k))
  }

  ghost predicate Sum(a: u32, b: u32, s: u32) { s as nat == (a as nat + b as nat) % 0x1_0000_0000 }

  /** Two lines of the quarter round: add b to a and turn d, add d to c and turn b. */
  ghost predicate IsHalf(q: Quad, r: Quad, n: nat, m: nat) {
    Sum(q.a, q.b, r.a) && Mixed(q.d, r.a, r.d, n) && Sum(q.c, r.d, r.c) && Mixed(q.b, r.c, r.b, m)
  }

  /** The four lines of the quarter round, with rotations by 16, 12, 8 and 7. */
  ghost predicate IsQuarter(q: Quad, r: Quad) {
    exists mid :: IsHalf(q, mid, 16, 12) && IsHalf(mid, r, 8, 7)
  }

  lemma RotlBit(v: u32, n: nat, k: nat)
    requires 0 < n < 32 && k < 32
    ensures Bit(Rotl(v, n), (k + n) % 32) == Bit(v, k)
  {
    hide Bit, Or32, Shl32, Shr;
    var p := (k + n) % 32;
    OrBit(Shl32(v, n), Shr32(v, 32 - n), p);
    ShlBit(v, n, p);
    ShrBit(v, 32 - n, p);
    if k + n < 32 {
      WordHighBit(v, 32 - n + p);
    }
  }

  lemma RotlMixes(v: u32, w: u32, n: nat)
    requires 0 < n < 32
    ensures Mixed(v, w, Rotl(Xor32(v, w), n), n)
  {
    hide Bit, Rotl, Xor32;
    forall k: nat | k < 32
      ensures Bit(Rotl(Xor32(v, w), n), (k + n) % 32) == (Bit(v, k) != Bit(w, k))
    {
      RotlBit(Xor32(v, w), n, k);
      XorBit(v, w, k);
    }
  }

  lemma MixedUnique(v: u32, w: u32, r: u32, t: u32, n: nat)
    requires n < 32 && Mixed(v, w, r, n) && Mixed(v, w, t, n)
    ensures r == t
  {
    hide Bit;
    forall k: nat | k < 32
      ensures Bit(r, k) == Bit(t, k)
    {
      var j := (k + 32 - n) % 32;
      assert (j + n) % 32 == k;
      assert Bit(r, (j + n) % 32) == (Bit(v, j) != Bit(w, j));
      assert Bit(t, (j + n) % 32) == (Bit(v, j) != Bit(w, j));
    }
    SameWords(r, t);
  }

  lemma HalfMixes(q: Quad, n: nat, m: nat)
    requires 0 < n < 32 && 0 < m < 32
    ensures IsHalf(q, HalfRound(q, n, m), n, m)
  {
    hide Mixed, Rotl, Xor32, Bit;
    var t := TurnD(q, n);
    RotlMixes(q.d, t.a, n);
    RotlMixes(q.b, TurnB(t, m).c, m);
  }

  lemma QuarterMixes(q: Quad)
    ensures IsQuarter(q, QuarterRound(q))
  {
    hide IsHalf, HalfRound;
    HalfMixes(q, 16, 12);
    HalfMixes(HalfRound(q, 16, 12), 8, 7);
  }

  lemma HalfUnique(q: Quad, r: Quad, t: Quad, n: nat, m: nat)
    requires n < 32 && m < 32 && IsHalf(q, r, n, m) && IsHalf(q, t, n, m)
    ensures r == t
  {
    hide Mixed;
    MixedUnique(q.d, r.a, r.d, t.d, n);
    MixedUnique(q.b, r.c, r.b, t.b, m);
  }

  lemma QuarterUnique(q: Quad, r: Quad, t: Quad)
    requires IsQuarter(q, r) && IsQuarter(q, t)
    ensures r == t
  {
    hide IsHalf;
    var x :| IsHalf(q, x, 16, 12) && IsHalf(x, r, 8, 7);
    var y :| IsHalf(q, y, 16, 12) && IsHalf(y, t, 8, 7);
    HalfUnique(q, x, y, 16, 12);
    HalfUnique(x, r, t, 8, 7);
  }

  /** The quarter round of the code is the one that the definition allows, and the only one. */
  lemma QuarterExactly(q: Quad, r: Quad)
    ensures r == QuarterRound(q) <==> IsQuarter(q, r)
  {
    hide IsQuarter, QuarterRound;
    QuarterMixes(q);
    if IsQuarter(q, r) {
      QuarterUnique(q, r, QuarterRound(q));
    }
  }

  // ---------------------------------------------------------------- the block function (section 2.3)

  /** One quarter round on four words of the block, the others being left alone. */
  ghost predicate OnFour(x: Block, y: Block, a: nat, b: nat, c: nat, d: nat)
    requires a < 16 && b < 16 && c < 16 && d < 16
  {
    IsQuarter(Quad(x[a], x[b], x[c], x[d]), Quad(y[a], y[b], y[c], y[d]))
    && forall i | 0 <= i < 16 && i != a && i != b && i != c && i != d :: y[i] == x[i]
  }

  /** Four quarter rounds on the columns. */
  ghost predicate ColumnRound(x: Block, y: Block) {
    exists u: Block, v: Block, w: Block ::
      OnFour(x, u, 0, 4, 8, 12) && OnFour(u, v, 1, 5, 9, 13) && OnFour(v, w, 2, 6, 10, 14) && OnFour(w, y, 3, 7, 11, 15)
  }

  /** And four on the diagonals. */
  ghost predicate DiagonalRound(x: Block, y: Block) {
    exists u: Block, v: Block, w: Block ::
      OnFour(x, u, 0, 5, 10, 15) && OnFour(u, v, 1, 6, 11, 12) && OnFour(v, w, 2, 7, 8, 13) && OnFour(w, y, 3, 4, 9, 14)
  }

  ghost predicate DoubleRound(x: Block, y: Block) {
    exists z: Block :: ColumnRound(x, z) && DiagonalRound(z, y)
  }

  lemma OnWordsMeans(x: Block, a: nat, b: nat, c: nat, d: nat)
    requires a < b < 16 && b < c < 16 && c < d < 16
    ensures OnFour(x, OnWords(x, a, b, c, d), a, b, c, d)
  {
    hide QuarterRound, IsQuarter;
    QuarterMixes(Quad(x[a], x[b], x[c], x[d]));
  }

  lemma ColumnsMean(x: Block)
    ensures ColumnRound(x, Columns(x, 4))
  {
    hide OnWords, OnFour;
    var u, v, w := Columns(x, 1), Columns(x, 2), Columns(x, 3);
    assert Columns(x, 0) == x;
    OnWordsMeans(x, 0, 4, 8, 12);
    OnWordsMeans(u, 1, 5, 9, 13);
    OnWordsMeans(v, 2, 6, 10, 14);
    OnWordsMeans(w, 3, 7, 11, 15);
    assert OnFour(x, u, 0, 4, 8, 12) && OnFour(u, v, 1, 5, 9, 13);
    assert OnFour(v, w, 2, 6, 10, 14) && OnFour(w, Columns(x, 4), 3, 7, 11, 15);
  }

  lemma DiagonalsMean(x: Block)
    ensures DiagonalRound(x, Diagonals(x, 4))
  {
    hide OnWords, OnFour;
    var u, v, w := Diagonals(x, 1), Diagonals(x, 2), Diagonals(x, 3);
    assert Diagonals(x, 0) == x;
    OnWordsMeans(x, 0, 5, 10, 15);
    OnWordsMeans(u, 1, 6, 11, 12);
    OnWordsMeans(v, 2, 7, 8, 13);
    OnWordsMeans(w, 3, 4, 9, 14);
    assert OnFour(x, u, 0, 5, 10, 15) && OnFour(u, v, 1, 6, 11, 12);
    assert OnFour(v, w, 2, 7, 8, 13) && OnFour(w, Diagonals(x, 4), 3, 4, 9, 14);
  }

  /** Ten double rounds lead from the state to the block that is added to it. */
  ghost predicate IsRun(s: seq<Block>, j: Block) {
    |s| == 11 && s[0] == j && forall i | 0 <= i < 10 :: DoubleRound(s[i], s[i + 1])
  }

  lemma {:induction false} RoundsRun(j: Block, n: nat) returns (s: seq<Block>)
    ensures |s| == n + 1 && s[0] == j && s[n] == DoubleRounds(j, n)
    ensures forall i | 0 <= i < n :: DoubleRound(s[i], s[i + 1])
  {
    hide Columns, Diagonals, ColumnRound, DiagonalRound;
    if n == 0 {
      s := [j];
    } else {
      s := RoundsRun(j, n - 1);
      var x := DoubleRounds(j, n - 1);
      var y := Diagonals(Columns(x, 4), 4);
      ColumnsMean(x);
      DiagonalsMean(Columns(x, 4));
      assert DoubleRound(x, y);
      s := s + [y];
    }
  }

  /** The block function is twenty rounds and the addition of the state. */
  lemma CoreMeans(j: Block)
    ensures exists s :: IsRun(s, j) && forall i | 0 <= i < 16 :: Sum(s[10][i], j[i], Core(j)[i])
  {
    hide DoubleRounds, DoubleRound;
    var s := RoundsRun(j, 10);
    assert IsRun(s, j);
  }

  // ---------------------------------------------------------------- the state and the keystream (section 2.3 and 2.4)

  /** Four bytes, the least significant first. */
  function Little(b: seq<byte>, at: nat): nat
    requires at + 4 <= |b|
  {
    b[at] as nat + 0x100 * (b[at + 1] as nat) + 0x1_0000 * (b[at + 2] as nat) + 0x100_0000 * (b[at + 3] as nat)
  }

  lemma WordsMean(b: seq<byte>, at: nat)
    requires |b| == 16 && at < 4
    ensures Words4(b)[at] as nat == Little(b, 4 * at)
  {
    match at
    case 0 => assert Words4(b)[0] == Le32(b[..4]);
    case 1 => assert Words4(b)[1] == Le32(b[4..8]);
    case 2 => assert Words4(b)[2] == Le32(b[8..12]);
    case 3 => assert Words4(b)[3] == Le32(b[12..]);
  }

  /** The constants, and the key in words 4 to 11, twice if it is short. */
  lemma KeyWordsMean(k: seq<byte>, i: nat)
    requires (|k| == 32 || |k| == 16) && i < 8
    ensures KeyWords(k)[4 + i] as nat == Little(k, 4 * if |k| == 16 then i % 4 else i)
  {
    hide Le32;
    if |k| == 32 {
      WordsMean(k[..16], i % 4);
      WordsMean(k[16..], i % 4);
    } else {
      WordsMean(k, i % 4);
    }
  }

  /** "expand 32-byte k" and "expand 16-byte k", as words. */
  lemma ConstantsMean(k: seq<byte>)
    requires |k| == 32 || |k| == 16
    ensures KeyWords(k)[..4] == if |k| == 32 then [0x6170_7865, 0x3320_646e, 0x7962_2d32, 0x6b20_6574]
                                else [0x6170_7865, 0x3120_646e, 0x7962_2d36, 0x6b20_6574]
  {
    FirstWords(k);
    SigmaWords();
    TauWords();
    hide KeyWords, Words4, Chars;
  }

  lemma SigmaWords()
    ensures Words4(Chars(SIGMA)) == [0x6170_7865, 0x3320_646e, 0x7962_2d32, 0x6b20_6574]
  {
    var s: seq<byte> := [101, 120, 112, 97, 110, 100, 32, 51, 50, 45, 98, 121, 116, 101, 32, 107];
    assert Chars(SIGMA) == s;
    hide Chars;
    assert s[..4] == [101, 120, 112, 97] && s[4..8] == [110, 100, 32, 51];
    assert s[8..12] == [50, 45, 98, 121] && s[12..] == [116, 101, 32, 107];
  }

  lemma TauWords()
    ensures Words4(Chars(TAU)) == [0x6170_7865, 0x3120_646e, 0x7962_2d36, 0x6b20_6574]
  {
    var t: seq<byte> := [101, 120, 112, 97, 110, 100, 32, 49, 54, 45, 98, 121, 116, 101, 32, 107];
    assert Chars(TAU) == t;
    hide Chars;
    assert t[..4] == [101, 120, 112, 97] && t[4..8] == [110, 100, 32, 49];
    assert t[8..12] == [54, 45, 98, 121] && t[12..] == [116, 101, 32, 107];
  }

  lemma FirstWords(k: seq<byte>)
    requires |k| == 32 || |k| == 16
    ensures KeyWords(k)[..4] == Words4(Chars(if |k| == 32 then SIGMA else TAU))
  {
    hide Words4, Chars;
  }

  /** The counter in words 12 and 13 and the nonce in words 14 and 15. */
  lemma IvWordsMean(iv: seq<byte>, counter: Option<seq<byte>>)
    requires |iv| == 8 && (counter.Some? ==> |counter.value| == 8)
    ensures var w := IvWords(iv, counter);
      && w[0] as nat == (if counter.None? then 0 else Little(counter.value, 0))
      && w[1] as nat == (if counter.None? then 0 else Little(counter.value, 4))
      && w[2] as nat == Little(iv, 0) && w[3] as nat == Little(iv, 4)
  {
  }

  /** The bytes of a word, the least significant first. */
  lemma LeByteMeans(w: u32, k: nat)
    requires k < 4
    ensures LeByte(w, k) as nat ==
      (if k == 0 then w as nat else if k == 1 then w as nat / 0x100
       else if k == 2 then w as nat / 0x1_0000 else w as nat / 0x100_0000) % 0x100
  {
    var v: nat := w;
    assert v / 0x1_0000 == v / 0x100 / 0x100;
    assert v / 0x100_0000 == v / 0x100 / 0x100 / 0x100;
  }

  /** Byte i of a block of keystream is byte i % 4 of word i / 4. */
  lemma KeyByteMeans(j: Block, x: Block, i: nat)
    requires i < 64 && x == Core(j)
    ensures KeyByte(j, i) == LeByte(x[i / 4], i % 4)
  {
    hide Core, LeByte;
  }

  /** Each bit of the output differs from that of the input exactly where the keystream has a one. */
  lemma CryptMeans(j: Block, data: seq<byte>, i: nat, k: nat)
    requires i < |data| && k < 8
    ensures Bit(Crypt(j, data)[i], k) == (Bit(data[i], k) != Bit(KeyByte(AddBlocks(j, i / 64), i % 64), k))
  {
    hide Bit, KeyByte, AddBlocks, Xor8;
    Xor8Bit(data[i], Key(j, i), k);
  }
}
