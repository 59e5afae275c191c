/**
 AES in counter mode: the counter's increment in two forms, and encryption byte by byte. The AES block function is any
 function on blocks.
 */
module AesCtr {
  import opened Bytes
  import opened Words
  import opened Buffers

  // ---------------------------------------------------------------- the counter

  /** The number a counter denotes, most significant byte first. */
  function Value(c: seq<byte>): nat {
    if c == [] then 0 else Value(c[..|c| - 1]) * 256 + c[|c| - 1]
  }

  function Pow256(n: nat): (p: nat)
    ensures p >= 1
  {
    if n == 0 then 1 else Pow256(n - 1) * 256
  }

  lemma {:induction false} ValueBound(c: seq<byte>)
    ensures Value(c) < Pow256(|c|)
  {
    if c != [] {
      ValueBound(c[..|c| - 1]);
    }
  }

  /** A counter is determined by its size and its number. */
  lemma {:induction false} ValueInjective(c: seq<byte>, d: seq<byte>)
    requires |c| == |d| && Value(c) == Value(d)
    ensures c == d
  {
    if c != [] {
      var k := |c| - 1;
      ValueInjective(c[..k], d[..k]);
      assert c == c[..k] + [c[k]] && d == d[..k] + [d[k]];
    }
  }

  /** Bytes of 255 at the end become 0 and the byte before them grows by one. */
  function Inc(c: seq<byte>): (r: seq<byte>)
    ensures |r| == |c|
  {
    if c == [] then []
    else if c[|c| - 1] == 255 then Inc(c[..|c| - 1]) + [0]
    else c[..|c| - 1] + [c[|c| - 1] + 1]
  }

  lemma {:induction false} IncAddsOne(c: seq<byte>)
    ensures Value(Inc(c)) == (Value(c) + 1) % Pow256(|c|)
  {
    if c != [] {
      var k := |c| - 1;
      var v, m := Value(c[..k]), Pow256(k);
      ValueBound(c[..k]);
      ValueBound(c);
      assert Inc(c)[..k] == if c[k] == 255 then Inc(c[..k]) else c[..k];
      if c[k] == 255 {
        IncAddsOne(c[..k]);
        assert Value(Inc(c)) == Value(Inc(c[..k])) * 256;
        if v + 1 == m {
          SelfMod(m);
          SelfMod(m * 256);
        } else {
          SmallMod(v + 1, m);
          SmallMod((v + 1) * 256, m * 256);
        }
      } else {
        assert Value(Inc(c)) == Value(c) + 1;
        SmallMod(Value(c) + 1, m * 256);
      }
    }
  }

  lemma SmallMod(v: nat, m: nat)
    requires v < m
    ensures v % m == v
  {
  }

  lemma SelfMod(m: nat)
    requires m > 0
    ensures m % m == 0
  {
  }

  /** Addition to a u8. */
  function Bump(b: byte, k: nat): byte { (b as nat + k) % 256 }

  /** The bytes from i on are done; `add` is what the byte before them still gets. */
  predicate Part(c: seq<byte>, now: seq<byte>, i: nat, add: nat) {
    |now| == |c| && i <= |c| && now[..i] == c[..i]
    && Inc(c) == (if add == 1 then Inc(c[..i]) else c[..i]) + now[i..]
  }

  lemma PartStart(c: seq<byte>)
    ensures Part(c, c, |c|, 1)
  {
    assert c[..|c|] == c;
  }

  lemma PartStep(c: seq<byte>, now: seq<byte>, i: nat, add: nat)
    requires add <= 1 && Part(c, now, i + 1, add)
    ensures var next := now[i := Bump(now[i], add)];
      Part(c, next, i, if next[i] == 0 then add else 0)
  {
    var front := c[..i + 1];
    assert now[i] == now[..i + 1][i] && front[..i] == c[..i] && front == front[..i] + [c[i]];
    var next := now[i := Bump(now[i], add)];
    assert next[..i] == now[..i + 1][..i];
    assert next[i..] == [next[i]] + now[i + 1..];
  }

  lemma PartDone(c: seq<byte>, now: seq<byte>, i: nat, add: nat)
    requires Part(c, now, i, add) && (i == 0 || add == 0)
    ensures now == Inc(c)
  {
    assert now == now[..i] + now[i..];
  }

  /** aesctr_inc, returning at the first byte that does not overflow. */
  method Increment(ctr: array<byte>)
    modifies ctr
    ensures ctr[..] == Inc(old(ctr[..]))
  {
    hide Inc, Part;
    ghost var c := ctr[..];
    PartStart(c);
    var i := ctr.Length - 1;
    while i >= 0
      invariant -1 <= i < ctr.Length
      invariant Part(c, ctr[..], i + 1, 1)
    {
      ghost var now := ctr[..];
      PartStep(c, now, i, 1);
      ctr[i] := Bump(ctr[i], 1);
      assert ctr[..] == now[i := Bump(now[i], 1)];
      if ctr[i] != 0 {
        PartDone(c, ctr[..], i, 0);
        return;
      }
      i := i - 1;
    }
    PartDone(c, ctr[..], 0, 1);
  }

  /** The constant-time test: 1 for a byte other than 0, by folding its bits together. */
  function Fold(x: bv8): bv8 {
    var x := (x | (x >> 4)) & 0xf;
    var x := (x | (x >> 2)) & 0x3;
    (x | (x >> 1)) & 0x1
  }

  lemma FoldTests(x: bv8)
    ensures Fold(x) == if x == 0 then 0 else 1
  {
  }

  /** What is added to the next byte. */
  method Carry(b: byte, add: byte) returns (r: byte)
    requires add <= 1
    ensures r == if b == 0 then add else 0
  {
    var x := Fold(b as bv8);
    FoldTests(b as bv8);
    assert x == 0 || x == 1;
    r := add * ((x ^ 1) as nat);
  }

  /** aesctr_inc without a branch, as compiled with CONSTANT_TIME_INCREMENT. */
  method IncrementConstantTime(ctr: array<byte>)
    modifies ctr
    ensures ctr[..] == Inc(old(ctr[..]))
  {
    hide Inc, Part;
    ghost var c := ctr[..];
    PartStart(c);
    var add: byte := 1;
    var i := ctr.Length - 1;
    while i >= 0
      invariant -1 <= i < ctr.Length && add <= 1
      invariant Part(c, ctr[..], i + 1, add)
    {
      ghost var now := ctr[..];
      PartStep(c, now, i, add);
      ctr[i] := Bump(ctr[i], add);
      assert ctr[..] == now[i := Bump(now[i], add)];
      add := Carry(ctr[i], add);
      i := i - 1;
    }
    PartDone(c, ctr[..], 0, add);
  }

  // ---------------------------------------------------------------- the keystream

  type Block = s: seq<byte> | |s| == 16 witness seq(16, _ => 0)

  /** rijndaelEncrypt under one key schedule. */
  type BlockCipher = Block -> Block

  function IncBy(c: Block, n: nat): Block {
    if n == 0 then c else Inc(IncBy(c, n - 1))
  }

  lemma {:induction false} IncByValue(c: Block, n: nat)
    ensures Value(IncBy(c, n)) == (Value(c) + n) % Pow256(16)
  {
    hide Pow256, Value, Inc;
    ValueBound(c);
    if n == 0 {
      SmallMod(Value(c), Pow256(16));
    } else {
      IncByValue(c, n - 1);
      IncAddsOne(IncBy(c, n - 1));
      ModPlusOne(Value(c) + n - 1, Pow256(16));
    }
  }

  lemma ModPlusOne(v: nat, m: nat)
    requires m > 0
    ensures (v % m + 1) % m == (v + 1) % m
  {
    var q, r := v / m, v % m;
    assert v == m * q + r;
    if r + 1 < m {
      Quotient(v + 1, m, q, r + 1);
      SmallMod(r + 1, m);
    } else {
      assert m * (q + 1) == m * q + m;
      Quotient(v + 1, m, q + 1, 0);
      SelfMod(m);
    }
  }

  lemma {:induction false} IncByAdds(c: Block, m: nat, n: nat)
    ensures IncBy(IncBy(c, m), n) == IncBy(c, m + n)
  {
    if n > 0 {
      IncByAdds(c, m, n - 1);
    }
  }

  function Key(e: BlockCipher, c: Block, i: nat): byte { e(IncBy(c, i / 16))[i % 16] }

  function Crypt(e: BlockCipher, c: Block, data: seq<byte>): (r: seq<byte>)
    ensures |r| == |data|
  {
    seq(|data|, i requires 0 <= i < |data| => Xor8(data[i], Key(e, c, i)))
  }

  /** The counter after that many bytes. */
  function After(c: Block, n: nat): Block { IncBy(c, (n + 15) / 16) }

  lemma CryptTwice(e: BlockCipher, c: Block, data: seq<byte>)
    ensures Crypt(e, c, Crypt(e, c, data)) == data
  {
    hide Key, Xor8;
    forall i | 0 <= i < |data|
      ensures Crypt(e, c, Crypt(e, c, data))[i] == data[i]
    {
      Xor8Twice(data[i], Key(e, c, i));
    }
  }

  /** Cutting after whole blocks changes neither the bytes nor the final counter. */
  lemma CryptCut(e: BlockCipher, c: Block, n: nat, front: seq<byte>, rest: seq<byte>)
    requires |front| == 16 * n
    ensures Crypt(e, c, front + rest) == Crypt(e, c, front) + Crypt(e, After(c, |front|), rest)
    ensures After(c, |front + rest|) == After(After(c, |front|), |rest|)
  {
    hide Xor8, IncBy;
    assert (16 * n + 15) / 16 == n;
    forall i | 0 <= i < |rest|
      ensures Key(e, c, |front| + i) == Key(e, After(c, |front|), i)
    {
      Quotient(16 * n + i, 16, n + i / 16, i % 16);
      IncByAdds(c, n, i / 16);
    }
    IncByAdds(c, n, (|rest| + 15) / 16);
    assert (|front| + |rest| + 15) / 16 == n + (|rest| + 15) / 16;
  }

  /** Each bit of byte i differs from the message's where the block of counter value + i / 16 has a one at i % 16. */
  lemma CryptMeans(e: BlockCipher, c: Block, data: seq<byte>, i: nat, k: nat)
    requires i < |data| && k < 8
    ensures exists b: Block ::
      Value(b) == (Value(c) + i / 16) % Pow256(16)
      && Bit(Crypt(e, c, data)[i], k) == (Bit(data[i], k) != Bit(e(b)[i % 16], k))
  {
    hide Value, Pow256, IncBy, Bit, Xor8;
    IncByValue(c, i / 16);
    Xor8Bit(data[i], Key(e, c, i), k);
  }

  lemma AfterCounts(c: Block, n: nat)
    ensures Value(After(c, n)) == (Value(c) + (n + 15) / 16) % Pow256(16)
  {
    hide Pow256, Value, IncBy;
    IncByValue(c, (n + 15) / 16);
  }

  // ---------------------------------------------------------------- the context

  /** struct aesctr_ctx; the key schedule is the block function it selects. */
  class AesctrCtx {
    const ctr: array<byte>
    const block: BlockCipher

    ghost predicate Valid() {
      ctr.Length == 16
    }

    constructor (e: BlockCipher, iv: Block)
      ensures Valid() && fresh(ctr) && block == e && ctr[..] == iv
    {
      ctr := new byte[16](i requires 0 <= i < 16 => iv[i]);
      block := e;
    }

    /** aesctr_encrypt_bytes. */
    method EncryptBytes(m: array<byte>, mo: nat, c: array<byte>, co: nat, bytes: nat)
      requires Valid() && mo + bytes <= m.Length && co + bytes <= c.Length
      requires (m == c ==> mo == co) && m != ctr && c != ctr
      modifies ctr, c
      ensures ctr[..] == After(old(ctr[..]), bytes)
      ensures c[..] == old(c[..co]) + Crypt(block, old(ctr[..]), old(m[mo..mo + bytes])) + old(c[co + bytes..])
    {
      hide Inc, IncBy, Splice, Kept, Xor8, Crypt, Key, InStep, Full;
      ghost var c0: Block, data, was := ctr[..], m[mo..mo + bytes], c[..];
      ghost var out := Crypt(block, c0, data);
      SpliceAll(was, co, out);
      KeptAll(m[..], mo, bytes);
      var n, k := 0, 0;
      var buf: Block := seq(16, _ => 0);
      StepStart(block, c0, buf);
      while k < bytes
        invariant k <= bytes && 0 <= n < 16
        invariant InStep(block, c0, ctr[..], buf, k, n)
        invariant c[..] == Splice(was, co, out, k)
        invariant Kept(m[..], mo, data, k)
      {
        if n == 0 {
          StepFresh(block, c0, ctr[..], buf, k);
          buf := block(ctr[..]);
          Increment(ctr);
        } else {
          StepFull(block, c0, ctr[..], buf, k, n);
        }
        assert Full(block, c0, ctr[..], buf, k, n);
        CryptAt(block, c0, data, k, ctr[..], buf, n);
        MaskByte(m, mo, c, co, k, buf[n], was, data, out);
        StepNext(block, c0, ctr[..], buf, k, n);
        n := (n + 1) % 16;
        k := k + 1;
      }
      StepEnd(block, c0, ctr[..], buf, k, n);
    }
  }

  /** Between bytes: how much of the counter's run is used, and what is left in the block buffer. */
  predicate InStep(e: BlockCipher, c0: Block, c: Block, buf: Block, k: nat, n: nat) {
    n == k % 16 && c == IncBy(c0, (k + 15) / 16) && (n != 0 ==> buf == e(IncBy(c0, k / 16)))
  }

  /** With a block in the buffer that byte k is masked with. */
  predicate Full(e: BlockCipher, c0: Block, c: Block, buf: Block, k: nat, n: nat) {
    n == k % 16 && c == IncBy(c0, k / 16 + 1) && buf == e(IncBy(c0, k / 16))
  }

  lemma StepFresh(e: BlockCipher, c0: Block, c: Block, buf: Block, k: nat)
    requires InStep(e, c0, c, buf, k, 0)
    ensures Full(e, c0, Inc(c), e(c), k, 0)
  {
    hide Inc;
  }

  lemma StepNext(e: BlockCipher, c0: Block, c: Block, buf: Block, k: nat, n: nat)
    requires Full(e, c0, c, buf, k, n)
    ensures InStep(e, c0, c, buf, k + 1, (n + 1) % 16)
  {
    hide IncBy;
  }

  lemma StepFull(e: BlockCipher, c0: Block, c: Block, buf: Block, k: nat, n: nat)
    requires InStep(e, c0, c, buf, k, n) && n != 0
    ensures Full(e, c0, c, buf, k, n)
  {
    hide IncBy;
  }

  lemma StepEnd(e: BlockCipher, c0: Block, c: Block, buf: Block, k: nat, n: nat)
    requires InStep(e, c0, c, buf, k, n)
    ensures c == After(c0, k)
  {
  }

  /** One byte of output, with what both buffers then hold. */
  method MaskByte(m: array<byte>, mo: nat, c: array<byte>, co: nat, k: nat, key: byte,
                  ghost was: seq<byte>, ghost data: seq<byte>, ghost out: seq<byte>)
    requires k < |data| == |out| && co + |out| <= |was| && (m == c ==> mo == co)
    requires c[..] == Splice(was, co, out, k) && Kept(m[..], mo, data, k)
    requires mo + k < m.Length && co + k < c.Length && out[k] == Xor8(data[k], key)
    modifies c
    ensures c[..] == Splice(was, co, out, k + 1) && Kept(m[..], mo, data, k + 1)
  {
    hide Splice, Kept, Xor8;
    ghost var s, b := m[..], c[..];
    KeptHead(s, mo, data, k);
    SpliceMore(was, co, out, k, [out[k]]);
    c[co + k] := Xor8(m[mo + k], key);
    assert c[..] == b[..co + k] + [out[k]] + b[co + k + 1..];
    assert m[..][mo + k + 1..] == s[mo + k + 1..];
    KeptMore(s, m[..], mo, data, k, 1);
  }

  lemma CryptAt(e: BlockCipher, c0: Block, data: seq<byte>, k: nat, c: Block, buf: Block, n: nat)
    requires k < |data| && Full(e, c0, c, buf, k, n)
    ensures Crypt(e, c0, data)[k] == Xor8(data[k], buf[n])
  {
    hide Xor8, IncBy;
  }

  lemma StepStart(e: BlockCipher, c: Block, buf: Block)
    ensures InStep(e, c, c, buf, 0, 0)
  {
  }
}
