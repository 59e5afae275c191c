/** The chacha20-poly1305 packet cipher. Poly1305 is any function from a message and a one-time key to a tag. */
module ChaChaPoly {
  import opened Bytes
  import opened Words
  import opened ChaCha
  import opened ChaChaStream

  type Tag = s: seq<byte> | |s| == 16 witness seq(16, _ => 0)

  type Mac = (seq<byte>, seq<byte>) -> Tag

  /** Eight bytes, big-endian: POKE_U64 of a 32-bit number. */
  function Nonce(seqnr: u32): (r: seq<byte>)
    ensures |r| == 8
  {
    [0, 0, 0, 0] + Be32(seqnr)
  }

  /** The little-endian block counter 1. */
  const ONE: seq<byte> := [1, 0, 0, 0, 0, 0, 0, 0]

  type Key64 = s: seq<byte> | |s| == 64 witness seq(64, _ => 0)

  function MainState(key: Key64, seqnr: u32): Block { KeyWords(key[..32]) + IvWords(Nonce(seqnr), None) }

  function BodyState(key: Key64, seqnr: u32): Block { KeyWords(key[..32]) + IvWords(Nonce(seqnr), Some(ONE)) }

  function HeaderState(key: Key64, seqnr: u32): Block { KeyWords(key[32..]) + IvWords(Nonce(seqnr), None) }

  function Zeros(n: nat): (r: seq<byte>)
    ensures |r| == n
  {
    seq(n, _ => 0)
  }

  function PolyKey(key: Key64, seqnr: u32): (r: seq<byte>)
    ensures |r| == 32
  {
    Crypt(MainState(key, seqnr), Zeros(32))
  }

  /** The first aadlen bytes under the header key, the rest under the main key. */
  function Convert(key: Key64, seqnr: u32, data: seq<byte>, aadlen: nat): (r: seq<byte>)
    requires aadlen <= |data|
    ensures |r| == |data|
  {
    Crypt(HeaderState(key, seqnr), data[..aadlen]) + Crypt(BodyState(key, seqnr), data[aadlen..])
  }

  /** A packet as sent. */
  function Seal(mac: Mac, key: Key64, seqnr: u32, data: seq<byte>, aadlen: nat): (r: seq<byte>)
    requires aadlen <= |data|
    ensures |r| == |data| + 16
  {
    Convert(key, seqnr, data, aadlen) + mac(Convert(key, seqnr, data, aadlen), PolyKey(key, seqnr))
  }

  /** What the receiver makes of a packet; nothing when the tag is not the one expected. */
  function Open(mac: Mac, key: Key64, seqnr: u32, packet: seq<byte>, aadlen: nat): Option<seq<byte>>
    requires aadlen + 16 <= |packet|
  {
    var n := |packet| - 16;
    if mac(packet[..n], PolyKey(key, seqnr)) != packet[n..] then None
    else Some(Convert(key, seqnr, packet[..n], aadlen))
  }

  /** The length field of a packet whose first `len` bytes have arrived. */
  function Length(key: Key64, seqnr: u32, packet: seq<byte>): Option<u32> {
    if |packet| < 4 then None else Some(Peek32(Crypt(HeaderState(key, seqnr), packet[..4])))
  }

  // ---------------------------------------------------------------- theorems

  lemma ConvertTwice(key: Key64, seqnr: u32, data: seq<byte>, aadlen: nat)
    requires aadlen <= |data|
    ensures Convert(key, seqnr, Convert(key, seqnr, data, aadlen), aadlen) == data
  {
    hide Crypt, HeaderState, BodyState;
    var h, b := HeaderState(key, seqnr), BodyState(key, seqnr);
    var out := Convert(key, seqnr, data, aadlen);
    assert out[..aadlen] == Crypt(h, data[..aadlen]) && out[aadlen..] == Crypt(b, data[aadlen..]);
    CryptTwice(h, data[..aadlen]);
    CryptTwice(b, data[aadlen..]);
    assert data == data[..aadlen] + data[aadlen..];
  }

  /** Decryption yields a plaintext exactly for the packet encryption makes of it: there is no second encoding. */
  lemma OpenExactlySealed(mac: Mac, key: Key64, seqnr: u32, packet: seq<byte>, aadlen: nat, data: seq<byte>)
    requires aadlen + 16 <= |packet| && aadlen <= |data|
    ensures Open(mac, key, seqnr, packet, aadlen) == Some(data) <==> packet == Seal(mac, key, seqnr, data, aadlen)
  {
    hide Convert, PolyKey;
    var n := |packet| - 16;
    assert packet == packet[..n] + packet[n..];
    if Open(mac, key, seqnr, packet, aadlen) == Some(data) {
      ConvertTwice(key, seqnr, packet[..n], aadlen);
    }
    if packet == Seal(mac, key, seqnr, data, aadlen) {
      assert packet[..n] == Convert(key, seqnr, data, aadlen);
      ConvertTwice(key, seqnr, data, aadlen);
    }
  }

  lemma CryptTake(j: Block, data: seq<byte>, k: nat)
    requires k <= |data|
    ensures Crypt(j, data)[..k] == Crypt(j, data[..k])
  {
    CryptPrefix(j, data, k);
  }

  /** The length read ahead from any first part of a packet is the one in the plaintext's first four bytes. */
  lemma LengthAgrees(mac: Mac, key: Key64, seqnr: u32, data: seq<byte>, aadlen: nat, arrived: nat)
    requires 4 <= aadlen <= |data| && arrived <= |data| + 16
    ensures Length(key, seqnr, Seal(mac, key, seqnr, data, aadlen)[..arrived])
         == if arrived < 4 then None else Some(Peek32(data[..4]))
  {
    hide Crypt, HeaderState, BodyState, PolyKey, Peek32;
    if arrived >= 4 {
      var h := HeaderState(key, seqnr);
      var packet := Seal(mac, key, seqnr, data, aadlen);
      assert packet[..arrived][..4] == Crypt(h, data[..aadlen])[..4];
      CryptTake(h, data[..aadlen], 4);
      assert data[..aadlen][..4] == data[..4];
      CryptTwice(h, data[..4]);
    }
  }

  lemma NonceInjective(a: u32, b: u32)
    requires Nonce(a) == Nonce(b)
    ensures a == b
  {
    hide Be32, Peek32;
    assert Nonce(a)[4..] == Be32(a) && Nonce(b)[4..] == Be32(b);
    Peek32Be32(a);
    Peek32Be32(b);
  }

  /** Under one key no two sequence numbers share a starting state, for the header or the main cipher. */
  lemma StatesDiffer(key: Key64, a: u32, b: u32)
    requires MainState(key, a) == MainState(key, b) || HeaderState(key, a) == HeaderState(key, b)
    ensures a == b
  {
    hide KeyWords, IvWords, Nonce;
    if MainState(key, a) == MainState(key, b) {
      StateDetermines(key[..32], key[..32], Nonce(a), Nonce(b));
    } else {
      StateDetermines(key[32..], key[32..], Nonce(a), Nonce(b));
    }
    NonceInjective(a, b);
  }

  /** The body's keystream starts where the block spent on the Poly1305 key ends, so the two never overlap. */
  lemma BodyFollowsPolyKey(key: Key64, seqnr: u32, i: nat)
    ensures Key(BodyState(key, seqnr), i) == Key(MainState(key, seqnr), 64 + i)
  {
    hide KeyWords, Nonce, Key;
    var s, t := MainState(key, seqnr), BodyState(key, seqnr);
    assert Words2(ONE) == [1, 0];
    assert s[12] == 0 && s[13] == 0;
    assert t == s[12 := 1];
    assert AddBlocks(s, 1) == t;
    KeyShift(s, 1, i);
  }

  // ---------------------------------------------------------------- the context

  datatype Status = Ok | MacInvalid | MessageIncomplete

  /** struct chachapoly_ctx. */
  class ChachapolyCtx {
    const mainCtx: ChachaCtx
    const headerCtx: ChachaCtx
    ghost const key: Key64

    /** What no call changes: the key words of both contexts. Words 12 to 15 may hold anything. */
    ghost predicate Valid()
      reads mainCtx.input, headerCtx.input
    {
      mainCtx.Valid() && headerCtx.Valid() && mainCtx.input != headerCtx.input
      && mainCtx.State()[..12] == KeyWords(key[..32])
      && headerCtx.State()[..12] == KeyWords(key[32..])
    }

    constructor (k: Key64)
      ensures Valid() && key == k && fresh(mainCtx.input) && fresh(headerCtx.input)
    {
      hide KeyWords;
      var m := new ChachaCtx();
      var h := new ChachaCtx();
      m.KeySetup(k[..32], 256);
      h.KeySetup(k[32..], 256);
      mainCtx, headerCtx := m, h;
      key := k;
    }

    /** chachapoly_new. */
    static method New(k: seq<byte>) returns (ctx: ChachapolyCtx?)
      ensures ctx == null <==> |k| != 64
      ensures ctx != null ==> fresh(ctx) && fresh(ctx.mainCtx.input) && fresh(ctx.headerCtx.input)
      ensures ctx != null ==> ctx.Valid() && ctx.key == k
    {
      ctx := null;
      if |k| == 64 {
        ctx := new ChachapolyCtx(k);
      }
    }

    method MainIv(seqnr: u32)
      requires Valid()
      modifies mainCtx.input
      ensures Valid() && mainCtx.State() == MainState(key, seqnr)
    {
      hide KeyWords, IvWords, Nonce;
      mainCtx.IvSetup(Nonce(seqnr), None);
      assert mainCtx.State()[..12] == KeyWords(key[..32]);
    }

    method BodyIv(seqnr: u32)
      requires Valid()
      modifies mainCtx.input
      ensures Valid() && mainCtx.State() == BodyState(key, seqnr)
    {
      hide KeyWords, IvWords, Nonce;
      mainCtx.IvSetup(Nonce(seqnr), Some(ONE));
      assert mainCtx.State()[..12] == KeyWords(key[..32]);
    }

    method HeaderIv(seqnr: u32)
      requires Valid()
      modifies headerCtx.input
      ensures Valid() && headerCtx.State() == HeaderState(key, seqnr)
    {
      hide KeyWords, IvWords, Nonce;
      headerCtx.IvSetup(Nonce(seqnr), None);
      assert headerCtx.State()[..12] == KeyWords(key[32..]);
    }

    method CryptMain(m: array<byte>, mo: nat, c: array<byte>, co: nat, n: nat)
      requires Valid() && mo + n <= m.Length && co + n <= c.Length && (m == c ==> mo == co)
      modifies mainCtx.input, c
      ensures Valid()
      ensures c[..] == old(c[..co]) + Crypt(old(mainCtx.State()), old(m[mo..mo + n])) + old(c[co + n..])
    {
      hide Crypt, KeyWords, AddBlocks;
      ghost var j := mainCtx.State();
      mainCtx.EncryptBytes(m, mo, c, co, n);
      CounterAdvances(j, (n + 63) / 64);
      assert mainCtx.State()[..12] == j[..12];
    }

    method CryptHeader(m: array<byte>, mo: nat, c: array<byte>, co: nat, n: nat)
      requires Valid() && mo + n <= m.Length && co + n <= c.Length && (m == c ==> mo == co)
      modifies headerCtx.input, c
      ensures Valid()
      ensures c[..] == old(c[..co]) + Crypt(old(headerCtx.State()), old(m[mo..mo + n])) + old(c[co + n..])
    {
      hide Crypt, KeyWords, AddBlocks;
      ghost var j := headerCtx.State();
      headerCtx.EncryptBytes(m, mo, c, co, n);
      CounterAdvances(j, (n + 63) / 64);
      assert headerCtx.State()[..12] == j[..12];
    }

    method MakePolyKey(seqnr: u32) returns (k: seq<byte>)
      requires Valid()
      modifies mainCtx.input
      ensures Valid() && k == PolyKey(key, seqnr)
    {
      hide Crypt, MainState, Valid;
      var buf := new byte[32](_ => 0);
      assert buf[0..32] == Zeros(32);
      MainIv(seqnr);
      CryptMain(buf, 0, buf, 0, 32);
      k := buf[..];
    }

    /** Header first, then the body, from src to dest, which may be one buffer. */
    method ConvertInto(seqnr: u32, dest: array<byte>, src: array<byte>, len: nat, aadlen: nat)
      requires Valid() && aadlen + len <= src.Length && aadlen + len <= dest.Length
      modifies mainCtx.input, headerCtx.input, dest
      ensures Valid()
      ensures dest[..] == Convert(key, seqnr, old(src[..aadlen + len]), aadlen) + old(dest[aadlen + len..])
    {
      hide Crypt, HeaderState, BodyState, Valid;
      ghost var n := aadlen + len;
      ghost var data, was := src[..n], dest[..];
      ghost var head := Crypt(HeaderState(key, seqnr), data[..aadlen]);
      CryptNothing(HeaderState(key, seqnr));
      if aadlen > 0 {
        HeaderIv(seqnr);
        assert src[0..aadlen] == data[..aadlen];
        CryptHeader(src, 0, dest, 0, aadlen);
      }
      assert dest[..] == head + was[aadlen..];
      assert src[aadlen..aadlen + len] == data[aadlen..];
      BodyIv(seqnr);
      CryptMain(src, aadlen, dest, aadlen, len);
    }

    /** chachapoly_crypt. */
    method CryptPacket(mac: Mac, seqnr: u32, dest: array<byte>, src: array<byte>, len: nat, aadlen: nat, encrypt: bool)
        returns (r: Status)
      requires Valid()
      requires src.Length >= aadlen + len + if encrypt then 0 else 16
      requires dest.Length >= aadlen + len + if encrypt then 16 else 0
      modifies mainCtx.input, headerCtx.input, dest
      ensures Valid()
      ensures encrypt ==> r == Ok
      ensures encrypt ==>
        dest[..] == Seal(mac, key, seqnr, old(src[..aadlen + len]), aadlen) + old(dest[aadlen + len + 16..])
      ensures !encrypt ==>
        match Open(mac, key, seqnr, old(src[..aadlen + len + 16]), aadlen)
        case None => r == MacInvalid && dest[..] == old(dest[..])
        case Some(p) => r == Ok && dest[..] == p + old(dest[aadlen + len..])
    {
      hide Convert, PolyKey, Valid;
      var n := aadlen + len;
      ghost var data, was := src[..n], dest[..];
      var polyKey := MakePolyKey(seqnr);
      if !encrypt {
        ghost var packet := src[..n + 16];
        assert packet[..n] == data && packet[n..] == src[n..n + 16];
        if mac(src[..n], polyKey) != src[n..n + 16] {
          return MacInvalid;
        }
      }
      ConvertInto(seqnr, dest, src, len, aadlen);
      if encrypt {
        ghost var out := Convert(key, seqnr, data, aadlen);
        assert dest[..n] == out;
        var tag := mac(dest[..n], polyKey);
        forall i | 0 <= i < 16 {
          dest[n + i] := tag[i];
        }
        assert dest[..] == out + tag + was[n + 16..];
      }
      return Ok;
    }

    /** chachapoly_get_length. */
    method GetLength(seqnr: u32, cp: array<byte>, len: nat) returns (r: Status, length: u32)
      requires Valid() && len <= cp.Length
      modifies headerCtx.input
      ensures Valid()
      ensures match Length(key, seqnr, cp[..len])
        case None => r == MessageIncomplete
        case Some(n) => r == Ok && length == n
    {
      hide Crypt, Peek32, HeaderState, Valid;
      if len < 4 {
        return MessageIncomplete, 0;
      }
      var buf := new byte[4];
      HeaderIv(seqnr);
      assert cp[..len][..4] == cp[0..4];
      CryptHeader(cp, 0, buf, 0, 4);
      assert buf[..] == Crypt(HeaderState(key, seqnr), cp[0..4]);
      return Ok, Peek32(buf[..]);
    }
  }

  lemma CryptNothing(j: Block)
    ensures Crypt(j, []) == []
  {
  }
}
