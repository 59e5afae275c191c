/** What is in a chacha20-poly1305 packet, byte by byte: keys, nonce, counters, ciphertext and tag. */
module ChaChaPolyReference {
  import opened Bytes
  import opened Words
  import opened ChaCha
  import opened ChaChaStream
  import opened ChaChaPoly
  import opened ChaChaReference

  /** The nonce is the packet's sequence number as a 64-bit number, most significant byte first. */
  lemma NonceMeans(seqnr: u32)
    ensures var n := Nonce(seqnr);
      n[..4] == [0, 0, 0, 0]
      && seqnr as nat == 0x100_0000 * (n[4] as nat) + 0x1_0000 * (n[5] as nat) + 0x100 * (n[6] as nat) + (n[7] as nat)
  {
    BigEndian(seqnr);
  }

  /** The body is under the first half of the key, the header under the second. */
  lemma KeyHalves(key: Key64, seqnr: u32, i: nat)
    requires i < 8
    ensures MainState(key, seqnr)[4 + i] as nat == Little(key, 4 * i)
    ensures BodyState(key, seqnr)[4 + i] as nat == Little(key, 4 * i)
    ensures HeaderState(key, seqnr)[4 + i] as nat == Little(key, 32 + 4 * i)
  {
    hide KeyWords, IvWords, Nonce;
    KeyWordsMean(key[..32], i);
    KeyWordsMean(key[32..], i);
  }

  /** The Poly1305 key and the header start at block 0, the body at block 1. */
  lemma Counters(key: Key64, seqnr: u32)
    ensures Counter(MainState(key, seqnr)) == 0
    ensures Counter(HeaderState(key, seqnr)) == 0
    ensures Counter(BodyState(key, seqnr)) == 1
  {
    hide KeyWords, Nonce;
    IvWordsMean(Nonce(seqnr), None);
    IvWordsMean(Nonce(seqnr), Some(ONE));
  }

  /** All three have the packet's nonce in their last two words. */
  lemma Nonces(key: Key64, seqnr: u32)
    ensures MainState(key, seqnr)[14..] == HeaderState(key, seqnr)[14..] == BodyState(key, seqnr)[14..]
    ensures MainState(key, seqnr)[14] as nat == Little(Nonce(seqnr), 0)
    ensures MainState(key, seqnr)[15] as nat == Little(Nonce(seqnr), 4)
  {
    hide KeyWords, Nonce;
    IvWordsMean(Nonce(seqnr), None);
    IvWordsMean(Nonce(seqnr), Some(ONE));
  }

  /** The Poly1305 key is the first 32 bytes of the main keystream. */
  lemma PolyKeyMeans(key: Key64, seqnr: u32, i: nat)
    requires i < 32
    ensures PolyKey(key, seqnr)[i] == KeyByte(MainState(key, seqnr), i)
  {
    hide MainState, KeyByte, Xor8;
    var j := MainState(key, seqnr);
    KeyOfFirst(j, i);
    ZeroXor(KeyByte(j, i));
  }

  lemma ZeroXor(b: byte)
    ensures Xor8(0, b) == b
  {
    hide Xor8, Bit;
    forall k: nat | k < 8
      ensures Bit(Xor8(0, b), k) == Bit(b, k)
    {
      Xor8Bit(0, b, k);
      ZeroBit(k);
    }
    SameBytes(Xor8(0, b), b);
  }

  /** A packet: each bit of header and body against its own keystream, and the tag of the ciphertext behind them. */
  lemma SealMeans(mac: Mac, key: Key64, seqnr: u32, data: seq<byte>, aadlen: nat, i: nat, k: nat)
    requires aadlen <= |data| && i < |data| && k < 8
    ensures var packet := Seal(mac, key, seqnr, data, aadlen);
      && |packet| == |data| + 16
      && packet[|data|..] == mac(packet[..|data|], PolyKey(key, seqnr))
      && (i < aadlen ==> Bit(packet[i], k) == (Bit(data[i], k) != Bit(Key(HeaderState(key, seqnr), i), k)))
      && (i >= aadlen ==> Bit(packet[i], k) == (Bit(data[i], k) != Bit(Key(BodyState(key, seqnr), i - aadlen), k)))
  {
    hide HeaderState, BodyState, PolyKey, Key, Bit, Xor8;
    if i < aadlen {
      Xor8Bit(data[i], Key(HeaderState(key, seqnr), i), k);
    } else {
      Xor8Bit(data[i], Key(BodyState(key, seqnr), i - aadlen), k);
    }
  }
}
