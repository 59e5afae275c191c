/** Bytes, unsigned machine words and the big-endian wire encodings built from them. */
module Bytes {

  /** An octet of a buffer or a packet. */
  type byte = n: nat | n < 256

  const U16 := 0x1_0000
  const U32 := 0x1_0000_0000
  const U64 := 0x1_0000_0000_0000_0000

  /** A C `u_int` / `uint32_t`. */
  type u32 = n: nat | n < U32

  function Add32(a: u32, b: nat): u32 { (a + b) % U32 }

  function Sub32(a: u32, b: nat): u32 { (a - b) % U32 }

  function Mul32(a: u32, b: nat): u32 { (a * b) % U32 }

  function Min(a: nat, b: nat): nat { if a < b then a else b }

  datatype Option<+T> = None | Some(value: T)

  // ---------------------------------------------------------------- big-endian words

  /** PEEK_U16 of two bytes. */
  function Peek16(hi: byte, lo: byte): (v: nat)
    ensures v < U16
  {
    (hi as nat) * 0x100 + lo
  }

  /** POKE_U32. */
  function Be32(v: u32): (r: seq<byte>)
    ensures |r| == 4
  {
    [v / 0x100_0000, v / 0x1_0000 % 0x100, v / 0x100 % 0x100, v % 0x100]
  }

  /** PEEK_U32. */
  function Peek32(b: seq<byte>): u32
    requires |b| == 4
  {
    0x100_0000 * (b[0] as nat) + 0x1_0000 * (b[1] as nat) + 0x100 * (b[2] as nat) + (b[3] as nat)
  }

  lemma Peek32Be32(v: u32)
    ensures Peek32(Be32(v)) == v
  {
    var q: nat := v / 0x100;
    assert v as nat / 0x1_0000 == q / 0x100;
    assert v as nat / 0x100_0000 == q / 0x100 / 0x100;
  }

  lemma Be32Peek32(b: seq<byte>)
    requires |b| == 4
    ensures Be32(Peek32(b)) == b
  {
    var b0: nat, b1: nat, b2: nat, b3: nat := b[0], b[1], b[2], b[3];
    var v: nat := Peek32(b);
    assert v == 0x100 * (0x100 * (0x100 * b0 + b1) + b2) + b3;
    assert v / 0x100 == 0x100 * (0x100 * b0 + b1) + b2;
    assert v / 0x1_0000 == v / 0x100 / 0x100 == 0x100 * b0 + b1;
    assert v / 0x100_0000 == v / 0x1_0000 / 0x100 == b0;
  }

  /** The most significant byte comes first (section 5 of RFC 4251). */
  lemma BigEndian(v: u32)
    ensures v as nat == 0x100_0000 * (Be32(v)[0] as nat) + 0x1_0000 * (Be32(v)[1] as nat)
                        + 0x100 * (Be32(v)[2] as nat) + (Be32(v)[3] as nat)
  {
    Peek32Be32(v);
  }
}
