/** Byte buffers: values are appended at the end and taken from the front. */
module Sshbufs {
  import opened Bytes

  datatype Error = MessageIncomplete | StringTooLarge | InvalidFormat | NoBufferSpace | InternalError

  datatype Result<+T> = Ok(value: T) | Err(error: Error)

  /** SSHBUF_SIZE_MAX. */
  const SIZE_MAX := 0x800_0000

  // ---------------------------------------------------------------- encodings

  function U64Bytes(v: nat): (r: seq<byte>)
    requires v < U64
    ensures |r| == 8
  {
    Be32(v / 0x1_0000_0000) + Be32(v % 0x1_0000_0000)
  }

  /** A length and as many bytes. */
  function StringBytes(s: seq<byte>): seq<byte>
    requires |s| < U32
  {
    Be32(|s|) + s
  }

  // ---------------------------------------------------------------- taking from the front

  /** What a getter yields and leaves in the buffer. */
  datatype Read<+T> = Got(value: T, rest: seq<byte>) | Failed(error: Error, rest: seq<byte>)

  function TakeU8(m: seq<byte>): Read<byte> {
    if |m| < 1 then Failed(MessageIncomplete, m) else Got(m[0], m[1..])
  }

  function TakeU16(m: seq<byte>): Read<nat> {
    if |m| < 2 then Failed(MessageIncomplete, m) else Got(Peek16(m[0], m[1]), m[2..])
  }

  /** sshbuf_get. */
  function TakeBytes(m: seq<byte>, n: nat): Read<seq<byte>> {
    if |m| < n then Failed(MessageIncomplete, m) else Got(m[..n], m[n..])
  }

  function TakeU32(m: seq<byte>): Read<u32> {
    if |m| < 4 then Failed(MessageIncomplete, m) else Got(Peek32(m[..4]), m[4..])
  }

  function TakeU64(m: seq<byte>): Read<nat> {
    if |m| < 8 then Failed(MessageIncomplete, m)
    else Got(Peek32(m[..4]) * 0x1_0000_0000 + Peek32(m[4..8]), m[8..])
  }

  /** A string with its length in front; nothing is taken unless all of it is there. */
  function TakeString(m: seq<byte>): Read<seq<byte>> {
    if |m| < 4 then Failed(MessageIncomplete, m)
    else
      var n := Peek32(m[..4]);
      if n > 0x7ff_fffc then Failed(StringTooLarge, m)
      else if |m| - 4 < n then Failed(MessageIncomplete, m)
      else Got(m[4..4 + n], m[4 + n..])
  }

  /** A NUL may stand only at the very end. */
  predicate EarlyNul(s: seq<byte>) { exists i | 0 <= i < |s| - 1 :: s[i] == 0 }

  /** The C string a received string is. */
  function Trimmed(s: seq<byte>): seq<byte> {
    if s != [] && s[|s| - 1] == 0 then s[..|s| - 1] else s
  }

  function TakeCString(m: seq<byte>): Read<seq<byte>> {
    match TakeString(m)
    case Failed(e, r) => Failed(e, r)
    case Got(s, r) => if EarlyNul(s) then Failed(InvalidFormat, m) else Got(Trimmed(s), r)
  }

  /** A string that C can hold. */
  predicate IsCString(s: seq<byte>) { forall i | 0 <= i < |s| :: s[i] != 0 }

  // ---------------------------------------------------------------- what was put is got

  lemma U8RoundTrip(v: byte, s: seq<byte>)
    ensures TakeU8([v] + s) == Got(v, s)
  {
  }

  lemma U32RoundTrip(v: u32, s: seq<byte>)
    ensures TakeU32(Be32(v) + s) == Got(v, s)
  {
    hide Be32, Peek32;
    assert (Be32(v) + s)[..4] == Be32(v) && (Be32(v) + s)[4..] == s;
    Peek32Be32(v);
  }

  lemma U64RoundTrip(v: nat, s: seq<byte>)
    requires v < U64
    ensures TakeU64(U64Bytes(v) + s) == Got(v, s)
  {
    hide Be32, Peek32;
    var hi, lo := v / 0x1_0000_0000, v % 0x1_0000_0000;
    var m := U64Bytes(v) + s;
    assert m[..4] == Be32(hi) && m[4..8] == Be32(lo) && m[8..] == s;
    Peek32Be32(hi);
    Peek32Be32(lo);
  }

  lemma StringRoundTrip(v: seq<byte>, s: seq<byte>)
    requires |v| <= SIZE_MAX - 4
    ensures TakeString(StringBytes(v) + s) == Got(v, s)
  {
    hide Be32, Peek32;
    var m := StringBytes(v) + s;
    assert m[..4] == Be32(|v|) && m[4..4 + |v|] == v && m[4 + |v|..] == s;
    Peek32Be32(|v|);
  }

  lemma CStringRoundTrip(v: seq<byte>, s: seq<byte>)
    requires |v| <= SIZE_MAX - 4 && IsCString(v)
    ensures TakeCString(StringBytes(v) + s) == Got(v, s)
  {
    hide TakeString, StringBytes;
    StringRoundTrip(v, s);
  }

  // ---------------------------------------------------------------- and nothing else is

  lemma U32Exactly(m: seq<byte>, v: u32, rest: seq<byte>)
    ensures TakeU32(m) == Got(v, rest) <==> m == Be32(v) + rest
  {
    hide Be32, Peek32;
    if TakeU32(m) == Got(v, rest) {
      Be32Peek32(m[..4]);
      assert m == m[..4] + m[4..];
    }
    U32RoundTrip(v, rest);
  }

  /** A string is taken exactly when its length is in front of it, within the limit, and all of it is there. */
  lemma StringExactly(m: seq<byte>, v: seq<byte>, rest: seq<byte>)
    ensures TakeString(m) == Got(v, rest) <==> |v| <= SIZE_MAX - 4 && m == StringBytes(v) + rest
  {
    hide Be32, Peek32;
    if TakeString(m) == Got(v, rest) {
      Be32Peek32(m[..4]);
      assert m == m[..4] + m[4..4 + |v|] + m[4 + |v|..];
    }
    if |v| <= SIZE_MAX - 4 && m == StringBytes(v) + rest {
      StringRoundTrip(v, rest);
    }
  }

  /** The bytes of a string that C takes for `v`: those of `v`, perhaps with a NUL behind them. */
  predicate Spells(raw: seq<byte>, v: seq<byte>) {
    |raw| <= SIZE_MAX - 4 && 0 !in v && (raw == v || raw == v + [0])
  }

  lemma TrimmedExactly(raw: seq<byte>, v: seq<byte>)
    requires |raw| <= SIZE_MAX - 4
    ensures !EarlyNul(raw) && Trimmed(raw) == v <==> Spells(raw, v)
  {
    if !EarlyNul(raw) && Trimmed(raw) == v {
      forall i | 0 <= i < |v|
        ensures v[i] != 0
      {
        assert v[i] == raw[i];
      }
      assert raw != [] && raw[|raw| - 1] == 0 ==> raw == raw[..|raw| - 1] + [0];
    }
    if Spells(raw, v) {
      forall i | 0 <= i < |raw| - 1
        ensures raw[i] != 0
      {
        assert raw[i] == v[i] && v[i] in v;
      }
      assert raw == v && v != [] ==> v[|v| - 1] in v;
    }
  }

  lemma CStringExactly(m: seq<byte>, v: seq<byte>, rest: seq<byte>)
    ensures TakeCString(m) == Got(v, rest) <==> exists raw :: Spells(raw, v) && m == StringBytes(raw) + rest
  {
    hide TakeString, StringBytes, EarlyNul, Trimmed;
    match TakeString(m) {
      case Failed(_, _) =>
      case Got(raw, r) =>
        StringExactly(m, raw, r);
        TrimmedExactly(raw, v);
    }
    if raw :| Spells(raw, v) && m == StringBytes(raw) + rest {
      StringExactly(m, raw, rest);
      TrimmedExactly(raw, v);
    }
  }

  /** Every string accepted is one C can hold. */
  lemma TakenIsCString(m: seq<byte>)
    ensures TakeCString(m).Got? ==> IsCString(TakeCString(m).value)
  {
    hide TakeString;
    match TakeString(m)
    case Failed(_, _) =>
    case Got(s, _) =>
      if !EarlyNul(s) {
        forall i | 0 <= i < |Trimmed(s)|
          ensures Trimmed(s)[i] != 0
        {
          assert i < |s| - 1 || s[i] != 0;
        }
      }
  }

  // ---------------------------------------------------------------- appending

  /** How an append ended, and the buffer after it. */
  datatype Wrote = Wrote(error: Option<Error>, data: seq<byte>)

  /** Appending one piece after earlier ones: nothing is written after a failure, and no piece in part. */
  function Put(w: Wrote, piece: seq<byte>): Wrote {
    if w.error.Some? then w
    else if |w.data| + |piece| > SIZE_MAX then Wrote(Some(NoBufferSpace), w.data)
    else Wrote(None, w.data + piece)
  }

  function Outcome<T>(r: Result<T>, rest: seq<byte>): Read<T> {
    match r
    case Ok(v) => Got(v, rest)
    case Err(e) => Failed(e, rest)
  }

  // ---------------------------------------------------------------- the buffer

  /** struct sshbuf, as the bytes between its offset and its end. */
  class Sshbuf {
    var data: seq<byte>

    constructor (bytes: seq<byte>)
      ensures data == bytes
    {
      data := bytes;
    }

    method Append(piece: seq<byte>) returns (error: Option<Error>)
      modifies this
      ensures Wrote(error, data) == Put(Wrote(None, old(data)), piece)
    {
      if |data| + |piece| > SIZE_MAX {
        return Some(NoBufferSpace);
      }
      data := data + piece;
      return None;
    }

    method PutU8(v: byte) returns (error: Option<Error>)
      modifies this
      ensures Wrote(error, data) == Put(Wrote(None, old(data)), [v])
    {
      error := Append([v]);
    }

    method PutU32(v: u32) returns (error: Option<Error>)
      modifies this
      ensures Wrote(error, data) == Put(Wrote(None, old(data)), Be32(v))
    {
      error := Append(Be32(v));
    }

    method PutU64(v: nat) returns (error: Option<Error>)
      requires v < U64
      modifies this
      ensures Wrote(error, data) == Put(Wrote(None, old(data)), U64Bytes(v))
    {
      error := Append(U64Bytes(v));
    }

    /** sshbuf_put_string and its variants. */
    method PutString(v: seq<byte>) returns (error: Option<Error>)
      requires |v| < U32
      modifies this
      ensures Wrote(error, data) == Put(Wrote(None, old(data)), StringBytes(v))
    {
      if |v| > SIZE_MAX - 4 {
        return Some(NoBufferSpace);
      }
      error := Append(StringBytes(v));
    }

    method GetU8() returns (r: Result<byte>)
      modifies this
      ensures Outcome(r, data) == TakeU8(old(data))
    {
      if |data| < 1 {
        return Err(MessageIncomplete);
      }
      r := Ok(data[0]);
      data := data[1..];
    }

    method GetU16() returns (r: Result<nat>)
      modifies this
      ensures Outcome(r, data) == TakeU16(old(data))
    {
      if |data| < 2 {
        return Err(MessageIncomplete);
      }
      r := Ok(Peek16(data[0], data[1]));
      data := data[2..];
    }

    method GetBytes(n: nat) returns (r: Result<seq<byte>>)
      modifies this
      ensures Outcome(r, data) == TakeBytes(old(data), n)
    {
      if |data| < n {
        return Err(MessageIncomplete);
      }
      r := Ok(data[..n]);
      data := data[n..];
    }

    method GetU32() returns (r: Result<u32>)
      modifies this
      ensures Outcome(r, data) == TakeU32(old(data))
    {
      if |data| < 4 {
        return Err(MessageIncomplete);
      }
      r := Ok(Peek32(data[..4]));
      data := data[4..];
    }

    method GetU64() returns (r: Result<nat>)
      modifies this
      ensures Outcome(r, data) == TakeU64(old(data))
    {
      hide Peek32;
      if |data| < 8 {
        return Err(MessageIncomplete);
      }
      r := Ok(Peek32(data[..4]) * 0x1_0000_0000 + Peek32(data[4..8]));
      data := data[8..];
    }

    /** sshbuf_peek_string_direct: the string is left in the buffer. */
    method PeekString() returns (r: Result<seq<byte>>)
      ensures match TakeString(data)
        case Got(s, rest) => r == Ok(s) && rest == data[4 + |s|..] && 4 + |s| <= |data|
        case Failed(e, rest) => r == Err(e) && rest == data
    {
      hide Peek32;
      if |data| < 4 {
        return Err(MessageIncomplete);
      }
      var n := Peek32(data[..4]);
      if n > SIZE_MAX - 4 {
        return Err(StringTooLarge);
      }
      if |data| - 4 < n {
        return Err(MessageIncomplete);
      }
      return Ok(data[4..4 + n]);
    }

    /** sshbuf_get_string, and sshbuf_froms into a buffer of its own. */
    method GetString() returns (r: Result<seq<byte>>)
      modifies this
      ensures Outcome(r, data) == TakeString(old(data))
    {
      hide TakeString;
      r := PeekString();
      if r.Ok? {
        data := data[4 + |r.value|..];
      }
    }

    /** sshbuf_get_cstring. */
    method GetCString() returns (r: Result<seq<byte>>)
      modifies this
      ensures Outcome(r, data) == TakeCString(old(data))
    {
      hide TakeString;
      r := PeekString();
      if r.Err? {
        return;
      }
      var s := r.value;
      if s != [] {
        var z := 0;
        while z < |s| - 1 && s[z] != 0
          invariant 0 <= z <= |s| - 1
          invariant forall i | 0 <= i < z :: s[i] != 0
        {
          z := z + 1;
        }
        if z < |s| - 1 {
          return Err(InvalidFormat);
        }
      }
      data := data[4 + |s|..];
      r := Ok(Trimmed(s));
    }
  }
}
