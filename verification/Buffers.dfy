/** What the output and input buffers of a byte loop hold part of the way. */
module Buffers {
  import opened Bytes

  /** A buffer whose bytes from `at` on have been overwritten by the first k bytes of `out`. */
  function Splice(was: seq<byte>, at: nat, out: seq<byte>, k: nat): seq<byte>
    requires at + k <= |was| && k <= |out|
  {
    was[..at] + out[..k] + was[at + k..]
  }

  lemma SpliceMore(was: seq<byte>, at: nat, out: seq<byte>, k: nat, piece: seq<byte>)
    requires at + k + |piece| <= |was| && k + |piece| <= |out|
    requires piece == out[k..k + |piece|]
    ensures |Splice(was, at, out, k)| == |was|
    ensures Splice(was, at, out, k)[..at + k] + piece + Splice(was, at, out, k)[at + k + |piece|..]
         == Splice(was, at, out, k + |piece|)
  {
    var s := Splice(was, at, out, k);
    assert s[..at + k] == was[..at] + out[..k];
    assert s[at + k + |piece|..] == was[at + k + |piece|..];
    assert out[..k] + piece == out[..k + |piece|];
  }

  lemma SpliceAll(was: seq<byte>, at: nat, out: seq<byte>)
    requires at + |out| <= |was|
    ensures Splice(was, at, out, 0) == was
    ensures Splice(was, at, out, |out|) == was[..at] + out + was[at + |out|..]
  {
  }

  /** The bytes of `data` from `from` on still stand in the buffer at their place. */
  predicate Kept(s: seq<byte>, at: nat, data: seq<byte>, from: nat) {
    from <= |data| && at + |data| <= |s| && s[at + from..at + |data|] == data[from..]
  }

  lemma KeptAll(s: seq<byte>, at: nat, n: nat)
    requires at + n <= |s|
    ensures Kept(s, at, s[at..at + n], 0)
  {
  }

  lemma KeptSlice(s: seq<byte>, at: nat, data: seq<byte>, from: nat, k: nat)
    requires Kept(s, at, data, from) && from + k <= |data|
    ensures s[at + from..at + from + k] == data[from..from + k]
  {
    assert s[at + from..at + from + k] == s[at + from..at + |data|][..k];
    assert data[from..from + k] == data[from..][..k];
  }

  lemma KeptMore(s: seq<byte>, t: seq<byte>, at: nat, data: seq<byte>, from: nat, k: nat)
    requires Kept(s, at, data, from) && from + k <= |data| && |t| == |s|
    requires t[at + from + k..] == s[at + from + k..]
    ensures Kept(t, at, data, from + k)
  {
    var n := |data| - from - k;
    assert t[at + from + k..at + |data|] == t[at + from + k..][..n];
    assert s[at + from + k..at + |data|] == s[at + from + k..][..n];
    assert s[at + from + k..at + |data|] == s[at + from..at + |data|][k..];
  }

  lemma KeptHead(s: seq<byte>, at: nat, data: seq<byte>, from: nat)
    requires Kept(s, at, data, from) && from < |data|
    ensures s[at + from] == data[from]
  {
    assert s[at + from..at + |data|][0] == data[from..][0];
  }
}
