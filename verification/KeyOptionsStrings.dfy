/** Exactly which bytes are accepted as the string and array fields of key options. */
module KeyOptionsStrings {
  import opened Bytes
  import opened Sshbufs
  import opened KeyOptions

  lemma FlagExactly(m: seq<byte>, v: byte, rest: seq<byte>)
    ensures TakeU8(m) == Got(v, rest) <==> m == [v] + rest
  {
    if TakeU8(m) == Got(v, rest) {
      assert m == [m[0]] + m[1..];
    }
  }

  /** A flag and a string follow; the string counts only if the flag is 0. */
  ghost predicate IsTextField(m: seq<byte>, flag: byte, raw: seq<byte>, v: seq<byte>, rest: seq<byte>) {
    Spells(raw, v) && m == [flag] + StringBytes(raw) + rest
  }

  lemma TextExactly(m: seq<byte>, t: Text, rest: seq<byte>)
    ensures TakeText(m) == Got(t, rest) <==>
      exists flag, raw, v :: IsTextField(m, flag, raw, v, rest) && t == if flag != 0 then None else Some(v)
  {
    hide TakeU8, TakeCString, StringBytes;
    if TakeText(m) == Got(t, rest) {
      var flag, m1 := TakeU8(m).value, TakeU8(m).rest;
      FlagExactly(m, flag, m1);
      var v := TakeCString(m1).value;
      CStringExactly(m1, v, rest);
      var raw :| Spells(raw, v) && m1 == StringBytes(raw) + rest;
      assert m == [flag] + StringBytes(raw) + rest;
      assert IsTextField(m, flag, raw, v, rest);
    }
    if flag, raw, v :| IsTextField(m, flag, raw, v, rest) && t == if flag != 0 then None else Some(v) {
      var m1 := StringBytes(raw) + rest;
      assert m == [flag] + m1;
      FlagExactly(m, flag, m1);
      CStringExactly(m1, v, rest);
    }
  }

  /** The strings one behind the other, as they stand in the inner string. */
  function Joined(raws: seq<seq<byte>>): seq<byte>
    requires forall i | 0 <= i < |raws| :: |raws[i]| < U32
  {
    if raws == [] then [] else StringBytes(raws[0]) + Joined(raws[1..])
  }

  ghost predicate AllSpell(raws: seq<seq<byte>>, a: seq<seq<byte>>) {
    |raws| == |a| && forall i | 0 <= i < |a| :: Spells(raws[i], a[i])
  }

  ghost predicate AreEntries(b: seq<byte>, raws: seq<seq<byte>>, a: seq<seq<byte>>, rest: seq<byte>) {
    AllSpell(raws, a) && b == Joined(raws) + rest
  }

  lemma {:induction false} EntriesOnly(b: seq<byte>, n: nat)
    requires TakeEntries(b, n).Got?
    ensures var r := TakeEntries(b, n);
      |r.value| == n && exists raws :: AreEntries(b, raws, r.value, r.rest)
    decreases n
  {
    hide TakeCString, StringBytes;
    var r := TakeEntries(b, n);
    if n == 0 {
      assert b == Joined([]) + b;
      assert AreEntries(b, [], [], b);
    } else {
      var v, b1 := TakeCString(b).value, TakeCString(b).rest;
      CStringExactly(b, v, b1);
      var raw :| Spells(raw, v) && b == StringBytes(raw) + b1;
      EntriesOnly(b1, n - 1);
      var tail := TakeEntries(b1, n - 1).value;
      var raws :| AreEntries(b1, raws, tail, r.rest);
      EntriesCons(raw, v, raws, tail, b1, r.rest);
      assert AreEntries(b, [raw] + raws, r.value, r.rest);
    }
  }

  lemma EntriesCons(raw: seq<byte>, v: seq<byte>, raws: seq<seq<byte>>, a: seq<seq<byte>>, b: seq<byte>,
                    rest: seq<byte>)
    requires Spells(raw, v) && AreEntries(b, raws, a, rest)
    ensures AreEntries(StringBytes(raw) + b, [raw] + raws, [v] + a, rest)
  {
    hide StringBytes;
    var all := [raw] + raws;
    assert all[1..] == raws;
    assert StringBytes(raw) + (Joined(raws) + rest) == StringBytes(raw) + Joined(raws) + rest;
  }

  lemma {:induction false} EntriesTakenAll(b: seq<byte>, raws: seq<seq<byte>>, a: seq<seq<byte>>, rest: seq<byte>)
    requires AreEntries(b, raws, a, rest)
    ensures TakeEntries(b, |a|) == Got(a, rest)
    decreases |a|
  {
    hide TakeCString, StringBytes;
    if a != [] {
      assert Spells(raws[0], a[0]);
      SpelledLength(raws[0], a[0]);
      SpelledLengths(raws, a);
      forall i | 0 <= i < |raws[1..]|
        ensures |raws[1..][i]| < U32 && Spells(raws[1..][i], a[1..][i])
      {
        assert raws[1..][i] == raws[i + 1] && a[1..][i] == a[i + 1];
      }
      var b1 := Joined(raws[1..]) + rest;
      assert b == StringBytes(raws[0]) + b1;
      CStringExactly(b, a[0], b1);
      EntriesTakenAll(b1, raws[1..], a[1..], rest);
      assert a == [a[0]] + a[1..];
    } else {
      assert b == rest;
    }
  }

  lemma SpelledLength(raw: seq<byte>, v: seq<byte>)
    requires Spells(raw, v)
    ensures |raw| < U32
  {
  }

  /** A number, and a string that begins with as many strings; what stands behind them in it is dropped. */
  ghost predicate IsList(m: seq<byte>, raws: seq<seq<byte>>, a: seq<seq<byte>>, more: seq<byte>, rest: seq<byte>) {
    AllSpell(raws, a) && |a| <= INT_MAX && |Joined(raws) + more| <= SIZE_MAX - 4
    && m == Be32(|a|) + StringBytes(Joined(raws) + more) + rest
  }

  lemma ListExactly(m: seq<byte>, a: seq<seq<byte>>, rest: seq<byte>)
    ensures TakeTexts(m) == Got(a, rest) <==> exists raws, more :: IsList(m, raws, a, more, rest)
  {
    if TakeTexts(m) == Got(a, rest) {
      ListOnly(m, a, rest);
    }
    if raws, more :| IsList(m, raws, a, more, rest) {
      ListTakenAll(m, raws, a, more, rest);
    }
  }

  lemma ListOnly(m: seq<byte>, a: seq<seq<byte>>, rest: seq<byte>)
    requires TakeTexts(m) == Got(a, rest)
    ensures exists raws, more :: IsList(m, raws, a, more, rest)
  {
    hide TakeU32, TakeString, TakeEntries, StringBytes, Be32, Joined, AllSpell;
    var n, m1 := TakeU32(m).value, TakeU32(m).rest;
    U32Exactly(m, n, m1);
    var b := TakeString(m1).value;
    StringExactly(m1, b, rest);
    EntriesOnly(b, n);
    var more := TakeEntries(b, n).rest;
    var raws :| AreEntries(b, raws, a, more);
    SpelledLengths(raws, a);
    assert m == Be32(|a|) + StringBytes(b) + rest;
    assert IsList(m, raws, a, more, rest);
  }

  lemma SpelledLengths(raws: seq<seq<byte>>, a: seq<seq<byte>>)
    requires AllSpell(raws, a)
    ensures forall i | 0 <= i < |raws| :: |raws[i]| < U32
  {
    forall i | 0 <= i < |raws|
      ensures |raws[i]| < U32
    {
      SpelledLength(raws[i], a[i]);
    }
  }

  lemma ListTakenAll(m: seq<byte>, raws: seq<seq<byte>>, a: seq<seq<byte>>, more: seq<byte>, rest: seq<byte>)
    requires IsList(m, raws, a, more, rest)
    ensures TakeTexts(m) == Got(a, rest)
  {
    SpelledLengths(raws, a);
    hide TakeU32, TakeString, TakeEntries, StringBytes, Be32, Joined, AllSpell;
    var b := Joined(raws) + more;
    assert m == Be32(|a|) + (StringBytes(b) + rest);
    U32Exactly(m, |a|, StringBytes(b) + rest);
    StringExactly(StringBytes(b) + rest, b, rest);
    assert AreEntries(b, raws, a, more);
    EntriesTakenAll(b, raws, a, more);
  }
}
