/**
 The AuthenticationMethods engine: comma lists of methods that successes cut down from the front, and what that
 string surgery means for a list of (method, submethod) pairs.

 A C string is the sequence of its characters before the terminating NUL.
 */
module AuthMethods {
  import opened Bytes

  // ---------------------------------------------------------------- string level

  datatype Match = MatchNone | MatchMethod | MatchBoth | MatchPartial

  function Terminated(p: string, m: Match): Match {
    if p == "" || p[0] == ',' then m else MatchNone
  }

  function ListStartsWith(methods: string, name: string, submethod: Option<string>): Match {
    if !(name <= methods) then MatchNone
    else
      var p := methods[|name|..];
      if p != "" && p[0] == ':' then
        if submethod.None? then MatchPartial
        else if !(submethod.value <= p[1..]) then MatchNone
        else Terminated(p[1..][|submethod.value|..], MatchBoth)
      else Terminated(p, MatchMethod)
  }

  /** The list without its first entry, or None if the name does not match there. */
  function Removed(methods: string, name: string, submethod: Option<string>): Option<string> {
    var m := ListStartsWith(methods, name, submethod);
    if !m.MatchMethod? && !m.MatchBoth? then None
    else
      var p := methods[|name| + (if m.MatchBoth? then 1 + |submethod.value| else 0)..];
      Some(if p != "" && p[0] == ',' then p[1..] else p)
  }

  // ---------------------------------------------------------------- list level

  /** One entry of a methods list: a method, optionally restricted to a submethod. */
  datatype Entry = Entry(name: string, sub: Option<string>)

  /** A successful authentication. */
  datatype Success = Success(name: string, sub: Option<string>)

  predicate Plain(s: string) { s != "" && ',' !in s && ':' !in s }

  predicate NoComma(s: Option<string>) { s.Some? ==> ',' !in s.value }

  predicate WellFormed(es: seq<Entry>) {
    forall e :: e in es ==> Plain(e.name) && NoComma(e.sub)
  }

  /** What the rest of the system guarantees of a method name and its submethod. */
  predicate Named(x: Success) { Plain(x.name) && NoComma(x.sub) }

  function Render(e: Entry): string {
    if e.sub.None? then e.name else e.name + ":" + e.sub.value
  }

  function Join(es: seq<Entry>): string
    decreases |es|, 0
  {
    if es == [] then "" else Render(es[0]) + JoinRest(es[1..])
  }

  function JoinRest(es: seq<Entry>): string
    decreases |es|, 1
  {
    if es == [] then "" else "," + Join(es)
  }

  predicate Matches(e: Entry, x: Success) {
    e.name == x.name && (e.sub.Some? ==> e.sub == x.sub)
  }

  /** The list begins with the method and, where both name one, with the submethod. */
  predicate Begins(es: seq<Entry>, name: string, sub: Option<string>) {
    es != [] && es[0].name == name && (es[0].sub.Some? && sub.Some? ==> es[0].sub == sub)
  }

  lemma HeadMatchMeans(es: seq<Entry>, x: Success)
    ensures !HeadMatch(es, x).MatchNone? <==> Begins(es, x.name, x.sub)
    ensures HeadMatch(es, x).MatchMethod? || HeadMatch(es, x).MatchBoth? <==> es != [] && Matches(es[0], x)
  {
  }

  /** The list after a success: its head is dropped if it matches. */
  function Drop(es: seq<Entry>, x: Success): seq<Entry> {
    if es != [] && Matches(es[0], x) then es[1..] else es
  }

  /** How the head of a list compares with a success, in the terms of list_starts_with. */
  function HeadMatch(es: seq<Entry>, x: Success): Match {
    if es == [] || es[0].name != x.name then MatchNone
    else if es[0].sub.None? then MatchMethod
    else if x.sub.None? then MatchPartial
    else if es[0].sub == x.sub then MatchBoth
    else MatchNone
  }

  lemma LongerMeetsStop(a: string, rest: string, x: string)
    requires |x| > |a| && x <= a + rest
    ensures rest != "" && rest[0] in x
  {
    assert x[|a|] == (a + rest)[|a|];
  }

  lemma PrefixStops(a: string, rest: string, x: string, stop: set<char>)
    requires forall c :: c in a ==> c !in stop
    requires forall c :: c in x ==> c !in stop
    requires rest == "" || rest[0] in stop
    ensures x <= a + rest <==> x <= a
    ensures x <= a ==> (a + rest)[|x|..] == a[|x|..] + rest
  {
    if |x| > |a| && x <= a + rest {
      LongerMeetsStop(a, rest, x);
    }
    if x <= a + rest {
      assert x == (a + rest)[..|x|] == a[..|x|];
    }
    if x <= a {
      assert a == x + a[|x|..];
    }
  }

  lemma JoinRestStops(es: seq<Entry>)
    ensures JoinRest(es) == "" || JoinRest(es)[0] == ','
  {
  }

  /** list_starts_with looks at the first entry and nothing else. */
  lemma StartsWithRefines(es: seq<Entry>, x: Success)
    requires WellFormed(es) && Named(x)
    ensures ListStartsWith(Join(es), x.name, x.sub) == HeadMatch(es, x)
  {
    hide JoinRest, ListStartsWith, HeadMatch, Plain, Render;
    if es == [] {
      NothingStarts(x);
    } else {
      var e, rest := es[0], JoinRest(es[1..]);
      assert e in es;
      JoinRestStops(es[1..]);
      RenderTail(e, rest);
      EntryStarts(es, e, rest, x);
    }
  }

  lemma NothingStarts(x: Success)
    requires Plain(x.name)
    ensures ListStartsWith("", x.name, x.sub) == HeadMatch([], x)
  {
  }

  lemma RenderTail(e: Entry, rest: string)
    ensures Render(e) + rest == e.name + Tail(e, rest)
  {
  }

  /** The comparison of one entry, with anything behind it. */
  lemma EntryStarts(es: seq<Entry>, e: Entry, rest: string, x: Success)
    requires Plain(e.name) && NoComma(e.sub) && Named(x) && es != [] && es[0] == e
    requires rest == "" || rest[0] == ','
    ensures ListStartsWith(e.name + Tail(e, rest), x.name, x.sub) == HeadMatch(es, x)
  {
    hide Plain;
    NameRefines(e.name, Tail(e, rest), x.name);
    if x.name == e.name && e.sub.Some? && x.sub.Some? {
      assert Tail(e, rest)[1..] == e.sub.value + rest;
      SubRefines(e.sub.value, rest, x.sub.value);
    }
  }

  /** What follows the name in a list that starts with this entry. */
  function Tail(e: Entry, rest: string): string {
    if e.sub.None? then rest else ":" + e.sub.value + rest
  }

  lemma NameRefines(name: string, tail: string, x: string)
    requires Plain(name) && Plain(x) && (tail == "" || tail[0] in {':', ','})
    ensures x <= name + tail ==> if x == name then (name + tail)[|x|..] == tail
      else (name + tail)[|x|..] != "" && (name + tail)[|x|..][0] !in {':', ','}
    ensures x == name ==> x <= name + tail
  {
    PrefixStops(name, tail, x, {':', ','});
    if x <= name {
      var p := name[|x|..] + tail;
      if |x| < |name| {
        assert p[0] == name[|x|];
        assert p[0] in name;
      }
    }
  }

  lemma SubRefines(s: string, rest: string, x: string)
    requires ',' !in s && ',' !in x && (rest == "" || rest[0] == ',')
    ensures x <= s + rest ==>
      Terminated((s + rest)[|x|..], MatchBoth) == (if s == x then MatchBoth else MatchNone)
    ensures s == x ==> x <= s + rest
  {
    PrefixStops(s, rest, x, {','});
    if x <= s {
      var q := s[|x|..] + rest;
      if |x| < |s| {
        assert q[0] == s[|x|];
        assert q[0] in s;
      }
    }
  }

  /** remove_method refines dropping a matching head. */
  lemma RemovedRefines(es: seq<Entry>, x: Success)
    requires WellFormed(es) && Named(x)
    ensures Removed(Join(es), x.name, x.sub)
      == if es != [] && Matches(es[0], x) then Some(Join(es[1..])) else None
  {
    StartsWithRefines(es, x);
    if es != [] && Matches(es[0], x) {
      var e, rest := es[0], JoinRest(es[1..]);
      var p := Render(e) + rest;
      assert p[|Render(e)|..] == rest;
      assert es[1..] != [] ==> rest[1..] == Join(es[1..]);
    }
  }

  // ---------------------------------------------------------------- what completion means

  /** The list is a subsequence of the successes: `f` places its entries, in order, at successes they match. */
  ghost predicate Placed(es: seq<Entry>, hist: seq<Success>, f: seq<nat>) {
    && |f| == |es|
    && (forall j :: 0 <= j < |f| ==> f[j] < |hist| && Matches(es[j], hist[f[j]]))
    && (forall j, k :: 0 <= j < k < |f| ==> f[j] < f[k])
  }

  ghost predicate Embeds(es: seq<Entry>, hist: seq<Success>) {
    exists f :: Placed(es, hist, f)
  }

  /** What is left of a list after the successes, each dropping a matching head. */
  function Remaining(es: seq<Entry>, hist: seq<Success>): seq<Entry> {
    if hist == [] then es else Drop(Remaining(es, hist[..|hist| - 1]), hist[|hist| - 1])
  }

  lemma {:induction false} RemainingIsSuffix(es: seq<Entry>, hist: seq<Success>)
    ensures |Remaining(es, hist)| <= |es|
    ensures Remaining(es, hist) == es[|es| - |Remaining(es, hist)|..]
  {
    if hist != [] {
      RemainingIsSuffix(es, hist[..|hist| - 1]);
    }
  }

  /** Greedy removal from the front places the entries it has removed. */
  lemma {:induction false} GreedyPlaces(es: seq<Entry>, hist: seq<Success>) returns (f: seq<nat>)
    ensures |Remaining(es, hist)| <= |es|
    ensures Placed(es[..|es| - |Remaining(es, hist)|], hist, f)
  {
    RemainingIsSuffix(es, hist);
    if hist == [] {
      f := [];
    } else {
      var n := |hist| - 1;
      var was := Remaining(es, hist[..n]);
      RemainingIsSuffix(es, hist[..n]);
      f := GreedyPlaces(es, hist[..n]);
      if was != [] && Matches(was[0], hist[n]) {
        assert es[|es| - |was|] == was[0];
        f := f + [n];
      }
    }
  }

  lemma PlacedFirst(es: seq<Entry>, hist: seq<Success>, f: seq<nat>)
    requires Placed(es, hist, f) && es != []
    ensures |f| == |es| && hist != []
  {
    assert f[0] < |hist|;
  }

  /** A placement either uses the last success for its last entry, or does without it. */
  lemma PlacedCases(es: seq<Entry>, hist: seq<Success>, f: seq<nat>)
    requires Placed(es, hist, f) && es != [] && hist != []
    ensures var n, k := |hist| - 1, |es| - 1;
      if f[k] == n then Placed(es[..k], hist[..n], f[..k]) && Matches(es[k], hist[n])
      else Placed(es, hist[..n], f)
  {
    var n, k := |hist| - 1, |es| - 1;
    forall j | 0 <= j < k
      ensures f[j] < f[k] <= n
    {
    }
  }

  /** No placement gets further than greedy removal does. */
  lemma {:induction false} GreedyIsBest(es: seq<Entry>, hist: seq<Success>, k: nat, f: seq<nat>)
    requires k <= |es| && Placed(es[..k], hist, f)
    ensures |Remaining(es, hist)| <= |es| - k
  {
    hide Placed, Matches;
    RemainingIsSuffix(es, hist);
    if k > 0 {
      PlacedFirst(es[..k], hist, f);
      var n := |hist| - 1;
      var was := Remaining(es, hist[..n]);
      RemainingIsSuffix(es, hist[..n]);
      PlacedCases(es[..k], hist, f);
      if f[k - 1] == n {
        assert es[..k][..k - 1] == es[..k - 1];
        GreedyIsBest(es, hist[..n], k - 1, f[..k - 1]);
        assert |was| == |es| - k + 1 ==> was[0] == es[k - 1];
      } else {
        GreedyIsBest(es, hist[..n], k, f);
      }
    }
  }

  /** A list is used up exactly when it is a subsequence of the successes. */
  lemma UsedUpIffEmbedded(es: seq<Entry>, hist: seq<Success>)
    ensures Remaining(es, hist) == [] <==> Embeds(es, hist)
  {
    if Remaining(es, hist) == [] {
      var f := GreedyPlaces(es, hist);
      assert es[..|es|] == es;
      assert Placed(es, hist, f);
    }
    if Embeds(es, hist) {
      var f :| Placed(es, hist, f);
      assert es[..|es|] == es;
      GreedyIsBest(es, hist, |es|, f);
    }
  }

  // ---------------------------------------------------------------- one update of all lists

  datatype Verdict = Complete | Partial | Fatal

  /** auth2_update_methods_lists on entry lists, from list i on. */
  function UpdateFrom(lists: seq<seq<Entry>>, i: nat, x: Success, found: bool): (seq<seq<Entry>>, Verdict)
    requires i <= |lists|
    decreases |lists| - i
  {
    if i == |lists| then (lists, if found then Partial else Fatal)
    else if lists[i] == [] || !Matches(lists[i][0], x) then UpdateFrom(lists, i + 1, x, found)
    else
      var next := lists[i := lists[i][1..]];
      if next[i] == [] then (next, Complete) else UpdateFrom(next, i + 1, x, true)
  }

  predicate Hit(es: seq<Entry>, x: Success) { es != [] && Matches(es[0], x) }

  function Total(lists: seq<seq<Entry>>): nat {
    if lists == [] then 0 else |lists[0]| + Total(lists[1..])
  }

  lemma {:induction false} TotalUpdate(lists: seq<seq<Entry>>, i: nat, es: seq<Entry>)
    requires i < |lists|
    ensures Total(lists[i := es]) + |lists[i]| == Total(lists) + |es|
  {
    if i > 0 {
      assert lists[i := es][1..] == lists[1..][i - 1 := es];
      TotalUpdate(lists[1..], i - 1, es);
    } else {
      assert lists[i := es][1..] == lists[1..];
    }
  }

  /** Which verdict falls, and what the lists become. */
  lemma {:induction false} UpdateMeans(lists: seq<seq<Entry>>, i: nat, x: Success, found: bool)
    requires i <= |lists|
    ensures var (next, v) := UpdateFrom(lists, i, x, found);
      && |next| == |lists|
      && (v.Complete? <==> exists j :: i <= j < |lists| && Hit(lists[j], x) && |lists[j]| == 1)
      && (v.Fatal? <==> !found && forall j :: i <= j < |lists| ==> !Hit(lists[j], x))
      && (!v.Complete? ==>
            && (forall j :: i <= j < |lists| ==> next[j] == Drop(lists[j], x))
            && (forall j :: 0 <= j < i ==> next[j] == lists[j]))
      && Total(next) <= Total(lists)
      && (v.Partial? && !found ==> Total(next) < Total(lists))
    decreases |lists| - i
  {
    if i < |lists| {
      if Hit(lists[i], x) {
        var next := lists[i := lists[i][1..]];
        TotalUpdate(lists, i, lists[i][1..]);
        assert forall j :: i < j < |lists| ==> next[j] == lists[j];
        if next[i] != [] {
          UpdateMeans(next, i + 1, x, true);
        }
      } else {
        UpdateMeans(lists, i + 1, x, found);
      }
    }
  }

  // ---------------------------------------------------------------- a run of partial successes

  /** The lists after a run of successes none of which completed one; None if the run was not of that kind. */
  function Play(lists: seq<seq<Entry>>, hist: seq<Success>): Option<seq<seq<Entry>>> {
    if hist == [] then Some(lists)
    else
      var was := Play(lists, hist[..|hist| - 1]);
      if was.None? then None
      else
        var (next, v) := UpdateFrom(was.value, 0, hist[|hist| - 1], false);
        if v.Partial? then Some(next) else None
  }

  predicate NoneEmpty(lists: seq<seq<Entry>>) {
    forall j :: 0 <= j < |lists| ==> lists[j] != []
  }

  /** While no list is complete, each holds what its successes have left of it, and every success took something. */
  lemma {:induction false} PlayLeaves(lists: seq<seq<Entry>>, hist: seq<Success>)
    requires NoneEmpty(lists) && Play(lists, hist).Some?
    ensures var now := Play(lists, hist).value;
      && |now| == |lists| && NoneEmpty(now)
      && (forall j :: 0 <= j < |lists| ==> now[j] == Remaining(lists[j], hist))
      && |hist| + Total(now) <= Total(lists)
  {
    if hist != [] {
      var n := |hist| - 1;
      PlayLeaves(lists, hist[..n]);
      UpdateMeans(Play(lists, hist[..n]).value, 0, hist[n], false);
    }
  }

  /**
   Authentication completes exactly when some configured list is a subsequence of the successes, and the number of
   partial successes before that is bounded by the number of entries in the lists.
   */
  lemma CompletionExactly(lists: seq<seq<Entry>>, hist: seq<Success>, x: Success)
    requires NoneEmpty(lists) && Play(lists, hist).Some?
    ensures var v := UpdateFrom(Play(lists, hist).value, 0, x, false).1;
      && (v.Complete? <==> exists j :: 0 <= j < |lists| && Embeds(lists[j], hist + [x]))
      && (v.Fatal? <==> forall j :: 0 <= j < |lists| ==> !Hit(Remaining(lists[j], hist), x))
    ensures |hist| <= Total(lists)
    ensures forall j :: 0 <= j < |lists| ==> !Embeds(lists[j], hist)
  {
    hide Embeds, Remaining, Play, UpdateFrom, Hit, Total;
    PlayLeaves(lists, hist);
    var now := Play(lists, hist).value;
    UpdateMeans(now, 0, x, false);
    forall j | 0 <= j < |lists|
      ensures !Embeds(lists[j], hist)
      ensures Embeds(lists[j], hist + [x]) <==> Hit(now[j], x) && |now[j]| == 1
    {
      UsedUpIffEmbedded(lists[j], hist);
      UsedUpIffEmbedded(lists[j], hist + [x]);
      RemainingStep(lists[j], hist, x);
    }
  }

  lemma RemainingStep(es: seq<Entry>, hist: seq<Success>, x: Success)
    ensures Remaining(es, hist + [x]) == Drop(Remaining(es, hist), x)
    ensures Remaining(es, hist) != [] ==>
      (Remaining(es, hist + [x]) == [] <==> Hit(Remaining(es, hist), x) && |Remaining(es, hist)| == 1)
  {
    assert (hist + [x])[..|hist|] == hist;
  }

  // ---------------------------------------------------------------- reading a configured list

  /** The part of `s` before the first `c`, all of it if there is none. */
  function Upto(s: string, c: char): (n: nat)
    ensures n <= |s| && c !in s[..n] && (n < |s| ==> s[n] == c)
  {
    if s == "" || s[0] == c then 0 else 1 + Upto(s[1..], c)
  }

  function ParseEntry(item: string): Entry {
    var n := Upto(item, ':');
    if n == |item| then Entry(item, None) else Entry(item[..n], Some(item[n + 1..]))
  }

  function Parse(s: string): (es: seq<Entry>)
    ensures es != []
  {
    var n := Upto(s, ',');
    if n == |s| then [ParseEntry(s)] else [ParseEntry(s[..n])] + Parse(s[n + 1..])
  }

  lemma RenderParse(item: string)
    ensures Render(ParseEntry(item)) == item
    ensures ',' !in item ==> ',' !in ParseEntry(item).name && NoComma(ParseEntry(item).sub)
    ensures ':' !in ParseEntry(item).name
  {
    var n := Upto(item, ':');
    if n < |item| {
      assert item == item[..n] + [item[n]] + item[n + 1..];
    } else {
      assert item[..n] == item;
    }
  }

  lemma ParseStep(s: string)
    ensures var n := Upto(s, ',');
      Parse(s) == [ParseEntry(s[..n])] + (if n < |s| then Parse(s[n + 1..]) else [])
  {
    assert s[..|s|] == s;
  }

  /** Splitting at commas and colons loses nothing. */
  lemma {:induction false} JoinParse(s: string)
    ensures Join(Parse(s)) == s
  {
    hide Upto, ParseEntry, Render, Parse;
    var n := Upto(s, ',');
    ParseStep(s);
    RenderParse(s[..n]);
    if n == |s| {
      assert Parse(s)[1..] == [] && s[..n] == s;
    } else {
      JoinParse(s[n + 1..]);
      assert Parse(s)[1..] == Parse(s[n + 1..]);
      assert s == s[..n] + ("," + s[n + 1..]);
    }
  }

  /** A list all of whose names are non-empty parses into well-formed entries. */
  lemma {:induction false} ParseWellFormed(s: string)
    requires forall e :: e in Parse(s) ==> e.name != ""
    ensures WellFormed(Parse(s))
  {
    hide Upto, ParseEntry, Render, Parse;
    var n := Upto(s, ',');
    ParseStep(s);
    var e := ParseEntry(s[..n]);
    RenderParse(s[..n]);
    assert e in Parse(s);
    if n < |s| {
      ParseWellFormed(s[n + 1..]);
    }
  }

  /** A row of the table of authentication methods. */
  datatype Cfg = Cfg(name: string, enabled: bool)

  /** A method table: names are distinct and fit for a comma list. */
  predicate Table(cfgs: seq<Cfg>) {
    && (forall i :: 0 <= i < |cfgs| ==> Plain(cfgs[i].name))
    && (forall i, j :: 0 <= i < j < |cfgs| ==> cfgs[i].name != cfgs[j].name)
  }

  /** The table of a build without GSSAPI. */
  function Methods(none: bool, pubkey: bool, passwd: bool, kbdint: bool, hostbased: bool): seq<Cfg> {
    [Cfg("none", none), Cfg("publickey", pubkey), Cfg("password", passwd), Cfg("keyboard-interactive", kbdint),
     Cfg("hostbased", hostbased)]
  }

  lemma MethodsTable(none: bool, pubkey: bool, passwd: bool, kbdint: bool, hostbased: bool)
    ensures Table(Methods(none, pubkey, passwd, kbdint, hostbased))
  {
    assert |"none"| == 4 && |"publickey"| == 9 && |"password"| == 8 && |"keyboard-interactive"| == 20;
    assert |"hostbased"| == 9 && "publickey"[0] != "hostbased"[0];
    PlainNames();
  }

  lemma PlainNames()
    ensures Plain("none") && Plain("publickey") && Plain("password")
    ensures Plain("keyboard-interactive") && Plain("hostbased")
  {
  }

  predicate Known(cfgs: seq<Cfg>, name: string, needEnable: bool) {
    exists i :: 0 <= i < |cfgs| && cfgs[i].name == name && (needEnable ==> cfgs[i].enabled)
  }

  /** Every method named by a list is in the table, and enabled if that is asked for. */
  predicate ValidList(cfgs: seq<Cfg>, s: string, needEnable: bool) {
    s != "" && forall e :: e in Parse(s) ==> Known(cfgs, e.name, needEnable)
  }

  lemma NameOfItem(item: string)
    ensures ParseEntry(item).name == item[..Upto(item, ':')]
  {
    assert item[..|item|] == item;
  }

  /** auth2_methods_valid: 0 becomes true. */
  method MethodsValid(list: string, needEnable: bool, cfgs: seq<Cfg>) returns (ok: bool)
    requires Table(cfgs)
    ensures ok == ValidList(cfgs, list, needEnable)
  {
    hide Parse, ParseEntry, Upto;
    if list == "" {
      return false;
    }
    var methods := Some(list);
    ghost var done: seq<Entry> := [];
    while methods.Some?
      invariant methods.Some? ==> Parse(list) == done + Parse(methods.value)
      invariant methods.None? ==> Parse(list) == done
      invariant forall e :: e in done ==> Known(cfgs, e.name, needEnable)
      decreases if methods.Some? then |methods.value| + 1 else 0
    {
      var cut := Upto(methods.value, ',');
      var item := methods.value[..cut];
      ParseStep(methods.value);
      done := done + [ParseEntry(item)];
      methods := if cut < |methods.value| then Some(methods.value[cut + 1..]) else None;
      ghost var rest := if methods.Some? then Parse(methods.value) else [];
      assert Parse(list) == done + rest && done[|done| - 1] in Parse(list);
      var name := item[..Upto(item, ':')];
      NameOfItem(item);
      var found, i := false, 0;
      while !found && i < |cfgs|
        invariant 0 <= i <= |cfgs|
        invariant !found ==> forall k :: 0 <= k < i ==> cfgs[k].name != name
        invariant found ==> Known(cfgs, name, needEnable)
      {
        if name == cfgs[i].name {
          if needEnable && !cfgs[i].enabled {
            assert !Known(cfgs, name, needEnable);
            return false;
          }
          found := true;
        }
        i := i + 1;
      }
      if !found {
        return false;
      }
    }
    ok := true;
  }

  /** What the configuration check makes sure of: a valid list is the text of a non-empty well-formed list. */
  lemma ValidIsWellFormed(cfgs: seq<Cfg>, s: string, needEnable: bool)
    requires Table(cfgs) && ValidList(cfgs, s, needEnable)
    ensures WellFormed(Parse(s)) && Parse(s) != [] && Join(Parse(s)) == s
  {
    forall e | e in Parse(s)
      ensures e.name != ""
    {
      var i :| 0 <= i < |cfgs| && cfgs[i].name == e.name;
      assert Plain(cfgs[i].name);
    }
    ParseWellFormed(s);
    JoinParse(s);
  }

  lemma {:induction false} UptoFirst(a: string, rest: string, c: char)
    requires c !in a && (rest == "" || rest[0] == c)
    ensures Upto(a + rest, c) == |a|
  {
    if a != "" {
      assert (a + rest)[0] == a[0] && (a + rest)[1..] == a[1..] + rest;
      UptoFirst(a[1..], rest, c);
    } else {
      assert a + rest == rest;
    }
  }

  lemma ParseRendered(e: Entry)
    requires Plain(e.name) && NoComma(e.sub)
    ensures ParseEntry(Render(e)) == e && ',' !in Render(e)
  {
    if e.sub.None? {
      assert e.name + "" == e.name;
      UptoFirst(e.name, "", ':');
    } else {
      var tail := ":" + e.sub.value;
      assert Render(e) == e.name + tail;
      UptoFirst(e.name, tail, ':');
      assert Render(e)[..|e.name|] == e.name && Render(e)[|e.name| + 1..] == e.sub.value;
    }
  }

  /** The entries of a text are the ones it was made of. */
  lemma {:induction false} ParseJoin(es: seq<Entry>)
    requires WellFormed(es) && es != []
    ensures Parse(Join(es)) == es
  {
    hide Upto, ParseEntry, Render, Parse;
    var s, rest := Join(es), JoinRest(es[1..]);
    assert es[0] in es;
    ParseRendered(es[0]);
    JoinRestStops(es[1..]);
    UptoFirst(Render(es[0]), rest, ',');
    ParseStep(s);
    assert s[..|Render(es[0])|] == Render(es[0]);
    if es[1..] != [] {
      TailWellFormed(es);
      ParseJoin(es[1..]);
      assert s[|Render(es[0])| + 1..] == Join(es[1..]);
    }
    assert es == [es[0]] + es[1..];
  }

  /** A list is valid exactly if it is the text of some entries, all with names in the table, enabled where asked. */
  lemma ValidExactly(cfgs: seq<Cfg>, s: string, needEnable: bool)
    requires Table(cfgs)
    ensures ValidList(cfgs, s, needEnable) <==>
      exists es :: es != [] && WellFormed(es) && Join(es) == s && AllInTable(cfgs, es, needEnable)
  {
    if ValidList(cfgs, s, needEnable) {
      ValidIsWellFormed(cfgs, s, needEnable);
      assert AllInTable(cfgs, Parse(s), needEnable);
    }
    if es :| es != [] && WellFormed(es) && Join(es) == s && AllInTable(cfgs, es, needEnable) {
      ParseJoin(es);
      JoinEmpty(es);
    }
  }

  predicate AllInTable(cfgs: seq<Cfg>, es: seq<Entry>, needEnable: bool) {
    forall e | e in es ::
      exists i | 0 <= i < |cfgs| :: cfgs[i].name == e.name && (needEnable ==> cfgs[i].enabled)
  }

  /** The lists that survive are those of the valid configured ones, and each of these. */
  lemma {:induction false} SurvivingExactly(cfgs: seq<Cfg>, configured: seq<string>, es: seq<Entry>)
    ensures es in Surviving(cfgs, configured) <==>
      exists i | 0 <= i < |configured| :: ValidList(cfgs, configured[i], true) && Parse(configured[i]) == es
  {
    hide ValidList, Parse;
    if configured != [] {
      var n := |configured| - 1;
      SurvivingExactly(cfgs, configured[..n], es);
      assert forall i | 0 <= i < n :: configured[..n][i] == configured[i];
    }
  }

  // ---------------------------------------------------------------- the authentication context

  /** How userauth_finish ends: a fatal exit, nothing to say yet, success, failure, or too many failures. */
  datatype Reply = FatalExit | Silent | SuccessReply | FailureReply(partial: bool) | TooManyTries

  function Texts(lists: seq<seq<Entry>>): seq<string> {
    seq(|lists|, i requires 0 <= i < |lists| => Join(lists[i]))
  }

  predicate AllWellFormed(lists: seq<seq<Entry>>) {
    forall j :: 0 <= j < |lists| ==> WellFormed(lists[j])
  }

  lemma {:induction false} PlayWellFormed(lists: seq<seq<Entry>>, hist: seq<Success>)
    requires NoneEmpty(lists) && AllWellFormed(lists) && Play(lists, hist).Some?
    ensures AllWellFormed(Play(lists, hist).value)
  {
    PlayLeaves(lists, hist);
    forall j | 0 <= j < |lists|
      ensures WellFormed(Play(lists, hist).value[j])
    {
      RemainingIsSuffix(lists[j], hist);
    }
  }

  /** The configured lists that name only enabled methods, in order. */
  function Surviving(cfgs: seq<Cfg>, configured: seq<string>): seq<seq<Entry>> {
    if configured == [] then []
    else
      var front := Surviving(cfgs, configured[..|configured| - 1]);
      var last := configured[|configured| - 1];
      if ValidList(cfgs, last, true) then front + [Parse(last)] else front
  }

  lemma {:induction false} SurvivingFit(cfgs: seq<Cfg>, configured: seq<string>)
    requires Table(cfgs)
    ensures NoneEmpty(Surviving(cfgs, configured)) && AllWellFormed(Surviving(cfgs, configured))
  {
    if configured != [] {
      SurvivingFit(cfgs, configured[..|configured| - 1]);
      var last := configured[|configured| - 1];
      if ValidList(cfgs, last, true) {
        ValidIsWellFormed(cfgs, last, true);
      }
    }
  }

  lemma SurvivingNone(cfgs: seq<Cfg>, configured: seq<string>)
    ensures Surviving(cfgs, configured[..0]) == []
  {
  }

  lemma SurvivingStep(cfgs: seq<Cfg>, configured: seq<string>, i: nat)
    requires i < |configured|
    ensures Surviving(cfgs, configured[..i + 1])
      == Surviving(cfgs, configured[..i])
         + (if ValidList(cfgs, configured[i], true) then [Parse(configured[i])] else [])
  {
    assert configured[..i + 1][..i] == configured[..i];
  }

  lemma NothingFits()
    ensures NoneEmpty([]) && AllWellFormed([])
  {
  }

  lemma TextsAppend(lists: seq<seq<Entry>>, es: seq<Entry>)
    ensures Texts(lists + [es]) == Texts(lists) + [Join(es)]
  {
  }

  lemma TextsUpdate(lists: seq<seq<Entry>>, i: nat, es: seq<Entry>)
    requires i < |lists|
    ensures Texts(lists[i := es]) == Texts(lists)[i := Join(es)]
  {
  }

  // ---------------------------------------------------------------- the end of a request

  /** What userauth_finish reads and writes: the lists set up and the successes, and the fields of the context. */
  datatype Ctx = Ctx(lists: seq<seq<Entry>>, configured: bool, hist: seq<Success>, valid: bool, postponed: bool,
                     serverCausedFailure: bool, attempt: nat, failures: nat, success: bool)

  /** How a request ended: whether the method accepted the user, and what the packet and the method table say. */
  datatype Result = Result(authed: bool, packet: string, primary: Option<string>, sub: Option<string>, rootDenied: bool)

  /** The lists are as some successes have left them. */
  predicate Consistent(s: Ctx) {
    NoneEmpty(s.lists) && AllWellFormed(s.lists) && (s.configured && !s.success ==> Play(s.lists, s.hist).Some?)
  }

  /** userauth_finish; the reply to a failure is left open when the context has had too many. */
  function Finish(s: Ctx, r: Result, maxTries: nat): (Ctx, Reply)
    requires Consistent(s) && !s.success
  {
    if r.authed && (!s.valid || s.postponed || r.primary.None?) then (s, FatalExit)
    else if r.authed && !r.rootDenied && s.configured then
      var x := Success(r.primary.value, r.sub);
      var t := s.(hist := s.hist + [x]);
      match UpdateFrom(Play(s.lists, s.hist).value, 0, x, false).1
      case Fatal => (s, FatalExit)
      case Complete => (t.(success := true), SuccessReply)
      case Partial => Fail(t, r.primary.value, true, maxTries)
    else if s.postponed then (s, Silent)
    else if r.authed && !r.rootDenied then (s.(success := true), SuccessReply)
    else Fail(s, if r.authed then r.primary.value else r.packet, false, maxTries)
  }

  function Fail(s: Ctx, name: string, partial: bool, maxTries: nat): (Ctx, Reply) {
    var penalty := if !partial && !s.serverCausedFailure && (s.attempt > 1 || name != "none") then 1 else 0;
    var t := s.(failures := s.failures + penalty);
    (t, if t.failures >= maxTries then TooManyTries else FailureReply(partial))
  }

  /** The name the reply is about: that of the method, or of a failed request the one in the packet. */
  function NameOf(r: Result): string { if r.authed && r.primary.Some? then r.primary.value else r.packet }

  /** The user has proved something, and lists say how much that is worth. */
  predicate Weighed(s: Ctx, r: Result) { r.authed && !r.rootDenied && s.configured }

  /** Some configured list is a subsequence of the successes, this one included. */
  ghost predicate Completes(s: Ctx, x: Success) {
    exists j :: 0 <= j < |s.lists| && Embeds(s.lists[j], s.hist + [x])
  }

  /** Some list goes on with this success. */
  ghost predicate Continues(s: Ctx, x: Success) {
    exists j :: 0 <= j < |s.lists| && Hit(Remaining(s.lists[j], s.hist), x)
  }

  /** A failure that counts: not a success or a part of one, not the server's own, and not the first "none". */
  predicate Penalised(s: Ctx, r: Result, reply: Reply) {
    !reply.SuccessReply? && !reply.Silent? && !Weighed(s, r) && !s.serverCausedFailure
    && !(s.attempt <= 1 && NameOf(r) == "none")
  }

  /** What the end of a request means for the client and for the context. */
  ghost predicate Ended(s: Ctx, r: Result, maxTries: nat, t: Ctx, reply: Reply) {
    var x := Success(NameOf(r), r.sub);
    && (reply.FatalExit? <==>
          r.authed && (!s.valid || s.postponed || r.primary.None? || (Weighed(s, r) && !Continues(s, x))))
    && (!reply.FatalExit? ==>
          && (reply.SuccessReply? <==> r.authed && !r.rootDenied && (s.configured ==> Completes(s, x)))
          && (t.success <==> reply.SuccessReply?)
          && (reply.Silent? <==> s.postponed)
          && (reply.TooManyTries? <==> !reply.SuccessReply? && !reply.Silent? && t.failures >= maxTries)
          && (reply.FailureReply? ==> (reply.partial <==> Weighed(s, r)))
          && t.failures == s.failures + (if Penalised(s, r, reply) then 1 else 0)
          && t.hist == (if Weighed(s, r) then s.hist + [x] else s.hist)
          && (t.lists, t.configured, t.valid, t.postponed) == (s.lists, s.configured, s.valid, s.postponed)
          && t.serverCausedFailure == s.serverCausedFailure && t.attempt == s.attempt
          && (Weighed(s, r) && !reply.SuccessReply? ==>
                |t.hist| <= Total(s.lists) && forall j :: 0 <= j < |s.lists| ==> !Embeds(s.lists[j], t.hist)))
  }

  lemma HitExactly(s: Ctx, x: Success)
    requires Consistent(s) && s.configured && !s.success
    ensures var v := UpdateFrom(Play(s.lists, s.hist).value, 0, x, false).1;
      && (v.Complete? <==> Completes(s, x))
      && (v.Fatal? <==> !Continues(s, x))
      && (v.Partial? ==>
            && Play(s.lists, s.hist + [x]).Some?
            && |s.hist + [x]| <= Total(s.lists)
            && forall j :: 0 <= j < |s.lists| ==> !Embeds(s.lists[j], s.hist + [x]))
  {
    hide Embeds, Remaining, Play, UpdateFrom, Hit, Total;
    CompletionExactly(s.lists, s.hist, x);
    if UpdateFrom(Play(s.lists, s.hist).value, 0, x, false).1.Partial? {
      PlayOn(s.lists, s.hist, x);
    }
  }

  /** A request ends with success, a part of it, silence, a failure or the end of the connection as it should. */
  lemma FinishMeans(s: Ctx, r: Result, maxTries: nat)
    requires Consistent(s) && !s.success
    ensures var (t, reply) := Finish(s, r, maxTries);
      Ended(s, r, maxTries, t, reply) && (!reply.FatalExit? ==> Consistent(t))
  {
    hide Completes, Continues, Embeds, Play, UpdateFrom, Total;
    if r.authed && r.primary.Some? && Weighed(s, r) {
      HitExactly(s, Success(r.primary.value, r.sub));
    }
  }

  class AuthCtxt {
    /** options.auth_methods and its count */
    var configured: seq<string>
    var authMethods: array<string>
    var numAuthMethods: nat
    var valid: bool
    var postponed: bool
    var serverCausedFailure: bool
    var attempt: nat
    var failures: nat
    var success: bool

    /** The lists that survived set-up, and the successes so far. */
    ghost var lists: seq<seq<Entry>>
    ghost var hist: seq<Success>

    ghost predicate Valid()
      reads this, authMethods
    {
      && |lists| == numAuthMethods <= authMethods.Length
      && NoneEmpty(lists) && AllWellFormed(lists)
      && (!success && configured != [] ==>
            && Play(lists, hist).Some?
            && |Play(lists, hist).value| == |lists|
            && authMethods[..numAuthMethods] == Texts(Play(lists, hist).value))
    }

    ghost function State(): Ctx
      reads this
    {
      Ctx(lists, configured != [], hist, valid, postponed, serverCausedFailure, attempt, failures, success)
    }

    constructor (methods: seq<string>, isValid: bool)
      ensures configured == methods && hist == [] && !success && valid == isValid && !postponed
      ensures failures == 0 && attempt == 0
    {
      configured := methods;
      authMethods := new string[0];
      numAuthMethods := 0;
      valid, postponed, serverCausedFailure, success := isValid, false, false, false;
      attempt, failures := 0, 0;
      lists, hist := [], [];
    }

    /** auth2_setup_methods_lists: false if no list is left. */
    method Setup(cfgs: seq<Cfg>) returns (ok: bool)
      requires Table(cfgs) && hist == [] && !success
      modifies this
      ensures Valid() && hist == [] && !success && valid == old(valid) && postponed == old(postponed)
      ensures configured == if old(configured) == ["any"] then [] else old(configured)
      ensures configured != [] ==> lists == Surviving(cfgs, configured) && fresh(authMethods)
      ensures ok == (configured == [] || lists != [])
    {
      hide ValidList, Parse, Join, Surviving, Remaining, AllWellFormed, WellFormed, NoneEmpty, Table;
      NothingFits();
      if |configured| == 1 && configured[0] == "any" {
        configured := [];
      }
      lists, numAuthMethods := [], 0;
      if configured == [] {
        return true;
      }
      authMethods := new string[|configured|](_ => "");
      SurvivingNone(cfgs, configured);
      ghost var conf, auth := configured, authMethods;
      var i := 0;
      while i < |configured|
        invariant 0 <= i <= |configured| == authMethods.Length && numAuthMethods <= i
        invariant configured == conf && authMethods == auth
        invariant lists == Surviving(cfgs, configured[..i]) && |lists| == numAuthMethods
        invariant authMethods[..numAuthMethods] == Texts(lists)
        invariant hist == [] && !success && valid == old(valid) && postponed == old(postponed)
      {
        SurvivingStep(cfgs, configured, i);
        var fits := MethodsValid(configured[i], true, cfgs);
        if fits {
          ValidIsWellFormed(cfgs, configured[i], true);
          ghost var was := authMethods[..numAuthMethods];
          authMethods[numAuthMethods] := configured[i];
          numAuthMethods := numAuthMethods + 1;
          lists := lists + [Parse(configured[i])];
          assert authMethods[..numAuthMethods] == was + [configured[i]];
          TextsAppend(lists[..|lists| - 1], Parse(configured[i]));
        }
        i := i + 1;
      }
      assert configured[..i] == configured;
      SurvivingFit(cfgs, configured);
      ok := numAuthMethods > 0;
    }

    /** auth2_method_allowed: some list starts with the method, whatever can be said of the submethod. */
    method MethodAllowed(name: string, sub: Option<string>) returns (ok: bool)
      requires Valid() && !success && Named(Success(name, sub))
      ensures ok <==> (configured == []
        || exists j :: 0 <= j < |lists| && Begins(Remaining(lists[j], hist), name, sub))
    {
      if configured == [] {
        return true;
      }
      PlayLeaves(lists, hist);
      PlayWellFormed(lists, hist);
      ghost var now := Play(lists, hist).value;
      var i := 0;
      while i < numAuthMethods
        invariant 0 <= i <= numAuthMethods
        invariant forall j :: 0 <= j < i ==> !Begins(now[j], name, sub)
      {
        assert authMethods[..numAuthMethods][i] == authMethods[i];
        StartsWithRefines(now[i], Success(name, sub));
        HeadMatchMeans(now[i], Success(name, sub));
        if !ListStartsWith(authMethods[i], name, sub).MatchNone? {
          return true;
        }
        i := i + 1;
      }
      ok := false;
    }

    /** auth2_update_methods_lists */
    method UpdateMethodsLists(name: string, sub: Option<string>) returns (v: Verdict)
      requires Valid() && !success && configured != [] && Named(Success(name, sub))
      modifies authMethods
      ensures v == UpdateFrom(Play(lists, hist).value, 0, Success(name, sub), false).1
      ensures authMethods[..numAuthMethods]
        == Texts(UpdateFrom(Play(lists, hist).value, 0, Success(name, sub), false).0)
    {
      hide Play, Remaining, Join, Removed, NoneEmpty, WellFormed, Total;
      ghost var x := Success(name, sub);
      ghost var now := Play(lists, hist).value;
      PlayWellFormed(lists, hist);
      ghost var cur := now;
      var found, i := false, 0;
      while i < numAuthMethods
        invariant 0 <= i <= numAuthMethods == |cur|
        invariant UpdateFrom(now, 0, x, false) == UpdateFrom(cur, i, x, found)
        invariant authMethods[..numAuthMethods] == Texts(cur) && AllWellFormed(cur)
      {
        assert authMethods[..numAuthMethods][i] == authMethods[i];
        RemovedRefines(cur[i], x);
        var r := Removed(authMethods[i], name, sub);
        if r.Some? {
          authMethods[i] := r.value;
          JoinEmpty(cur[i][1..]);
          TailWellFormed(cur[i]);
          TextsUpdate(cur, i, cur[i][1..]);
          assert authMethods[..numAuthMethods] == Texts(cur)[i := r.value];
          cur := cur[i := cur[i][1..]];
          found := true;
          if authMethods[i] == "" {
            return Complete;
          }
        }
        i := i + 1;
      }
      v := if found then Partial else Fatal;
    }

    /**
     userauth_finish. `primary` is the primary name of the method the packet used, if the table knows it, and
     `rootDenied` says that the user is root and may not use it. A success reply is sent exactly when the attempt
     succeeded and no list is configured, or one is a subsequence of the successes, this one included.
     */
    method UserauthFinish(authed: bool, packet: string, primary: Option<string>, sub: Option<string>,
                          rootDenied: bool, maxTries: nat) returns (reply: Reply)
      requires Valid() && !success && (primary.Some? ==> Plain(primary.value)) && NoComma(sub)
      modifies this, authMethods
      ensures reply != FatalExit ==> Valid() && configured == old(configured)
      ensures old(Consistent(State()))
      ensures var (s, out) := Finish(old(State()), Result(authed, packet, primary, sub, rootDenied), maxTries);
        reply == out && (reply != FatalExit ==> State() == s)
      ensures Ended(old(State()), Result(authed, packet, primary, sub, rootDenied), maxTries, State(), reply)
      ensures reply == FailureReply(false) ==> authMethods[..] == old(authMethods[..])
    {
      hide Ended;
      hide Embeds, Play, UpdateFrom, Hit, Remaining, Total, AllWellFormed, Texts;
      FinishMeans(State(), Result(authed, packet, primary, sub, rootDenied), maxTries);
      var authenticated, partial := authed, false;
      var name := packet;
      if authenticated {
        if !valid || postponed || primary.None? {
          return FatalExit;
        }
        name := primary.value;
      }
      if authenticated && rootDenied {
        authenticated := false;
      }
      if authenticated && configured != [] {
        ghost var x := Success(name, sub);
        CompletionExactly(lists, hist, x);
        ghost var was := hist;
        var v := UpdateMethodsLists(name, sub);
        if v.Fatal? {
          return FatalExit;
        }
        hist := hist + [x];
        if v.Partial? {
          PlayOn(lists, was, x);
          authenticated, partial := false, true;
        }
      }
      if postponed {
        return Silent;
      }
      if authenticated {
        success := true;
        reply := SuccessReply;
      } else {
        if !partial && !serverCausedFailure && (attempt > 1 || name != "none") {
          failures := failures + 1;
        }
        if failures >= maxTries {
          return TooManyTries;
        }
        reply := FailureReply(partial);
      }
    }
  }

  lemma TailWellFormed(es: seq<Entry>)
    requires WellFormed(es) && es != []
    ensures WellFormed(es[1..])
  {
  }

  lemma JoinEmpty(es: seq<Entry>)
    ensures WellFormed(es) ==> (Join(es) == "" <==> es == [])
  {
    if es != [] && WellFormed(es) {
      assert es[0] in es;
    }
  }

  lemma PlayOn(lists: seq<seq<Entry>>, hist: seq<Success>, x: Success)
    requires NoneEmpty(lists) && Play(lists, hist).Some?
    requires UpdateFrom(Play(lists, hist).value, 0, x, false).1.Partial?
    ensures Play(lists, hist + [x]) == Some(UpdateFrom(Play(lists, hist).value, 0, x, false).0)
    ensures |Play(lists, hist + [x]).value| == |lists| && |hist + [x]| <= Total(lists)
    ensures forall j :: 0 <= j < |lists| ==> !Embeds(lists[j], hist + [x])
  {
    assert (hist + [x])[..|hist|] == hist;
    PlayLeaves(lists, hist + [x]);
    CompletionExactly(lists, hist + [x], x);
  }
}
