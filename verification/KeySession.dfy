/** Merging key options, and what a session's options can become over any number of merges. */
module KeySession {
  import opened Bytes
  import opened Sshbufs
  import opened KeyOptions

  /** sshauthopt_new: nothing permitted, no tunnel device. */
  function Blank(): Opts {
    Opts(0, 0, 0, 0, 0, 0, 0, 0, None, -1, None, [], [], [], None, None, 0, 0)
  }

  function FirstText(p: Text, a: Text): Text { if p.Some? then p else a }

  function FirstList(p: seq<seq<byte>>, a: seq<seq<byte>>): seq<seq<byte>> { if p != [] then p else a }

  function Both(p: int, a: int): int { if p == 1 && a == 1 then 1 else 0 }

  function Either(p: int, a: int): int { if p == 1 || a == 1 then 1 else 0 }

  function FirstTun(p: int, a: int): int { if p != -1 then p else a }

  /** The additional expiry counts only against one already set. */
  function Expiry(p: nat, a: nat): nat { if a != 0 && a < p then a else p }

  predicate Mismatch(p: Text, a: Text) { p.Some? && a.Some? && p != a }

  function Merged(p: Opts, a: Opts): Option<Opts> {
    if Mismatch(p.forceCommand, a.forceCommand) then None
    else Some(Opts(
      Both(p.permitPortForwarding, a.permitPortForwarding),
      Both(p.permitAgentForwarding, a.permitAgentForwarding),
      Both(p.permitX11Forwarding, a.permitX11Forwarding),
      Both(p.permitPty, a.permitPty),
      Both(p.permitUserRc, a.permitUserRc),
      0,
      Expiry(p.validBefore, a.validBefore),
      0,
      None,
      FirstTun(p.forceTunDevice, a.forceTunDevice),
      FirstText(p.forceCommand, a.forceCommand),
      FirstList(p.env, a.env),
      FirstList(p.permitOpen, a.permitOpen),
      FirstList(p.permitListen, a.permitListen),
      FirstText(p.requiredFromHostCert, a.requiredFromHostCert),
      FirstText(p.requiredFromHostKeys, a.requiredFromHostKeys),
      Both(p.noRequireUserPresence, a.noRequireUserPresence),
      Either(p.requireVerify, a.requireVerify)))
  }

  // ---------------------------------------------------------------- the merge, step by step

  method PreferText(primary: Text, additional: Text) returns (tmp: Text)
    ensures tmp == FirstText(primary, additional)
  {
    tmp := primary;
    if tmp.None? {
      tmp := additional;
    }
  }

  method PreferList(primary: seq<seq<byte>>, additional: seq<seq<byte>>) returns (list: seq<seq<byte>>)
    ensures list == FirstList(primary, additional)
  {
    list := [];
    if |primary| > 0 {
      list := primary;
    } else if |additional| > 0 {
      list := additional;
    }
  }

  method MergeExpiry(primary: nat, additional: nat) returns (validBefore: nat)
    ensures validBefore == Expiry(primary, additional)
  {
    validBefore := 0;
    if primary != 0 {
      validBefore := primary;
    }
    if additional != 0 && additional < validBefore {
      validBefore := additional;
    }
  }

  method MergeCommand(primary: Text, additional: Text) returns (ok: bool, command: Text)
    ensures ok == !Mismatch(primary, additional)
    ensures ok ==> command == FirstText(primary, additional)
  {
    ok, command := true, None;
    if primary.Some? && additional.Some? {
      if primary.value == additional.value {
        command := primary;
      } else {
        ok := false;
      }
    } else if primary.Some? {
      command := primary;
    } else if additional.Some? {
      command := additional;
    }
  }

  /** sshauthopt_merge. */
  method Merge(primary: Opts, additional: Opts) returns (result: Option<Opts>)
    ensures result == Merged(primary, additional)
  {
    hide FirstText, FirstList, Mismatch, Expiry, Both, Either;
    var ret := Blank();
    var fromCert := PreferText(primary.requiredFromHostCert, additional.requiredFromHostCert);
    var fromKeys := PreferText(primary.requiredFromHostKeys, additional.requiredFromHostKeys);
    ret := ret.(requiredFromHostCert := fromCert, requiredFromHostKeys := fromKeys);
    ret := ret.(forceTunDevice := primary.forceTunDevice);
    if ret.forceTunDevice == -1 {
      ret := ret.(forceTunDevice := additional.forceTunDevice);
    }
    var env := PreferList(primary.env, additional.env);
    var permitOpen := PreferList(primary.permitOpen, additional.permitOpen);
    var permitListen := PreferList(primary.permitListen, additional.permitListen);
    ret := ret.(env := env, permitOpen := permitOpen, permitListen := permitListen);
    ret := MergeFlags(ret, primary, additional);
    var validBefore := MergeExpiry(primary.validBefore, additional.validBefore);
    ret := ret.(validBefore := validBefore);
    var ok, command := MergeCommand(primary.forceCommand, additional.forceCommand);
    if !ok {
      return None;
    }
    ret := ret.(forceCommand := command);
    return Some(ret);
  }

  /** OPTFLAG_AND and OPTFLAG_OR. */
  function MergeFlags(ret: Opts, p: Opts, a: Opts): Opts {
    ret.(permitPortForwarding := Both(p.permitPortForwarding, a.permitPortForwarding),
         permitAgentForwarding := Both(p.permitAgentForwarding, a.permitAgentForwarding),
         permitX11Forwarding := Both(p.permitX11Forwarding, a.permitX11Forwarding),
         permitPty := Both(p.permitPty, a.permitPty),
         permitUserRc := Both(p.permitUserRc, a.permitUserRc),
         noRequireUserPresence := Both(p.noRequireUserPresence, a.noRequireUserPresence),
         requireVerify := Either(p.requireVerify, a.requireVerify))
  }

  // ---------------------------------------------------------------- one merge

  predicate NoMore(q: int, p: int) { q == 1 ==> p == 1 }

  predicate KeepsText(q: Text, p: Text) { p.Some? ==> q == p }

  predicate KeepsList(q: seq<seq<byte>>, p: seq<seq<byte>>) { p != [] ==> q == p }

  /** q permits nothing that p does not, and keeps every restriction of p. */
  predicate Tighter(q: Opts, p: Opts) {
    NoMore(q.permitPortForwarding, p.permitPortForwarding)
    && NoMore(q.permitAgentForwarding, p.permitAgentForwarding)
    && NoMore(q.permitX11Forwarding, p.permitX11Forwarding)
    && NoMore(q.permitPty, p.permitPty)
    && NoMore(q.permitUserRc, p.permitUserRc)
    && NoMore(q.noRequireUserPresence, p.noRequireUserPresence)
    && NoMore(p.requireVerify, q.requireVerify)
    && KeepsText(q.forceCommand, p.forceCommand)
    && KeepsText(q.requiredFromHostCert, p.requiredFromHostCert)
    && KeepsText(q.requiredFromHostKeys, p.requiredFromHostKeys)
    && (p.forceTunDevice != -1 ==> q.forceTunDevice == p.forceTunDevice)
    && KeepsList(q.env, p.env) && KeepsList(q.permitOpen, p.permitOpen) && KeepsList(q.permitListen, p.permitListen)
    && (p.validBefore != 0 ==> 0 < q.validBefore <= p.validBefore)
  }

  lemma MergeTightens(p: Opts, a: Opts)
    ensures Merged(p, a).Some? ==> Tighter(Merged(p, a).value, p)
  {
  }

  lemma TighterTrans(r: Opts, q: Opts, p: Opts)
    requires Tighter(r, q) && Tighter(q, p)
    ensures Tighter(r, p)
  {
  }

  /** The earlier of two expiry times, where 0 is none. */
  function Earliest(p: nat, a: nat): nat {
    if p == 0 then a else if a == 0 then p else Min(p, a)
  }

  /** The earliest expiry wins unless only the additional options have one: then it is lost. */
  lemma MergeExpiryExactly(p: Opts, a: Opts)
    ensures Merged(p, a).Some? ==>
      (Merged(p, a).value.validBefore == Earliest(p.validBefore, a.validBefore)
       <==> p.validBefore != 0 || a.validBefore == 0)
  {
  }

  // ---------------------------------------------------------------- a session

  /** The options auth_restrict_session merges in. */
  function Restriction(): Opts { Blank().(permitPty := 1, restricted := 1) }

  datatype Step = Activate(opts: Opts) | Restrict

  function StepOpts(s: Step): Opts {
    match s
    case Activate(o) => o
    case Restrict => Restriction()
  }

  /** The session's options after the steps; none once an activation has failed. */
  function Session(o: Opts, steps: seq<Step>): Option<Opts> {
    if steps == [] then Some(o)
    else
      match Session(o, steps[..|steps| - 1])
      case None => None
      case Some(q) => Merged(q, StepOpts(steps[|steps| - 1]))
  }

  /** A session only ever gets tighter, from any point of it to any later one. */
  lemma {:induction false} SessionTightens(o: Opts, steps: seq<Step>, k: nat)
    requires k <= |steps| && Session(o, steps).Some?
    ensures Session(o, steps[..k]).Some? && Tighter(Session(o, steps).value, Session(o, steps[..k]).value)
  {
    hide Merged, Tighter;
    if k == |steps| {
      assert steps[..k] == steps;
      TighterSelf(Session(o, steps).value);
    } else {
      var n := |steps| - 1;
      SessionTightens(o, steps[..n], k);
      assert steps[..n][..k] == steps[..k];
      var q := Session(o, steps[..n]).value;
      MergeTightens(q, StepOpts(steps[n]));
      TighterTrans(Session(o, steps).value, q, Session(o, steps[..k]).value);
    }
  }

  lemma TighterSelf(o: Opts)
    ensures Tighter(o, o)
  {
  }

  /** The options in force at the start and those merged in later. */
  function Input(o: Opts, steps: seq<Step>, i: nat): Opts
    requires i <= |steps|
  {
    if i == 0 then o else StepOpts(steps[i - 1])
  }

  predicate Agree(o: Opts, steps: seq<Step>) {
    forall i, j | 0 <= i <= |steps| && 0 <= j <= |steps| ::
      !Mismatch(Input(o, steps, i).forceCommand, Input(o, steps, j).forceCommand)
  }

  /** The forced command in force is one of those merged, and there is one as soon as any has one. */
  predicate CommandFrom(o: Opts, steps: seq<Step>, c: Text) {
    exists i | 0 <= i <= |steps| :: Input(o, steps, i).forceCommand == c
  }

  predicate CommandKept(o: Opts, steps: seq<Step>, c: Text) {
    forall i | 0 <= i <= |steps| :: KeepsText(c, Input(o, steps, i).forceCommand)
  }

  lemma {:induction false} SessionCommand(o: Opts, steps: seq<Step>)
    requires Session(o, steps).Some?
    ensures CommandKept(o, steps, Session(o, steps).value.forceCommand)
    ensures CommandFrom(o, steps, Session(o, steps).value.forceCommand)
  {
    var c := Session(o, steps).value.forceCommand;
    if steps == [] {
      assert Input(o, steps, 0).forceCommand == c;
    } else {
      var n := |steps| - 1;
      var front := steps[..n];
      SessionCommand(o, front);
      var d := Session(o, front).value.forceCommand;
      forall i | 0 <= i <= |steps|
        ensures KeepsText(c, Input(o, steps, i).forceCommand)
      {
        if i <= n {
          assert Input(o, front, i) == Input(o, steps, i);
        }
      }
      var k :| 0 <= k <= n && Input(o, front, k).forceCommand == d;
      assert Input(o, steps, k) == Input(o, front, k);
      assert Input(o, steps, |steps|).forceCommand == c || Input(o, steps, k).forceCommand == c;
    }
  }

  /** A session fails exactly when two of its sets of options force different commands. */
  lemma {:induction false} SessionFailsExactly(o: Opts, steps: seq<Step>)
    ensures Session(o, steps).Some? <==> Agree(o, steps)
  {
    if steps != [] {
      var n := |steps| - 1;
      var front := steps[..n];
      SessionFailsExactly(o, front);
      forall i | 0 <= i <= n
        ensures Input(o, front, i) == Input(o, steps, i)
      {
      }
      if Agree(o, steps) {
        assert Agree(o, front);
        SessionCommand(o, front);
        var d := Session(o, front).value.forceCommand;
        var k :| 0 <= k <= n && Input(o, front, k).forceCommand == d;
        assert !Mismatch(Input(o, steps, k).forceCommand, Input(o, steps, |steps|).forceCommand);
      }
      if Session(o, steps).Some? {
        SessionCommand(o, steps);
      }
    }
  }

  /** Restricting a session never fails. */
  lemma RestrictSucceeds(q: Opts)
    ensures Merged(q, Restriction()).Some?
  {
  }

  predicate AllSet(o: Opts, steps: seq<Step>, flag: Opts -> int) {
    forall i | 0 <= i <= |steps| :: flag(Input(o, steps, i)) == 1
  }

  predicate AnySet(o: Opts, steps: seq<Step>, flag: Opts -> int) {
    exists i | 0 <= i <= |steps| :: flag(Input(o, steps, i)) == 1
  }

  /** A field that merging combines with `Both`. */
  ghost predicate Permissive(flag: Opts -> int) {
    forall p, a | Merged(p, a).Some? :: flag(Merged(p, a).value) == Both(flag(p), flag(a))
  }

  /** A permission holds at the end exactly when every set of options grants it. */
  lemma {:induction false} SessionPermits(o: Opts, steps: seq<Step>, flag: Opts -> int)
    requires Permissive(flag) && Session(o, steps).Some?
    ensures flag(Session(o, steps).value) == 1 <==> AllSet(o, steps, flag)
  {
    hide Merged;
    if steps == [] {
      assert Input(o, steps, 0) == o;
    } else {
      var n := |steps| - 1;
      var front := steps[..n];
      SessionPermits(o, front, flag);
      forall i | 0 <= i <= n
        ensures Input(o, front, i) == Input(o, steps, i)
      {
      }
      var q := Session(o, front).value;
      assert flag(Merged(q, StepOpts(steps[n])).value) == Both(flag(q), flag(StepOpts(steps[n])));
      assert Input(o, steps, |steps|) == StepOpts(steps[n]);
      if AllSet(o, front, flag) && flag(StepOpts(steps[n])) == 1 {
        forall i | 0 <= i <= |steps|
          ensures flag(Input(o, steps, i)) == 1
        {
          if i <= n {
            assert flag(Input(o, front, i)) == 1;
          }
        }
      }
      if AllSet(o, steps, flag) {
        forall i | 0 <= i <= |front|
          ensures flag(Input(o, front, i)) == 1
        {
          assert flag(Input(o, steps, i)) == 1;
        }
      }
    }
  }

  lemma PermissiveFlags()
    ensures Permissive((o: Opts) => o.permitPortForwarding)
    ensures Permissive((o: Opts) => o.permitAgentForwarding)
    ensures Permissive((o: Opts) => o.permitX11Forwarding)
    ensures Permissive((o: Opts) => o.permitPty)
    ensures Permissive((o: Opts) => o.permitUserRc)
    ensures Permissive((o: Opts) => o.noRequireUserPresence)
  {
  }

  /** User verification is required at the end exactly when some set of options requires it. */
  lemma {:induction false} SessionVerifies(o: Opts, steps: seq<Step>)
    requires Session(o, steps).Some?
    ensures Session(o, steps).value.requireVerify == 1 <==> AnySet(o, steps, (p: Opts) => p.requireVerify)
  {
    var flag := (p: Opts) => p.requireVerify;
    if steps == [] {
      assert Input(o, steps, 0) == o;
      assert flag(Input(o, steps, 0)) == o.requireVerify;
    } else {
      var n := |steps| - 1;
      var front := steps[..n];
      SessionVerifies(o, front);
      forall i | 0 <= i <= n
        ensures Input(o, front, i) == Input(o, steps, i)
      {
      }
      var q := Session(o, front).value;
      assert Input(o, steps, |steps|) == StepOpts(steps[n]);
      if q.requireVerify == 1 {
        var k :| 0 <= k <= n && flag(Input(o, front, k)) == 1;
        assert flag(Input(o, steps, k)) == 1;
      }
      assert flag(Input(o, steps, |steps|)) == StepOpts(steps[n]).requireVerify;
      if AnySet(o, steps, flag) && StepOpts(steps[n]).requireVerify != 1 {
        var k :| 0 <= k <= |steps| && flag(Input(o, steps, k)) == 1;
        assert flag(Input(o, front, k)) == 1;
      }
    }
  }

  /** v is what the first set of options has that has any, and `none` exactly when no set has one. */
  ghost predicate First<T>(o: Opts, steps: seq<Step>, none: T, field: Opts -> T, v: T) {
    if v == none then forall i | 0 <= i <= |steps| :: field(Input(o, steps, i)) == none
    else exists i | 0 <= i <= |steps| ::
      field(Input(o, steps, i)) == v && forall j | 0 <= j < i :: field(Input(o, steps, j)) == none
  }

  /** A field that merging takes from the primary options if they have one, else from the additional ones. */
  ghost predicate Preferred<T>(none: T, field: Opts -> T) {
    forall p, a | Merged(p, a).Some? ::
      field(Merged(p, a).value) == if field(p) != none then field(p) else field(a)
  }

  lemma {:induction false} SessionFirst<T>(o: Opts, steps: seq<Step>, none: T, field: Opts -> T)
    requires Preferred(none, field) && Session(o, steps).Some?
    ensures First(o, steps, none, field, field(Session(o, steps).value))
  {
    hide Merged;
    if steps == [] {
      assert Input(o, steps, 0) == o;
    } else {
      var n := |steps| - 1;
      var front := steps[..n];
      SessionFirst(o, front, none, field);
      forall i | 0 <= i <= n
        ensures Input(o, front, i) == Input(o, steps, i)
      {
      }
      var q := Session(o, front).value;
      assert field(Merged(q, StepOpts(steps[n])).value)
          == if field(q) != none then field(q) else field(StepOpts(steps[n]));
      assert Input(o, steps, |steps|) == StepOpts(steps[n]);
    }
  }

  lemma PreferredFields()
    ensures Preferred([], (o: Opts) => o.env)
    ensures Preferred([], (o: Opts) => o.permitOpen)
    ensures Preferred([], (o: Opts) => o.permitListen)
    ensures Preferred(None, (o: Opts) => o.requiredFromHostCert)
    ensures Preferred(None, (o: Opts) => o.requiredFromHostKeys)
    ensures Preferred(-1, (o: Opts) => o.forceTunDevice)
    ensures Preferred(None, (o: Opts) => o.forceCommand)
  {
  }

  /**
   Whatever any set of options restricts stays restricted: environment, permitted addresses in both directions, the two
   from= lists, the tunnel device and the forced command are at the end those of the first set of options that has them.
   */
  lemma SessionRestrictions(o: Opts, steps: seq<Step>)
    requires Session(o, steps).Some?
    ensures var q := Session(o, steps).value;
      && First(o, steps, [], (p: Opts) => p.env, q.env)
      && First(o, steps, [], (p: Opts) => p.permitOpen, q.permitOpen)
      && First(o, steps, [], (p: Opts) => p.permitListen, q.permitListen)
      && First(o, steps, None, (p: Opts) => p.requiredFromHostCert, q.requiredFromHostCert)
      && First(o, steps, None, (p: Opts) => p.requiredFromHostKeys, q.requiredFromHostKeys)
      && First(o, steps, -1, (p: Opts) => p.forceTunDevice, q.forceTunDevice)
      && First(o, steps, None, (p: Opts) => p.forceCommand, q.forceCommand)
  {
    hide First, Preferred, Merged;
    PreferredFields();
    SessionFirst(o, steps, [], (p: Opts) => p.env);
    SessionFirst(o, steps, [], (p: Opts) => p.permitOpen);
    SessionFirst(o, steps, [], (p: Opts) => p.permitListen);
    SessionFirst(o, steps, None, (p: Opts) => p.requiredFromHostCert);
    SessionFirst(o, steps, None, (p: Opts) => p.requiredFromHostKeys);
    SessionFirst(o, steps, -1, (p: Opts) => p.forceTunDevice);
    SessionFirst(o, steps, None, (p: Opts) => p.forceCommand);
  }

  /** Restricting takes every permission but that of a terminal, and changes nothing else. */
  lemma RestrictMeans(q: Opts)
    ensures Merged(q, Restriction()).Some?
    ensures var r := Merged(q, Restriction()).value;
      && r.permitPortForwarding == r.permitAgentForwarding == r.permitX11Forwarding == r.permitUserRc == 0
      && r.noRequireUserPresence == 0 && (r.permitPty == 1 <==> q.permitPty == 1) && r.validBefore == q.validBefore
      && (r.requireVerify == 1 <==> q.requireVerify == 1)
      && r.env == q.env && r.permitOpen == q.permitOpen && r.permitListen == q.permitListen
      && r.requiredFromHostCert == q.requiredFromHostCert && r.requiredFromHostKeys == q.requiredFromHostKeys
      && r.forceTunDevice == q.forceTunDevice && r.forceCommand == q.forceCommand
  {
  }

  /** The earliest of the expiry times met so far. */
  function EarliestOf(o: Opts, steps: seq<Step>): nat {
    if steps == [] then o.validBefore
    else Earliest(EarliestOf(o, steps[..|steps| - 1]), StepOpts(steps[|steps| - 1]).validBefore)
  }

  /** The session's expiry is the earliest of all if the first set of options has one, and none otherwise. */
  lemma {:induction false} SessionExpiry(o: Opts, steps: seq<Step>)
    requires Session(o, steps).Some?
    ensures Session(o, steps).value.validBefore == if o.validBefore == 0 then 0 else EarliestOf(o, steps)
    ensures o.validBefore != 0 ==> EarliestOf(o, steps) != 0
  {
    if steps != [] {
      SessionExpiry(o, steps[..|steps| - 1]);
    }
  }

  /** Once a session has been restricted it permits at most a terminal, whatever is activated before or after. */
  lemma SessionAfterRestrict(o: Opts, steps: seq<Step>, k: nat)
    requires k < |steps| && steps[k] == Restrict && Session(o, steps).Some?
    ensures var q := Session(o, steps).value;
      q.permitPortForwarding == 0 && q.permitAgentForwarding == 0 && q.permitX11Forwarding == 0
      && q.permitUserRc == 0 && q.noRequireUserPresence == 0
  {
    SessionTightens(o, steps, k + 1);
    assert steps[..k + 1][..k] == steps[..k];
    assert Session(o, steps[..k + 1]) == Merged(Session(o, steps[..k]).value, Restriction());
    assert steps != [];
    var q := Session(o, steps[..|steps| - 1]).value;
    assert Session(o, steps) == Merged(q, StepOpts(steps[|steps| - 1]));
  }

  /** Any activation clears the certificate fields and also the restricted mark, even that of auth_restrict_session. */
  lemma SessionClears(o: Opts, steps: seq<Step>)
    requires steps != [] && Session(o, steps).Some?
    ensures var q := Session(o, steps).value;
      q.restricted == 0 && q.certAuthority == 0 && q.certPrincipals == None
  {
    var q := Session(o, steps[..|steps| - 1]).value;
    assert Session(o, steps) == Merged(q, StepOpts(steps[|steps| - 1]));
  }

  // ---------------------------------------------------------------- the global in place

  /** auth_opts. */
  class AuthOptions {
    var authOpts: Option<Opts>

    constructor (o: Opts)
      ensures authOpts == Some(o)
    {
      authOpts := Some(o);
    }

    /** auth_activate_options: a failed merge leaves no options at all. */
    method Activate(opts: Opts) returns (r: int)
      requires authOpts.Some?
      modifies this
      ensures authOpts == Merged(old(authOpts).value, opts)
      ensures r == if authOpts.Some? then 0 else -1
    {
      authOpts := Merge(authOpts.value, opts);
      return if authOpts.None? then -1 else 0;
    }

    /** auth_restrict_session: its fatal error is out of reach. */
    method RestrictSession()
      requires authOpts.Some?
      modifies this
      ensures authOpts == Merged(old(authOpts).value, Restriction()) && authOpts.Some?
    {
      var restricted := Blank();
      restricted := restricted.(permitPty := 1);
      restricted := restricted.(restricted := 1);
      RestrictSucceeds(authOpts.value);
      var r := Activate(restricted);
      assert r == 0;
    }

    /** A run of calls, stopping at the first that fails. */
    method Run(steps: seq<Step>)
      requires authOpts.Some?
      modifies this
      ensures authOpts == Session(old(authOpts).value, steps)
    {
      ghost var o := authOpts.value;
      for i := 0 to |steps|
        invariant authOpts == Session(o, steps[..i]) && authOpts.Some?
      {
        assert steps[..i + 1][..i] == steps[..i];
        match steps[i] {
          case Activate(opts) =>
            var r := Activate(opts);
            if r != 0 {
              SessionStaysNone(o, steps, i + 1);
              return;
            }
          case Restrict =>
            RestrictSession();
        }
      }
      assert steps[..|steps|] == steps;
    }
  }

  lemma {:induction false} SessionStaysNone(o: Opts, steps: seq<Step>, k: nat)
    requires k <= |steps| && Session(o, steps[..k]).None?
    ensures Session(o, steps).None?
    decreases |steps| - k
  {
    if k == |steps| {
      assert steps[..k] == steps;
    } else {
      assert steps[..k + 1][..k] == steps[..k];
      SessionStaysNone(o, steps, k + 1);
    }
  }
}
