/** The manager cache (`pkg/resource/file_system/manager_factory.go`). */
module ManagerCache {
  import opened Nilable

  /** A resource manager; `serial` tells objects apart. */
  datatype Manager = Manager(serial: nat, accountID: string, region: string)

  datatype Request = Request(accountID: string, region: string, roleARN: string)

  function Key(r: Request): string {
    r.accountID + "/" + r.region + "/" + r.roleARN
  }

  predicate NoSlash(s: string) {
    '/' !in s
  }

  predicate Plain(r: Request) {
    NoSlash(r.accountID) && NoSlash(r.region)
  }

  /** If account and region hold no "/", the key tells requests apart; the role may hold any. */
  lemma KeyIsInjective(a: Request, b: Request)
    requires Plain(a) && Plain(b) && Key(a) == Key(b)
    ensures a == b
  {
    assert Key(a) == a.accountID + "/" + (a.region + "/" + a.roleARN);
    assert Key(b) == b.accountID + "/" + (b.region + "/" + b.roleARN);
    FirstPartsEqual(a.accountID, a.region + "/" + a.roleARN, b.accountID, b.region + "/" + b.roleARN);
    FirstPartsEqual(a.region, a.roleARN, b.region, b.roleARN);
  }

  lemma FirstPartsEqual(p: string, rest: string, q: string, rest': string)
    requires NoSlash(p) && NoSlash(q)
    requires p + "/" + rest == q + "/" + rest'
    ensures p == q && rest == rest'
  {
    var whole := p + "/" + rest;
    assert whole[|p|] == '/' && forall i :: 0 <= i < |p| ==> whole[i] == p[i] && whole[i] in p;
    assert whole[|q|] == '/' && forall i :: 0 <= i < |q| ==> whole[i] == q[i] && whole[i] in q;
    assert |p| == |q|;
    assert rest == whole[|p| + 1..] && rest' == whole[|q| + 1..];
  }

  /** The text before and after the first "/". */
  lemma {:induction false} FirstSlash(s: string) returns (p: string, rest: string)
    requires '/' in s
    ensures s == p + "/" + rest && NoSlash(p)
    ensures forall i :: 0 <= i < |s| && s[i] == '/' ==> |p| <= i
  {
    if s[0] == '/' {
      p, rest := "", s[1..];
    } else {
      p, rest := FirstSlash(s[1..]);
      p := [s[0]] + p;
    }
  }

  /** Every request shares its key with exactly one request whose account and region hold no "/":
      itself if it is such a request, and otherwise a different one. */
  lemma PlainTwin(r: Request) returns (q: Request)
    ensures Plain(q) && Key(q) == Key(r)
    ensures q == r <==> Plain(r)
    ensures forall p :: Plain(p) && Key(p) == Key(r) ==> p == q
  {
    var whole := Key(r);
    assert whole[|r.accountID|] == '/' && whole[|r.accountID| + 1 + |r.region|] == '/';
    var account, rest := FirstSlash(whole);
    assert rest[|r.accountID| + |r.region| - |account|] == '/';
    var region, role := FirstSlash(rest);
    q := Request(account, region, role);
    assert Key(q) == account + "/" + (region + "/" + role);
    forall p | Plain(p) && Key(p) == Key(r) ensures p == q {
      KeyIsInjective(p, q);
    }
  }

  lemma RoleIsTheRest(a: Request, b: Request)
    requires Key(a) == Key(b)
    ensures a == b <==> a.accountID == b.accountID && a.region == b.region
  {
    var n := |a.accountID + "/" + a.region + "/"|;
    assert Key(a)[n..] == a.roleARN;
    if a.accountID == b.accountID && a.region == b.region {
      assert Key(b)[n..] == b.roleARN;
    }
  }

  // ---------------------------------------------------------------- one call at a time

  /** What a call returns, and the cache and the number of managers built when it is done. */
  datatype Served = Served(manager: Option<Manager>, cache: map<string, Manager>, built: nat)

  function ServedAlone(cache: map<string, Manager>, built: nat, r: Request, canBuild: bool): Served {
    if Key(r) in cache then Served(Some(cache[Key(r)]), cache, built)
    else if !canBuild then Served(None, cache, built)
    else var m := Manager(built, r.accountID, r.region);
      Served(Some(m), cache[Key(r) := m], built + 1)
  }

  class ResourceManagerFactory {
    var rmCache: map<string, Manager>
    var built: nat

    constructor ()
      ensures rmCache == map[] && built == 0
    {
      rmCache, built := map[], 0;
    }

    /** `canBuild`: whether newResourceManager succeeds. */
    method ManagerFor(r: Request, canBuild: bool) returns (rm: Option<Manager>)
      modifies this
      ensures Served(rm, rmCache, built) == ServedAlone(old(rmCache), old(built), r, canBuild)
    {
      var rmId := r.accountID + "/" + r.region + "/" + r.roleARN;
      if rmId in rmCache {
        return Some(rmCache[rmId]);
      }
      if !canBuild {
        return None;
      }
      var m := Manager(built, r.accountID, r.region);
      built := built + 1;
      rmCache := rmCache[rmId := m];
      return Some(m);
    }
  }

  // ---------------------------------------------------------------- any interleaving

  /** Where a call stands: not yet looked up; the lookup missed; returned a cached or a built manager; failed. */
  datatype Progress = Called | Missed | Hit(manager: Manager) | Built(manager: Manager) | BuildFailed

  datatype CallState = CallState(request: Request, progress: Progress)

  datatype State = State(cache: map<string, Manager>, calls: map<nat, CallState>, built: nat, misses: nat)

  /** The lookup holds the read lock, build-and-store the write lock; nothing is looked up again under it. */
  datatype Event = Call(t: nat, request: Request) | LookUp(t: nat) | BuildAndStore(t: nat, succeeds: bool)

  predicate Enabled(s: State, e: Event) {
    match e
    case Call(t, r) => t !in s.calls
    case LookUp(t) => t in s.calls && s.calls[t].progress.Called?
    case BuildAndStore(t, _) => t in s.calls && s.calls[t].progress.Missed?
  }

  function Next(s: State, e: Event): State
    requires Enabled(s, e)
  {
    match e
    case Call(t, r) => s.(calls := s.calls[t := CallState(r, Called)])
    case LookUp(t) =>
      var r := s.calls[t].request;
      if Key(r) in s.cache then s.(calls := s.calls[t := CallState(r, Hit(s.cache[Key(r)]))])
      else s.(calls := s.calls[t := CallState(r, Missed)], misses := s.misses + 1)
    case BuildAndStore(t, succeeds) =>
      var r := s.calls[t].request;
      if !succeeds then s.(calls := s.calls[t := CallState(r, BuildFailed)]) else
      var m := Manager(s.built, r.accountID, r.region);
      State(s.cache[Key(r) := m], s.calls[t := CallState(r, Built(m))], s.built + 1, s.misses)
  }

  const INITIAL := State(map[], map[], 0, 0)

  ghost predicate IsRun(run: seq<State>) {
    |run| > 0 && forall i :: 0 <= i < |run| - 1 ==> IsStep(run[i], run[i + 1])
  }

  ghost predicate IsStep(s: State, s': State) {
    exists e :: Enabled(s, e) && s' == Next(s, e)
  }

  function Returned(c: CallState): Option<Manager> {
    match c.progress
    case Hit(m) => Some(m)
    case Built(m) => Some(m)
    case _ => None
  }

  /** A call whose events no other call's events come between does what ManagerFor does. */
  lemma CallAloneIsManagerFor(s: State, t: nat, r: Request, canBuild: bool)
    requires t !in s.calls
    ensures var looked := Next(Next(s, Call(t, r)), LookUp(t));
            var end := if looked.calls[t].progress.Missed? then Next(looked, BuildAndStore(t, canBuild)) else looked;
            && Served(Returned(end.calls[t]), end.cache, end.built) == ServedAlone(s.cache, s.built, r, canBuild)
            && !UnderWay(end.calls[t]) && end.calls - {t} == s.calls
  {
    assert Next(s, Call(t, r)).calls - {t} == s.calls;
  }

  // ---------------------------------------------------------------- invariants

  predicate BuiltFor(m: Manager, r: Request) {
    m.accountID == r.accountID && m.region == r.region
  }

  predicate Asks(s: State, t: nat, k: string) {
    t in s.calls && Key(s.calls[t].request) == k
  }

  /** Call `t` built `m` for the key. */
  predicate Builds(s: State, t: nat, k: string, m: Manager) {
    Asks(s, t, k) && s.calls[t].progress == Built(m)
  }

  /** Every manager that is cached or was found there was built by some call for the key, for that
      call's account and region. */
  ghost predicate Origins(s: State) {
    && (forall k :: k in s.cache ==> exists t :: Builds(s, t, k, s.cache[k]))
    && (forall t :: t in s.calls && s.calls[t].progress.Hit? ==>
          exists u :: Builds(s, u, Key(s.calls[t].request), s.calls[t].progress.manager))
    && (forall t :: t in s.calls && s.calls[t].progress.Built? ==>
          BuiltFor(s.calls[t].progress.manager, s.calls[t].request))
  }

  predicate IsBuilt(s: State, t: nat) {
    t in s.calls && s.calls[t].progress.Built?
  }

  /** Two calls never return the same built manager. */
  ghost predicate FreshManagers(s: State) {
    && (forall t :: IsBuilt(s, t) ==> s.calls[t].progress.manager.serial < s.built)
    && (forall t, u :: IsBuilt(s, t) && IsBuilt(s, u) && t != u
                       ==> s.calls[t].progress.manager != s.calls[u].progress.manager)
  }

  function Waiting(s: State): set<nat> {
    set t | t in s.calls && s.calls[t].progress.Missed?
  }

  /** At most one manager is built for each missed lookup. */
  ghost predicate Inv(s: State) {
    Origins(s) && FreshManagers(s) && s.built + |Waiting(s)| <= s.misses
  }

  /** A call that has returned stays as it is. */
  lemma BuildsStays(s: State, e: Event, t: nat, k: string, m: Manager)
    requires Enabled(s, e) && Builds(s, t, k, m)
    ensures Builds(Next(s, e), t, k, m)
  {
  }

  lemma CachedWasBuilt(s: State, e: Event, k: string)
    requires Origins(s) && Enabled(s, e) && k in Next(s, e).cache
    ensures exists t :: Builds(Next(s, e), t, k, Next(s, e).cache[k])
  {
    var s' := Next(s, e);
    if k in s.cache && s'.cache[k] == s.cache[k] {
      var t :| Builds(s, t, k, s.cache[k]);
      BuildsStays(s, e, t, k, s.cache[k]);
    } else {
      assert Builds(s', e.t, k, s'.cache[k]);
    }
  }

  lemma HitWasBuilt(s: State, e: Event, t: nat)
    requires Origins(s) && Enabled(s, e) && t in Next(s, e).calls && Next(s, e).calls[t].progress.Hit?
    ensures var s' := Next(s, e);
            exists u :: Builds(s', u, Key(s'.calls[t].request), s'.calls[t].progress.manager)
  {
    var s' := Next(s, e);
    var k, m := Key(s'.calls[t].request), s'.calls[t].progress.manager;
    assert (t in s.calls && s.calls[t] == s'.calls[t]) || (e == LookUp(t) && s.cache[k] == m);
    var u :| Builds(s, u, k, m);
    BuildsStays(s, e, u, k, m);
  }

  lemma StepKeepsOrigins(s: State, e: Event)
    requires Origins(s) && Enabled(s, e)
    ensures Origins(Next(s, e))
  {
    var s' := Next(s, e);
    forall k | k in s'.cache ensures exists t :: Builds(s', t, k, s'.cache[k]) {
      CachedWasBuilt(s, e, k);
    }
    forall t | t in s'.calls && s'.calls[t].progress.Hit?
      ensures exists u :: Builds(s', u, Key(s'.calls[t].request), s'.calls[t].progress.manager)
    {
      HitWasBuilt(s, e, t);
    }
  }

  /** So was every manager that was returned. */
  lemma ReturnedWasBuilt(s: State, t: nat) returns (u: nat)
    requires Origins(s) && t in s.calls && Returned(s.calls[t]).Some?
    ensures Builds(s, u, Key(s.calls[t].request), Returned(s.calls[t]).value)
  {
    if s.calls[t].progress.Built? {
      u := t;
    } else {
      u :| Builds(s, u, Key(s.calls[t].request), s.calls[t].progress.manager);
    }
  }

  lemma StepKeepsCounts(s: State, e: Event)
    requires Enabled(s, e) && s.built + |Waiting(s)| <= s.misses
    ensures var s' := Next(s, e); s'.built + |Waiting(s')| <= s'.misses
  {
    var s' := Next(s, e);
    match e
    case Call(t, r) =>
      assert Waiting(s') == Waiting(s);
    case LookUp(t) =>
      if Key(s.calls[t].request) in s.cache {
        assert Waiting(s') == Waiting(s);
      } else {
        assert Waiting(s') == Waiting(s) + {t};
      }
    case BuildAndStore(t, succeeds) =>
      assert Waiting(s') == Waiting(s) - {t} && t in Waiting(s);
  }

  lemma StepKeepsFresh(s: State, e: Event)
    requires FreshManagers(s) && Enabled(s, e)
    ensures FreshManagers(Next(s, e))
  {
    assert forall t :: IsBuilt(Next(s, e), t) ==> IsBuilt(s, t) || (e.BuildAndStore? && t == e.t);
  }

  lemma StepKeepsInv(s: State, e: Event)
    requires Inv(s) && Enabled(s, e)
    ensures Inv(Next(s, e))
    ensures s.cache.Keys <= Next(s, e).cache.Keys
    ensures forall t :: t in s.calls && Returned(s.calls[t]).Some? ==>
              t in Next(s, e).calls && Next(s, e).calls[t] == s.calls[t]
  {
    StepKeepsOrigins(s, e);
    StepKeepsFresh(s, e);
    StepKeepsCounts(s, e);
  }

  /** Over every run from the initial state. */
  lemma {:induction false} RunKeepsInv(run: seq<State>, i: nat, j: nat)
    requires IsRun(run) && run[0] == INITIAL && i <= j < |run|
    ensures Inv(run[j]) && run[i].cache.Keys <= run[j].cache.Keys
    ensures forall t :: t in run[i].calls && Returned(run[i].calls[t]).Some? ==>
              t in run[j].calls && run[j].calls[t] == run[i].calls[t]
    decreases j
  {
    if j == 0 {
      assert Waiting(INITIAL) == {};
    } else {
      RunKeepsInv(run, if i < j then i else j - 1, j - 1);
      assert IsStep(run[j - 1], run[j - 1 + 1]);
      var e :| Enabled(run[j - 1], e) && run[j] == Next(run[j - 1], e);
      StepKeepsInv(run[j - 1], e);
    }
  }

  // ---------------------------------------------------------------- the right account and region

  /** If no request has a "/" in account or region, every call gets a manager for its account and region. */
  lemma PlainRequestsAreServedRight(run: seq<State>, j: nat, t: nat)
    requires IsRun(run) && run[0] == INITIAL && j < |run|
    requires forall u :: u in run[j].calls ==> Plain(run[j].calls[u].request)
    requires t in run[j].calls && Returned(run[j].calls[t]).Some?
    ensures BuiltFor(Returned(run[j].calls[t]).value, run[j].calls[t].request)
  {
    RunKeepsInv(run, j, j);
    var s := run[j];
    var u := ReturnedWasBuilt(s, t);
    KeyIsInjective(s.calls[u].request, s.calls[t].request);
  }

  ghost predicate ServedWrong(run: seq<State>, t: nat, r: Request)
    requires |run| > 0
  {
    var end := run[|run| - 1];
    && t in end.calls && end.calls[t].request == r
    && Returned(end.calls[t]).Some? && !BuiltFor(Returned(end.calls[t]).value, r)
  }

  /** Every other request can be served the manager of another account or region. */
  lemma OtherRequestsMayBeServedWrong(r: Request)
    requires !Plain(r)
    ensures exists run: seq<State> :: IsRun(run) && run[0] == INITIAL && ServedWrong(run, 1, r)
  {
    var q := PlainTwin(r);
    var s1 := Next(INITIAL, Call(0, q));
    var s2 := Next(s1, LookUp(0));
    var s3 := Next(s2, BuildAndStore(0, true));
    var s4 := Next(s3, Call(1, r));
    var s5 := Next(s4, LookUp(1));
    assert IsStep(INITIAL, s1) && IsStep(s1, s2) && IsStep(s2, s3) && IsStep(s3, s4) && IsStep(s4, s5);
    var run := [INITIAL, s1, s2, s3, s4, s5];
    assert IsRun(run) && run[|run| - 1] == s5;
    assert s5.calls[1] == CallState(r, Hit(Manager(0, q.accountID, q.region)));
    RoleIsTheRest(q, r);
    assert ServedWrong(run, 1, r);
  }

  // ---------------------------------------------------------------- when the same key gives the same manager

  /** All calls for the key that have returned a manager returned the same one. */
  ghost predicate Agree(s: State, k: string) {
    forall t, u :: Asks(s, t, k) && Asks(s, u, k) && Returned(s.calls[t]).Some? && Returned(s.calls[u]).Some?
                   ==> Returned(s.calls[t]) == Returned(s.calls[u])
  }

  ghost predicate BuiltAtMostOnce(s: State, k: string) {
    forall t, u :: Asks(s, t, k) && Asks(s, u, k) && IsBuilt(s, t) && IsBuilt(s, u) ==> t == u
  }

  /** In every run, calls for one key share their manager exactly when at most one of them built one. */
  lemma AgreeIffBuiltOnce(run: seq<State>, j: nat, k: string)
    requires IsRun(run) && run[0] == INITIAL && j < |run|
    ensures Agree(run[j], k) <==> BuiltAtMostOnce(run[j], k)
  {
    RunKeepsInv(run, j, j);
    var s := run[j];
    if Agree(s, k) {
      forall t, u | Asks(s, t, k) && Asks(s, u, k) && IsBuilt(s, t) && IsBuilt(s, u) ensures t == u {
        assert Returned(s.calls[t]) == Returned(s.calls[u]);
      }
    }
    if BuiltAtMostOnce(s, k) {
      forall t, u | Asks(s, t, k) && Asks(s, u, k) && Returned(s.calls[t]).Some? && Returned(s.calls[u]).Some?
        ensures Returned(s.calls[t]) == Returned(s.calls[u])
      {
        var t' := ReturnedWasBuilt(s, t);
        var u' := ReturnedWasBuilt(s, u);
        assert IsBuilt(s, t') && IsBuilt(s, u');
      }
    }
  }

  /** The key is cached and no call that missed it is still to build. */
  ghost predicate Settled(s: State, k: string) {
    k in s.cache && forall t :: Asks(s, t, k) ==> !s.calls[t].progress.Missed?
  }

  /** From `s` to `s'` a manager cached for the key stays, and calls that look up in between get it. */
  ghost predicate Keeps(s: State, s': State, k: string) {
    k in s.cache ==>
      && k in s'.cache && s'.cache[k] == s.cache[k]
      && forall t :: Asks(s', t, k) && (t !in s.calls || s.calls[t].progress.Called?) ==>
           s'.calls[t].progress == Called || s'.calls[t].progress == Hit(s.cache[k])
  }

  /** So it is between any two states of any run from here on. */
  ghost predicate KeptForGood(s: State, k: string) {
    forall run: seq<State>, i: nat, j: nat :: IsRun(run) && run[0] == s && i <= j < |run| ==> Keeps(run[i], run[j], k)
  }

  lemma SettledStep(s: State, e: Event, k: string)
    requires Enabled(s, e) && Settled(s, k)
    ensures Settled(Next(s, e), k) && Next(s, e).cache[k] == s.cache[k]
  {
    assert e.BuildAndStore? ==> !Asks(s, e.t, k);
  }

  lemma KeepsOneStepMore(s: State, s': State, e: Event, k: string)
    requires Settled(s', k) && Keeps(s, s', k) && k in s.cache && Enabled(s', e)
    ensures Keeps(s, Next(s', e), k)
  {
    SettledStep(s', e, k);
    var s'' := Next(s', e);
    forall t | Asks(s'', t, k) && (t !in s.calls || s.calls[t].progress.Called?)
      ensures s''.calls[t].progress == Called || s''.calls[t].progress == Hit(s.cache[k])
    {
      if t in s'.calls {
        assert Asks(s', t, k);
      }
    }
  }

  lemma {:induction false} SettledStays(run: seq<State>, k: string, j: nat)
    requires IsRun(run) && Settled(run[0], k) && j < |run|
    ensures Settled(run[j], k)
    decreases j
  {
    if j > 0 {
      SettledStays(run, k, j - 1);
      assert IsStep(run[j - 1], run[j - 1 + 1]);
      var e :| Enabled(run[j - 1], e) && run[j] == Next(run[j - 1], e);
      SettledStep(run[j - 1], e, k);
    }
  }

  lemma {:induction false} SettledKeeps(run: seq<State>, k: string, i: nat, j: nat)
    requires IsRun(run) && Settled(run[0], k) && i <= j < |run|
    ensures Keeps(run[i], run[j], k)
    decreases j
  {
    SettledStays(run, k, i);
    if i < j {
      SettledKeeps(run, k, i, j - 1);
      SettledStays(run, k, j - 1);
      assert IsStep(run[j - 1], run[j - 1 + 1]);
      var e :| Enabled(run[j - 1], e) && run[j] == Next(run[j - 1], e);
      KeepsOneStepMore(run[i], run[j - 1], e, k);
    }
  }

  /** A pending build replaces what is cached. */
  lemma PendingBuildReplaces(s: State, k: string, t: nat)
    requires Inv(s) && k in s.cache && Asks(s, t, k) && s.calls[t].progress.Missed?
    ensures !KeptForGood(s, k)
  {
    var s' := Next(s, BuildAndStore(t, true));
    var u :| Builds(s, u, k, s.cache[k]);
    assert IsBuilt(s, u);
    assert s'.cache[k] != s.cache[k];
    assert IsStep(s, s');
    var run := [s, s'];
    assert IsRun(run) && run[0] == s && !Keeps(run[0], run[1], k);
  }

  lemma {:induction false} Above(numbers: set<nat>) returns (n: nat)
    ensures forall t :: t in numbers ==> t < n
    decreases |numbers|
  {
    if numbers == {} {
      n := 0;
    } else {
      var t :| t in numbers;
      assert numbers == (numbers - {t}) + {t};
      n := Above(numbers - {t});
      n := if t < n then n else t + 1;
    }
  }

  lemma BothMiss(s: State, r: Request, t: nat) returns (run: seq<State>)
    requires Key(r) !in s.cache && t !in s.calls && t + 1 !in s.calls
    ensures |run| == 5 && IsRun(run) && run[0] == s
    ensures run[4] == s.(calls := s.calls[t := CallState(r, Missed)][t + 1 := CallState(r, Missed)],
                         misses := s.misses + 2)
  {
    var s1 := Next(s, Call(t, r));
    var s2 := Next(s1, Call(t + 1, r));
    var s3 := Next(s2, LookUp(t));
    var s4 := Next(s3, LookUp(t + 1));
    assert s4.calls == s.calls[t := CallState(r, Missed)][t + 1 := CallState(r, Missed)];
    assert IsStep(s, s1) && IsStep(s1, s2) && IsStep(s2, s3) && IsStep(s3, s4);
    run := [s, s1, s2, s3, s4];
  }

  lemma Longer(run: seq<State>, s: State)
    requires IsRun(run) && IsStep(run[|run| - 1], s)
    ensures IsRun(run + [s])
  {
    var longer := run + [s];
    forall i | 0 <= i < |longer| - 1 ensures IsStep(longer[i], longer[i + 1]) {
      if i < |run| - 1 {
        assert IsStep(run[i], run[i + 1]);
      }
    }
  }

  lemma BothBuild(s: State, r: Request, t: nat) returns (s': State, s'': State)
    requires t in s.calls && s.calls[t] == CallState(r, Missed)
    requires t + 1 in s.calls && s.calls[t + 1] == CallState(r, Missed)
    ensures IsStep(s, s') && IsStep(s', s'')
    ensures var first, second := Manager(s.built, r.accountID, r.region), Manager(s.built + 1, r.accountID, r.region);
            && s'.cache == s.cache[Key(r) := first] && s''.cache == s.cache[Key(r) := second]
            && s''.calls == s.calls[t := CallState(r, Built(first))][t + 1 := CallState(r, Built(second))]
  {
    s' := Next(s, BuildAndStore(t, true));
    s'' := Next(s', BuildAndStore(t + 1, true));
  }

  /** Two calls that look up before either builds: both build, and the cache keeps the later manager. */
  lemma OverlappingCalls(s: State, r: Request, t: nat) returns (run: seq<State>)
    requires Key(r) !in s.cache && t !in s.calls && t + 1 !in s.calls
    ensures |run| == 7 && IsRun(run) && run[0] == s
    ensures var first, second := Manager(s.built, r.accountID, r.region), Manager(s.built + 1, r.accountID, r.region);
            && run[5].cache == s.cache[Key(r) := first] && run[6].cache == s.cache[Key(r) := second]
            && run[6].calls == s.calls[t := CallState(r, Built(first))][t + 1 := CallState(r, Built(second))]
  {
    run := BothMiss(s, r, t);
    var s5, s6 := BothBuild(run[4], r, t);
    Longer(run, s5);
    Longer(run + [s5], s6);
    assert run + [s5] + [s6] == run + [s5, s6];
    run := run + [s5, s6];
  }

  /** In every reachable state: whatever is done from then on, the cached manager of a key stays and is
      what later calls get, exactly when the key is cached and no call that missed it is pending. */
  lemma SettledIffKeptForGood(run: seq<State>, j: nat, r: Request)
    requires IsRun(run) && run[0] == INITIAL && j < |run|
    ensures Settled(run[j], Key(r)) <==> KeptForGood(run[j], Key(r))
  {
    RunKeepsInv(run, j, j);
    var s, k := run[j], Key(r);
    if Settled(s, k) {
      forall more: seq<State>, i: nat, l: nat | IsRun(more) && more[0] == s && i <= l < |more|
        ensures Keeps(more[i], more[l], k)
      {
        SettledKeeps(more, k, i, l);
      }
    } else if k in s.cache {
      var t :| Asks(s, t, k) && s.calls[t].progress.Missed?;
      PendingBuildReplaces(s, k, t);
    } else {
      var t := Above(s.calls.Keys);
      var more := OverlappingCalls(s, r, t);
      assert more[5].cache[k] != more[6].cache[k];
      assert !Keeps(more[5], more[6], k);
    }
  }

  // ---------------------------------------------------------------- calls that do not overlap

  predicate UnderWay(c: CallState) {
    c.progress.Called? || c.progress.Missed?
  }

  /** At most one call for the key is under way. */
  ghost predicate OneAtATime(s: State, k: string) {
    forall t, u :: Asks(s, t, k) && Asks(s, u, k) && UnderWay(s.calls[t]) && UnderWay(s.calls[u]) ==> t == u
  }

  ghost predicate Faithful(s: State, k: string) {
    && (forall t :: Asks(s, t, k) && s.calls[t].progress.Missed? ==> k !in s.cache)
    && (forall t :: Asks(s, t, k) && Returned(s.calls[t]).Some? ==>
          k in s.cache && s.cache[k] == Returned(s.calls[t]).value)
  }

  /** If the calls for a key never overlap, whatever calls for other keys do, they share their manager. */
  lemma SequentialCallsShare(run: seq<State>, j: nat, k: string)
    requires IsRun(run) && run[0] == INITIAL && j < |run|
    requires forall i :: 0 <= i <= j ==> OneAtATime(run[i], k)
    ensures Agree(run[j], k)
  {
    SequentialRunIsFaithful(run, j, k);
  }

  lemma StepKeepsFaithful(s: State, e: Event, k: string)
    requires Faithful(s, k) && OneAtATime(s, k) && Enabled(s, e)
    ensures Faithful(Next(s, e), k)
  {
    if e.BuildAndStore? && Asks(s, e.t, k) {
      forall t | Asks(s, t, k) && s.calls[t].progress.Missed? ensures t == e.t {
        assert UnderWay(s.calls[t]) && UnderWay(s.calls[e.t]);
      }
    }
  }

  lemma {:induction false} SequentialRunIsFaithful(run: seq<State>, j: nat, k: string)
    requires IsRun(run) && run[0] == INITIAL && j < |run|
    requires forall i :: 0 <= i <= j ==> OneAtATime(run[i], k)
    ensures Faithful(run[j], k)
    decreases j
  {
    if j > 0 {
      SequentialRunIsFaithful(run, j - 1, k);
      assert IsStep(run[j - 1], run[j - 1 + 1]);
      var e :| Enabled(run[j - 1], e) && run[j] == Next(run[j - 1], e);
      StepKeepsFaithful(run[j - 1], e, k);
    }
  }

  /** Two overlapping calls for the same request can return different managers: the write lock does
      not look up again. */
  lemma OverlappingCallsMayDiffer(r: Request)
    ensures exists run: seq<State> :: IsRun(run) && run[0] == INITIAL && !Agree(run[|run| - 1], Key(r))
  {
    var run := OverlappingCalls(INITIAL, r, 0);
    assert Asks(run[6], 0, Key(r)) && Asks(run[6], 1, Key(r));
    assert !Agree(run[|run| - 1], Key(r));
  }
}
