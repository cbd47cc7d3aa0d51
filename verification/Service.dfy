/** The S3 Files service as the controller sees it: calls that change the remote file system,
    each of which may fail. Which calls fail is fixed by an arbitrary schedule, so a claim about
    a run holds for every pattern of failures. */
module Service {
  import opened Nilable

  const NOT_FOUND := "ResourceNotFoundException"
  const VALIDATION := "ValidationException"

  /** An error, as far as the controller looks at it: the code and text of the first API error in
      its chain, whether it is one of the two secret errors, whether its chain holds a
      TerminalError, and its own text. */
  datatype Error = Error(apiCode: Option<string>, apiText: string, isSecretError: bool, hasTerminalError: bool,
          text: string)

  datatype SdkImportRule = SdkImportRule(prefix: Option<string>, sizeLessThan: Option<int64>, trigger: string)
  datatype SdkExpirationRule = SdkExpirationRule(daysAfterLastAccess: Option<int32>)
  datatype SyncConfiguration = SyncConfiguration(imports: Option<seq<SdkImportRule>>,
          expirations: Option<seq<SdkExpirationRule>>)

  /** The order inside a tag request is lost: a request is the map or set it lists. */
  datatype Call =
    | TagResource(id: Option<string>, tags: map<string, string>)
    | UntagResource(id: Option<string>, keys: set<string>)
    | PutFileSystemPolicy(id: Option<string>, policy: string)
    | DeleteFileSystemPolicy(id: Option<string>)
    | PutSynchronizationConfiguration(id: Option<string>, version: Option<int32>, config: SyncConfiguration)

  /** A failed call may have taken effect all the same: a tag call for any of its keys (`reached`),
      another call as a whole (`landed`). */
  datatype Outcome = Succeeds | Fails(error: Error, reached: set<string>, landed: bool)

  datatype Remote = Remote(tags: map<string, string>, policy: Option<string>, sync: Option<SyncConfiguration>)

  function Effect(s: Remote, c: Call, o: Outcome): Remote {
    match c
    case TagResource(_, tags) =>
      s.(tags := s.tags + map k | k in tags && (o.Succeeds? || k in o.reached) :: tags[k])
    case UntagResource(_, keys) =>
      s.(tags := s.tags - set k | k in keys && (o.Succeeds? || k in o.reached))
    case PutFileSystemPolicy(_, policy) => if TookEffect(o) then s.(policy := Some(policy)) else s
    case DeleteFileSystemPolicy(_) => if TookEffect(o) then s.(policy := None) else s
    case PutSynchronizationConfiguration(_, _, config) => if TookEffect(o) then s.(sync := Some(config)) else s
  }

  predicate TookEffect(o: Outcome) {
    o.Succeeds? || o.landed
  }

  predicate IsNotFound(e: Error) {
    e.apiCode == Some(NOT_FOUND)
  }

  function ErrorOf(o: Outcome): Option<Error> {
    if o.Succeeds? then None else Some(o.error)
  }

  /** The client object. `outcomes(n)` decides the fate of the n-th call. */
  class Client {
    var state: Remote
    var log: seq<Call>
    const outcomes: nat -> Outcome

    constructor (state: Remote, outcomes: nat -> Outcome)
      ensures this.state == state && this.log == [] && this.outcomes == outcomes
    {
      this.state, this.log, this.outcomes := state, [], outcomes;
    }

    method Invoke(c: Call) returns (err: Option<Error>)
      modifies this
      ensures log == old(log) + [c]
      ensures state == Effect(old(state), c, outcomes(|old(log)|))
      ensures err == ErrorOf(outcomes(|old(log)|))
    {
      var o := outcomes(|log|);
      state := Effect(state, c, o);
      log := log + [c];
      err := ErrorOf(o);
    }
  }

  // ---------------------------------------------------------------- plans

  /** What became of a plan: the remote state, how many of its calls were made, the error that ended it. */
  datatype Run = Run(state: Remote, made: nat, error: Option<Error>)

  /** Every failure ends an update, except a policy deletion that finds no policy. */
  predicate Fatal(c: Call, o: Outcome) {
    o.Fails? && !(c.DeleteFileSystemPolicy? && IsNotFound(o.error))
  }

  /** Making the calls of `plan` one after the other, `at` calls having been made before, until one is fatal. */
  function Execute(s: Remote, plan: seq<Call>, outcomes: nat -> Outcome, at: nat): (r: Run)
    ensures r.made <= |plan|
    ensures r.error.None? ==> r.made == |plan|
    decreases |plan|
  {
    if plan == [] then Run(s, 0, None) else
    var o := outcomes(at);
    var s' := Effect(s, plan[0], o);
    if Fatal(plan[0], o) then Run(s', 1, Some(o.error)) else
    var rest := Execute(s', plan[1..], outcomes, at + 1);
    Run(rest.state, rest.made + 1, rest.error)
  }

  predicate FatalAt(plan: seq<Call>, outcomes: nat -> Outcome, at: nat, i: nat)
    requires i < |plan|
  {
    Fatal(plan[i], outcomes(at + i))
  }

  /** The run stops right after the first fatal call and nowhere else; every failure is fatal but that of a
      policy deletion with code ResourceNotFoundException. */
  lemma {:induction false} ExecuteStopsAtFirstFatal(s: Remote, plan: seq<Call>, outcomes: nat -> Outcome, at: nat)
    ensures var r := Execute(s, plan, outcomes, at);
            && (forall i :: 0 <= i < r.made - 1 ==> !FatalAt(plan, outcomes, at, i))
            && (r.error.Some? ==> 0 < r.made && FatalAt(plan, outcomes, at, r.made - 1)
                                  && r.error == ErrorOf(outcomes(at + r.made - 1)))
            && (r.error.None? ==> forall i :: 0 <= i < |plan| ==> !FatalAt(plan, outcomes, at, i))
    ensures forall i :: 0 <= i < |plan| ==>
              (FatalAt(plan, outcomes, at, i) <==>
                 && outcomes(at + i).Fails?
                 && !(plan[i].DeleteFileSystemPolicy?
                      && outcomes(at + i).error.apiCode == Some("ResourceNotFoundException")))
    decreases |plan|
  {
    if plan != [] && !Fatal(plan[0], outcomes(at)) {
      var rest := plan[1..];
      ExecuteStopsAtFirstFatal(Effect(s, plan[0], outcomes(at)), rest, outcomes, at + 1);
      forall i: nat | 0 < i < |plan|
        ensures FatalAt(plan, outcomes, at, i) <==> FatalAt(rest, outcomes, at + 1, i - 1)
      {}
    }
  }

  /** A call that was made and failed, unless it is a policy deletion that finds no policy, is the last one,
      and the run ends with its error. */
  lemma FailureEndsRun(s: Remote, plan: seq<Call>, outcomes: nat -> Outcome, at: nat, i: nat)
    requires i < Execute(s, plan, outcomes, at).made && outcomes(at + i).Fails?
    requires !(plan[i].DeleteFileSystemPolicy? && outcomes(at + i).error.apiCode == Some("ResourceNotFoundException"))
    ensures Execute(s, plan, outcomes, at).made == i + 1
    ensures Execute(s, plan, outcomes, at).error == Some(outcomes(at + i).error)
  {
    ExecuteStopsAtFirstFatal(s, plan, outcomes, at);
    assert FatalAt(plan, outcomes, at, i);
  }

  lemma ExecuteOne(s: Remote, c: Call, outcomes: nat -> Outcome, at: nat)
    ensures Execute(s, [c], outcomes, at) ==
            Run(Effect(s, c, outcomes(at)), 1, if Fatal(c, outcomes(at)) then ErrorOf(outcomes(at)) else None)
  {
  }

  /** A plan in two parts: the second is reached exactly when the first ends without error. */
  lemma {:induction false} ExecuteInParts(s: Remote, p: seq<Call>, q: seq<Call>, outcomes: nat -> Outcome, at: nat)
    ensures var r := Execute(s, p, outcomes, at);
            Execute(s, p + q, outcomes, at) ==
            if r.error.Some? then r else
            var t := Execute(r.state, q, outcomes, at + |p|);
            Run(t.state, |p| + t.made, t.error)
    decreases |p|
  {
    if p == [] {
      assert p + q == q;
    } else {
      assert (p + q)[1..] == p[1..] + q;
      ExecuteInParts(Effect(s, p[0], outcomes(at)), p[1..], q, outcomes, at + 1);
    }
  }

  /** A call that is reached and is not fatal is followed by the rest of the plan. */
  lemma ExecutePast(s: Remote, plan: seq<Call>, outcomes: nat -> Outcome, at: nat, i: nat)
    requires i < |plan| && Execute(s, plan, outcomes, at).made > i && !Fatal(plan[i], outcomes(at + i))
    ensures var s' := Effect(Execute(s, plan[..i], outcomes, at).state, plan[i], outcomes(at + i));
            var rest := Execute(s', plan[i + 1..], outcomes, at + i + 1);
            Execute(s, plan, outcomes, at) == Run(rest.state, i + 1 + rest.made, rest.error)
  {
    assert plan[..i] + plan[i..] == plan;
    assert plan[i..][1..] == plan[i + 1..];
    ExecuteInParts(s, plan[..i], plan[i..], outcomes, at);
  }

  /** From (s, log) to (s', log') with result `err`, the calls made are those of `plan` up to the first fatal one. */
  ghost predicate Follows(plan: seq<Call>, outcomes: nat -> Outcome, s: Remote, log: seq<Call>,
                          s': Remote, log': seq<Call>, err: Option<Error>) {
    var run := Execute(s, plan, outcomes, |log|);
    log' == log + plan[..run.made] && s' == run.state && err == run.error
  }

  /** A plan of one call, when every failure of it is fatal. */
  lemma FollowsOne(c: Call, outcomes: nat -> Outcome, s: Remote, log: seq<Call>)
    requires !c.DeleteFileSystemPolicy?
    ensures var o := outcomes(|log|);
            Follows([c], outcomes, s, log, Effect(s, c, o), log + [c], ErrorOf(o))
  {
    ExecuteOne(s, c, outcomes, |log|);
    assert [c][..1] == [c];
  }

  lemma FollowsFirstPart(p: seq<Call>, q: seq<Call>, outcomes: nat -> Outcome, s: Remote, log: seq<Call>,
                         s': Remote, log': seq<Call>, err: Option<Error>)
    requires Follows(p, outcomes, s, log, s', log', err) && err.Some?
    ensures Follows(p + q, outcomes, s, log, s', log', err)
  {
    ExecuteInParts(s, p, q, outcomes, |log|);
    var made := Execute(s, p, outcomes, |log|).made;
    assert (p + q)[..made] == p[..made];
  }

  lemma FollowsBothParts(p: seq<Call>, q: seq<Call>, outcomes: nat -> Outcome, s: Remote, log: seq<Call>,
                         s': Remote, log': seq<Call>, s'': Remote, log'': seq<Call>, err: Option<Error>)
    requires Follows(p, outcomes, s, log, s', log', None)
    requires Follows(q, outcomes, s', log', s'', log'', err)
    ensures Follows(p + q, outcomes, s, log, s'', log'', err)
  {
    ExecuteInParts(s, p, q, outcomes, |log|);
    var made := Execute(s', q, outcomes, |log'|).made;
    assert (p + q)[..|p| + made] == p + q[..made];
  }
}
