/** Comparing and updating FileSystems (`pkg/resource/file_system/delta.go`, `customUpdateFileSystem` in `hooks.go`). */
module FileSystemUpdate {
  import opened Nilable
  import opened OrderedTags
  import opened Service
  import opened TagSync
  import opened FileSystems
  import opened SyncRules
  import opened Deltas

  const BUCKET: Path := [Spec, Component.Bucket]
  const BUCKET_REF: Path := [Spec, Component.BucketRef]
  const KMS_KEY_ID: Path := [Spec, Component.KMSKeyID]
  const KMS_KEY_REF: Path := [Spec, Component.KMSKeyRef]
  const POLICY: Path := [Spec, Component.Policy]
  const PREFIX: Path := [Spec, Component.Prefix]
  const ROLE_ARN: Path := [Spec, Component.RoleARN]
  const ROLE_REF: Path := [Spec, Component.RoleRef]
  const TAGS: Path := [Spec, Component.Tags]
  const IMPORT_RULES: Path := [Spec, Component.ImportDataRules]
  const EXPIRATION_RULES: Path := [Spec, Component.ExpirationDataRules]
  const EVERYTHING: Path := [Nothing]

  /** What the runtime's comparisons decide: which strings are as good as nil, and when two policy
      documents are equal (false also when one of them cannot be read). */
  datatype Comparison = Comparison(blank: string -> bool, policyEqual: (string, string) -> bool)

  // ---------------------------------------------------------------- comparing

  predicate Equal(a: string, b: string) { a == b }

  predicate PolicyDiffers(c: Comparison, a: Option<string>, b: Option<string>) {
    !Agree(c.blank, c.policyEqual, a, b)
  }

  /** Whether the two specs differ at the field that the path names. */
  predicate DiffersAt(c: Comparison, p: Path, a: FileSystemSpec, b: FileSystemSpec) {
    || (p == BUCKET && !Agree(c.blank, Equal, a.bucket, b.bucket))
    || (p == BUCKET_REF && a.bucketRef != b.bucketRef)
    || (p == KMS_KEY_ID && !Agree(c.blank, Equal, a.kmsKeyID, b.kmsKeyID))
    || (p == KMS_KEY_REF && a.kmsKeyRef != b.kmsKeyRef)
    || (p == POLICY && PolicyDiffers(c, a.policy, b.policy))
    || (p == PREFIX && !Agree(c.blank, Equal, a.prefix, b.prefix))
    || (p == ROLE_ARN && !Agree(c.blank, Equal, a.roleARN, b.roleARN))
    || (p == ROLE_REF && a.roleRef != b.roleRef)
    || (p == TAGS && ToMap(a.tags) != ToMap(b.tags))
  }

  /** The recorded paths are exactly those where the specs differ. */
  ghost predicate IsDelta(c: Comparison, paths: seq<Path>, a: FileSystemSpec, b: FileSystemSpec) {
    forall p :: p in paths <==> DiffersAt(c, p, a, b)
  }

  method AddIfDifferent(delta: Delta, p: Path, c: Comparison, same: (string, string) -> bool, a: Option<string>,
          b: Option<string>)
    modifies delta
    ensures forall q :: q in delta.paths <==> q in old(delta.paths) || (q == p && !Agree(c.blank, same, a, b))
  {
    if HasNilDifference(c.blank, a, b) {
      delta.Add(p);
    } else if a.Some? && b.Some? {
      if !same(a.value, b.value) {
        delta.Add(p);
      }
    }
  }

  /** With two nil resources the code dereferences nil. */
  method NewResourceDelta(c: Comparison, a: FileSystem?, b: FileSystem?) returns (delta: Delta)
    requires a != null || b != null
    ensures fresh(delta)
    ensures a == null || b == null ==> delta.paths == [EVERYTHING]
    ensures a != null && b != null ==> IsDelta(c, delta.paths, a.spec, b.spec)
  {
    delta := new Delta();
    if (a == null && b != null) || (a != null && b == null) {
      delta.Add(EVERYTHING);
      return;
    }
    AddIfDifferent(delta, BUCKET, c, Equal, a.spec.bucket, b.spec.bucket);
    if a.spec.bucketRef != b.spec.bucketRef {
      delta.Add(BUCKET_REF);
    }
    AddIfDifferent(delta, KMS_KEY_ID, c, Equal, a.spec.kmsKeyID, b.spec.kmsKeyID);
    if a.spec.kmsKeyRef != b.spec.kmsKeyRef {
      delta.Add(KMS_KEY_REF);
    }
    assert forall p :: p in delta.paths <==>
      DiffersAt(c, p, a.spec, b.spec) && p in {BUCKET, BUCKET_REF, KMS_KEY_ID, KMS_KEY_REF};
    AddIfDifferent(delta, POLICY, c, c.policyEqual, a.spec.policy, b.spec.policy);
    assert forall p :: p in delta.paths <==>
      DiffersAt(c, p, a.spec, b.spec) && p in {BUCKET, BUCKET_REF, KMS_KEY_ID, KMS_KEY_REF, POLICY};
    AddIfDifferent(delta, PREFIX, c, Equal, a.spec.prefix, b.spec.prefix);
    AddIfDifferent(delta, ROLE_ARN, c, Equal, a.spec.roleARN, b.spec.roleARN);
    if a.spec.roleRef != b.spec.roleRef {
      delta.Add(ROLE_REF);
    }
    AddIfTagsDiffer(delta, a.spec.tags, b.spec.tags);
  }

  method AddIfTagsDiffer(delta: Delta, a: seq<Tag>, b: seq<Tag>)
    modifies delta
    ensures forall q :: q in delta.paths <==> q in old(delta.paths) || (q == TAGS && ToMap(a) != ToMap(b))
  {
    var desiredACKTags, _ := ConvertToOrderedACKTags(a);
    var latestACKTags, _ := ConvertToOrderedACKTags(b);
    if desiredACKTags.entries != latestACKTags.entries {
      delta.Add(TAGS);
    }
  }

  /** A delta of two resources never reports import or expiration rules, and reports policy and
      tags exactly when they differ. */
  lemma OwnDeltaSeesPolicyAndTagsOnly(c: Comparison, paths: seq<Path>, a: FileSystemSpec, b: FileSystemSpec)
    requires IsDelta(c, paths, a, b)
    ensures !DifferentAt(paths, IMPORT_RULES) && !DifferentAt(paths, EXPIRATION_RULES)
    ensures DifferentAt(paths, POLICY) <==> PolicyDiffers(c, a.policy, b.policy)
    ensures DifferentAt(paths, TAGS) <==> ToMap(a.tags) != ToMap(b.tags)
  {
    forall i | 0 <= i < |paths| ensures |paths[i]| == 2 {
      assert paths[i] in paths;
      assert DiffersAt(c, paths[i], a, b);
    }
    DifferentAtSameLength(paths, IMPORT_RULES);
    DifferentAtSameLength(paths, EXPIRATION_RULES);
    DifferentAtSameLength(paths, POLICY);
    DifferentAtSameLength(paths, TAGS);
    assert DiffersAt(c, POLICY, a, b) <==> PolicyDiffers(c, a.policy, b.policy);
    assert DiffersAt(c, TAGS, a, b) <==> ToMap(a.tags) != ToMap(b.tags);
    assert !DiffersAt(c, IMPORT_RULES, a, b) && !DiffersAt(c, EXPIRATION_RULES, a, b);
  }

  /** Each compared field is recorded under its own path, exactly if it differs. */
  lemma RecordedPaths(c: Comparison, paths: seq<Path>, a: FileSystemSpec, b: FileSystemSpec)
    requires IsDelta(c, paths, a, b)
    ensures [Component.Spec, Component.Bucket] in paths <==> !Agree(c.blank, Equal, a.bucket, b.bucket)
    ensures [Component.Spec, Component.BucketRef] in paths <==> a.bucketRef != b.bucketRef
    ensures [Component.Spec, Component.KMSKeyID] in paths <==> !Agree(c.blank, Equal, a.kmsKeyID, b.kmsKeyID)
    ensures [Component.Spec, Component.KMSKeyRef] in paths <==> a.kmsKeyRef != b.kmsKeyRef
    ensures [Component.Spec, Component.Policy] in paths <==> !Agree(c.blank, c.policyEqual, a.policy, b.policy)
    ensures [Component.Spec, Component.Prefix] in paths <==> !Agree(c.blank, Equal, a.prefix, b.prefix)
    ensures [Component.Spec, Component.RoleARN] in paths <==> !Agree(c.blank, Equal, a.roleARN, b.roleARN)
    ensures [Component.Spec, Component.RoleRef] in paths <==> a.roleRef != b.roleRef
    ensures [Component.Spec, Component.Tags] in paths <==> ToMap(a.tags) != ToMap(b.tags)
  {
  }

  lemma NothingElseIsRecorded(c: Comparison, paths: seq<Path>, a: FileSystemSpec, b: FileSystemSpec)
    requires IsDelta(c, paths, a, b)
    ensures forall p: Path :: p in paths ==>
              && |p| == 2 && p[0] == Component.Spec
              && (|| p[1].Bucket? || p[1].BucketRef? || p[1].KMSKeyID? || p[1].KMSKeyRef? || p[1].Policy?
                  || p[1].Prefix? || p[1].RoleARN? || p[1].RoleRef? || p[1].Tags?)
  {
  }

  /** If no value is as good as nil and policies are compared as texts, the delta is empty exactly when the
      specs are equal but for the rules and for what tag maps do not show. */
  lemma EmptyDeltaMeansEqual(c: Comparison, paths: seq<Path>, a: FileSystemSpec, b: FileSystemSpec)
    requires IsDelta(c, paths, a, b)
    requires forall v :: !c.blank(v)
    requires forall v, w :: c.policyEqual(v, w) <==> v == w
    ensures paths == [] <==>
              && ToMap(a.tags) == ToMap(b.tags)
              && a == b.(tags := a.tags, importDataRules := a.importDataRules,
                         expirationDataRules := a.expirationDataRules)
  {
    RecordedPaths(c, paths, a, b);
    if paths != [] {
      assert paths[0] in paths && DiffersAt(c, paths[0], a, b);
    }
  }

  // ---------------------------------------------------------------- the plan of an update

  function TagPart(desired: FileSystemSpec, latest: FileSystemSpec, id: Option<string>, paths: seq<Path>): seq<Call> {
    if DifferentAt(paths, TAGS) then TagPlan(ToMap(latest.tags), ToMap(desired.tags), id) else []
  }

  function PolicyPart(desired: FileSystemSpec, id: Option<string>, paths: seq<Path>): seq<Call> {
    if !DifferentAt(paths, POLICY) then []
    else [PolicyCall(desired.policy, id)]
  }

  function PolicyCall(policy: Option<string>, id: Option<string>): Call {
    if policy.Some? && policy.value != "" then PutFileSystemPolicy(id, policy.value) else DeleteFileSystemPolicy(id)
  }

  /** The policy there is when the call has taken effect. */
  function Written(policy: Option<string>): Option<string> {
    if policy == Some("") then None else policy
  }

  predicate RulesChanged(paths: seq<Path>) {
    DifferentAt(paths, IMPORT_RULES) || DifferentAt(paths, EXPIRATION_RULES)
  }

  function RulesPart(desired: FileSystemSpec, latest: FileSystemStatus, paths: seq<Path>): seq<Call> {
    if RulesChanged(paths) && (desired.importDataRules.Some? || desired.expirationDataRules.Some?)
    then [PutSynchronizationConfiguration(latest.fileSystemID, SentVersion(latest.latestVersionNumber),
            SentConfiguration(desired))]
    else []
  }

  predicate SubResourceChanged(paths: seq<Path>) {
    DifferentAt(paths, POLICY) || RulesChanged(paths)
  }

  predicate Ready(latest: FileSystemStatus) {
    latest.state.None? || latest.state.value == AVAILABLE
  }

  /** The calls of an update in which nothing fails. */
  function UpdatePlan(desired: FileSystemSpec, latest: FileSystemSpec, status: FileSystemStatus,
          paths: seq<Path>): seq<Call> {
    TagPart(desired, latest, status.fileSystemID, paths) + GuardedPart(desired, status, paths)
  }

  /** Sub-resources are to change but the file system is in transition: the update ends with a request to be tried
      again. */
  predicate Postponed(status: FileSystemStatus, paths: seq<Path>) {
    SubResourceChanged(paths) && !Ready(status)
  }

  function RequeueError(state: string): Error {
    Error(None, "", false, false, "FileSystem is in state '" + state + "', cannot update sub-resources")
  }

  /** How an update ends whose calls ended with `error`. */
  function UpdateError(error: Option<Error>, status: FileSystemStatus, paths: seq<Path>): Option<Error> {
    if error.None? && Postponed(status, paths) then Some(RequeueError(status.state.value)) else error
  }

  /** What an update does behind its guard. */
  function GuardedPart(desired: FileSystemSpec, status: FileSystemStatus, paths: seq<Path>): seq<Call> {
    if Ready(status) then PolicyPart(desired, status.fileSystemID, paths) + RulesPart(desired, status, paths) else []
  }

  // ---------------------------------------------------------------- the code

  method CustomUpdateFileSystem(desired: FileSystem, latest: FileSystem, delta: Delta, sdkapi: Client)
    returns (res: FileSystem?, err: Option<Error>)
    modifies sdkapi
    ensures var plan := UpdatePlan(desired.spec, latest.spec, latest.status, delta.paths);
            var run := Execute(old(sdkapi.state), plan, sdkapi.outcomes, |old(sdkapi.log)|);
            && Follows(plan, sdkapi.outcomes, old(sdkapi.state), old(sdkapi.log), sdkapi.state, sdkapi.log, run.error)
            && err == UpdateError(run.error, latest.status, delta.paths)
    ensures res == if err.None? then desired else null
  {
    var id := latest.status.fileSystemID;
    ghost var tagPart := TagPart(desired.spec, latest.spec, id, delta.paths);
    ghost var rest := GuardedPart(desired.spec, latest.status, delta.paths);
    if DifferentAt(delta.paths, TAGS) {
      err := TagSync.Tags(desired.spec.tags, latest.spec.tags, id, sdkapi);
      if err.Some? {
        FollowsFirstPart(tagPart, rest, sdkapi.outcomes, old(sdkapi.state), old(sdkapi.log), sdkapi.state,
                sdkapi.log, err);
        return null, err;
      }
    }
    ghost var state1, log1 := sdkapi.state, sdkapi.log;
    assert Follows(tagPart, sdkapi.outcomes, old(sdkapi.state), old(sdkapi.log), state1, log1, None);

    var subResourceChanged := DifferentAt(delta.paths, POLICY)
                              || DifferentAt(delta.paths, IMPORT_RULES)
                              || DifferentAt(delta.paths, EXPIRATION_RULES);
    if !subResourceChanged {
      FollowsBothParts(tagPart, rest, sdkapi.outcomes, old(sdkapi.state), old(sdkapi.log), state1, log1, state1,
              log1, None);
      return desired, None;
    }
    if latest.status.state.Some? {
      if latest.status.state.value != AVAILABLE {
        FollowsBothParts(tagPart, rest, sdkapi.outcomes, old(sdkapi.state), old(sdkapi.log), state1, log1, state1,
                log1, None);
        return null, Some(RequeueError(latest.status.state.value));
      }
    }
    err := UpdateSubResources(desired, latest, delta, sdkapi);
    FollowsBothParts(tagPart, rest, sdkapi.outcomes, old(sdkapi.state), old(sdkapi.log), state1, log1, sdkapi.state,
            sdkapi.log, err);
    return if err.None? then desired else null, err;
  }

  /** The part of the update behind the guard. */
  method UpdateSubResources(desired: FileSystem, latest: FileSystem, delta: Delta, sdkapi: Client)
    returns (err: Option<Error>)
    modifies sdkapi
    ensures Follows(PolicyPart(desired.spec, latest.status.fileSystemID, delta.paths)
                    + RulesPart(desired.spec, latest.status, delta.paths),
                    sdkapi.outcomes, old(sdkapi.state), old(sdkapi.log), sdkapi.state, sdkapi.log, err)
  {
    ghost var policyPart := PolicyPart(desired.spec, latest.status.fileSystemID, delta.paths);
    ghost var rulesPart := RulesPart(desired.spec, latest.status, delta.paths);
    err := UpdatePolicy(desired, latest, delta, sdkapi);
    if err.Some? {
      FollowsFirstPart(policyPart, rulesPart, sdkapi.outcomes, old(sdkapi.state), old(sdkapi.log), sdkapi.state,
              sdkapi.log, err);
      return;
    }
    ghost var state1, log1 := sdkapi.state, sdkapi.log;
    err := UpdateRules(desired, latest, delta, sdkapi);
    FollowsBothParts(policyPart, rulesPart, sdkapi.outcomes, old(sdkapi.state), old(sdkapi.log), state1, log1,
            sdkapi.state, sdkapi.log, err);
  }

  method UpdatePolicy(desired: FileSystem, latest: FileSystem, delta: Delta, sdkapi: Client)
    returns (err: Option<Error>)
    modifies sdkapi
    ensures Follows(PolicyPart(desired.spec, latest.status.fileSystemID, delta.paths),
                    sdkapi.outcomes, old(sdkapi.state), old(sdkapi.log), sdkapi.state, sdkapi.log, err)
  {
    if DifferentAt(delta.paths, POLICY) {
      var desiredPolicy := "";
      if desired.spec.policy.Some? {
        desiredPolicy := desired.spec.policy.value;
      }
      ExecuteOne(sdkapi.state, PolicyCall(desired.spec.policy, latest.status.fileSystemID), sdkapi.outcomes,
              |sdkapi.log|);
      if desiredPolicy != "" {
        err := sdkapi.Invoke(PutFileSystemPolicy(latest.status.fileSystemID, desiredPolicy));
        if err.Some? {
          return;
        }
      } else {
        err := sdkapi.Invoke(DeleteFileSystemPolicy(latest.status.fileSystemID));
        if err.Some? {
          if err.value.apiCode == Some(NOT_FOUND) {
            // No policy exists: as good as deleted.
          } else {
            return;
          }
        }
      }
    }
    return None;
  }

  method UpdateRules(desired: FileSystem, latest: FileSystem, delta: Delta, sdkapi: Client) returns (err: Option<Error>)
    modifies sdkapi
    ensures Follows(RulesPart(desired.spec, latest.status, delta.paths),
                    sdkapi.outcomes, old(sdkapi.state), old(sdkapi.log), sdkapi.state, sdkapi.log, err)
  {
    if DifferentAt(delta.paths, IMPORT_RULES) || DifferentAt(delta.paths, EXPIRATION_RULES) {
      if desired.spec.importDataRules.Some? || desired.spec.expirationDataRules.Some? {
        var putInput := BuildPutInput(desired.spec, latest.status);
        FollowsOne(putInput, sdkapi.outcomes, sdkapi.state, sdkapi.log);
        err := sdkapi.Invoke(putInput);
        if err.Some? {
          return;
        }
      }
    }
    return None;
  }

  // ---------------------------------------------------------------- properties of every update

  predicate IsTagCall(c: Call) {
    c.TagResource? || c.UntagResource?
  }

  /** The calls an update makes, whatever fails. */
  function CallsMade(desired: FileSystemSpec, latest: FileSystemSpec, status: FileSystemStatus, paths: seq<Path>,
                     s: Remote, outcomes: nat -> Outcome, at: nat): seq<Call> {
    var plan := UpdatePlan(desired, latest, status, paths);
    plan[..Execute(s, plan, outcomes, at).made]
  }

  /** Whatever fails, the calls are a prefix of those of the run in which nothing fails. */
  lemma CallsArePrefixOfSuccess(desired: FileSystemSpec, latest: FileSystemSpec, status: FileSystemStatus,
                                paths: seq<Path>, s: Remote, outcomes: nat -> Outcome, at: nat)
    ensures CallsMade(desired, latest, status, paths, s, outcomes, at)
            <= CallsMade(desired, latest, status, paths, s, n => Succeeds, at)
            == UpdatePlan(desired, latest, status, paths)
  {
    var plan := UpdatePlan(desired, latest, status, paths);
    ExecuteStopsAtFirstFatal(s, plan, n => Succeeds, at);
  }

  /** What each planned call is there for, and what it says. A write of the configuration comes last. */
  lemma WhyACallIsPlanned(desired: FileSystemSpec, latest: FileSystemSpec, status: FileSystemStatus, paths: seq<Path>,
                          i: nat)
    requires i < |UpdatePlan(desired, latest, status, paths)|
    ensures var call := UpdatePlan(desired, latest, status, paths)[i];
            && call.id == status.fileSystemID
            && (call.TagResource? || call.UntagResource? ==> DifferentAt(paths, [Component.Spec, Component.Tags]))
            && (call.PutFileSystemPolicy? || call.DeleteFileSystemPolicy? ==>
                  && DifferentAt(paths, [Component.Spec, Component.Policy])
                  && (status.state == None || status.state == Some("available")))
            && (call.PutFileSystemPolicy? ==> desired.policy == Some(call.policy) && call.policy != "")
            && (call.DeleteFileSystemPolicy? ==> desired.policy == None || desired.policy == Some(""))
            && (call.PutSynchronizationConfiguration? ==>
                  && i == |UpdatePlan(desired, latest, status, paths)| - 1
                  && (DifferentAt(paths, [Component.Spec, Component.ImportDataRules])
                      || DifferentAt(paths, [Component.Spec, Component.ExpirationDataRules]))
                  && (status.state == None || status.state == Some("available"))
                  && (desired.importDataRules.Some? || desired.expirationDataRules.Some?)
                  && call.version == SentVersion(status.latestVersionNumber)
                  && call.config == SentConfiguration(desired))
  {
  }

  /** Tag calls come before all others, and other calls are made only when the latest state is nil or
      "available". */
  lemma TagCallsFirstAndGuarded(desired: FileSystemSpec, latest: FileSystemSpec, status: FileSystemStatus,
                                paths: seq<Path>, s: Remote, outcomes: nat -> Outcome, at: nat)
    ensures var calls := CallsMade(desired, latest, status, paths, s, outcomes, at);
            && (forall i, j :: 0 <= i < j < |calls| && IsTagCall(calls[j]) ==> IsTagCall(calls[i]))
            && (forall i :: 0 <= i < |calls| && !calls[i].TagResource? && !calls[i].UntagResource? ==>
                  status.state == None || status.state == Some("available"))
            && (forall i :: 0 <= i < |calls| ==> calls[i].id == status.fileSystemID)
  {
    var tagPart, guarded := TagPart(desired, latest, status.fileSystemID, paths), GuardedPart(desired, status, paths);
    assert forall i :: 0 <= i < |tagPart| ==> IsTagCall(tagPart[i]) && tagPart[i].id == status.fileSystemID;
    assert forall i :: 0 <= i < |guarded| ==> !IsTagCall(guarded[i]) && guarded[i].id == status.fileSystemID;
    assert guarded != [] ==> status.state == None || status.state == Some("available");
  }

  /** In state nil or "available", if no call fails, every recorded difference is acted on and there is no error. */
  lemma AvailableIsUpdated(desired: FileSystemSpec, latest: FileSystemSpec, status: FileSystemStatus,
                           paths: seq<Path>, s: Remote, outcomes: nat -> Outcome, at: nat)
    requires status.state == None || status.state == Some("available")
    requires forall n :: at <= n < at + |UpdatePlan(desired, latest, status, paths)| ==> outcomes(n).Succeeds?
    ensures var calls := CallsMade(desired, latest, status, paths, s, outcomes, at);
            var error := Execute(s, UpdatePlan(desired, latest, status, paths), outcomes, at).error;
            && UpdateError(error, status, paths).None?
            && (DifferentAt(paths, [Component.Spec, Component.Policy]) ==>
                  if desired.policy == None || desired.policy == Some("")
                  then DeleteFileSystemPolicy(status.fileSystemID) in calls
                  else PutFileSystemPolicy(status.fileSystemID, desired.policy.value) in calls)
            && ((DifferentAt(paths, [Component.Spec, Component.ImportDataRules])
                 || DifferentAt(paths, [Component.Spec, Component.ExpirationDataRules]))
                && (desired.importDataRules.Some? || desired.expirationDataRules.Some?) ==>
                  PutSynchronizationConfiguration(status.fileSystemID, SentVersion(status.latestVersionNumber),
                                                  SentConfiguration(desired)) in calls)
  {
    var plan := UpdatePlan(desired, latest, status, paths);
    ExecuteStopsAtFirstFatal(s, plan, outcomes, at);
    assert CallsMade(desired, latest, status, paths, s, outcomes, at) == plan;
    var tagPart, id := TagPart(desired, latest, status.fileSystemID, paths), status.fileSystemID;
    assert plan == tagPart + (PolicyPart(desired, id, paths) + RulesPart(desired, status, paths));
  }

  /** A call that fails, unless it is a policy deletion that finds no policy, is the last one, and its error
      is returned. */
  lemma FirstFailureIsReturned(desired: FileSystemSpec, latest: FileSystemSpec, status: FileSystemStatus,
                               paths: seq<Path>, s: Remote, outcomes: nat -> Outcome, at: nat, i: nat)
    requires var plan := UpdatePlan(desired, latest, status, paths);
             && i < Execute(s, plan, outcomes, at).made && outcomes(at + i).Fails?
             && !(plan[i].DeleteFileSystemPolicy?
                  && outcomes(at + i).error.apiCode == Some("ResourceNotFoundException"))
    ensures i == |CallsMade(desired, latest, status, paths, s, outcomes, at)| - 1
    ensures var error := Execute(s, UpdatePlan(desired, latest, status, paths), outcomes, at).error;
            UpdateError(error, status, paths) == Some(outcomes(at + i).error)
  {
    FailureEndsRun(s, UpdatePlan(desired, latest, status, paths), outcomes, at, i);
  }

  /** In any other state an update that is to change the policy or the rules makes tag calls only and ends with
      an error: that of the last tag call if it failed, and otherwise one that is neither a validation nor a
      secret nor a terminal error. */
  lemma TransitionPostpones(desired: FileSystemSpec, latest: FileSystemSpec, status: FileSystemStatus,
                            paths: seq<Path>, s: Remote, outcomes: nat -> Outcome, at: nat)
    requires status.state.Some? && status.state.value != "available"
    requires || DifferentAt(paths, [Component.Spec, Component.Policy])
             || DifferentAt(paths, [Component.Spec, Component.ImportDataRules])
             || DifferentAt(paths, [Component.Spec, Component.ExpirationDataRules])
    ensures var calls := CallsMade(desired, latest, status, paths, s, outcomes, at);
            var error := Execute(s, UpdatePlan(desired, latest, status, paths), outcomes, at).error;
            var e := UpdateError(error, status, paths);
            && (forall i :: 0 <= i < |calls| ==> calls[i].TagResource? || calls[i].UntagResource?)
            && e.Some?
            && if calls != [] && outcomes(at + |calls| - 1).Fails? then e == Some(outcomes(at + |calls| - 1).error)
               else e.value.apiCode.None? && !e.value.isSecretError && !e.value.hasTerminalError
  {
    var plan := UpdatePlan(desired, latest, status, paths);
    var calls := CallsMade(desired, latest, status, paths, s, outcomes, at);
    ExecuteStopsAtFirstFatal(s, plan, outcomes, at);
    TagCallsFirstAndGuarded(desired, latest, status, paths, s, outcomes, at);
    if calls != [] && outcomes(at + |calls| - 1).Fails? {
      FirstFailureIsReturned(desired, latest, status, paths, s, outcomes, at, |calls| - 1);
    }
  }

  lemma DeletionInPlan(desired: FileSystemSpec, latest: FileSystemSpec, status: FileSystemStatus, paths: seq<Path>,
          i: nat)
    requires var plan := UpdatePlan(desired, latest, status, paths); i < |plan| && plan[i].DeleteFileSystemPolicy?
    ensures var plan := UpdatePlan(desired, latest, status, paths);
            |plan| <= i + 2 && (i + 1 < |plan| ==> plan[i + 1].PutSynchronizationConfiguration?)
  {
  }

  /** A policy deletion that finds no policy does not end the update: the rules are still written. */
  lemma NotFoundOnDeleteGoesOn(desired: FileSystemSpec, latest: FileSystemSpec, status: FileSystemStatus,
                               paths: seq<Path>, s: Remote, outcomes: nat -> Outcome, at: nat, i: nat)
    requires var plan := UpdatePlan(desired, latest, status, paths);
             && i < |plan| && plan[i].DeleteFileSystemPolicy?
             && Execute(s, plan, outcomes, at).made > i
             && outcomes(at + i).Fails? && IsNotFound(outcomes(at + i).error)
    ensures var plan := UpdatePlan(desired, latest, status, paths);
            var run := Execute(s, plan, outcomes, at);
            && run.made == |plan|
            && (i + 1 < |plan| ==>
                  && run.error == ErrorOf(outcomes(at + i + 1))
                  && plan[i + 1].PutSynchronizationConfiguration?)
            && (i + 1 == |plan| ==> run.error.None?)
  {
    var plan := UpdatePlan(desired, latest, status, paths);
    DeletionInPlan(desired, latest, status, paths, i);
    ExecutePast(s, plan, outcomes, at, i);
    if i + 1 < |plan| {
      assert plan[i + 1..] == [plan[i + 1]];
      ExecuteOne(Effect(Execute(s, plan[..i], outcomes, at).state, plan[i], outcomes(at + i)), plan[i + 1], outcomes,
              at + i + 1);
    } else {
      assert plan[i + 1..] == [];
    }
  }

  /** Driven by the controller's own delta, no update ever writes the synchronization configuration,
      whatever rules the user asks for. */
  lemma OwnDeltaNeverWritesRules(c: Comparison, desired: FileSystemSpec, latest: FileSystemSpec,
          status: FileSystemStatus, paths: seq<Path>)
    requires IsDelta(c, paths, desired, latest)
    ensures forall i :: 0 <= i < |UpdatePlan(desired, latest, status, paths)|
                        ==> !UpdatePlan(desired, latest, status, paths)[i].PutSynchronizationConfiguration?
  {
    OwnDeltaSeesPolicyAndTagsOnly(c, paths, desired, latest);
  }

  // ---------------------------------------------------------------- convergence

  /** Written and read back, this desired policy compares equal to itself. */
  predicate PolicySettles(c: Comparison, desired: Option<string>) {
    match desired
    case None => true
    case Some(p) => if p == "" then c.blank(p) else c.policyEqual(p, p)
  }

  predicate FindsNoPolicy(c: Call, o: Outcome) {
    c.DeleteFileSystemPolicy? && o.Fails? && IsNotFound(o.error)
  }

  /** A deletion in the plan is answered "not found" only if there is no policy. */
  ghost predicate NotFoundMeansNone(s: Remote, plan: seq<Call>, outcomes: nat -> Outcome, at: nat) {
    forall i :: 0 <= i < |plan| && FindsNoPolicy(plan[i], outcomes(at + i)) ==> s.policy.None?
  }

  function PolicyStep(c: Comparison, policy: Option<string>, s: Remote, id: Option<string>): seq<Call> {
    if PolicyDiffers(c, policy, s.policy) then [PolicyCall(policy, id)] else []
  }

  /** The calls that `s` needs to get the tags and, unless it is in transition, the policy. */
  function NeededCalls(c: Comparison, tags: map<string, string>, policy: Option<string>, s: Remote,
          status: FileSystemStatus): seq<Call> {
    TagPlan(s.tags, tags, status.fileSystemID)
    + if Ready(status) then PolicyStep(c, policy, s, status.fileSystemID) else []
  }

  /** Driven by the own delta against what was read from `s`, an update plans exactly these calls. */
  lemma OwnPlanIsWhatIsNeeded(c: Comparison, desired: FileSystemSpec, latest: FileSystemSpec,
                              status: FileSystemStatus, paths: seq<Path>, s: Remote)
    requires IsDelta(c, paths, desired, latest) && ToMap(latest.tags) == s.tags && latest.policy == s.policy
    ensures UpdatePlan(desired, latest, status, paths)
            == NeededCalls(c, ToMap(desired.tags), desired.policy, s, status)
    ensures Postponed(status, paths) <==> PolicyDiffers(c, desired.policy, s.policy) && !Ready(status)
  {
    OwnDeltaSeesPolicyAndTagsOnly(c, paths, desired, latest);
    NoCallIffEqual(s.tags, ToMap(desired.tags), status.fileSystemID);
    var policyPart := PolicyPart(desired, status.fileSystemID, paths);
    assert policyPart + [] == policyPart;
  }

  lemma PolicyCallConverges(c: Comparison, policy: Option<string>, id: Option<string>, s: Remote, o: Outcome)
    requires PolicyDiffers(c, policy, s.policy) && !Fatal(PolicyCall(policy, id), o)
    requires FindsNoPolicy(PolicyCall(policy, id), o) ==> s.policy.None?
    ensures var s1 := Effect(s, PolicyCall(policy, id), o);
            && s1 == s.(policy := Written(policy))
            && (PolicyDiffers(c, policy, s1.policy) <==> !PolicySettles(c, policy))
  {
  }

  /** A policy that is written is the desired one, nil for "", and differs from it exactly if the
      desired one does not settle. */
  lemma PolicyStepConverges(c: Comparison, policy: Option<string>, id: Option<string>, s: Remote,
                            outcomes: nat -> Outcome, at: nat)
    requires Execute(s, PolicyStep(c, policy, s, id), outcomes, at).error.None?
    requires NotFoundMeansNone(s, PolicyStep(c, policy, s, id), outcomes, at)
    ensures var s1 := Execute(s, PolicyStep(c, policy, s, id), outcomes, at).state;
            && s1 == s.(policy := if PolicyDiffers(c, policy, s.policy) then Written(policy) else s.policy)
            && (PolicyDiffers(c, policy, s1.policy) <==>
                  PolicyDiffers(c, policy, s.policy) && !PolicySettles(c, policy))
  {
    if PolicyDiffers(c, policy, s.policy) {
      var call := PolicyCall(policy, id);
      ExecuteOne(s, call, outcomes, at);
      assert PolicyStep(c, policy, s, id)[0] == call;
      PolicyCallConverges(c, policy, id, s, outcomes(at));
    }
  }

  lemma PolicyStepKeepsTags(c: Comparison, policy: Option<string>, id: Option<string>, s: Remote,
                            outcomes: nat -> Outcome, at: nat)
    ensures var s1 := Execute(s, PolicyStep(c, policy, s, id), outcomes, at).state;
            s1.tags == s.tags && (s1.policy == s.policy || s1.policy == Written(policy))
  {
    ExecuteOne(s, PolicyCall(policy, id), outcomes, at);
  }

  lemma NotFoundInSecondPart(s: Remote, s1: Remote, p: seq<Call>, q: seq<Call>, outcomes: nat -> Outcome, at: nat)
    requires NotFoundMeansNone(s, p + q, outcomes, at) && s1.policy == s.policy
    ensures NotFoundMeansNone(s1, q, outcomes, at + |p|)
  {
    forall i | 0 <= i < |q| && FindsNoPolicy(q[i], outcomes(at + |p| + i)) ensures s1.policy.None? {
      assert (p + q)[|p| + i] == q[i];
    }
  }

  lemma SecondPartConverges(c: Comparison, policy: Option<string>, id: Option<string>, s: Remote, s1: Remote,
                            tagPart: seq<Call>, outcomes: nat -> Outcome, at: nat)
    requires s1.policy == s.policy
    requires Execute(s1, PolicyStep(c, policy, s, id), outcomes, at + |tagPart|).error.None?
    ensures var s' := Execute(s1, PolicyStep(c, policy, s, id), outcomes, at + |tagPart|).state;
            Converged(c, policy, s, s1.tags, tagPart + PolicyStep(c, policy, s, id), outcomes, at, s')
  {
    var policyPart := PolicyStep(c, policy, s, id);
    assert policyPart == PolicyStep(c, policy, s1, id);
    PolicyStepKeepsTags(c, policy, id, s1, outcomes, at + |tagPart|);
    if NotFoundMeansNone(s, tagPart + policyPart, outcomes, at) {
      NotFoundInSecondPart(s, s1, tagPart, policyPart, outcomes, at);
      PolicyStepConverges(c, policy, id, s1, outcomes, at + |tagPart|);
    }
  }

  /** `s'` has the tags, and the policy as it was or as desired; as desired if it was not and no deletion
      is answered "not found" wrongly, and then it differs exactly if the desired one does not settle. */
  ghost predicate Converged(c: Comparison, policy: Option<string>, s: Remote, tags: map<string, string>,
                            plan: seq<Call>, outcomes: nat -> Outcome, at: nat, s': Remote) {
    && s'.tags == tags
    && (s'.policy == s.policy || s'.policy == Written(policy))
    && (NotFoundMeansNone(s, plan, outcomes, at) ==>
          && s'.policy == (if PolicyDiffers(c, policy, s.policy) then Written(policy) else s.policy)
          && (PolicyDiffers(c, policy, s'.policy) <==>
                PolicyDiffers(c, policy, s.policy) && !PolicySettles(c, policy)))
  }

  lemma NeededCallsConverge(c: Comparison, tags: map<string, string>, policy: Option<string>, s: Remote,
                            status: FileSystemStatus, outcomes: nat -> Outcome, at: nat)
    requires Ready(status) || !PolicyDiffers(c, policy, s.policy)
    requires Execute(s, NeededCalls(c, tags, policy, s, status), outcomes, at).error.None?
    ensures var plan := NeededCalls(c, tags, policy, s, status);
            Converged(c, policy, s, tags, plan, outcomes, at, Execute(s, plan, outcomes, at).state)
  {
    var id := status.fileSystemID;
    var tagPart, policyPart := TagPlan(s.tags, tags, id), PolicyStep(c, policy, s, id);
    ExecuteInParts(s, tagPart, policyPart, outcomes, at);
    SuccessfulSyncConverges(s, tags, id, outcomes, at);
    SecondPartConverges(c, policy, id, s, s.(tags := tags), tagPart, outcomes, at);
  }

  /** After an update without error, driven by the controller's own delta against what was read from
      `s`, the tags agree; and the policies agree exactly when they did before or the desired one
      settles, unless a deletion is answered "not found" although there is a policy. A desired policy
      that is nil, or non-empty and equal to itself, settles. */
  lemma SuccessfulUpdateConverges(c: Comparison, desired: FileSystemSpec, latest: FileSystemSpec,
                                  status: FileSystemStatus, paths: seq<Path>, s: Remote,
                                  outcomes: nat -> Outcome, at: nat)
    requires IsDelta(c, paths, desired, latest)
    requires ToMap(latest.tags) == s.tags && latest.policy == s.policy
    requires var error := Execute(s, UpdatePlan(desired, latest, status, paths), outcomes, at).error;
             UpdateError(error, status, paths).None?
    ensures var plan := UpdatePlan(desired, latest, status, paths);
            var s' := Execute(s, plan, outcomes, at).state;
            && s'.tags == ToMap(desired.tags)
            && (NotFoundMeansNone(s, plan, outcomes, at) ==>
                  (PolicyDiffers(c, desired.policy, s'.policy) <==>
                     PolicyDiffers(c, desired.policy, s.policy) && !PolicySettles(c, desired.policy)))
  {
    OwnPlanIsWhatIsNeeded(c, desired, latest, status, paths, s);
    NeededCallsConverge(c, ToMap(desired.tags), desired.policy, s, status, outcomes, at);
  }
}
