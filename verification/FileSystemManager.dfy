/** Reading and updating a FileSystem through its manager: the post-read part of `sdkFind`, the
    `ReadOne` and `Update` wrappers, and one reconcile made of them. */
module FileSystemManager {
  import opened Nilable
  import opened AckTypes
  import opened OrderedTags
  import opened Service
  import opened TagSync
  import opened FileSystems
  import opened SyncRules
  import Deltas
  import opened FileSystemUpdate
  import opened Conditions
  import opened TagManager

  /** The output of GetFileSystem. */
  datatype FileSystemOutput = FileSystemOutput(
    bucket: Option<string>, kmsKeyId: Option<string>, prefix: Option<string>, roleArn: Option<string>,
    creationTime: Option<Time>, fileSystemArn: Option<string>, fileSystemId: Option<string>,
    name: Option<string>, ownerId: Option<string>,
    status: string, statusMessage: Option<string>, tags: seq<Tag>)

  /** The answers to the three read calls. */
  datatype Answers = Answers(
    fileSystem: Response<FileSystemOutput>,
    policy: Response<Option<string>>,
    sync: Response<SyncOutput>)

  const NOT_FOUND_ERROR := Error(None, "", false, false, "resource not found")

  // ---------------------------------------------------------------- specification

  /** The error of a read, if any. */
  function ReadError(id: Option<string>, a: Answers): Option<Error> {
    if id.None? then Some(NOT_FOUND_ERROR)
    else if a.fileSystem.Err? then
      Some(if IsNotFound(a.fileSystem.error) then NOT_FOUND_ERROR else a.fileSystem.error)
    else if a.fileSystem.value.fileSystemId.None? then None
    else if a.policy.Err? && !MeansAbsent(a.policy.error) then Some(a.policy.error)
    else if a.sync.Err? && !MeansAbsent(a.sync.error) then Some(a.sync.error)
    else None
  }

  function PolicyRead(out: FileSystemOutput, a: Answers): Option<string> {
    if out.fileSystemId.Some? && a.policy.Ok? then a.policy.value else None
  }

  function RulesRead(out: FileSystemOutput, a: Answers): Fetched {
    if out.fileSystemId.Some? && a.sync.Ok? then ReadBack(a.sync.value) else NOTHING_FETCHED
  }

  function SpecRead(spec: FileSystemSpec, out: FileSystemOutput, a: Answers): FileSystemSpec {
    spec.(bucket := out.bucket, kmsKeyID := out.kmsKeyId, prefix := out.prefix, roleARN := out.roleArn,
          tags := out.tags, policy := PolicyRead(out, a),
          importDataRules := RulesRead(out, a).imports, expirationDataRules := RulesRead(out, a).expirations)
  }

  function StateOf(out: FileSystemOutput): Option<string> {
    if out.status != "" then Some(out.status) else None
  }

  function OutputStatus(status: FileSystemStatus, out: FileSystemOutput): FileSystemStatus {
    var m := if status.metadata.Some? then status.metadata.value else NO_METADATA;
    status.(metadata := Some(if out.fileSystemArn.Some? then m.(arn := out.fileSystemArn) else m),
            creationTime := out.creationTime, fileSystemID := out.fileSystemId, name := out.name,
            ownerID := out.ownerId, state := StateOf(out), statusMessage := out.statusMessage)
  }

  function StatusRead(rm: ManagerIdentity, status: FileSystemStatus, out: FileSystemOutput,
          a: Answers): FileSystemStatus {
    Defaulted(rm, OutputStatus(status, out)).(latestVersionNumber := RulesRead(out, a).version)
  }

  /** What the read hook does to Terminal: True with the service's message in state "error", else False. */
  function StateHook(state: Option<string>, message: Option<string>): (ConditionStatus, Option<string>) {
    if state == Some(ERROR) then (True, Some(if message.Some? then message.value else "FileSystem is in error state"))
    else (False, None)
  }

  function ReadHook(out: FileSystemOutput): (ConditionStatus, Option<string>) {
    StateHook(StateOf(out), out.statusMessage)
  }

  // ---------------------------------------------------------------- what a read reports

  /** A read succeeds exactly if the file system is found, and if its policy and its configuration are either
      answered or missing: there is none, or the file system is not in a state to have one. */
  lemma WhenReadSucceeds(id: Option<string>, a: Answers)
    ensures ReadError(id, a).None? <==>
              && id.Some? && a.fileSystem.Ok?
              && (a.fileSystem.value.fileSystemId.Some? ==>
                    && (a.policy.Ok? || a.policy.error.apiCode == Some("ResourceNotFoundException")
                        || a.policy.error.apiCode == Some("ValidationException"))
                    && (a.sync.Ok? || a.sync.error.apiCode == Some("ResourceNotFoundException")
                        || a.sync.error.apiCode == Some("ValidationException")))
    ensures id.None? || (a.fileSystem.Err? && a.fileSystem.error.apiCode == Some("ResourceNotFoundException")) ==>
              ReadError(id, a) == Some(NOT_FOUND_ERROR)
    ensures id.Some? && a.fileSystem.Err? && a.fileSystem.error.apiCode != Some("ResourceNotFoundException") ==>
              ReadError(id, a) == Some(a.fileSystem.error)
    ensures id.Some? && a.fileSystem.Ok? && ReadError(id, a).Some? ==>
              || (a.policy.Err? && ReadError(id, a) == Some(a.policy.error))
              || (a.policy.Ok? && a.sync.Err? && ReadError(id, a) == Some(a.sync.error))
              || (a.policy.Err? && a.sync.Err? && ReadError(id, a) == Some(a.sync.error)
                  && (a.policy.error.apiCode == Some("ResourceNotFoundException")
                      || a.policy.error.apiCode == Some("ValidationException")))
  {
  }

  /** The status after a read shows what was answered; an empty state is nil, a known ARN stays if none is
      answered, and the version number is that of the configuration, nil if it was not answered. */
  lemma StatusShowsTheAnswer(rm: ManagerIdentity, status: FileSystemStatus, out: FileSystemOutput, a: Answers)
    ensures var r := StatusRead(rm, status, out, a);
            && (r.state.None? <==> out.status == "") && (r.state.Some? ==> r.state.value == out.status)
            && r.statusMessage == out.statusMessage
            && r.name == out.name && r.ownerID == out.ownerId && r.creationTime == out.creationTime
            && r.fileSystemID == out.fileSystemId
            && r.metadata.Some?
            && r.metadata.value.arn == (if out.fileSystemArn.Some? then out.fileSystemArn
                                        else if status.metadata.Some? then status.metadata.value.arn else None)
            && (out.fileSystemId.None? || a.sync.Err? || a.sync.value.version.None? ==> r.latestVersionNumber.None?)
            && (out.fileSystemId.Some? && a.sync.Ok? && a.sync.value.version.Some? ==>
                  r.latestVersionNumber == Some(a.sync.value.version.value as int64))
  {
  }

  /** And the spec: what was answered, and of the rest the references as they were. */
  lemma SpecShowsTheAnswer(spec: FileSystemSpec, out: FileSystemOutput, a: Answers)
    ensures var r := SpecRead(spec, out, a);
            && r.bucket == out.bucket && r.kmsKeyID == out.kmsKeyId && r.prefix == out.prefix
            && r.roleARN == out.roleArn && r.tags == out.tags
            && r.bucketRef == spec.bucketRef && r.kmsKeyRef == spec.kmsKeyRef && r.roleRef == spec.roleRef
            && r.policy == (if out.fileSystemId.Some? && a.policy.Ok? then a.policy.value else None)
            && (out.fileSystemId.None? || a.sync.Err? ==> r.importDataRules.None? && r.expirationDataRules.None?)
            && (out.fileSystemId.Some? && a.sync.Ok? ==>
                  && (r.importDataRules.Some? <==> a.sync.value.config.imports.Some?)
                  && (r.expirationDataRules.Some? <==> a.sync.value.config.expirations.Some?))
  {
  }

  /** Only the state "error" makes a resource Terminal, with the message of the service if it gave one. */
  lemma ErrorStateIsShown(out: FileSystemOutput)
    ensures ReadHook(out).0 == if out.status == "error" then True else False
    ensures ReadHook(out).1 == if out.status != "error" then None
                               else if out.statusMessage.Some? then out.statusMessage
                               else Some("FileSystem is in error state")
  {
  }

  // ---------------------------------------------------------------- the code

  method SdkFind(rm: ManagerIdentity, r: FileSystem, a: Answers) returns (latest: FileSystem?, err: Option<Error>)
    ensures err == ReadError(r.status.fileSystemID, a)
    ensures latest == null <==> err.Some?
    ensures latest != null ==>
              && fresh(latest) && AllDistinct(latest.conditions) && (forall c :: c in latest.conditions ==> fresh(c))
              && latest.namespace == r.namespace
              && latest.spec == SpecRead(r.spec, a.fileSystem.value, a)
              && latest.status == StatusRead(rm, r.status, a.fileSystem.value, a)
              && Values(latest.conditions) ==
                 WithTerminal(Values(r.conditions),
                              ReadHook(a.fileSystem.value).0, ReadHook(a.fileSystem.value).1, None)
  {
    if r.status.fileSystemID.None? {
      return null, Some(NOT_FOUND_ERROR);
    }
    if a.fileSystem.Err? {
      if a.fileSystem.error.apiCode == Some(NOT_FOUND) {
        return null, Some(NOT_FOUND_ERROR);
      }
      return null, Some(a.fileSystem.error);
    }
    var ko := r.DeepCopy();
    SetFields(rm, ko, a.fileSystem.value);

    err := FetchSubResources(ko, a);
    if err.Some? {
      return null, err;
    }
    assert forall c :: c in ko.conditions ==> fresh(c);
    SetTerminalFromState(ko);
    return ko, None;
  }

  /** Reads policy and synchronization configuration into `ko`; `ko` is abandoned if that fails. */
  method FetchSubResources(ko: FileSystem, a: Answers) returns (err: Option<Error>)
    modifies ko`spec, ko`status
    ensures var id := old(ko.status).fileSystemID;
            err == if id.None? then None
                   else if a.policy.Err? && !MeansAbsent(a.policy.error) then Some(a.policy.error)
                   else if a.sync.Err? && !MeansAbsent(a.sync.error) then Some(a.sync.error)
                   else None
    ensures err.None? ==>
              var id := old(ko.status).fileSystemID;
              var rules := if id.Some? && a.sync.Ok? then ReadBack(a.sync.value) else NOTHING_FETCHED;
              && ko.spec == old(ko.spec).(policy := if id.Some? && a.policy.Ok? then a.policy.value else None,
                                          importDataRules := rules.imports, expirationDataRules := rules.expirations)
              && ko.status == old(ko.status).(latestVersionNumber := rules.version)
  {
    var policy, policyErr := FetchFileSystemPolicy(ko.status.fileSystemID, a.policy);
    if policyErr.Some? {
      return policyErr;
    }
    ko.spec := ko.spec.(policy := policy);

    var fetched, syncErr := FetchSynchronizationConfiguration(ko.status.fileSystemID, a.sync);
    if syncErr.Some? {
      return syncErr;
    }
    ko.spec := ko.spec.(importDataRules := fetched.imports, expirationDataRules := fetched.expirations);
    ko.status := ko.status.(latestVersionNumber := fetched.version);
    return None;
  }

  /** The fields that GetFileSystem answers, and the status defaults. */
  method SetFields(rm: ManagerIdentity, ko: FileSystem, resp: FileSystemOutput)
    modifies ko`spec, ko`status
    ensures ko.spec == old(ko.spec).(bucket := resp.bucket, kmsKeyID := resp.kmsKeyId, prefix := resp.prefix,
            roleARN := resp.roleArn, tags := resp.tags)
    ensures ko.status == Defaulted(rm, OutputStatus(old(ko.status), resp))
  {
    ko.spec := ko.spec.(bucket := resp.bucket, kmsKeyID := resp.kmsKeyId, prefix := resp.prefix,
            roleARN := resp.roleArn);
    ko.status := ko.status.(creationTime := resp.creationTime);
    if ko.status.metadata.None? {
      ko.status := ko.status.(metadata := Some(NO_METADATA));
    }
    if resp.fileSystemArn.Some? {
      ko.status := ko.status.(metadata := Some(ko.status.metadata.value.(arn := resp.fileSystemArn)));
    }
    ko.status := ko.status.(fileSystemID := resp.fileSystemId, name := resp.name, ownerID := resp.ownerId,
                            statusMessage := resp.statusMessage,
                            state := if resp.status != "" then Some(resp.status) else None);
    var tags := CopyTags(resp.tags);
    ko.spec := ko.spec.(tags := tags);
    SetStatusDefaults(rm, ko);
  }

  /** The hook at the end of the read: state "error" makes the resource Terminal. */
  method SetTerminalFromState(ko: FileSystem)
    requires AllDistinct(ko.conditions)
    modifies ko`conditions, ko.conditions
    ensures AllDistinct(ko.conditions) && forall c :: c in ko.conditions ==> c in old(ko.conditions) || fresh(c)
    ensures Values(ko.conditions) ==
            WithTerminal(old(Values(ko.conditions)), StateHook(ko.status.state, ko.status.statusMessage).0,
                         StateHook(ko.status.state, ko.status.statusMessage).1, None)
  {
    var cs := ko.conditions;
    if ko.status.state.Some? && ko.status.state.value == ERROR {
      var msg := "FileSystem is in error state";
      if ko.status.statusMessage.Some? {
        msg := ko.status.statusMessage.value;
      }
      cs := SetTerminal(cs, True, Some(msg), None);
    } else {
      cs := SetTerminal(cs, False, None, None);
    }
    ko.conditions := cs;
  }

  /** Besides reading, mirrors the AWS tags into the object it was given. */
  method ReadOne(rm: ManagerIdentity, r: FileSystem, a: Answers) returns (res: FileSystem?, ret: Returned)
    modifies r`spec
    ensures r.spec == old(r.spec).(tags := r.spec.tags)
    ensures var e := ReadError(old(r.status).fileSystemID, a);
            && res != null && fresh(res)
            && (e.Some? ==>
                  && ret == Reported(e, old(Values(r.conditions)))
                  && r.spec == old(r.spec)
                  && Values(res.conditions) == ConditionsAfter(old(Values(r.conditions)), OperationFails(e.value)))
            && (e.None? ==>
                  && ret == Passed(None)
                  && Mirrored(old(r.spec).tags, a.fileSystem.value.tags, r.spec.tags)
                  && res.spec == SpecRead(old(r.spec), a.fileSystem.value, a)
                  && Values(res.conditions) == ConditionsAfter(old(Values(r.conditions)),
                          OperationSucceeds(Some(ReadHook(a.fileSystem.value)))))
    ensures ReadError(old(r.status).fileSystemID, a).None? ==>
              res.status == StatusRead(rm, old(r.status), a.fileSystem.value, a)
  {
    var observed, err := FindAndMirror(rm, r, a);
    if observed != null {
      HookedIsReported(Values(r.conditions), ReadHook(a.fileSystem.value).0, ReadHook(a.fileSystem.value).1);
      DefaultedTwice(rm, r.status, a.fileSystem.value, a);
    }
    res, ret := Conclude(rm, r, observed, err);
  }

  method FindAndMirror(rm: ManagerIdentity, r: FileSystem, a: Answers)
    returns (observed: FileSystem?, err: Option<Error>)
    modifies r`spec
    ensures Values(r.conditions) == old(Values(r.conditions))
    ensures r.spec == old(r.spec).(tags := r.spec.tags)
    ensures err == ReadError(old(r.status).fileSystemID, a)
    ensures observed == null <==> err.Some?
    ensures observed == null ==> r.spec == old(r.spec)
    ensures observed != null ==>
              && fresh(observed)
              && Mirrored(old(r.spec).tags, a.fileSystem.value.tags, r.spec.tags)
              && observed.spec == SpecRead(old(r.spec), a.fileSystem.value, a)
              && observed.status == StatusRead(rm, old(r.status), a.fileSystem.value, a)
              && Values(observed.conditions) ==
                 WithTerminal(old(Values(r.conditions)),
                              ReadHook(a.fileSystem.value).0, ReadHook(a.fileSystem.value).1, None)
  {
    ghost var before := Values(r.conditions);
    observed, err := SdkFind(rm, r, a);
    ghost var hooked := if observed == null then [] else Values(observed.conditions);
    MirrorAWSTags(r, observed);
    assert Values(r.conditions) == before;
    assert observed != null ==> Values(observed.conditions) == hooked;
  }

  lemma HookedIsReported(cs: seq<ConditionValue>, status: ConditionStatus, message: Option<string>)
    ensures ReportsUpdate(WithTerminal(cs, status, message, None), None)
  {
    var i := FirstOf(cs, Terminal);
    assert WithTerminal(cs, status, message, None)[if i == -1 then |cs| else i].ctype == Terminal;
  }

  /** A file system in state "error" is made Terminal by the read hook, and shown as Terminal when
      ReadOne is done exactly if it had more than one Terminal condition. */
  lemma ErrorStateIsNotReported(cs: seq<ConditionValue>, out: FileSystemOutput)
    ensures out.status == "error" ==> Has(WithTerminal(cs, ReadHook(out).0, ReadHook(out).1, None), Terminal)
    ensures var after := ConditionsAfter(cs, OperationSucceeds(Some(ReadHook(out))));
            && (out.status == "error" ==> (Has(after, Terminal) <==> !AtMostOne(cs, Terminal)))
            && (AtMostOne(cs, Terminal) ==> !Has(after, Terminal))
  {
    var hooked := WithTerminal(cs, ReadHook(out).0, ReadHook(out).1, None);
    if out.status == ERROR {
      HookTerminalDoesNotSurviveSuccess(cs, ReadHook(out).1);
    } else if AtMostOne(cs, Terminal) {
      HookKeepsAtMostOne(cs, ReadHook(out).0, ReadHook(out).1, None, Terminal);
      TerminalAfterUpdate(hooked, None);
    }
  }

  lemma DefaultedTwice(rm: ManagerIdentity, status: FileSystemStatus, out: FileSystemOutput, a: Answers)
    ensures Defaulted(rm, StatusRead(rm, status, out, a)) == StatusRead(rm, status, out, a)
  {
  }

  method Update(rm: ManagerIdentity, desired: FileSystem, latest: FileSystem, delta: Deltas.Delta, sdkapi: Client)
    returns (res: FileSystem?, ret: Returned)
    modifies sdkapi
    ensures var plan := UpdatePlan(desired.spec, latest.spec, latest.status, delta.paths);
            var run := Execute(old(sdkapi.state), plan, sdkapi.outcomes, |old(sdkapi.log)|);
            var e := UpdateError(run.error, latest.status, delta.paths);
            && Follows(plan, sdkapi.outcomes, old(sdkapi.state), old(sdkapi.log), sdkapi.state, sdkapi.log, run.error)
            && res != null
            && (e.Some? ==>
                  && Values(res.conditions) == ConditionsAfter(Values(latest.conditions), OperationFails(e.value))
                  && ret == Reported(e, Values(latest.conditions)))
            && (e.None? ==>
                  && Values(res.conditions) == ConditionsAfter(Values(desired.conditions), OperationSucceeds(None))
                  && res.spec == desired.spec && ret == Passed(None))
  {
    var updated, err := CustomUpdateFileSystem(desired, latest, delta, sdkapi);
    res, ret := Conclude(rm, latest, updated, err);
  }

  // ---------------------------------------------------------------- one reconcile

  lemma {:induction false} OtherCallsKeepTags(s: Remote, plan: seq<Call>, outcomes: nat -> Outcome, at: nat)
    requires forall i :: 0 <= i < |plan| ==> !IsTagCall(plan[i])
    ensures Execute(s, plan, outcomes, at).state.tags == s.tags
    decreases |plan|
  {
    if plan != [] {
      OtherCallsKeepTags(Effect(s, plan[0], outcomes(at)), plan[1..], outcomes, at + 1);
    }
  }

  lemma TagPartStaysBetween(desired: FileSystemSpec, latest: FileSystemSpec, id: Option<string>,
                            paths: seq<Deltas.Path>, s: Remote, outcomes: nat -> Outcome, at: nat)
    ensures var run := Execute(s, TagPart(desired, latest, id, paths), outcomes, at);
            Between(s.tags, ToMap(desired.tags), run.state.tags)
  {
    if Deltas.DifferentAt(paths, TAGS) {
      WholeSyncStaysBetween(s, ToMap(latest.tags), ToMap(desired.tags), id, outcomes, at);
    }
  }

  lemma {:induction false} PolicyStaysBetween(policy: Option<string>, id: Option<string>, s: Remote, plan: seq<Call>,
                                              outcomes: nat -> Outcome, at: nat)
    requires forall i :: 0 <= i < |plan| && (plan[i].PutFileSystemPolicy? || plan[i].DeleteFileSystemPolicy?)
                         ==> plan[i] == PolicyCall(policy, id)
    ensures var now := Execute(s, plan, outcomes, at).state.policy; now == s.policy || now == Written(policy)
    decreases |plan|
  {
    if plan != [] {
      PolicyStaysBetween(policy, id, Effect(s, plan[0], outcomes(at)), plan[1..], outcomes, at + 1);
    }
  }

  lemma GuardedPartHasNoTagCall(desired: FileSystemSpec, status: FileSystemStatus, paths: seq<Deltas.Path>)
    ensures forall i :: 0 <= i < |GuardedPart(desired, status, paths)| ==>
              !IsTagCall(GuardedPart(desired, status, paths)[i])
  {
  }

  lemma TagsStayBetween(desired: FileSystemSpec, latest: FileSystemSpec, status: FileSystemStatus,
                        paths: seq<Deltas.Path>, s: Remote, outcomes: nat -> Outcome, at: nat)
    ensures var now := Execute(s, UpdatePlan(desired, latest, status, paths), outcomes, at).state;
            Between(s.tags, ToMap(desired.tags), now.tags)
  {
    var id := status.fileSystemID;
    var tagPart := TagPart(desired, latest, id, paths);
    var rest := GuardedPart(desired, status, paths);
    ExecuteInParts(s, tagPart, rest, outcomes, at);
    TagPartStaysBetween(desired, latest, id, paths, s, outcomes, at);
    GuardedPartHasNoTagCall(desired, status, paths);
    OtherCallsKeepTags(Execute(s, tagPart, outcomes, at).state, rest, outcomes, at + |tagPart|);
  }

  /** After an update, failed or not, every remote tag, and the policy, is as before or as desired. */
  lemma UpdateStaysBetween(desired: FileSystemSpec, latest: FileSystemSpec, status: FileSystemStatus,
                           paths: seq<Deltas.Path>, s: Remote, outcomes: nat -> Outcome, at: nat)
    ensures var now := Execute(s, UpdatePlan(desired, latest, status, paths), outcomes, at).state;
            && Between(s.tags, ToMap(desired.tags), now.tags)
            && (now.policy == s.policy || now.policy == Written(desired.policy))
  {
    var id := status.fileSystemID;
    var tagPart := TagPart(desired, latest, id, paths);
    var rest := GuardedPart(desired, status, paths);
    TagsStayBetween(desired, latest, status, paths, s, outcomes, at);
    PolicyStaysBetween(desired.policy, id, s, tagPart + rest, outcomes, at);
  }

  /** The answers describe the remote state, tags in any order. */
  predicate Truthful(a: Answers, s: Remote) {
    && a.fileSystem.Ok? && a.fileSystem.value.fileSystemId.Some? && ToMap(a.fileSystem.value.tags) == s.tags
    && PolicyRead(a.fileSystem.value, a) == s.policy
  }

  /** The calls of a reconcile that finds the remote state `s` and the status `status`: those that get
      the user's tags with the AWS-managed ones over them, and, unless the file system is in transition,
      the user's policy. */
  function ReconcilePlan(c: Comparison, user: FileSystemSpec, s: Remote, status: FileSystemStatus): seq<Call> {
    NeededCalls(c, Mirror(ToMap(user.tags), s.tags), user.policy, s, status)
  }

  predicate PutOff(c: Comparison, user: FileSystemSpec, s: Remote, status: FileSystemStatus) {
    PolicyDiffers(c, user.policy, s.policy) && !Ready(status)
  }

  /** How a reconcile ends whose calls ended with `error`. */
  function ReconcileError(c: Comparison, user: FileSystemSpec, s: Remote, status: FileSystemStatus,
                          error: Option<Error>): Option<Error> {
    if error.None? && PutOff(c, user, s, status) then Some(RequeueError(status.state.value)) else error
  }

  /** From `s` and `log` to `s'` and `log'`, the calls of the plan were made up to the first fatal one, and
      `ret` is the error it ended with, as the conditions read make it. */
  ghost predicate Reconciled(c: Comparison, user: FileSystemSpec, status: FileSystemStatus, cs: seq<ConditionValue>,
                             outcomes: nat -> Outcome, s: Remote, log: seq<Call>, s': Remote, log': seq<Call>,
                             ret: Returned) {
    var plan := ReconcilePlan(c, user, s, status);
    var error := Execute(s, plan, outcomes, |log|).error;
    var e := ReconcileError(c, user, s, status, error);
    Follows(plan, outcomes, s, log, s', log', error) && ret == if e.None? then Passed(None) else Reported(e, cs)
  }

  /** The configuration has not changed; the calls made are added to the log, and none of them writes it. */
  ghost predicate Kept(s: Remote, log: seq<Call>, s': Remote, log': seq<Call>) {
    && s'.sync == s.sync
    && log <= log' && forall i :: |log| <= i < |log'| ==> !log'[i].PutSynchronizationConfiguration?
  }

  /** The tags are the user's with the AWS-managed ones over them, and the policy as `Converged` says. */
  ghost predicate ReachedDesired(c: Comparison, user: FileSystemSpec, status: FileSystemStatus,
                                 outcomes: nat -> Outcome, s: Remote, at: nat, s': Remote) {
    Converged(c, user.policy, s, Mirror(ToMap(user.tags), s.tags), ReconcilePlan(c, user, s, status), outcomes, at, s')
  }

  /** Read, compare, update, as the runtime chains them, on the object that ReadOne has mirrored into.
      A failed read ends it with nothing called. Otherwise the calls are those of the reconcile's plan up
      to the first fatal one, and the error returned is known. Whatever fails, no AWS-managed tag of the
      remote changes and the configuration is not written; without an error tags and policy settle. */
  method Reconcile(rm: ManagerIdentity, c: Comparison, desired: FileSystem, a: Answers, sdkapi: Client)
    returns (res: FileSystem?, ret: Returned)
    requires ReadError(desired.status.fileSystemID, a).None? ==> Truthful(a, sdkapi.state)
    modifies desired`spec, sdkapi
    ensures var e := ReadError(old(desired.status).fileSystemID, a);
            e.Some? ==>
              && sdkapi.state == old(sdkapi.state) && sdkapi.log == old(sdkapi.log)
              && desired.spec == old(desired.spec) && ret == Reported(e, old(Values(desired.conditions)))
    ensures ReadError(old(desired.status).fileSystemID, a).None? ==>
              Reconciled(c, old(desired.spec), StatusRead(rm, old(desired.status), a.fileSystem.value, a),
                         ConditionsAfter(old(Values(desired.conditions)),
                                         OperationSucceeds(Some(ReadHook(a.fileSystem.value)))),
                         sdkapi.outcomes, old(sdkapi.state), old(sdkapi.log), sdkapi.state, sdkapi.log, ret)
    ensures Kept(old(sdkapi.state), old(sdkapi.log), sdkapi.state, sdkapi.log)
    ensures forall k :: "aws:" <= k && k in old(sdkapi.state).tags ==>
              Lookup(sdkapi.state.tags, k) == Lookup(old(sdkapi.state).tags, k)
    ensures ret == Passed(None) ==>
              ReachedDesired(c, old(desired.spec), StatusRead(rm, old(desired.status), a.fileSystem.value, a),
                             sdkapi.outcomes, old(sdkapi.state), |old(sdkapi.log)|, sdkapi.state)
  {
    var latest, read := ReadOne(rm, desired, a);
    if read != Passed(None) {
      return latest, read;
    }
    MirroringMeans(old(desired.spec).tags, a.fileSystem.value.tags, desired.spec.tags);
    res, ret := CompareAndUpdate(rm, c, old(desired.spec), desired, latest, sdkapi);
  }

  /** `desired` is `user` with the AWS-managed tags mirrored in, `latest` what was read. */
  method CompareAndUpdate(rm: ManagerIdentity, c: Comparison, ghost user: FileSystemSpec, desired: FileSystem,
                          latest: FileSystem, sdkapi: Client)
    returns (res: FileSystem?, ret: Returned)
    requires ToMap(latest.spec.tags) == sdkapi.state.tags && latest.spec.policy == sdkapi.state.policy
    requires ToMap(desired.spec.tags) == Mirror(ToMap(user.tags), sdkapi.state.tags)
    requires desired.spec.policy == user.policy
    modifies sdkapi
    ensures Reconciled(c, user, latest.status, Values(latest.conditions),
                       sdkapi.outcomes, old(sdkapi.state), old(sdkapi.log), sdkapi.state, sdkapi.log, ret)
    ensures Kept(old(sdkapi.state), old(sdkapi.log), sdkapi.state, sdkapi.log)
    ensures forall k :: "aws:" <= k && k in old(sdkapi.state).tags ==>
              Lookup(sdkapi.state.tags, k) == Lookup(old(sdkapi.state).tags, k)
    ensures ret == Passed(None) ==>
              ReachedDesired(c, user, latest.status, sdkapi.outcomes, old(sdkapi.state), |old(sdkapi.log)|,
                             sdkapi.state)
  {
    ghost var s, log := sdkapi.state, sdkapi.log;
    var delta := NewResourceDelta(c, desired, latest);
    res, ret := Update(rm, desired, latest, delta, sdkapi);
    UpdateReconciles(c, user, desired.spec, latest.spec, latest.status, delta.paths, Values(latest.conditions),
                     sdkapi.outcomes, s, log, sdkapi.state, sdkapi.log, ret);
    ReconciledMeans(c, user, latest.status, Values(latest.conditions), sdkapi.outcomes, s, log, sdkapi.state,
                    sdkapi.log, ret);
  }

  lemma UpdateReconciles(c: Comparison, user: FileSystemSpec, desired: FileSystemSpec, latest: FileSystemSpec,
                         status: FileSystemStatus, paths: seq<Deltas.Path>, cs: seq<ConditionValue>,
                         outcomes: nat -> Outcome, s: Remote, log: seq<Call>, s': Remote, log': seq<Call>,
                         ret: Returned)
    requires IsDelta(c, paths, desired, latest)
    requires ToMap(latest.tags) == s.tags && latest.policy == s.policy
    requires ToMap(desired.tags) == Mirror(ToMap(user.tags), s.tags) && desired.policy == user.policy
    requires var plan := UpdatePlan(desired, latest, status, paths);
             var error := Execute(s, plan, outcomes, |log|).error;
             var e := UpdateError(error, status, paths);
             && Follows(plan, outcomes, s, log, s', log', error)
             && ret == if e.None? then Passed(None) else Reported(e, cs)
    ensures Reconciled(c, user, status, cs, outcomes, s, log, s', log', ret)
  {
    OwnPlanIsWhatIsNeeded(c, desired, latest, status, paths, s);
  }

  /** Whatever fails, a reconcile leaves every AWS-managed tag it has read and the configuration alone. */
  lemma ReconcileKeeps(c: Comparison, user: FileSystemSpec, s: Remote, status: FileSystemStatus,
                       outcomes: nat -> Outcome, at: nat)
    ensures var now := Execute(s, ReconcilePlan(c, user, s, status), outcomes, at).state;
            && (forall k :: "aws:" <= k && k in s.tags ==> Lookup(now.tags, k) == Lookup(s.tags, k))
            && now.sync == s.sync
  {
    var plan := ReconcilePlan(c, user, s, status);
    var now := Execute(s, plan, outcomes, at).state;
    assert Shortened(plan, |plan|) == plan;
    RoundIsTagStep(c, user, s, Reconciles(status, outcomes, at, |plan|));
    ReconcileLeavesAwsTags(ToMap(user.tags), status.fileSystemID, s, outcomes, at, |plan|);
    NoConfigurationWritten(s, plan, outcomes, at);
  }

  lemma {:induction false} NoConfigurationWritten(s: Remote, plan: seq<Call>, outcomes: nat -> Outcome, at: nat)
    requires forall i :: 0 <= i < |plan| ==> !plan[i].PutSynchronizationConfiguration?
    ensures Execute(s, plan, outcomes, at).state.sync == s.sync
    decreases |plan|
  {
    if plan != [] {
      NoConfigurationWritten(Effect(s, plan[0], outcomes(at)), plan[1..], outcomes, at + 1);
    }
  }

  /** A reconcile without error leaves the user's tags with the AWS-managed ones over them, and a policy
      that differs from the user's exactly if it did before and the user's does not settle. */
  lemma ReconcileOutcome(c: Comparison, user: FileSystemSpec, s: Remote, status: FileSystemStatus,
                         outcomes: nat -> Outcome, at: nat)
    requires var error := Execute(s, ReconcilePlan(c, user, s, status), outcomes, at).error;
             ReconcileError(c, user, s, status, error).None?
    ensures ReachedDesired(c, user, status, outcomes, s, at,
                           Execute(s, ReconcilePlan(c, user, s, status), outcomes, at).state)
    ensures var now := Execute(s, ReconcilePlan(c, user, s, status), outcomes, at).state;
            && (forall k :: "aws:" <= k && k in s.tags ==> Lookup(now.tags, k) == Some(s.tags[k]))
            && (forall k :: !("aws:" <= k && k in s.tags) ==> Lookup(now.tags, k) == Lookup(ToMap(user.tags), k))
  {
    MirrorMeans(ToMap(user.tags), s.tags);
    NeededCallsConverge(c, Mirror(ToMap(user.tags), s.tags), user.policy, s, status, outcomes, at);
  }

  lemma ReconciledMeans(c: Comparison, user: FileSystemSpec, status: FileSystemStatus, cs: seq<ConditionValue>,
                        outcomes: nat -> Outcome, s: Remote, log: seq<Call>, s': Remote, log': seq<Call>, ret: Returned)
    requires Reconciled(c, user, status, cs, outcomes, s, log, s', log', ret)
    ensures Kept(s, log, s', log')
    ensures forall k :: "aws:" <= k && k in s.tags ==> Lookup(s'.tags, k) == Lookup(s.tags, k)
    ensures ret == Passed(None) ==> ReachedDesired(c, user, status, outcomes, s, |log|, s')
  {
    ReconcileKeeps(c, user, s, status, outcomes, |log|);
    var plan := ReconcilePlan(c, user, s, status);
    forall i | |log| <= i < |log'| ensures !log'[i].PutSynchronizationConfiguration? {
      assert log'[i] == plan[i - |log|];
    }
    if ret == Passed(None) {
      ReconcileOutcome(c, user, s, status, outcomes, |log|);
    }
  }

  // ---------------------------------------------------------------- runs of reconciles

  /** A whole reconcile, perhaps stopped after `calls` calls, that finds any status; or AWS writes its tags. */
  datatype Round =
    | Reconciles(status: FileSystemStatus, outcomes: nat -> Outcome, at: nat, calls: nat)
    | AwsWrote(tags: map<string, string>, withdrawn: set<string>)

  function AfterRound(c: Comparison, user: FileSystemSpec, s: Remote, r: Round): Remote {
    match r
    case Reconciles(status, outcomes, at, calls) =>
      Execute(s, Shortened(ReconcilePlan(c, user, s, status), calls), outcomes, at).state
    case AwsWrote(tags, withdrawn) => s.(tags := AwsWritten(ToMap(user.tags), s.tags, tags, withdrawn))
  }

  function AfterRounds(c: Comparison, user: FileSystemSpec, s: Remote, rounds: seq<Round>): Remote {
    if rounds == [] then s
    else AfterRound(c, user, AfterRounds(c, user, s, rounds[..|rounds| - 1]), rounds[|rounds| - 1])
  }

  /** What a round is for the tags alone. */
  function TagEvent(r: Round): TagManager.Event {
    match r
    case Reconciles(_, outcomes, at, calls) => TagManager.Reconcile(outcomes, at, calls)
    case AwsWrote(tags, withdrawn) => AwsWrites(tags, withdrawn)
  }

  function RoundID(r: Round): Option<string> {
    if r.Reconciles? then r.status.fileSystemID else None
  }

  lemma ShortenedRunOnTags(s: Remote, p: seq<Call>, q: seq<Call>, calls: nat, outcomes: nat -> Outcome, at: nat)
    requires forall i :: 0 <= i < |q| ==> !IsTagCall(q[i])
    ensures Execute(s, Shortened(p + q, calls), outcomes, at).state.tags
            == Execute(s, Shortened(p, calls), outcomes, at).state.tags
  {
    if calls < |p| {
      assert (p + q)[..calls] == p[..calls];
    } else {
      var now := Shortened(q, calls - |p|);
      assert Shortened(p + q, calls) == p + now;
      ExecuteInParts(s, p, now, outcomes, at);
      OtherCallsKeepTags(Execute(s, p, outcomes, at).state, now, outcomes, at + |p|);
    }
  }

  /** On the tags, a round acts as a step of the tag reconciler, whatever it does to the policy. */
  lemma RoundIsTagStep(c: Comparison, user: FileSystemSpec, s: Remote, r: Round)
    ensures AfterRound(c, user, s, r).tags == Step(ToMap(user.tags), RoundID(r), s, TagEvent(r)).tags
  {
    if r.Reconciles? {
      var tagPart := PlanFor(ToMap(user.tags), s, r.status.fileSystemID);
      var rest := if Ready(r.status) then PolicyStep(c, user.policy, s, r.status.fileSystemID) else [];
      assert ReconcilePlan(c, user, s, r.status) == tagPart + rest;
      ShortenedRunOnTags(s, tagPart, rest, r.calls, r.outcomes, r.at);
    }
  }

  /** The tags agree, and a policy that differs from the user's is what writing the user's gives. */
  ghost predicate AsGoodAsItGets(c: Comparison, user: FileSystemSpec, s: Remote) {
    && Disagreeing(ToMap(user.tags), s.tags) == {}
    && (PolicyDiffers(c, user.policy, s.policy) ==> s.policy == Written(user.policy))
  }

  lemma RoundKeepsPolicy(c: Comparison, user: FileSystemSpec, s: Remote, r: Round)
    requires AsGoodAsItGets(c, user, s)
    ensures AfterRound(c, user, s, r).policy == s.policy
  {
    if r.Reconciles? {
      var id := r.status.fileSystemID;
      NothingToDoIffAgreed(ToMap(user.tags), s, id);
      var plan := ReconcilePlan(c, user, s, r.status);
      assert plan == [] || (PolicyDiffers(c, user.policy, s.policy) && plan == [PolicyCall(user.policy, id)]);
      PolicyStaysBetween(user.policy, id, s, Shortened(plan, r.calls), r.outcomes, r.at);
    }
  }

  lemma {:induction false} RoundsKeep(c: Comparison, user: FileSystemSpec, s: Remote, rounds: seq<Round>)
    requires AsGoodAsItGets(c, user, s)
    ensures var end := AfterRounds(c, user, s, rounds); AsGoodAsItGets(c, user, end) && end.policy == s.policy
  {
    if rounds != [] {
      var n := |rounds| - 1;
      var before := AfterRounds(c, user, s, rounds[..n]);
      RoundsKeep(c, user, s, rounds[..n]);
      RoundIsTagStep(c, user, before, rounds[n]);
      StepShrinksDisagreement(ToMap(user.tags), RoundID(rounds[n]), before, TagEvent(rounds[n]));
      RoundKeepsPolicy(c, user, before, rounds[n]);
    }
  }

  /** After one whole reconcile without error, and any further rounds, whatever fails in them: a reconcile
      has no call to make exactly if the policy agreed at first, or the user's policy settles, or the file
      system is in transition. Otherwise every reconcile writes the policy again. */
  lemma SuccessfulReconcileSettlesAll(c: Comparison, user: FileSystemSpec, s: Remote, status: FileSystemStatus,
          outcomes: nat -> Outcome, at: nat, later: seq<Round>, next: FileSystemStatus)
    requires var plan := ReconcilePlan(c, user, s, status);
             && ReconcileError(c, user, s, status, Execute(s, plan, outcomes, at).error).None?
             && NotFoundMeansNone(s, plan, outcomes, at)
    ensures var plan := ReconcilePlan(c, user, s, status);
            var s' := Execute(s, plan, outcomes, at).state;
            var end := AfterRounds(c, user, s', later);
            && Disagreeing(ToMap(user.tags), end.tags) == {} && end.policy == s'.policy
            && (ReconcilePlan(c, user, end, next) == [] <==>
                  !PolicyDiffers(c, user.policy, s.policy) || PolicySettles(c, user.policy) || !Ready(next))
            && (ReconcilePlan(c, user, end, next) != [] ==>
                  ReconcilePlan(c, user, end, next) == [PolicyCall(user.policy, next.fileSystemID)])
  {
    var s' := Execute(s, ReconcilePlan(c, user, s, status), outcomes, at).state;
    ReconcileOutcome(c, user, s, status, outcomes, at);
    MirrorTwice(ToMap(user.tags), s.tags);
    RoundsKeep(c, user, s', later);
    NothingToDoIffAgreed(ToMap(user.tags), AfterRounds(c, user, s', later), next.fileSystemID);
  }
}
