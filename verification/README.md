# Verified model of the S3 Files controller

A Dafny model of the reconcile logic of the ACK controller for Amazon S3 Files: tags, cross-resource
references, status conditions, the FileSystem and AccessPoint updates, the version number of the
synchronization configuration, and the manager cache. `dafny verify dfyconfig.toml` checks it.

Code that changes things in place is modelled in place: a Go map is a `TagMap` object whose entries the
callee deletes, a custom resource is an object whose fields are reassigned, a status holds pointers to
condition objects, and the service is a `Client` object with a remote state and a log of the calls made.
Each such method is proved against a specification function or relation, and the properties are lemmas
about those. `range` over a Go map takes any entry that is present and was not produced before, which is
what the Go language specification, section "For statements with range clause", allows; so everything
proved holds for every iteration order. The module is written for Go 1.25 (go.mod:3), so the variables of a
`range` clause whose addresses are taken are new in each iteration.

## How the pieces fit

- `Nilable`, `AckTypes`, `FileSystems`: pointers to values, integer widths, conditions, the custom resource.
- `Service`: the client. A schedule fixed in advance and otherwise arbitrary says which call fails; a
  failed call may have taken effect all the same, a tag call for any of its keys. `Execute` makes the calls
  of a plan until one is fatal, and every updating method is proved to make exactly such a run (`Follows`).
- `OrderedTags`, `TagSync`, `TagManager`: tag lists and maps, the two-call synchronization, EnsureTags,
  filtering, mirroring, and runs of reconciles.
- `References`, `MountTargetReferences`, `FileSystemReferences`: resolving and clearing.
- `Conditions`: the condition state machine and the shared tail of ReadOne, Create, Update and Delete.
- `Deltas`, `SyncRules`, `FileSystemUpdate`, `FileSystemManager`: comparing, updating, reading; `Reconcile`
  chains read, delta and update; runs of whole reconciles are tied to the tag runs of `TagManager`.
- `Versions`: optimistic concurrency with other writers. `AccessPoints`: delta, drift, create and read.
- `ManagerCache`: the cache under any interleaving of calls; a call that runs alone is `ManagerFor`.

## Assumptions about the runtime library

- GetTagsDifference: `added` holds the new and changed keys with their new values; `removed` holds the
  dropped keys and possibly, in any choice, changed ones (`IsTagsDifference`).
- Merge: existing tags win. SetTerminal: writes the first condition of the type, or appends one.
- DifferentAt(p): some recorded path has `p` as a component prefix.
- HasNilDifference: two nil or two non-nil pointers do not differ in it; for one nil pointer an arbitrary
  predicate (`blank`) says which values are as good as nil.
- Equality of IAM policy documents is an arbitrary relation; no law is assumed of it.
- ValidateCrossNamespaceReference and the reader's Get are arbitrary functions; Get may answer
  differently at each reference of an object.
- The service stores what it is sent, gives each successful configuration write a greater version number,
  rejects a number that is not the current one, and accepts a put without a number. A read of the
  configuration may be answered without a number.
- That a policy deletion is answered "not found" only when there is no policy is no
  assumption of the model but a hypothesis (`NotFoundMeansNone`) of what is said about the policy after a success.
- The runtime passes the object that ReadOne has mirrored into on to the delta and the update, and does
  not update after a failed read. Nobody else changes tags or policy between the read and the update.

## Where the code does not do what its comments or tests say

- A file system in state "error", and drift of an immutable AccessPoint field, set Terminal=True, and the
  `onSuccess` that ends the same operation sets it back to False: `ErrorStateIsNotReported` and
  `DriftIsNotReported` say exactly when (unless there is more than one Terminal condition).
- The FileSystem delta never records import or expiration rules, so an update driven by it never
  writes the synchronization configuration: `OwnDeltaNeverWritesRules`. The end-to-end test
  `test_add_sync_config` expects it to.
- `ManagerFor` does not look up again under the write lock, so calls for one key may get different managers:
  exactly when more than one of them builds (`AgreeIffBuiltOnce`), and from a given moment on exactly when
  the key is not cached or a call that missed it is pending (`SettledIffKeptForGood`).
- The cache key joins account, region and role with "/": a request whose account or region holds a "/" shares
  its key with another request (`PlainTwin`) and can be served its manager (`OtherRequestsMayBeServedWrong`).
- ResolveReferences is documented to return a copy; it works on its argument and returns it. It computes
  the validation error first but reports it only if every reference resolves.
- A desired policy `""` makes the update delete the policy, and then still differs from the nil policy
  that is read back unless HasNilDifference takes `""` for nil: `SuccessfulUpdateConverges`.
- A put without version number can overwrite a configuration the controller never read:
  `UnnumberedPutOverwritesUnread`.

## Model

| member | source | states |
|---|---|---|
| Nilable.ToInt32IsUnique | pkg/resource/file_system/hooks.go:146-149 | the int64 to int32 conversion is the only int32 congruent modulo 2^32 |
| OrderedTags.ConvertToOrderedACKTags | pkg/resource/file_system/tags.go:36-55 | yields a fresh map and the key order of the list |
| OrderedTags.FromACKTags | pkg/resource/file_system/tags.go:61-78 | renders the map, known keys first, for every iteration order; the argument map loses the rendered known keys |
| OrderedTags.IgnoreSystemTags | pkg/resource/file_system/tags.go:85-92 | deleting while ranging leaves exactly the tags whose key neither starts with "aws:" nor is a system tag |
| OrderedTags.SyncAWSTags | pkg/resource/file_system/tags.go:113-119 | writes exactly the "aws:" tags of the source over the target, also when both are the same map |
| OrderedTags.CopyTags | pkg/resource/file_system/sdk.go:150-165 | the field-by-field copy of a tag list is the list |
| OrderedTags.ToMapReadsLastOccurrence | pkg/resource/file_system/tags.go:43-52 | a key is in the map iff the list has it, with the value of its last occurrence, a nil value being "" |
| OrderedTags.KnownKeepsFirstOccurrences | pkg/resource/file_system/tags.go:64-71 | known keys come in the order of their first occurrences |
| OrderedTags.RenderingGivesMapBack | pkg/resource/file_system/tags.go:57-78 | for every key order and iteration order the rendered list converts back to the map, repeats no key and starts with the known keys |
| OrderedTags.ListMapListIsIdempotent | pkg/resource/file_system/tags.go:36-78 | list to map to list is determined, idempotent, drops nil keys and keeps last values |
| Service.Client.Invoke | pkg/tags/tags.go:65-72 | one call: logged, takes effect as its outcome says, returns its error |
| Service.ExecuteStopsAtFirstFatal | pkg/resource/file_system/hooks.go:89-111 | a run of calls ends right after its first fatal call and nowhere else; every failure is fatal but that of a policy deletion with code ResourceNotFoundException |
| TagSync.GetTagsDifference | pkg/tags/tags.go:48 | the assumed contract of the library function, with an arbitrary choice for changed keys |
| TagSync.DropAdded | pkg/tags/tags.go:50-54 | deleting while ranging leaves the removed keys that are not being added |
| TagSync.TagList | pkg/tags/tags.go:57-63 | the request lists every added tag once, in any order |
| TagSync.KeyList | pkg/tags/tags.go:76-79 | the request lists every removed key once, in any order |
| TagSync.SendAdded | pkg/tags/tags.go:56-73 | TagResource is called iff a tag is new or changed, with exactly those |
| TagSync.SendRemoved | pkg/tags/tags.go:75-89 | UntagResource is called iff a key is dropped, with exactly those |
| TagSync.Tags | pkg/tags/tags.go:32-92 | makes the calls of the two-call plan up to the first failure, whatever the library chose for changed keys |
| TagSync.NoCallIffEqual | pkg/tags/tags.go:56-75 | no call is planned iff latest and desired tags are equal |
| TagSync.TagPlanMeans | pkg/tags/tags.go:45-91 | TagResource sends exactly the new and changed tags and comes before UntagResource, which removes exactly the keys no longer desired; each is planned iff there is something for it |
| TagSync.SyncStaysBetween | pkg/tags/tags.go:56-91 | after any number of calls, any failures and partial effects, and even with outdated latest tags, every key is as before or as desired |
| TagSync.SyncIntermediateStates | pkg/tags/tags.go:56-91 | keys in both old and desired tags are never absent, no key outside both appears, nothing but tags changes |
| TagSync.SuccessfulSyncConverges | pkg/tags/tags.go:29-31 | with tags just read, a run without error ends at the desired tags |
| TagManager.EnsureTags | pkg/resource/file_system/manager.go:292-309 | sets the tags to a rendering of the merge and changes nothing else |
| TagManager.FilterSystemTags | pkg/resource/file_system/manager.go:330-340 | sets the tags to a rendering of the non-system ones and changes nothing else; nil is left alone |
| TagManager.MirrorAWSTags | pkg/resource/file_system/manager.go:353-365 | sets the tags of the first resource to a rendering of the mirrored ones and changes nothing else; nil is left alone |
| TagManager.EnsureTagsKeepsExisting | pkg/resource/file_system/manager.go:285-291 | no existing tag changes, every default key is present, nothing else is added |
| TagManager.EnsureTagsIsIdempotent | pkg/resource/file_system/manager.go:302-307 | applied twice it gives the same list as once, order included, for all iteration orders |
| TagManager.FilterUndoesEnsure | pkg/resource/file_system/manager.go:292-340 | filtering out the default keys gives the user's normalised tags back iff none of the user's keys starts with "aws:" or is a system tag |
| TagManager.MirroringMeans | pkg/resource/file_system/manager.go:342-365 | keys that start with "aws:" and that the latest tags have show the latest value, all others exactly what the user wrote |
| TagManager.FilteringMeans | pkg/resource/file_system/tags.go:80-92 | after filtering no key starts with "aws:" or is a system tag, and every other tag stays with its value |
| TagManager.DisagreementNeverGrows | pkg/tags/tags.go:45-91 | over every run of reconciles with failures, partial effects and stops at any point, and AWS writing its own tags in between, the set of keys on which remote and mirrored desired disagree never grows |
| TagManager.SuccessfulReconcileSettles | pkg/resource/file_system/delta.go:89-93 | one reconcile without error makes them equal and no later reconcile of the run has a call to make |
| TagManager.ReconcileLeavesAwsTags | pkg/resource/file_system/manager.go:342-347 | every tag whose key starts with "aws:" and that is there when a reconcile reads keeps its value through all its calls |
| References.GetReferencedResourceState | pkg/resource/mount_target/references.go:162-210 | the error order: unreadable, terminal, not synced, target missing; none iff usable |
| References.FollowReference | pkg/resource/mount_target/references.go:133-153 | name, namespace, referent state and target field decide the identifier or the error |
| References.Follow | pkg/resource/mount_target/references.go:133-210 | an identifier results iff a name is given, a namespace allowed, and the object of that name in that namespace was found usable with that identifier as its target |
| References.FollowFails | pkg/resource/mount_target/references.go:133-210 | which of the errors a reference ends with, by the name, the namespace and the conditions of the object |
| MountTargetReferences.ValidateReferenceFields | pkg/resource/mount_target/references.go:102-122 | the validation error |
| MountTargetReferences.ResolveReferenceForFileSystemID | pkg/resource/mount_target/references.go:128-156 | sets only the file system ID |
| MountTargetReferences.ResolveReferenceForSecurityGroups | pkg/resource/mount_target/references.go:216-249 | appends one identifier per followed reference, up to the first failure, and keeps what was appended |
| MountTargetReferences.ResolveReferenceForSubnetID | pkg/resource/mount_target/references.go:309-337 | sets only the subnet ID |
| MountTargetReferences.ResolveReferences | pkg/resource/mount_target/references.go:70-98 | resolves in place and returns its argument; a validation error comes only after all references resolved |
| MountTargetReferences.ClearResolvedReferences | pkg/resource/mount_target/references.go:45-61 | a cleared copy; the argument is untouched |
| MountTargetReferences.ClearUndoesResolve | pkg/resource/mount_target/references.go:41-98 | for every outcome of resolving, clearing restores the original spec (nil and empty group lists identified) iff no field had both a reference and a value |
| MountTargetReferences.ValidatedSpecIsRestored | pkg/resource/mount_target/references.go:102-122 | what passes validation, exactly, and that it is restored; otherwise which field the error names |
| MountTargetReferences.ResolveClearResolve | pkg/resource/mount_target/references.go:45-98 | with an unchanged cluster resolve, clear, resolve gives the same spec, flag and error as resolve |
| MountTargetReferences.GainsAreNamed | pkg/resource/mount_target/references.go:216-249 | the groups gained are, in order, what following the references with a From gave: of all of them, or of all before the one whose failure is the error |
| MountTargetReferences.FollowedMeans | pkg/resource/mount_target/references.go:217-219 | the references followed are exactly those with a From, in list order |
| MountTargetReferences.FlagMeansSomeFrom | pkg/resource/mount_target/references.go:63-69 | the returned flag is true iff some field or list entry has a From, whatever the outcome |
| MountTargetReferences.WrittenGroupsAreNamed | pkg/resource/mount_target/references.go:216-247 | the group list grows by the identifiers its references name, in order, by all of them if every reference was followed; only the three fields change |
| MountTargetReferences.WrittenFieldsAreNamed | pkg/resource/mount_target/references.go:128-156 | a single field keeps its value or gets the identifier its own reference names; the latter if every reference was followed and it has a From |
| MountTargetReferences.FirstFailureEndsResolution | pkg/resource/mount_target/references.go:70-98 | a reference that cannot be followed leaves what comes after it as it was, and there is an error |
| MountTargetReferences.ResolvingTwice | pkg/resource/mount_target/references.go:70-98 | resolving a resolved object appends the groups again and reports a validation error iff a reference was followed |
| FileSystemReferences.ValidateReferenceFields | pkg/resource/file_system/references.go:107-127 | the validation error, the key being optional |
| FileSystemReferences.ResolveReferences | pkg/resource/file_system/references.go:75-103 | the three-field variant, in place |
| FileSystemReferences.ClearResolvedReferences | pkg/resource/file_system/references.go:50-66 | a cleared deep copy |
| FileSystemReferences.ClearUndoesResolve | pkg/resource/file_system/references.go:46-103 | restoring iff no field had both, what validation means, the flag, and resolve-clear-resolve |
| FileSystemReferences.ResolvingTwice | pkg/resource/file_system/references.go:75-127 | resolving again changes nothing and reports an error iff a reference was followed |
| FileSystemReferences.WrittenFieldsAreNamed | pkg/resource/file_system/references.go:129-337 | bucket, key and role keep their value or get the target of the usable Bucket, Key or Role that their own reference names; each with a From gets it if all were followed; nothing else changes |
| FileSystemReferences.FirstFailureEndsResolution | pkg/resource/file_system/references.go:75-103 | the first reference that cannot be followed leaves its field and later ones as they were; iff there is one the error is no validation error |
| FileSystemReferences.ValidationErrorMeans | pkg/resource/file_system/references.go:107-127 | which field a validation error names, and how |
| AckTypes.DeepCopyConditions | apis/v1alpha1/zz_generated.deepcopy.go:393-403 | new, pairwise different objects showing the same values |
| FileSystems.FileSystem.DeepCopy | apis/v1alpha1/zz_generated.deepcopy.go:385-438 | a fresh resource showing the same, sharing no condition object |
| Conditions.SetStatusDefaults | pkg/resource/file_system/sdk.go:424-442 | fills only missing metadata |
| Conditions.DefaultsFillGaps | pkg/resource/file_system/sdk.go:424-442 | known metadata stays, missing region, partition and account are the manager's |
| Conditions.FindLast | pkg/resource/file_system/sdk.go:455-468 | pointers to the last condition of each of the three types |
| Conditions.MarkTrue | pkg/resource/file_system/sdk.go:471-499 | reuses the condition or appends one, and sets it True with the message |
| Conditions.Relieve | pkg/resource/file_system/sdk.go:486-512 | the branch without terminal error |
| Conditions.UpdateConditions | pkg/resource/file_system/sdk.go:446-519 | a fresh copy with the updated conditions; the input and its condition objects are unchanged; "updated" iff there is an error or a condition of the three types |
| Conditions.OnError | pkg/resource/file_system/manager.go:394-414 | returns the Terminal error iff the error is a ValidationException, a secret error or wraps a terminal one, or a True Terminal condition is shadowed by a later one |
| Conditions.OnSuccess | pkg/resource/file_system/manager.go:418-429 | the resource with its conditions updated for no error, nil for nil |
| Conditions.Conclude | pkg/resource/file_system/manager.go:160-166 | the shared tail of the four operations |
| Conditions.SetTerminal | pkg/resource/file_system/sdk.go:193-201 | the assumed library upsert, in place |
| Conditions.UpdateKeepsOthers | pkg/resource/file_system/sdk.go:446-519 | conditions of other types and all types, reasons and positions stay; at most one condition is appended, of the type the error calls for |
| Conditions.UpdateKeepsAtMostOne | pkg/resource/file_system/sdk.go:455-499 | at most one condition of a type stays at most one |
| Conditions.TerminalAfterUpdate | pkg/resource/file_system/sdk.go:471-491 | Terminal is True afterwards iff the error is a ValidationException, a secret error or wraps a terminal one, or a True Terminal condition was followed by another |
| Conditions.OutcomeOfUpdate | pkg/resource/file_system/sdk.go:470-512 | with one condition per type: Terminal iff ValidationException, secret or wrapped terminal error, Recoverable for every other error, and the error returned goes with it |
| Conditions.UpdateShowsTheError | pkg/resource/file_system/sdk.go:477-509 | which condition an error sets True, and the text it shows |
| Conditions.UpdateRelieves | pkg/resource/file_system/sdk.go:486-512 | what is set False, with no message |
| Conditions.HookTerminalDoesNotSurviveSuccess | pkg/resource/file_system/sdk.go:193-203 | a Terminal=True set by a hook survives onSuccess iff there was more than one Terminal condition |
| Conditions.RunInvariant | pkg/resource/file_system/manager.go:97-190 | over every run of operations: one condition per type is kept, and what is True follows from the last operation |
| Deltas.DifferentAtSameLength | pkg/resource/file_system/hooks.go:61-63 | among paths of one length DifferentAt is membership |
| SyncRules.BuildImportRules | pkg/resource/file_system/hooks.go:125-141 | every import rule converted, in order |
| SyncRules.BuildExpirationRules | pkg/resource/file_system/hooks.go:142-153 | every expiration rule converted, in order |
| SyncRules.BuildPutInput | pkg/resource/file_system/hooks.go:117-153 | the argument of the put, nil lists left out, with the version number read |
| SyncRules.FetchFileSystemPolicy | pkg/resource/file_system/hooks.go:176-197 | the policy; nil if there is none or the file system is not available; other errors passed on |
| SyncRules.FetchSynchronizationConfiguration | pkg/resource/file_system/hooks.go:202-262 | the rules and the version number, with the same error cases |
| SyncRules.ReadImportRules | pkg/resource/file_system/hooks.go:223-240 | every import rule converted back, in order |
| SyncRules.ReadExpirationRules | pkg/resource/file_system/hooks.go:242-253 | every expiration rule converted back, in order |
| SyncRules.RulesRoundTrip | pkg/resource/file_system/hooks.go:125-253 | rules written and read back are the same iff every days value fits in int32 and no trigger is the empty string |
| SyncRules.DaysReadBack | pkg/resource/file_system/hooks.go:146-252 | any int64 days value is read back as the int32 congruent to it modulo 2^32 |
| SyncRules.VersionPassedBack | pkg/resource/file_system/hooks.go:120-259 | the version number read is passed back exactly |
| FileSystemUpdate.NewResourceDelta | pkg/resource/file_system/delta.go:34-96 | records exactly the paths at which the specs differ |
| FileSystemUpdate.RecordedPaths | pkg/resource/file_system/delta.go:45-93 | each of the nine fields is recorded under its own path iff it differs |
| FileSystemUpdate.NothingElseIsRecorded | pkg/resource/file_system/delta.go:45-93 | no other path is recorded |
| FileSystemUpdate.EmptyDeltaMeansEqual | pkg/resource/file_system/delta.go:34-96 | with nothing as good as nil the delta is empty iff the specs are equal but for the rules and tag order |
| FileSystemUpdate.OwnDeltaSeesPolicyAndTagsOnly | pkg/resource/file_system/delta.go:45-93 | such a delta never reports rules, and reports policy and tags iff they differ |
| FileSystemUpdate.CustomUpdateFileSystem | pkg/resource/file_system/hooks.go:37-172 | makes the calls of its plan up to the first fatal one; the error; the desired resource iff no error |
| FileSystemUpdate.UpdatePolicy | pkg/resource/file_system/hooks.go:82-112 | put or delete, not-found on delete tolerated |
| FileSystemUpdate.UpdateRules | pkg/resource/file_system/hooks.go:114-169 | put iff rules changed and some are desired |
| FileSystemUpdate.CallsArePrefixOfSuccess | pkg/resource/file_system/hooks.go:37-172 | whatever fails, the calls made are a prefix of those of the run in which nothing fails, which makes the whole plan |
| FileSystemUpdate.TagCallsFirstAndGuarded | pkg/resource/file_system/hooks.go:45-80 | tag calls come first; other calls are made only if the latest state is nil or "available"; all calls name the latest file system ID |
| FileSystemUpdate.WhyACallIsPlanned | pkg/resource/file_system/hooks.go:45-158 | each call is there for a recorded difference, in an admissible state, and says what is desired; the configuration comes last |
| FileSystemUpdate.AvailableIsUpdated | pkg/resource/file_system/hooks.go:72-158 | in state nil or "available", if no call fails, policy and rules differences are acted on and there is no error |
| FileSystemUpdate.TransitionPostpones | pkg/resource/file_system/hooks.go:72-80 | in any other state such an update makes tag calls only and ends with the error of a tag call or one that is not terminal |
| FileSystemUpdate.FirstFailureIsReturned | pkg/resource/file_system/hooks.go:47-158 | a failed call, but for a deletion that finds no policy, is the last one and its error is returned |
| FileSystemUpdate.NotFoundOnDeleteGoesOn | pkg/resource/file_system/hooks.go:103-109 | a deletion that finds no policy does not stop the update |
| FileSystemUpdate.OwnDeltaNeverWritesRules | pkg/resource/file_system/hooks.go:114-158 | driven by the own delta, the configuration is never written |
| FileSystemUpdate.OwnPlanIsWhatIsNeeded | pkg/resource/file_system/hooks.go:45-112 | driven by the own delta, the calls planned are those the remote tags need and, unless in transition, the one the policy needs; the update is put off iff the policy differs in transition |
| FileSystemUpdate.NeededCallsConverge | pkg/resource/file_system/hooks.go:47-112 | those calls, made without error, give the desired tags, and a policy as it was or as desired |
| FileSystemUpdate.SuccessfulUpdateConverges | pkg/resource/file_system/hooks.go:47-112 | after an update without error the tags agree, and the policies agree iff they did before or the desired one settles (unless "not found" is answered wrongly) |
| FileSystemManager.SetFields | pkg/resource/file_system/sdk.go:93-167 | the fields taken from the read, and the defaults |
| FileSystemManager.FetchSubResources | pkg/resource/file_system/sdk.go:169-187 | policy, rules and version number, or the first error |
| FileSystemManager.SetTerminalFromState | pkg/resource/file_system/sdk.go:189-201 | Terminal is set True in state "error" with the service's message, else False |
| FileSystemManager.SdkFind | pkg/resource/file_system/sdk.go:57-204 | the error of the read, or a fresh resource with every field and condition it shows |
| FileSystemManager.WhenReadSucceeds | pkg/resource/file_system/sdk.go:67-187 | when a read has no error, and which error it has otherwise; the two codes that mean there is nothing to read |
| FileSystemManager.StatusShowsTheAnswer | pkg/resource/file_system/sdk.go:97-187 | state, message, name, owner, creation time, identifier and version are those answered, an empty state being nil |
| FileSystemManager.SpecShowsTheAnswer | pkg/resource/file_system/sdk.go:93-187 | the spec fields are those answered, the references stay |
| FileSystemManager.ErrorStateIsShown | pkg/resource/file_system/sdk.go:189-201 | exactly the state "error" makes the read set Terminal, with the service's message if there is one |
| FileSystemManager.ReadOne | pkg/resource/file_system/manager.go:97-115 | mirrors into its argument on success, leaves it alone on failure, and ends with the conditions of the state machine |
| FileSystemManager.Update | pkg/resource/file_system/manager.go:147-167 | the update's calls; conditions of the latest resource and the exact error on failure, conditions of the desired one on success |
| FileSystemManager.ErrorStateIsNotReported | pkg/resource/file_system/manager.go:114 | state "error" shows as Terminal after ReadOne iff there was more than one Terminal condition |
| FileSystemManager.UpdateStaysBetween | pkg/resource/file_system/hooks.go:45-112 | after an update, failed or not, every remote tag and the policy is as before or as desired |
| FileSystemManager.Reconcile | pkg/resource/file_system/manager.go:97-167 | read, compare, update: nothing is called after a failed read; else exactly the needed calls up to the first fatal one, with the error known; "aws:" tags and the configuration never change; without error tags and policy end as desired |
| FileSystemManager.ReconcileKeeps | pkg/resource/file_system/hooks.go:37-172 | whatever fails, "aws:" tags and configuration stay |
| FileSystemManager.ReconcileOutcome | pkg/resource/file_system/hooks.go:37-172 | without error the remote tags are the mirrored ones and the policy as desired |
| FileSystemManager.RoundIsTagStep | pkg/resource/file_system/hooks.go:45-57 | on the tags a whole reconcile, complete or stopped anywhere, is a step of the tag runs |
| FileSystemManager.SuccessfulReconcileSettlesAll | pkg/resource/file_system/hooks.go:45-112 | after one reconcile without error, and any later ones with any failures and tag writes of AWS, there is nothing to call iff the policy agreed at first or settles or the file system is in transition; otherwise just the policy is written again |
| Versions.RunKeepsInv | pkg/resource/file_system/hooks.go:120-124 | in every run a remembered number is not from the future, and is the current one iff nothing was written since the read, and then the content read is the stored one |
| Versions.OnlyUnnumberedPutsOverwriteUnread | pkg/resource/file_system/hooks.go:116-158 | a put is accepted iff it carries no number or nothing was written since the read; it overwrites a configuration that was not read iff there is one and it carries no number |
| Versions.NumberStaysCurrentUntilWrite | apis/v1alpha1/file_system.go:96-99 | the number read is accepted iff nothing was written since the read |
| Versions.UnnumberedPutOverwritesUnread | pkg/resource/file_system/hooks.go:213-259 | from every store: after a read told that nothing is there, or answered without a number, somebody else writes and the put overwrites it |
| AccessPoints.AgreementIsReflexiveAndSymmetric | pkg/resource/access_point/delta.go:34-123 | agreement of specs at every level is reflexive and symmetric |
| AccessPoints.AgreementMeansEquality | pkg/resource/access_point/delta.go:34-123 | with nothing as good as nil specs agree iff they are equal but for tag order and nil or empty group lists |
| AccessPoints.NewResourceDelta | pkg/resource/access_point/delta.go:34-123 | records exactly the paths, at every nesting level, at which the specs differ |
| AccessPoints.RecordedPaths | pkg/resource/access_point/delta.go:45-120 | each field is recorded under its own path iff it differs |
| AccessPoints.RecordedPosixPaths | pkg/resource/access_point/delta.go:57-78 | the paths below the POSIX user |
| AccessPoints.RecordedRootPaths | pkg/resource/access_point/delta.go:82-114 | the paths below the root directory |
| AccessPoints.RecordedPermissionPaths | pkg/resource/access_point/delta.go:85-106 | the paths below the creation permissions |
| AccessPoints.ComparePosix | pkg/resource/access_point/delta.go:55-79 | the POSIX user part |
| AccessPoints.ComparePermissions | pkg/resource/access_point/delta.go:83-107 | the creation permissions part |
| AccessPoints.CompareRoot | pkg/resource/access_point/delta.go:80-115 | the root directory part |
| AccessPoints.EmptyDeltaMeansAgreement | pkg/resource/access_point/delta.go:45-120 | the delta is empty iff the specs agree at every nested level |
| AccessPoints.DriftMeansImmutableFieldDiffers | pkg/resource/access_point/hooks.go:64-66 | the drift branch is taken iff file system, POSIX user or root directory differ, also for nested paths |
| AccessPoints.CustomUpdateAccessPoint | pkg/resource/access_point/hooks.go:37-77 | tag calls only, all for the latest ID, iff tags are recorded and differ; tags stay between old and desired, and are the desired ones without error; Terminal set in place on the desired resource iff drifted and no error |
| AccessPoints.UpdateOutcome | pkg/resource/access_point/hooks.go:45-57 | the same as a statement about the remote state and the log |
| AccessPoints.CompareAndUpdate | pkg/resource/access_point/hooks.go:37-77 | driven by its own delta: no call iff the tags agree, desired tags without error, Terminal iff an immutable field differs |
| AccessPoints.DriftIsNotReported | pkg/resource/access_point/hooks.go:59-76 | drift still shows as Terminal when the update is done iff there was more than one Terminal condition |
| AccessPoints.NewCreateRequestPayload | pkg/resource/access_point/sdk.go:338-396 | the payload, nil lists left out, nil group IDs becoming 0 |
| AccessPoints.SetFromOutput | pkg/resource/access_point/sdk.go:93-179 | the spec and status fields taken from an output, a known ARN kept, and the defaults |
| AccessPoints.CreateThenReadAgrees | pkg/resource/access_point/sdk.go:244-396 | create followed by read gives back the desired spec, or one that agrees with it, iff no secondary group ID is nil |
| ManagerCache.KeyIsInjective | pkg/resource/file_system/manager_factory.go:58-61 | without "/" in account and region the key determines account, region and role |
| ManagerCache.PlainTwin | pkg/resource/file_system/manager_factory.go:61 | every request has the key of exactly one request without "/" in account and region, which is itself iff it has none |
| ManagerCache.ResourceManagerFactory.ManagerFor | pkg/resource/file_system/manager_factory.go:48-79 | one call: the cached manager, or one built for the request and stored, or nothing |
| ManagerCache.CallAloneIsManagerFor | pkg/resource/file_system/manager_factory.go:48-79 | in the interleaving model a call with no other call's steps in between does what ManagerFor does |
| ManagerCache.StepKeepsInv | pkg/resource/file_system/manager_factory.go:62-78 | one step of any call keeps the invariant, removes no key and changes no returned result |
| ManagerCache.RunKeepsInv | pkg/resource/file_system/manager_factory.go:48-79 | over every interleaving: each manager cached or found was built by a call for that key, no two calls build the same one, at most one is built per missed lookup, no key is removed, no result changes |
| ManagerCache.PlainRequestsAreServedRight | pkg/resource/file_system/manager_factory.go:61-78 | if no request has a "/" in account or region, every manager returned is for the account and region asked for |
| ManagerCache.OtherRequestsMayBeServedWrong | pkg/resource/file_system/manager_factory.go:61-64 | every other request can be returned the manager of another account or region |
| ManagerCache.AgreeIffBuiltOnce | pkg/resource/file_system/manager_factory.go:62-78 | in every run all calls for a key return the same manager iff at most one of them built one |
| ManagerCache.SettledIffKeptForGood | pkg/resource/file_system/manager_factory.go:62-78 | in every reachable state: in all continuations the cached manager stays and later calls get it, iff the key is cached and no call that missed it is pending |
| ManagerCache.SequentialCallsShare | pkg/resource/file_system/manager_factory.go:56-60 | calls for a key that do not overlap each other return the same manager, whatever calls for other keys do |
| ManagerCache.OverlappingCallsMayDiffer | pkg/resource/file_system/manager_factory.go:66-78 | a run in which two overlapping calls for the same request return different managers |

## Left out

- AckTypes.DeepCopyConditions: nil entries of a condition list, and the transition time of a condition, are not modelled; `updateConditions` dereferences every entry and never writes that time.
- FileSystems.FileSystem.DeepCopy: of the object metadata only the namespace is modelled, the one part the code reads.
- Conditions.SetTerminal: the transition time of a condition is not modelled.
- TagSync.Tags: does not model metrics, logging and the trace that wraps the call.
- Service.Client.Invoke: a call by somebody else between two calls of an update is not modelled; `Versions` and the runs of reconciles have other writers between updates.
- ManagerCache.ResourceManagerFactory.ManagerFor: the parts of a manager other than account and region, and the reasons a build can fail.
- Nil elements in tag lists and rule lists: the code dereferences them, so the model's lists hold values.
- A nil and an empty tag list of a FileSystem are one value: the modelled code treats them alike.
- The bodies of sdkCreate and sdkDelete for FileSystem: the conditions part of Create and Delete is `Conclude`; their field mapping repeats the one modelled for AccessPoint.
- The status part of MountTarget reads: the same code as for FileSystem.
- The AWS SDK, the Kubernetes client, the ACK runtime reconciler, error unwrapping and message texts: assumptions or opaque values.
- Late initialization (its field list is empty), descriptors, identifiers, registry, version and the main program: wiring only.
- The copies of tags, manager, conditions and cache code in the other resource packages: the same proofs again.
