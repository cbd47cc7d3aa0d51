/** Resolving and clearing the references of a MountTarget (`pkg/resource/mount_target/references.go`). */
module MountTargetReferences {
  import opened Nilable
  import opened AckTypes
  import opened References

  datatype MountTargetSpec = MountTargetSpec(
    fileSystemID: Option<string>, fileSystemRef: Option<Ref>,
    ipAddressType: Option<string>, ipv4Address: Option<string>, ipv6Address: Option<string>,
    securityGroupRefs: seq<Option<Ref>>, securityGroups: GroupList,
    subnetID: Option<string>, subnetRef: Option<Ref>)

  class MountTarget {
    const namespace: string
    var spec: MountTargetSpec

    constructor (namespace: string, spec: MountTargetSpec)
      ensures this.namespace == namespace && this.spec == spec
    {
      this.namespace, this.spec := namespace, spec;
    }
  }

  const FILE_SYSTEM_ID := "FileSystemID"
  const SECURITY_GROUPS := "SecurityGroups"
  const SUBNET_ID := "SubnetID"

  // ---------------------------------------------------------------- specification

  type GroupList = Option<seq<Option<string>>>

  /** A nil list has no elements. */
  function Listed(groups: GroupList): seq<Option<string>> {
    if groups.Some? then groups.value else []
  }

  function Groups(spec: MountTargetSpec): seq<Option<string>> {
    Listed(spec.securityGroups)
  }

  /** The reads are numbered: the file system, then the groups in order, then the subnet. */
  function GroupRead(i: nat): nat { i + 1 }

  function SubnetRead(spec: MountTargetSpec): nat { |spec.securityGroupRefs| + 1 }

  function Pointers(ids: seq<string>): seq<Option<string>> {
    seq(|ids|, i requires 0 <= i < |ids| => Some(ids[i]))
  }

  function Appended(groups: GroupList, ids: seq<string>): GroupList {
    if ids == [] then groups else Some(Listed(groups) + Pointers(ids))
  }

  lemma AppendOneMore(groups: GroupList, ids: seq<string>, id: string)
    ensures Appended(groups, ids + [id]) == Some(Listed(Appended(groups, ids)) + [Some(id)])
  {
    assert Pointers(ids + [id]) == Pointers(ids) + [Some(id)];
    if ids != [] {
      assert Listed(groups) + (Pointers(ids) + [Some(id)]) == (Listed(groups) + Pointers(ids)) + [Some(id)];
    } else {
      assert ids + [id] == [id] && Pointers([id]) == [Some(id)];
    }
  }

  lemma ListedAppended(groups: GroupList, ids: seq<string>)
    ensures Listed(Appended(groups, ids)) == Listed(groups) + Pointers(ids)
  {
  }

  /** What the first `n` security-group references yield: the identifiers found before the first error. */
  datatype Gains = Gains(ids: seq<string>, hasReferences: bool, error: Option<RefError>)

  ghost function GroupGains(c: Cluster, owner: string, refs: seq<Option<Ref>>, n: nat): Gains
    requires n <= |refs|
  {
    if n == 0 then Gains([], false, None) else
    var before := GroupGains(c, owner, refs, n - 1);
    if before.error.Some? || !HasFrom(refs[n - 1]) then before else
    match Follow(c, GroupRead(n - 1), SecurityGroupKind, owner, SECURITY_GROUPS, refs[n - 1].value.from.value)
    case Failed(e) => Gains(before.ids, true, Some(e))
    case Identifier(id) => Gains(before.ids + [id], true, None)
  }

  function ValidationError(spec: MountTargetSpec): Option<RefError> {
    if spec.fileSystemRef.Some? && spec.fileSystemID.Some? then Some(RefAndIDGiven(FILE_SYSTEM_ID))
    else if spec.fileSystemRef.None? && spec.fileSystemID.None? then Some(RefOrIDRequired(FILE_SYSTEM_ID))
    else if |spec.securityGroupRefs| > 0 && |Groups(spec)| > 0 then Some(RefAndIDGiven(SECURITY_GROUPS))
    else if spec.subnetRef.Some? && spec.subnetID.Some? then Some(RefAndIDGiven(SUBNET_ID))
    else if spec.subnetRef.None? && spec.subnetID.None? then Some(RefOrIDRequired(SUBNET_ID))
    else None
  }

  datatype Result = Result(spec: MountTargetSpec, hasReferences: bool, error: Option<RefError>)

  /** The whole resolution. A validation error is reported only when every reference resolved. */
  ghost function Resolved(c: Cluster, owner: string, spec: MountTargetSpec): Result {
    var f := ResolvedField(c, 0, FileSystemKind, owner, FILE_SYSTEM_ID, spec.fileSystemRef, spec.fileSystemID);
    var spec1 := spec.(fileSystemID := f.id);
    if f.error.Some? then Result(spec1, f.hasReferences, f.error) else
    var g := GroupGains(c, owner, spec.securityGroupRefs, |spec.securityGroupRefs|);
    var spec2 := spec1.(securityGroups := Appended(spec.securityGroups, g.ids));
    if g.error.Some? then Result(spec2, f.hasReferences || g.hasReferences, g.error) else
    var s := ResolvedField(c, SubnetRead(spec), SubnetKind, owner, SUBNET_ID, spec.subnetRef, spec.subnetID);
    var spec3 := spec2.(subnetID := s.id);
    Result(spec3, f.hasReferences || g.hasReferences || s.hasReferences,
           if s.error.Some? then s.error else ValidationError(spec))
  }

  function Cleared(spec: MountTargetSpec): MountTargetSpec {
    spec.(fileSystemID := ClearedField(spec.fileSystemRef, spec.fileSystemID),
          securityGroups := if |spec.securityGroupRefs| > 0 then None else spec.securityGroups,
          subnetID := ClearedField(spec.subnetRef, spec.subnetID))
  }

  // ---------------------------------------------------------------- the code

  method ValidateReferenceFields(ko: MountTarget) returns (err: Option<RefError>)
    ensures err == ValidationError(ko.spec)
  {
    var spec := ko.spec;
    if spec.fileSystemRef.Some? && spec.fileSystemID.Some? {
      return Some(RefAndIDGiven(FILE_SYSTEM_ID));
    }
    if spec.fileSystemRef.None? && spec.fileSystemID.None? {
      return Some(RefOrIDRequired(FILE_SYSTEM_ID));
    }
    if |spec.securityGroupRefs| > 0 && spec.securityGroups.Some? && |spec.securityGroups.value| > 0 {
      return Some(RefAndIDGiven(SECURITY_GROUPS));
    }
    if spec.subnetRef.Some? && spec.subnetID.Some? {
      return Some(RefAndIDGiven(SUBNET_ID));
    }
    if spec.subnetRef.None? && spec.subnetID.None? {
      return Some(RefOrIDRequired(SUBNET_ID));
    }
    return None;
  }

  method ResolveReferenceForFileSystemID(c: Cluster, ko: MountTarget)
    returns (hasReferences: bool, err: Option<RefError>)
    modifies ko
    ensures var f := ResolvedField(c, 0, FileSystemKind, ko.namespace, FILE_SYSTEM_ID, old(ko.spec).fileSystemRef,
            old(ko.spec).fileSystemID);
            ko.spec == old(ko.spec).(fileSystemID := f.id) && hasReferences == f.hasReferences && err == f.error
  {
    hasReferences := false;
    if ko.spec.fileSystemRef.Some? && ko.spec.fileSystemRef.value.from.Some? {
      hasReferences := true;
      var found := FollowReference(c, 0, FileSystemKind, ko.namespace, FILE_SYSTEM_ID,
              ko.spec.fileSystemRef.value.from.value);
      if found.Failed? {
        return hasReferences, Some(found.error);
      }
      ko.spec := ko.spec.(fileSystemID := Some(found.id));
    }
    return hasReferences, None;
  }

  method ResolveReferenceForSecurityGroups(c: Cluster, ko: MountTarget)
    returns (hasReferences: bool, err: Option<RefError>)
    modifies ko
    ensures var refs := old(ko.spec).securityGroupRefs;
            var g := GroupGains(c, ko.namespace, refs, |refs|);
            && ko.spec == old(ko.spec).(securityGroups := Appended(old(ko.spec).securityGroups, g.ids))
            && hasReferences == g.hasReferences && err == g.error
  {
    hasReferences := false;
    var refs := ko.spec.securityGroupRefs;
    for i := 0 to |refs|
      invariant var g := GroupGains(c, ko.namespace, refs, i);
                && g.error.None? && hasReferences == g.hasReferences
                && ko.spec == old(ko.spec).(securityGroups := Appended(old(ko.spec).securityGroups, g.ids))
    {
      if refs[i].Some? && refs[i].value.from.Some? {
        hasReferences := true;
        var found := FollowReference(c, GroupRead(i), SecurityGroupKind, ko.namespace, SECURITY_GROUPS,
                refs[i].value.from.value);
        if found.Failed? {
          ErrorStops(c, ko.namespace, refs, i + 1, |refs|);
          return hasReferences, Some(found.error);
        }
        if ko.spec.securityGroups.None? {
          ko.spec := ko.spec.(securityGroups := Some([]));
        }
        ko.spec := ko.spec.(securityGroups := Some(ko.spec.securityGroups.value + [Some(found.id)]));
        AppendOneMore(old(ko.spec).securityGroups, GroupGains(c, ko.namespace, refs, i).ids, found.id);
      }
    }
    return hasReferences, None;
  }

  method ResolveReferenceForSubnetID(c: Cluster, ko: MountTarget) returns (hasReferences: bool, err: Option<RefError>)
    modifies ko
    ensures var s := ResolvedField(c, SubnetRead(old(ko.spec)), SubnetKind, ko.namespace, SUBNET_ID,
            old(ko.spec).subnetRef, old(ko.spec).subnetID);
            ko.spec == old(ko.spec).(subnetID := s.id) && hasReferences == s.hasReferences && err == s.error
  {
    hasReferences := false;
    if ko.spec.subnetRef.Some? && ko.spec.subnetRef.value.from.Some? {
      hasReferences := true;
      var found := FollowReference(c, SubnetRead(ko.spec), SubnetKind, ko.namespace, SUBNET_ID,
              ko.spec.subnetRef.value.from.value);
      if found.Failed? {
        return hasReferences, Some(found.error);
      }
      ko.spec := ko.spec.(subnetID := Some(found.id));
    }
    return hasReferences, None;
  }

  /** Works on the object it is given: the result is that object, not a copy. */
  method ResolveReferences(c: Cluster, ko: MountTarget)
    returns (res: MountTarget, resourceHasReferences: bool, err: Option<RefError>)
    modifies ko
    ensures res == ko
    ensures Result(ko.spec, resourceHasReferences, err) == Resolved(c, ko.namespace, old(ko.spec))
  {
    resourceHasReferences := false;
    err := ValidateReferenceFields(ko);
    var fieldHasReferences, fieldErr := ResolveReferenceForFileSystemID(c, ko);
    if fieldErr.Some? {
      return ko, resourceHasReferences || fieldHasReferences, fieldErr;
    }
    resourceHasReferences := resourceHasReferences || fieldHasReferences;
    fieldHasReferences, fieldErr := ResolveReferenceForSecurityGroups(c, ko);
    if fieldErr.Some? {
      return ko, resourceHasReferences || fieldHasReferences, fieldErr;
    }
    resourceHasReferences := resourceHasReferences || fieldHasReferences;
    fieldHasReferences, fieldErr := ResolveReferenceForSubnetID(c, ko);
    if fieldErr.Some? {
      return ko, resourceHasReferences || fieldHasReferences, fieldErr;
    }
    resourceHasReferences := resourceHasReferences || fieldHasReferences;
    return ko, resourceHasReferences, err;
  }

  /** Leaves its argument alone: the method modifies nothing that existed. */
  method ClearResolvedReferences(res: MountTarget) returns (cleared: MountTarget)
    ensures fresh(cleared) && cleared.namespace == res.namespace
    ensures cleared.spec == Cleared(res.spec)
  {
    var ko := new MountTarget(res.namespace, res.spec);
    if ko.spec.fileSystemRef.Some? {
      ko.spec := ko.spec.(fileSystemID := None);
    }
    if |ko.spec.securityGroupRefs| > 0 {
      ko.spec := ko.spec.(securityGroups := None);
    }
    if ko.spec.subnetRef.Some? {
      ko.spec := ko.spec.(subnetID := None);
    }
    return ko;
  }

  // ---------------------------------------------------------------- clearing undoes resolving

  /** Equal, but for a group list that is nil in one and empty in the other. */
  predicate SameSpec(a: MountTargetSpec, b: MountTargetSpec) {
    a.(securityGroups := None) == b.(securityGroups := None) && Groups(a) == Groups(b)
  }

  predicate NoRefWithID(spec: MountTargetSpec) {
    && !RefAndID(spec.fileSystemRef, spec.fileSystemID)
    && !(|spec.securityGroupRefs| > 0 && |Groups(spec)| > 0)
    && !RefAndID(spec.subnetRef, spec.subnetID)
  }

  /** Whatever ResolveReferences did, and wherever it failed, clearing its result gives the original
      back exactly when no field had both a reference and a value. */
  lemma ClearUndoesResolve(c: Cluster, owner: string, spec: MountTargetSpec)
    ensures SameSpec(Cleared(Resolved(c, owner, spec).spec), spec) <==> NoRefWithID(spec)
    ensures Cleared(Resolved(c, owner, spec).spec) == Cleared(spec)
  {
  }

  /** Validation passes when, besides, the two required identifiers are given in one way or the other;
      so a validated object is always restored. Otherwise the first wrong field is named. */
  lemma ValidatedSpecIsRestored(c: Cluster, owner: string, spec: MountTargetSpec)
    ensures ValidationError(spec).None? <==>
              && NoRefWithID(spec)
              && (spec.fileSystemRef.Some? || spec.fileSystemID.Some?)
              && (spec.subnetRef.Some? || spec.subnetID.Some?)
    ensures ValidationError(spec).None? ==> SameSpec(Cleared(Resolved(c, owner, spec).spec), spec)
    ensures var fileSystem := spec.fileSystemRef.Some? <==> spec.fileSystemID.None?;
            var groups := spec.securityGroupRefs == [] || Groups(spec) == [];
            && (ValidationError(spec) == Some(RefAndIDGiven("FileSystemID")) <==>
                  spec.fileSystemRef.Some? && spec.fileSystemID.Some?)
            && (ValidationError(spec) == Some(RefOrIDRequired("FileSystemID")) <==>
                  spec.fileSystemRef.None? && spec.fileSystemID.None?)
            && (ValidationError(spec) == Some(RefAndIDGiven("SecurityGroups")) <==> fileSystem && !groups)
            && (ValidationError(spec) == Some(RefAndIDGiven("SubnetID")) <==>
                  fileSystem && groups && spec.subnetRef.Some? && spec.subnetID.Some?)
            && (ValidationError(spec) == Some(RefOrIDRequired("SubnetID")) <==>
                  fileSystem && groups && spec.subnetRef.None? && spec.subnetID.None?)
  {
  }

  /** With an unchanged cluster, resolve-clear-resolve gives what resolving once gave. */
  lemma ResolveClearResolve(c: Cluster, owner: string, spec: MountTargetSpec)
    requires NoRefWithID(spec)
    ensures var once := Resolved(c, owner, spec);
            var again := Resolved(c, owner, Cleared(once.spec));
            SameSpec(again.spec, once.spec) && again.hasReferences == once.hasReferences && again.error == once.error
  {
    ClearUndoesResolve(c, owner, spec);
  }

  // ---------------------------------------------------------------- what is written, and the flag

  predicate AnyFrom(spec: MountTargetSpec) {
    HasFrom(spec.fileSystemRef) || HasFrom(spec.subnetRef)
    || exists i :: 0 <= i < |spec.securityGroupRefs| && HasFrom(spec.securityGroupRefs[i])
  }

  /** The positions of the references that name something, in order. */
  function Followed(refs: seq<Option<Ref>>): seq<nat> {
    if refs == [] then [] else
    var n := |refs| - 1;
    if HasFrom(refs[n]) then Followed(refs[..n]) + [n] else Followed(refs[..n])
  }

  /** Once the loop has met an error nothing more is gained. */
  lemma {:induction false} ErrorStops(c: Cluster, owner: string, refs: seq<Option<Ref>>, i: nat, n: nat)
    requires i <= n <= |refs| && GroupGains(c, owner, refs, i).error.Some?
    ensures GroupGains(c, owner, refs, n) == GroupGains(c, owner, refs, i)
  {
    if i < n {
      ErrorStops(c, owner, refs, i, n - 1);
    }
  }

  /** The i-th group reference names something, and following it gave `id`. */
  ghost predicate GroupNamed(c: Cluster, owner: string, refs: seq<Option<Ref>>, i: nat, id: string) {
    i < |refs| && NamedBy(c, GroupRead(i), SecurityGroupKind, owner, refs[i], Some(id))
  }

  ghost predicate GroupFailed(c: Cluster, owner: string, refs: seq<Option<Ref>>, i: nat, e: RefError) {
    && i < |refs| && HasFrom(refs[i])
    && Follow(c, GroupRead(i), SecurityGroupKind, owner, SECURITY_GROUPS, refs[i].value.from.value) == Failed(e)
  }

  /** The identifiers are those of the references that name something, in order: of all of them, or, if
      there is an error, of all before the one that could not be followed and gave the error. */
  ghost predicate GainedInOrder(c: Cluster, owner: string, refs: seq<Option<Ref>>, followed: seq<nat>, g: Gains) {
    && |g.ids| <= |followed|
    && (forall j :: 0 <= j < |g.ids| ==> GroupNamed(c, owner, refs, followed[j], g.ids[j]))
    && (g.error.None? ==> |g.ids| == |followed|)
    && (g.error.Some? ==> |g.ids| < |followed| && GroupFailed(c, owner, refs, followed[|g.ids|], g.error.value))
    && (g.hasReferences <==> followed != [])
  }

  lemma {:induction false} FirstGains(c: Cluster, owner: string, refs: seq<Option<Ref>>, n: nat)
    requires n <= |refs|
    ensures GainedInOrder(c, owner, refs, Followed(refs[..n]), GroupGains(c, owner, refs, n))
  {
    if n > 0 {
      assert refs[..n][..n - 1] == refs[..n - 1];
      FirstGains(c, owner, refs, n - 1);
    }
  }

  lemma GainsAreNamed(c: Cluster, owner: string, refs: seq<Option<Ref>>)
    ensures GainedInOrder(c, owner, refs, Followed(refs), GroupGains(c, owner, refs, |refs|))
  {
    FirstGains(c, owner, refs, |refs|);
    assert refs[..|refs|] == refs;
  }

  lemma {:induction false} FollowedInRange(refs: seq<Option<Ref>>)
    ensures forall j :: 0 <= j < |Followed(refs)| ==> Followed(refs)[j] < |refs| && HasFrom(refs[Followed(refs)[j]])
  {
    if refs != [] {
      FollowedInRange(refs[..|refs| - 1]);
    }
  }

  lemma {:induction false} FollowedHolds(refs: seq<Option<Ref>>, i: nat)
    requires i < |refs| && HasFrom(refs[i])
    ensures i in Followed(refs)
  {
    if i < |refs| - 1 {
      FollowedHolds(refs[..|refs| - 1], i);
    }
  }

  lemma {:induction false} FollowedAscends(refs: seq<Option<Ref>>)
    ensures forall j, k :: 0 <= j < k < |Followed(refs)| ==> Followed(refs)[j] < Followed(refs)[k]
  {
    if refs != [] {
      FollowedAscends(refs[..|refs| - 1]);
      FollowedInRange(refs[..|refs| - 1]);
    }
  }

  /** `Followed` lists exactly the positions of references with a From, ascending. */
  lemma FollowedMeans(refs: seq<Option<Ref>>)
    ensures forall i: nat :: i in Followed(refs) <==> i < |refs| && HasFrom(refs[i])
    ensures forall j, k :: 0 <= j < k < |Followed(refs)| ==> Followed(refs)[j] < Followed(refs)[k]
  {
    FollowedInRange(refs);
    FollowedAscends(refs);
    forall i: nat | i < |refs| && HasFrom(refs[i]) ensures i in Followed(refs) {
      FollowedHolds(refs, i);
    }
  }

  /** The flag tells exactly whether some reference names something, whatever the outcome. */
  lemma FlagMeansSomeFrom(c: Cluster, owner: string, spec: MountTargetSpec)
    ensures Resolved(c, owner, spec).hasReferences <==> AnyFrom(spec)
  {
    var refs := spec.securityGroupRefs;
    GainsAreNamed(c, owner, refs);
    FollowedMeans(refs);
    if Followed(refs) != [] {
      assert Followed(refs)[0] in Followed(refs);
    }
  }

  /** The groups are appended, unless the file system reference failed before. Besides the three fields
      nothing changes. */
  lemma GroupsWritten(c: Cluster, owner: string, spec: MountTargetSpec) returns (ids: seq<string>)
    ensures var r := Resolved(c, owner, spec).spec;
            var g := GroupGains(c, owner, spec.securityGroupRefs, |spec.securityGroupRefs|);
            && Groups(r) == Groups(spec) + Pointers(ids)
            && (ids == [] || ids == g.ids)
            && r == spec.(fileSystemID := r.fileSystemID, securityGroups := r.securityGroups, subnetID := r.subnetID)
            && (AllFollowed(c, owner, spec) ==> ids == g.ids && g.error.None?)
  {
    ErrorsOfResolution(c, owner, spec);
    if ResolvedField(c, 0, FileSystemKind, owner, FILE_SYSTEM_ID, spec.fileSystemRef, spec.fileSystemID).error.Some? {
      ids := [];
    } else {
      ids := GroupGains(c, owner, spec.securityGroupRefs, |spec.securityGroupRefs|).ids;
      ListedAppended(spec.securityGroups, ids);
    }
  }

  /** The group list grows by the identifiers of the references that name something, in order, up to
      the first that cannot be followed; by all of them if every reference of the object was followed.
      Besides the three fields nothing changes. */
  lemma WrittenGroupsAreNamed(c: Cluster, owner: string, spec: MountTargetSpec) returns (ids: seq<string>)
    ensures var r := Resolved(c, owner, spec).spec;
            var followed := Followed(spec.securityGroupRefs);
            && Groups(r) == Groups(spec) + Pointers(ids)
            && |ids| <= |followed|
            && (forall j :: 0 <= j < |ids| ==> GroupNamed(c, owner, spec.securityGroupRefs, followed[j], ids[j]))
            && r == spec.(fileSystemID := r.fileSystemID, securityGroups := r.securityGroups, subnetID := r.subnetID)
    ensures AllFollowed(c, owner, spec) ==> |ids| == |Followed(spec.securityGroupRefs)|
  {
    GainsAreNamed(c, owner, spec.securityGroupRefs);
    ids := GroupsWritten(c, owner, spec);
  }

  /** No error but possibly a validation error: every reference was followed. */
  ghost predicate AllFollowed(c: Cluster, owner: string, spec: MountTargetSpec) {
    var e := Resolved(c, owner, spec).error;
    e.None? || e == ValidationError(spec)
  }

  /** A single field keeps its value, or gets the identifier its reference names; the latter if every
      reference of the object was followed and this one names something. */
  lemma WrittenFieldsAreNamed(c: Cluster, owner: string, spec: MountTargetSpec)
    ensures var r := Resolved(c, owner, spec).spec;
            && (r.fileSystemID == spec.fileSystemID
                || NamedBy(c, 0, FileSystemKind, owner, spec.fileSystemRef, r.fileSystemID))
            && (r.subnetID == spec.subnetID
                || NamedBy(c, SubnetRead(spec), SubnetKind, owner, spec.subnetRef, r.subnetID))
    ensures AllFollowed(c, owner, spec) ==>
              var r := Resolved(c, owner, spec).spec;
              && (HasFrom(spec.fileSystemRef) ==>
                    NamedBy(c, 0, FileSystemKind, owner, spec.fileSystemRef, r.fileSystemID))
              && (HasFrom(spec.subnetRef) ==>
                    NamedBy(c, SubnetRead(spec), SubnetKind, owner, spec.subnetRef, r.subnetID))
  {
    ErrorsOfResolution(c, owner, spec);
  }

  /** The first reference that cannot be followed ends the resolution: what comes after it is as before. */
  lemma FirstFailureEndsResolution(c: Cluster, owner: string, spec: MountTargetSpec)
    ensures var res := Resolved(c, owner, spec);
            && (CannotFollow(c, 0, FileSystemKind, owner, spec.fileSystemRef) ==> res.error.Some? && res.spec == spec)
            && ((exists i :: 0 <= i < |spec.securityGroupRefs|
                             && CannotFollow(c, GroupRead(i), SecurityGroupKind, owner, spec.securityGroupRefs[i]))
                ==> res.error.Some? && res.spec.subnetID == spec.subnetID)
            && (CannotFollow(c, SubnetRead(spec), SubnetKind, owner, spec.subnetRef) ==>
                  res.error.Some? && res.spec.subnetID == spec.subnetID)
  {
    var refs := spec.securityGroupRefs;
    forall i | 0 <= i < |refs| && CannotFollow(c, GroupRead(i), SecurityGroupKind, owner, refs[i])
      ensures GroupGains(c, owner, refs, |refs|).error.Some?
    {
      assert GroupGains(c, owner, refs, i + 1).error.Some?;
      ErrorStops(c, owner, refs, i + 1, |refs|);
    }
  }

  /** A reference that cannot be followed never looks like a validation error. */
  lemma ErrorsOfResolution(c: Cluster, owner: string, spec: MountTargetSpec)
    ensures var e := GroupGains(c, owner, spec.securityGroupRefs, |spec.securityGroupRefs|).error;
            e.Some? ==> e != ValidationError(spec)
  {
    GainErrors(c, owner, spec.securityGroupRefs, |spec.securityGroupRefs|);
  }

  lemma {:induction false} GainErrors(c: Cluster, owner: string, refs: seq<Option<Ref>>, n: nat)
    requires n <= |refs|
    ensures var e := GroupGains(c, owner, refs, n).error;
            e.Some? ==> !e.value.RefAndIDGiven? && !e.value.RefOrIDRequired?
  {
    if n > 0 {
      GainErrors(c, owner, refs, n - 1);
    }
  }

  /** Resolving a second time, nothing having changed: the groups are appended again, and a
      validation error is reported exactly when the first resolution followed a reference. */
  lemma ResolvingTwice(c: Cluster, owner: string, spec: MountTargetSpec) returns (ids: seq<string>)
    requires Resolved(c, owner, spec).error.None?
    ensures |ids| == |Followed(spec.securityGroupRefs)|
    ensures var once := Resolved(c, owner, spec);
            var twice := Resolved(c, owner, once.spec);
            && Groups(once.spec) == Groups(spec) + Pointers(ids)
            && Groups(twice.spec) == Groups(spec) + Pointers(ids) + Pointers(ids)
            && twice.spec.fileSystemID == once.spec.fileSystemID && twice.spec.subnetID == once.spec.subnetID
            && (twice.error.Some? <==> once.hasReferences)
            && (twice.error.Some? ==> twice.error.value.RefAndIDGiven?)
  {
    GainsAreNamed(c, owner, spec.securityGroupRefs);
    ids := GroupGains(c, owner, spec.securityGroupRefs, |spec.securityGroupRefs|).ids;
    var once := Resolved(c, owner, spec).spec;
    ListedAppended(spec.securityGroups, ids);
    ListedAppended(once.securityGroups, ids);
    TwiceFields(c, owner, spec);
    assert Groups(once) == Groups(spec) + Pointers(ids);
    assert |Pointers(ids)| == |ids|;
  }

  lemma TwiceFields(c: Cluster, owner: string, spec: MountTargetSpec)
    requires Resolved(c, owner, spec).error.None?
    ensures var once := Resolved(c, owner, spec);
            var twice := Resolved(c, owner, once.spec);
            var ids := GroupGains(c, owner, spec.securityGroupRefs, |spec.securityGroupRefs|).ids;
            && once.spec.securityGroups == Appended(spec.securityGroups, ids)
            && twice.spec == once.spec.(securityGroups := Appended(once.spec.securityGroups, ids))
            && twice.error == ValidationError(once.spec)
            && ValidationError(spec).None?
            && (once.hasReferences ==> ids != [] || HasFrom(spec.fileSystemRef) || HasFrom(spec.subnetRef))
            && (HasFrom(spec.fileSystemRef) ==> once.hasReferences && once.spec.fileSystemID.Some?)
            && (HasFrom(spec.subnetRef) ==> once.hasReferences && once.spec.subnetID.Some?)
            && (ids != [] ==> once.hasReferences && |spec.securityGroupRefs| > 0)
            && (!HasFrom(spec.fileSystemRef) ==> once.spec.fileSystemID == spec.fileSystemID)
            && (!HasFrom(spec.subnetRef) ==> once.spec.subnetID == spec.subnetID)
  {
    GainsAreNamed(c, owner, spec.securityGroupRefs);
  }
}
