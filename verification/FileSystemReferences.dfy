/** The three single-valued references of a FileSystem, one of them optional
    (`pkg/resource/file_system/references.go`). */
module FileSystemReferences {
  import opened Nilable
  import opened AckTypes
  import opened References
  import opened FileSystems

  const BUCKET := "Bucket"
  const KMS_KEY_ID := "KMSKeyID"
  const ROLE_ARN := "RoleARN"

  // ---------------------------------------------------------------- specification

  function ValidationError(spec: FileSystemSpec): Option<RefError> {
    if spec.bucketRef.Some? && spec.bucket.Some? then Some(RefAndIDGiven(BUCKET))
    else if spec.bucketRef.None? && spec.bucket.None? then Some(RefOrIDRequired(BUCKET))
    else if spec.kmsKeyRef.Some? && spec.kmsKeyID.Some? then Some(RefAndIDGiven(KMS_KEY_ID))
    else if spec.roleRef.Some? && spec.roleARN.Some? then Some(RefAndIDGiven(ROLE_ARN))
    else if spec.roleRef.None? && spec.roleARN.None? then Some(RefOrIDRequired(ROLE_ARN))
    else None
  }

  datatype Result = Result(spec: FileSystemSpec, hasReferences: bool, error: Option<RefError>)

  ghost function Resolved(c: Cluster, owner: string, spec: FileSystemSpec): Result {
    var b := ResolvedField(c, 0, BucketKind, owner, BUCKET, spec.bucketRef, spec.bucket);
    var spec1 := spec.(bucket := b.id);
    if b.error.Some? then Result(spec1, b.hasReferences, b.error) else
    var k := ResolvedField(c, 1, KeyKind, owner, KMS_KEY_ID, spec.kmsKeyRef, spec.kmsKeyID);
    var spec2 := spec1.(kmsKeyID := k.id);
    if k.error.Some? then Result(spec2, b.hasReferences || k.hasReferences, k.error) else
    var r := ResolvedField(c, 2, RoleKind, owner, ROLE_ARN, spec.roleRef, spec.roleARN);
    Result(spec2.(roleARN := r.id), b.hasReferences || k.hasReferences || r.hasReferences,
           if r.error.Some? then r.error else ValidationError(spec))
  }

  function Cleared(spec: FileSystemSpec): FileSystemSpec {
    spec.(bucket := ClearedField(spec.bucketRef, spec.bucket),
          kmsKeyID := ClearedField(spec.kmsKeyRef, spec.kmsKeyID),
          roleARN := ClearedField(spec.roleRef, spec.roleARN))
  }

  // ---------------------------------------------------------------- the code

  method ValidateReferenceFields(ko: FileSystem) returns (err: Option<RefError>)
    ensures err == ValidationError(ko.spec)
  {
    var spec := ko.spec;
    if spec.bucketRef.Some? && spec.bucket.Some? {
      return Some(RefAndIDGiven(BUCKET));
    }
    if spec.bucketRef.None? && spec.bucket.None? {
      return Some(RefOrIDRequired(BUCKET));
    }
    if spec.kmsKeyRef.Some? && spec.kmsKeyID.Some? {
      return Some(RefAndIDGiven(KMS_KEY_ID));
    }
    if spec.roleRef.Some? && spec.roleARN.Some? {
      return Some(RefAndIDGiven(ROLE_ARN));
    }
    if spec.roleRef.None? && spec.roleARN.None? {
      return Some(RefOrIDRequired(ROLE_ARN));
    }
    return None;
  }

  method ResolveReferences(c: Cluster, ko: FileSystem)
    returns (res: FileSystem, resourceHasReferences: bool, err: Option<RefError>)
    modifies ko`spec
    ensures res == ko
    ensures Result(ko.spec, resourceHasReferences, err) == Resolved(c, ko.namespace, old(ko.spec))
  {
    err := ValidateReferenceFields(ko);
    resourceHasReferences := false;
    if ko.spec.bucketRef.Some? && ko.spec.bucketRef.value.from.Some? {
      resourceHasReferences := true;
      var found := FollowReference(c, 0, BucketKind, ko.namespace, BUCKET, ko.spec.bucketRef.value.from.value);
      if found.Failed? {
        return ko, resourceHasReferences, Some(found.error);
      }
      ko.spec := ko.spec.(bucket := Some(found.id));
    }
    if ko.spec.kmsKeyRef.Some? && ko.spec.kmsKeyRef.value.from.Some? {
      resourceHasReferences := true;
      var found := FollowReference(c, 1, KeyKind, ko.namespace, KMS_KEY_ID, ko.spec.kmsKeyRef.value.from.value);
      if found.Failed? {
        return ko, resourceHasReferences, Some(found.error);
      }
      ko.spec := ko.spec.(kmsKeyID := Some(found.id));
    }
    if ko.spec.roleRef.Some? && ko.spec.roleRef.value.from.Some? {
      resourceHasReferences := true;
      var found := FollowReference(c, 2, RoleKind, ko.namespace, ROLE_ARN, ko.spec.roleRef.value.from.value);
      if found.Failed? {
        return ko, resourceHasReferences, Some(found.error);
      }
      ko.spec := ko.spec.(roleARN := Some(found.id));
    }
    return ko, resourceHasReferences, err;
  }

  method ClearResolvedReferences(res: FileSystem) returns (cleared: FileSystem)
    ensures fresh(cleared) && cleared.namespace == res.namespace && cleared.status == res.status
    ensures cleared.spec == Cleared(res.spec)
    ensures Values(cleared.conditions) == Values(res.conditions) && forall c :: c in cleared.conditions ==> fresh(c)
  {
    var ko := res.DeepCopy();
    if ko.spec.bucketRef.Some? {
      ko.spec := ko.spec.(bucket := None);
    }
    if ko.spec.kmsKeyRef.Some? {
      ko.spec := ko.spec.(kmsKeyID := None);
    }
    if ko.spec.roleRef.Some? {
      ko.spec := ko.spec.(roleARN := None);
    }
    return ko;
  }

  // ---------------------------------------------------------------- properties

  predicate NoRefWithID(spec: FileSystemSpec) {
    && !RefAndID(spec.bucketRef, spec.bucket)
    && !RefAndID(spec.kmsKeyRef, spec.kmsKeyID)
    && !RefAndID(spec.roleRef, spec.roleARN)
  }

  predicate AnyFrom(spec: FileSystemSpec) {
    HasFrom(spec.bucketRef) || HasFrom(spec.kmsKeyRef) || HasFrom(spec.roleRef)
  }

  /** Clearing restores the original, wherever resolution stopped, exactly when no field had both a
      reference and a value; the flag is set exactly when some reference names something; and with
      an unchanged cluster resolving the restored object repeats the first resolution. */
  lemma ClearUndoesResolve(c: Cluster, owner: string, spec: FileSystemSpec)
    ensures var once := Resolved(c, owner, spec);
            && (Cleared(once.spec) == spec <==> NoRefWithID(spec))
            && (ValidationError(spec).None? <==> NoRefWithID(spec) && (spec.bucketRef.Some? || spec.bucket.Some?)
                                                 && (spec.roleRef.Some? || spec.roleARN.Some?))
            && (once.hasReferences <==> AnyFrom(spec))
            && (NoRefWithID(spec) ==> Resolved(c, owner, Cleared(once.spec)) == once)
  {
  }

  /** A validation error names the first field that has both a reference and a value, or neither although
      one is required. */
  lemma ValidationErrorMeans(spec: FileSystemSpec)
    ensures var bucket := spec.bucketRef.Some? <==> spec.bucket.None?;
            var key := spec.kmsKeyRef.None? || spec.kmsKeyID.None?;
            && (ValidationError(spec) == Some(RefAndIDGiven("Bucket")) <==> spec.bucketRef.Some? && spec.bucket.Some?)
            && (ValidationError(spec) == Some(RefOrIDRequired("Bucket")) <==> spec.bucketRef.None? && spec.bucket.None?)
            && (ValidationError(spec) == Some(RefAndIDGiven("KMSKeyID")) <==> bucket && !key)
            && (ValidationError(spec) == Some(RefAndIDGiven("RoleARN")) <==>
                  bucket && key && spec.roleRef.Some? && spec.roleARN.Some?)
            && (ValidationError(spec) == Some(RefOrIDRequired("RoleARN")) <==>
                  bucket && key && spec.roleRef.None? && spec.roleARN.None?)
            && (ValidationError(spec).None? <==> bucket && key && (spec.roleRef.Some? <==> spec.roleARN.None?))
  {
  }

  /** Each of the three fields keeps its value, or gets the target of the usable bucket, key or role that its
      own reference names; if every reference was followed, each that names something got its target.
      Nothing else changes. */
  lemma WrittenFieldsAreNamed(c: Cluster, owner: string, spec: FileSystemSpec)
    ensures var res := Resolved(c, owner, spec);
            var r := res.spec;
            && r == spec.(bucket := r.bucket, kmsKeyID := r.kmsKeyID, roleARN := r.roleARN)
            && (r.bucket == spec.bucket || NamedBy(c, 0, BucketKind, owner, spec.bucketRef, r.bucket))
            && (r.kmsKeyID == spec.kmsKeyID || NamedBy(c, 1, KeyKind, owner, spec.kmsKeyRef, r.kmsKeyID))
            && (r.roleARN == spec.roleARN || NamedBy(c, 2, RoleKind, owner, spec.roleRef, r.roleARN))
            && (res.error.None? || res.error.value.RefAndIDGiven? || res.error.value.RefOrIDRequired? ==>
                  && (HasFrom(spec.bucketRef) ==> NamedBy(c, 0, BucketKind, owner, spec.bucketRef, r.bucket))
                  && (HasFrom(spec.kmsKeyRef) ==> NamedBy(c, 1, KeyKind, owner, spec.kmsKeyRef, r.kmsKeyID))
                  && (HasFrom(spec.roleRef) ==> NamedBy(c, 2, RoleKind, owner, spec.roleRef, r.roleARN)))
  {
  }

  /** The first reference that cannot be followed ends the resolution: its field and those after it are as
      before, and the error is no validation error. */
  lemma FirstFailureEndsResolution(c: Cluster, owner: string, spec: FileSystemSpec)
    ensures var res := Resolved(c, owner, spec);
            var r := res.spec;
            var bucket := CannotFollow(c, 0, BucketKind, owner, spec.bucketRef);
            var key := CannotFollow(c, 1, KeyKind, owner, spec.kmsKeyRef);
            var role := CannotFollow(c, 2, RoleKind, owner, spec.roleRef);
            && (bucket ==> r == spec)
            && (key ==> r == spec.(bucket := r.bucket))
            && (role ==> r == spec.(bucket := r.bucket, kmsKeyID := r.kmsKeyID))
            && (bucket || key || role <==>
                  res.error.Some? && !res.error.value.RefAndIDGiven? && !res.error.value.RefOrIDRequired?)
  {
  }

  /** Resolving a resolved object reports a validation error exactly when a reference was followed. */
  lemma ResolvingTwice(c: Cluster, owner: string, spec: FileSystemSpec)
    requires Resolved(c, owner, spec).error.None?
    ensures var once := Resolved(c, owner, spec);
            var twice := Resolved(c, owner, once.spec);
            && twice.spec == once.spec
            && (twice.error.Some? <==> once.hasReferences)
            && (twice.error.Some? ==> twice.error.value.RefAndIDGiven?)
  {
  }
}
