/** AccessPoints: comparison over nested optional structures, update with drift detection, and the
    field mapping of create and read (`delta.go`, `hooks.go`, `sdk.go` of `pkg/resource/access_point`). */
module AccessPoints {
  import opened Nilable
  import opened AckTypes
  import opened OrderedTags
  import opened Service
  import opened TagSync
  import Deltas
  import opened Conditions

  datatype PosixUser = PosixUser(gid: Option<int64>, secondaryGIDs: Option<seq<Option<int64>>>, uid: Option<int64>)
  datatype CreationPermissions = CreationPermissions(ownerGID: Option<int64>, ownerUID: Option<int64>,
          permissions: Option<string>)
  datatype RootDirectory = RootDirectory(creationPermissions: Option<CreationPermissions>, path: Option<string>)

  datatype AccessPointSpec = AccessPointSpec(
    fileSystemID: Option<string>, fileSystemRef: Option<Ref>,
    posixUser: Option<PosixUser>, rootDirectory: Option<RootDirectory>, tags: Option<seq<Tag>>)

  datatype AccessPointStatus = AccessPointStatus(
    metadata: Option<ResourceMetadata>, id: Option<string>, name: Option<string>, ownerID: Option<string>,
    state: Option<string>)

  class AccessPoint {
    var spec: AccessPointSpec
    var status: AccessPointStatus
    var conditions: seq<Condition>

    constructor (spec: AccessPointSpec, status: AccessPointStatus, conditions: seq<Condition>)
      ensures this.spec == spec && this.status == status && this.conditions == conditions
    {
      this.spec, this.status, this.conditions := spec, status, conditions;
    }
  }

  /** A nil list has no tags. */
  function TagsOf(spec: AccessPointSpec): seq<Tag> {
    if spec.tags.Some? then spec.tags.value else []
  }

  // ---------------------------------------------------------------- agreement, level by level

  /** For every type that is compared through a pointer: which values are as good as nil. */
  datatype Blanks = Blanks(text: string -> bool, number: int64 -> bool, posix: PosixUser -> bool,
                           root: RootDirectory -> bool, permissions: CreationPermissions -> bool)

  predicate Same<T(==)>(a: T, b: T) { a == b }

  predicate AgreeText(bl: Blanks, a: Option<string>, b: Option<string>) {
    Deltas.Agree(bl.text, Same, a, b)
  }

  predicate AgreeNumber(bl: Blanks, a: Option<int64>, b: Option<int64>) {
    Deltas.Agree(bl.number, Same, a, b)
  }

  function GIDs(p: PosixUser): seq<Option<int64>> {
    if p.secondaryGIDs.Some? then p.secondaryGIDs.value else []
  }

  predicate SamePosix(bl: Blanks, a: PosixUser, b: PosixUser) {
    AgreeNumber(bl, a.gid, b.gid) && GIDs(a) == GIDs(b) && AgreeNumber(bl, a.uid, b.uid)
  }

  predicate AgreePosix(bl: Blanks, a: Option<PosixUser>, b: Option<PosixUser>) {
    Deltas.Agree(bl.posix, (x, y) => SamePosix(bl, x, y), a, b)
  }

  predicate SamePermissions(bl: Blanks, a: CreationPermissions, b: CreationPermissions) {
    && AgreeNumber(bl, a.ownerGID, b.ownerGID)
    && AgreeNumber(bl, a.ownerUID, b.ownerUID)
    && AgreeText(bl, a.permissions, b.permissions)
  }

  predicate AgreePermissions(bl: Blanks, a: Option<CreationPermissions>, b: Option<CreationPermissions>) {
    Deltas.Agree(bl.permissions, (x, y) => SamePermissions(bl, x, y), a, b)
  }

  predicate SameRoot(bl: Blanks, a: RootDirectory, b: RootDirectory) {
    AgreePermissions(bl, a.creationPermissions, b.creationPermissions) && AgreeText(bl, a.path, b.path)
  }

  predicate AgreeRoot(bl: Blanks, a: Option<RootDirectory>, b: Option<RootDirectory>) {
    Deltas.Agree(bl.root, (x, y) => SameRoot(bl, x, y), a, b)
  }

  /** The specs agree at every nested level. */
  predicate AgreeSpec(bl: Blanks, a: AccessPointSpec, b: AccessPointSpec) {
    && AgreeText(bl, a.fileSystemID, b.fileSystemID)
    && a.fileSystemRef == b.fileSystemRef
    && AgreePosix(bl, a.posixUser, b.posixUser)
    && AgreeRoot(bl, a.rootDirectory, b.rootDirectory)
    && ToMap(TagsOf(a)) == ToMap(TagsOf(b))
  }

  lemma AgreementIsReflexiveAndSymmetric(bl: Blanks, a: AccessPointSpec, b: AccessPointSpec)
    ensures AgreeSpec(bl, a, a)
    ensures AgreeSpec(bl, a, b) <==> AgreeSpec(bl, b, a)
  {
  }

  /** If no value is as good as nil, specs agree exactly when they are equal but for what tag maps do not
      show, and for a nil list of secondary group IDs that is empty in the other. */
  lemma AgreementMeansEquality(bl: Blanks, a: AccessPointSpec, b: AccessPointSpec)
    requires forall v :: !bl.text(v)
    requires forall v :: !bl.number(v)
    requires forall v :: !bl.posix(v)
    requires forall v :: !bl.root(v)
    requires forall v :: !bl.permissions(v)
    ensures AgreeSpec(bl, a, b) <==>
              && a == b.(tags := a.tags, posixUser := a.posixUser)
              && ToMap(TagsOf(a)) == ToMap(TagsOf(b))
              && (a.posixUser.Some? <==> b.posixUser.Some?)
              && (a.posixUser.Some? && b.posixUser.Some? ==>
                    && a.posixUser.value == b.posixUser.value.(secondaryGIDs := a.posixUser.value.secondaryGIDs)
                    && GIDs(a.posixUser.value) == GIDs(b.posixUser.value))
  {
    RootAgreementMeansEquality(bl, a.rootDirectory, b.rootDirectory);
    assert AgreeText(bl, a.fileSystemID, b.fileSystemID) <==> a.fileSystemID == b.fileSystemID;
    if a.posixUser.Some? && b.posixUser.Some? {
      var p, q := a.posixUser.value, b.posixUser.value;
      assert SamePosix(bl, p, q) <==> p == q.(secondaryGIDs := p.secondaryGIDs) && GIDs(p) == GIDs(q);
    }
  }

  lemma RootAgreementMeansEquality(bl: Blanks, a: Option<RootDirectory>, b: Option<RootDirectory>)
    requires forall v :: !bl.text(v)
    requires forall v :: !bl.number(v)
    requires forall v :: !bl.root(v)
    requires forall v :: !bl.permissions(v)
    ensures AgreeRoot(bl, a, b) <==> a == b
  {
    if a.Some? && b.Some? {
      var p, q := a.value.creationPermissions, b.value.creationPermissions;
      if p.Some? && q.Some? {
        assert SamePermissions(bl, p.value, q.value) <==> p.value == q.value;
      }
      assert AgreePermissions(bl, p, q) <==> p == q;
      assert SameRoot(bl, a.value, b.value) <==> a.value == b.value;
    }
  }

  // ---------------------------------------------------------------- the delta

  const FILE_SYSTEM_ID: Deltas.Path := [Deltas.Spec, Deltas.FileSystemID]
  const FILE_SYSTEM_REF: Deltas.Path := [Deltas.Spec, Deltas.FileSystemRef]
  const POSIX: Deltas.Path := [Deltas.Spec, Deltas.PosixUser]
  const ROOT: Deltas.Path := [Deltas.Spec, Deltas.RootDirectory]
  const PERMISSIONS: Deltas.Path := [Deltas.Spec, Deltas.RootDirectory, Deltas.CreationPermissions]
  const POSIX_GID: Deltas.Path := [Deltas.Spec, Deltas.PosixUser, Deltas.GID]
  const POSIX_SECONDARY_GIDS: Deltas.Path := [Deltas.Spec, Deltas.PosixUser, Deltas.SecondaryGIDs]
  const POSIX_UID: Deltas.Path := [Deltas.Spec, Deltas.PosixUser, Deltas.UID]
  const ROOT_PATH: Deltas.Path := [Deltas.Spec, Deltas.RootDirectory, Deltas.DirectoryPath]
  const PERMISSIONS_OWNER_GID: Deltas.Path :=
    [Deltas.Spec, Deltas.RootDirectory, Deltas.CreationPermissions, Deltas.OwnerGID]
  const PERMISSIONS_OWNER_UID: Deltas.Path :=
    [Deltas.Spec, Deltas.RootDirectory, Deltas.CreationPermissions, Deltas.OwnerUID]
  const PERMISSIONS_PERMISSIONS: Deltas.Path :=
    [Deltas.Spec, Deltas.RootDirectory, Deltas.CreationPermissions, Deltas.Permissions]
  const TAGS: Deltas.Path := [Deltas.Spec, Deltas.Tags]

  /** The structures to which a nested path applies are the pointed-to ones; elsewhere nothing nested is compared. */
  predicate PosixDiffersAt(bl: Blanks, p: Deltas.Path, a: Option<PosixUser>, b: Option<PosixUser>) {
    if a.Some? && b.Some? then
      || (p == POSIX_GID && !AgreeNumber(bl, a.value.gid, b.value.gid))
      || (p == POSIX_SECONDARY_GIDS && GIDs(a.value) != GIDs(b.value))
      || (p == POSIX_UID && !AgreeNumber(bl, a.value.uid, b.value.uid))
    else p == POSIX && !AgreePosix(bl, a, b)
  }

  predicate PermissionsDifferAt(bl: Blanks, p: Deltas.Path, a: Option<CreationPermissions>,
          b: Option<CreationPermissions>) {
    if a.Some? && b.Some? then
      || (p == PERMISSIONS_OWNER_GID && !AgreeNumber(bl, a.value.ownerGID, b.value.ownerGID))
      || (p == PERMISSIONS_OWNER_UID && !AgreeNumber(bl, a.value.ownerUID, b.value.ownerUID))
      || (p == PERMISSIONS_PERMISSIONS && !AgreeText(bl, a.value.permissions, b.value.permissions))
    else p == PERMISSIONS && !AgreePermissions(bl, a, b)
  }

  predicate RootDiffersAt(bl: Blanks, p: Deltas.Path, a: Option<RootDirectory>, b: Option<RootDirectory>) {
    if a.Some? && b.Some? then
      || PermissionsDifferAt(bl, p, a.value.creationPermissions, b.value.creationPermissions)
      || (p == ROOT_PATH && !AgreeText(bl, a.value.path, b.value.path))
    else p == ROOT && !AgreeRoot(bl, a, b)
  }

  predicate DiffersAt(bl: Blanks, p: Deltas.Path, a: AccessPointSpec, b: AccessPointSpec) {
    || (p == FILE_SYSTEM_ID && !AgreeText(bl, a.fileSystemID, b.fileSystemID))
    || (p == FILE_SYSTEM_REF && a.fileSystemRef != b.fileSystemRef)
    || PosixDiffersAt(bl, p, a.posixUser, b.posixUser)
    || RootDiffersAt(bl, p, a.rootDirectory, b.rootDirectory)
    || (p == TAGS && ToMap(TagsOf(a)) != ToMap(TagsOf(b)))
  }

  /** The recorded paths are exactly those where the specs differ. */
  ghost predicate IsDelta(bl: Blanks, paths: seq<Deltas.Path>, a: AccessPointSpec, b: AccessPointSpec) {
    forall p :: p in paths <==> DiffersAt(bl, p, a, b)
  }

  method CompareText(delta: Deltas.Delta, p: Deltas.Path, bl: Blanks, a: Option<string>, b: Option<string>)
    modifies delta
    ensures forall q :: q in delta.paths <==> q in old(delta.paths) || (q == p && !AgreeText(bl, a, b))
  {
    if Deltas.HasNilDifference(bl.text, a, b) {
      delta.Add(p);
    } else if a.Some? && b.Some? {
      if a.value != b.value {
        delta.Add(p);
      }
    }
  }

  method CompareNumber(delta: Deltas.Delta, p: Deltas.Path, bl: Blanks, a: Option<int64>, b: Option<int64>)
    modifies delta
    ensures forall q :: q in delta.paths <==> q in old(delta.paths) || (q == p && !AgreeNumber(bl, a, b))
  {
    if Deltas.HasNilDifference(bl.number, a, b) {
      delta.Add(p);
    } else if a.Some? && b.Some? {
      if a.value != b.value {
        delta.Add(p);
      }
    }
  }

  method ComparePosix(delta: Deltas.Delta, bl: Blanks, a: Option<PosixUser>, b: Option<PosixUser>)
    modifies delta
    ensures forall q :: q in delta.paths <==> q in old(delta.paths) || PosixDiffersAt(bl, q, a, b)
  {
    if Deltas.HasNilDifference(bl.posix, a, b) {
      delta.Add(POSIX);
    } else if a.Some? && b.Some? {
      CompareNumber(delta, POSIX_GID, bl, a.value.gid, b.value.gid);
      if |GIDs(a.value)| != |GIDs(b.value)| {
        delta.Add(POSIX_SECONDARY_GIDS);
      } else if |GIDs(a.value)| > 0 {
        if GIDs(a.value) != GIDs(b.value) {
          delta.Add(POSIX_SECONDARY_GIDS);
        }
      }
      CompareNumber(delta, POSIX_UID, bl, a.value.uid, b.value.uid);
    }
  }

  method ComparePermissions(delta: Deltas.Delta, bl: Blanks, a: Option<CreationPermissions>,
          b: Option<CreationPermissions>)
    modifies delta
    ensures forall q :: q in delta.paths <==> q in old(delta.paths) || PermissionsDifferAt(bl, q, a, b)
  {
    if Deltas.HasNilDifference(bl.permissions, a, b) {
      delta.Add(PERMISSIONS);
    } else if a.Some? && b.Some? {
      CompareNumber(delta, PERMISSIONS_OWNER_GID, bl, a.value.ownerGID, b.value.ownerGID);
      CompareNumber(delta, PERMISSIONS_OWNER_UID, bl, a.value.ownerUID, b.value.ownerUID);
      CompareText(delta, PERMISSIONS_PERMISSIONS, bl, a.value.permissions, b.value.permissions);
    }
  }

  method CompareRoot(delta: Deltas.Delta, bl: Blanks, a: Option<RootDirectory>, b: Option<RootDirectory>)
    modifies delta
    ensures forall q :: q in delta.paths <==> q in old(delta.paths) || RootDiffersAt(bl, q, a, b)
  {
    if Deltas.HasNilDifference(bl.root, a, b) {
      delta.Add(ROOT);
    } else if a.Some? && b.Some? {
      ComparePermissions(delta, bl, a.value.creationPermissions, b.value.creationPermissions);
      CompareText(delta, ROOT_PATH, bl, a.value.path, b.value.path);
    }
  }

  /** With two nil resources the code dereferences nil. */
  method NewResourceDelta(bl: Blanks, a: AccessPoint?, b: AccessPoint?) returns (delta: Deltas.Delta)
    requires a != null || b != null
    ensures fresh(delta)
    ensures a == null || b == null ==> delta.paths == [[Deltas.Nothing]]
    ensures a != null && b != null ==> IsDelta(bl, delta.paths, a.spec, b.spec)
  {
    delta := new Deltas.Delta();
    if (a == null && b != null) || (a != null && b == null) {
      delta.Add([Deltas.Nothing]);
      return;
    }
    CompareText(delta, FILE_SYSTEM_ID, bl, a.spec.fileSystemID, b.spec.fileSystemID);
    if a.spec.fileSystemRef != b.spec.fileSystemRef {
      delta.Add(FILE_SYSTEM_REF);
    }
    ComparePosix(delta, bl, a.spec.posixUser, b.spec.posixUser);
    CompareRoot(delta, bl, a.spec.rootDirectory, b.spec.rootDirectory);
    var desiredACKTags, _ := ConvertToOrderedACKTags(TagsOf(a.spec));
    var latestACKTags, _ := ConvertToOrderedACKTags(TagsOf(b.spec));
    if desiredACKTags.entries != latestACKTags.entries {
      delta.Add(TAGS);
    }
  }

  /** Each compared field is recorded under its own path, exactly if it differs: below a structure that both
      specs have, field by field, and otherwise the structure as a whole. */
  lemma RecordedPaths(bl: Blanks, paths: seq<Deltas.Path>, a: AccessPointSpec, b: AccessPointSpec)
    requires IsDelta(bl, paths, a, b)
    ensures [Deltas.Spec, Deltas.FileSystemID] in paths <==>
              !Deltas.Agree(bl.text, Same, a.fileSystemID, b.fileSystemID)
    ensures [Deltas.Spec, Deltas.FileSystemRef] in paths <==> a.fileSystemRef != b.fileSystemRef
    ensures [Deltas.Spec, Deltas.Tags] in paths <==> ToMap(TagsOf(a)) != ToMap(TagsOf(b))
    ensures [Deltas.Spec, Deltas.PosixUser] in paths <==>
              || (a.posixUser.Some? && b.posixUser.None? && !bl.posix(a.posixUser.value))
              || (a.posixUser.None? && b.posixUser.Some? && !bl.posix(b.posixUser.value))
    ensures [Deltas.Spec, Deltas.RootDirectory] in paths <==>
              || (a.rootDirectory.Some? && b.rootDirectory.None? && !bl.root(a.rootDirectory.value))
              || (a.rootDirectory.None? && b.rootDirectory.Some? && !bl.root(b.rootDirectory.value))
  {
  }

  lemma RecordedPosixPaths(bl: Blanks, paths: seq<Deltas.Path>, a: AccessPointSpec, b: AccessPointSpec)
    requires IsDelta(bl, paths, a, b) && a.posixUser.Some? && b.posixUser.Some?
    ensures var p, q := a.posixUser.value, b.posixUser.value;
            && ([Deltas.Spec, Deltas.PosixUser, Deltas.GID] in paths <==> !Deltas.Agree(bl.number, Same, p.gid, q.gid))
            && ([Deltas.Spec, Deltas.PosixUser, Deltas.UID] in paths <==> !Deltas.Agree(bl.number, Same, p.uid, q.uid))
            && ([Deltas.Spec, Deltas.PosixUser, Deltas.SecondaryGIDs] in paths <==> GIDs(p) != GIDs(q))
  {
  }

  lemma RecordedRootPaths(bl: Blanks, paths: seq<Deltas.Path>, a: AccessPointSpec, b: AccessPointSpec)
    requires IsDelta(bl, paths, a, b) && a.rootDirectory.Some? && b.rootDirectory.Some?
    ensures var p, q := a.rootDirectory.value, b.rootDirectory.value;
            && ([Deltas.Spec, Deltas.RootDirectory, Deltas.DirectoryPath] in paths <==>
                  !Deltas.Agree(bl.text, Same, p.path, q.path))
            && ([Deltas.Spec, Deltas.RootDirectory, Deltas.CreationPermissions] in paths <==>
                  || (p.creationPermissions.Some? && q.creationPermissions.None?
                      && !bl.permissions(p.creationPermissions.value))
                  || (p.creationPermissions.None? && q.creationPermissions.Some?
                      && !bl.permissions(q.creationPermissions.value)))
  {
  }

  lemma RecordedPermissionPaths(bl: Blanks, paths: seq<Deltas.Path>, a: AccessPointSpec, b: AccessPointSpec)
    requires IsDelta(bl, paths, a, b) && a.rootDirectory.Some? && b.rootDirectory.Some?
    requires a.rootDirectory.value.creationPermissions.Some? && b.rootDirectory.value.creationPermissions.Some?
    ensures var p := a.rootDirectory.value.creationPermissions.value;
            var q := b.rootDirectory.value.creationPermissions.value;
            && ([Deltas.Spec, Deltas.RootDirectory, Deltas.CreationPermissions, Deltas.OwnerGID] in paths <==>
                  !Deltas.Agree(bl.number, Same, p.ownerGID, q.ownerGID))
            && ([Deltas.Spec, Deltas.RootDirectory, Deltas.CreationPermissions, Deltas.OwnerUID] in paths <==>
                  !Deltas.Agree(bl.number, Same, p.ownerUID, q.ownerUID))
            && ([Deltas.Spec, Deltas.RootDirectory, Deltas.CreationPermissions, Deltas.Permissions] in paths <==>
                  !Deltas.Agree(bl.text, Same, p.permissions, q.permissions))
  {
  }

  /** The delta is empty exactly when the specs agree at every nested level. */
  lemma EmptyDeltaMeansAgreement(bl: Blanks, paths: seq<Deltas.Path>, a: AccessPointSpec, b: AccessPointSpec)
    requires IsDelta(bl, paths, a, b)
    ensures paths == [] <==> AgreeSpec(bl, a, b)
  {
    SomePosixPath(bl, a.posixUser, b.posixUser);
    SomeRootPath(bl, a.rootDirectory, b.rootDirectory);
    if paths != [] {
      assert paths[0] in paths;
      assert DiffersAt(bl, paths[0], a, b);
    }
    if !AgreePosix(bl, a.posixUser, b.posixUser) {
      var p :| PosixDiffersAt(bl, p, a.posixUser, b.posixUser);
      assert DiffersAt(bl, p, a, b);
    }
    if !AgreeRoot(bl, a.rootDirectory, b.rootDirectory) {
      var p :| RootDiffersAt(bl, p, a.rootDirectory, b.rootDirectory);
      assert DiffersAt(bl, p, a, b);
    }
    assert FILE_SYSTEM_ID in paths <==> DiffersAt(bl, FILE_SYSTEM_ID, a, b);
    assert FILE_SYSTEM_REF in paths <==> DiffersAt(bl, FILE_SYSTEM_REF, a, b);
    assert TAGS in paths <==> DiffersAt(bl, TAGS, a, b);
  }

  lemma SomePosixPath(bl: Blanks, a: Option<PosixUser>, b: Option<PosixUser>)
    ensures !AgreePosix(bl, a, b) <==> exists p :: PosixDiffersAt(bl, p, a, b)
    ensures forall p :: PosixDiffersAt(bl, p, a, b) ==> POSIX <= p
  {
    if !AgreePosix(bl, a, b) {
      if a.Some? && b.Some? {
        assert PosixDiffersAt(bl, POSIX_GID, a, b)
               || PosixDiffersAt(bl, POSIX_SECONDARY_GIDS, a, b)
               || PosixDiffersAt(bl, POSIX_UID, a, b);
      } else {
        assert PosixDiffersAt(bl, POSIX, a, b);
      }
    }
  }

  lemma SomePermissionsPath(bl: Blanks, a: Option<CreationPermissions>, b: Option<CreationPermissions>)
    ensures !AgreePermissions(bl, a, b) <==> exists p :: PermissionsDifferAt(bl, p, a, b)
    ensures forall p :: PermissionsDifferAt(bl, p, a, b) ==> PERMISSIONS <= p
  {
    if !AgreePermissions(bl, a, b) {
      if a.Some? && b.Some? {
        assert PermissionsDifferAt(bl, PERMISSIONS_OWNER_GID, a, b)
               || PermissionsDifferAt(bl, PERMISSIONS_OWNER_UID, a, b)
               || PermissionsDifferAt(bl, PERMISSIONS_PERMISSIONS, a, b);
      } else {
        assert PermissionsDifferAt(bl, PERMISSIONS, a, b);
      }
    }
  }

  lemma SomeRootPath(bl: Blanks, a: Option<RootDirectory>, b: Option<RootDirectory>)
    ensures !AgreeRoot(bl, a, b) <==> exists p :: RootDiffersAt(bl, p, a, b)
    ensures forall p :: RootDiffersAt(bl, p, a, b) ==> ROOT <= p
  {
    if a.Some? && b.Some? {
      SomePermissionsPath(bl, a.value.creationPermissions, b.value.creationPermissions);
      if !AgreePermissions(bl, a.value.creationPermissions, b.value.creationPermissions) {
        var p :| PermissionsDifferAt(bl, p, a.value.creationPermissions, b.value.creationPermissions);
        assert RootDiffersAt(bl, p, a, b);
      } else if !AgreeText(bl, a.value.path, b.value.path) {
        assert RootDiffersAt(bl, ROOT_PATH, a, b);
      }
    } else if !AgreeRoot(bl, a, b) {
      assert RootDiffersAt(bl, ROOT, a, b);
    }
  }

  predicate Drifted(paths: seq<Deltas.Path>) {
    Deltas.DifferentAt(paths, FILE_SYSTEM_ID) || Deltas.DifferentAt(paths, POSIX) || Deltas.DifferentAt(paths, ROOT)
  }

  /** The drift branch is taken exactly when file system, POSIX user or root directory differ,
      also when only a path below them was recorded. */
  lemma DriftMeansImmutableFieldDiffers(bl: Blanks, paths: seq<Deltas.Path>, a: AccessPointSpec, b: AccessPointSpec)
    requires IsDelta(bl, paths, a, b)
    ensures Drifted(paths) <==> !AgreeText(bl, a.fileSystemID, b.fileSystemID)
                                || !AgreePosix(bl, a.posixUser, b.posixUser)
                                || !AgreeRoot(bl, a.rootDirectory, b.rootDirectory)
    ensures Deltas.DifferentAt(paths, TAGS) <==> ToMap(TagsOf(a)) != ToMap(TagsOf(b))
  {
    SomePosixPath(bl, a.posixUser, b.posixUser);
    SomeRootPath(bl, a.rootDirectory, b.rootDirectory);
    RecordedBelow(bl, paths, a, b, FILE_SYSTEM_ID);
    RecordedBelow(bl, paths, a, b, POSIX);
    RecordedBelow(bl, paths, a, b, ROOT);
    RecordedBelow(bl, paths, a, b, TAGS);
    assert !AgreeText(bl, a.fileSystemID, b.fileSystemID) <==> DiffersAt(bl, FILE_SYSTEM_ID, a, b);
    assert ToMap(TagsOf(a)) != ToMap(TagsOf(b)) <==> DiffersAt(bl, TAGS, a, b);
    if !AgreePosix(bl, a.posixUser, b.posixUser) {
      var p :| PosixDiffersAt(bl, p, a.posixUser, b.posixUser);
      assert DiffersAt(bl, p, a, b);
    }
    if !AgreeRoot(bl, a.rootDirectory, b.rootDirectory) {
      var p :| RootDiffersAt(bl, p, a.rootDirectory, b.rootDirectory);
      assert DiffersAt(bl, p, a, b);
    }
  }

  lemma RecordedBelow(bl: Blanks, paths: seq<Deltas.Path>, a: AccessPointSpec, b: AccessPointSpec, q: Deltas.Path)
    requires IsDelta(bl, paths, a, b)
    ensures Deltas.DifferentAt(paths, q) <==> exists p :: DiffersAt(bl, p, a, b) && q <= p
  {
    if i :| 0 <= i < |paths| && q <= paths[i] {
      assert paths[i] in paths;
      assert DiffersAt(bl, paths[i], a, b);
    }
    if p :| DiffersAt(bl, p, a, b) && q <= p {
      assert p in paths;
      var i :| 0 <= i < |paths| && paths[i] == p;
      assert q <= paths[i];
    }
  }

  // ---------------------------------------------------------------- the update

  const DRIFT_MESSAGE := "Spec drift detected in immutable field(s)."

  function TagPart(desired: AccessPointSpec, latest: AccessPointSpec, id: Option<string>,
          paths: seq<Deltas.Path>): seq<Call> {
    if Deltas.DifferentAt(paths, TAGS) then TagPlan(ToMap(TagsOf(latest)), ToMap(TagsOf(desired)), id) else []
  }

  method CustomUpdateAccessPoint(desired: AccessPoint, latest: AccessPoint, delta: Deltas.Delta, sdkapi: Client)
    returns (res: AccessPoint?, err: Option<Error>)
    requires AllDistinct(desired.conditions)
    modifies sdkapi, desired`conditions, desired.conditions
    ensures Follows(TagPart(desired.spec, latest.spec, latest.status.id, delta.paths), sdkapi.outcomes,
                    old(sdkapi.state), old(sdkapi.log), sdkapi.state, sdkapi.log, err)
    ensures AsUpdated(old(sdkapi.state), old(sdkapi.log), sdkapi.state, sdkapi.log, desired.spec, latest.spec,
                      latest.status.id, delta.paths, err)
    ensures res == if err.None? then desired else null
    ensures Values(desired.conditions) ==
            if err.None? && Drifted(delta.paths)
            then WithTerminal(old(Values(desired.conditions)), True, Some(DRIFT_MESSAGE), None)
            else old(Values(desired.conditions))
  {
    ghost var before := Values(desired.conditions);
    if Deltas.DifferentAt(delta.paths, TAGS) {
      err := Tags(TagsOf(desired.spec), TagsOf(latest.spec), latest.status.id, sdkapi);
      assert Values(desired.conditions) == before;
      if err.Some? {
        UpdateOutcome(old(sdkapi.state), old(sdkapi.log), sdkapi.state, sdkapi.log, desired.spec, latest.spec,
                      latest.status.id, delta.paths, sdkapi.outcomes, err);
        return null, err;
      }
    }
    UpdateOutcome(old(sdkapi.state), old(sdkapi.log), sdkapi.state, sdkapi.log, desired.spec, latest.spec,
                  latest.status.id, delta.paths, sdkapi.outcomes, None);
    SetTerminalOnDrift(desired, delta);
    return desired, None;
  }

  /** What an update does to the remote state and the log, whatever fails: only tags change, key by key from
      the old to the desired ones; every call is a tag call for the access point `id`; if tags were recorded
      as different, calls are made exactly if they are; and if the latest tags are the remote ones, the remote
      tags are the desired ones when there is no error. */
  ghost predicate AsUpdated(s: Remote, log: seq<Call>, s': Remote, log': seq<Call>, desired: AccessPointSpec,
                            latest: AccessPointSpec, id: Option<string>, paths: seq<Deltas.Path>, err: Option<Error>) {
    && s' == s.(tags := s'.tags)
    && (forall k :: Lookup(s'.tags, k) == Lookup(s.tags, k) || Lookup(s'.tags, k) == Lookup(ToMap(TagsOf(desired)), k))
    && log <= log'
    && (forall i :: |log| <= i < |log'| ==> (log'[i].TagResource? || log'[i].UntagResource?) && log'[i].id == id)
    && (log' == log <==> !Deltas.DifferentAt(paths, [Deltas.Spec, Deltas.Tags])
                         || ToMap(TagsOf(desired)) == ToMap(TagsOf(latest)))
    && (log' == log ==> s' == s && err.None?)
    && (log' != log && err.None? && ToMap(TagsOf(latest)) == s.tags ==> s'.tags == ToMap(TagsOf(desired)))
  }

  lemma UpdateOutcome(s: Remote, log: seq<Call>, s': Remote, log': seq<Call>, desired: AccessPointSpec,
                      latest: AccessPointSpec, id: Option<string>, paths: seq<Deltas.Path>,
                      outcomes: nat -> Outcome, err: Option<Error>)
    requires Follows(TagPart(desired, latest, id, paths), outcomes, s, log, s', log', err)
    ensures AsUpdated(s, log, s', log', desired, latest, id, paths, err)
  {
    var from, to := ToMap(TagsOf(latest)), ToMap(TagsOf(desired));
    var plan := TagPart(desired, latest, id, paths);
    TagPlanMeans(from, to, id);
    OnlyTagsChange(s, plan, outcomes, |log|);
    ExecuteStopsAtFirstFatal(s, plan, outcomes, |log|);
    if plan != [] {
      WholeSyncStaysBetween(s, from, to, id, outcomes, |log|);
      if err.None? && from == s.tags {
        SuccessfulSyncConverges(s, to, id, outcomes, |log|);
      }
    }
  }

  /** Compare and update, as the runtime chains them. With latest tags that are the remote ones: no call is
      made exactly if the tags agree, and without an error the remote tags are the desired ones. */
  method CompareAndUpdate(bl: Blanks, desired: AccessPoint, latest: AccessPoint, sdkapi: Client)
    returns (res: AccessPoint?, err: Option<Error>)
    requires AllDistinct(desired.conditions)
    modifies sdkapi, desired`conditions, desired.conditions
    ensures sdkapi.log == old(sdkapi.log) <==> ToMap(TagsOf(desired.spec)) == ToMap(TagsOf(latest.spec))
    ensures err.None? && ToMap(TagsOf(latest.spec)) == old(sdkapi.state).tags ==>
              sdkapi.state == old(sdkapi.state).(tags := ToMap(TagsOf(desired.spec)))
    ensures Between(old(sdkapi.state).tags, ToMap(TagsOf(desired.spec)), sdkapi.state.tags)
    ensures Values(desired.conditions) ==
            if err.None? && !(&& AgreeText(bl, desired.spec.fileSystemID, latest.spec.fileSystemID)
                              && AgreePosix(bl, desired.spec.posixUser, latest.spec.posixUser)
                              && AgreeRoot(bl, desired.spec.rootDirectory, latest.spec.rootDirectory))
            then WithTerminal(old(Values(desired.conditions)), True, Some(DRIFT_MESSAGE), None)
            else old(Values(desired.conditions))
  {
    var delta := NewResourceDelta(bl, desired, latest);
    DriftMeansImmutableFieldDiffers(bl, delta.paths, desired.spec, latest.spec);
    res, err := CustomUpdateAccessPoint(desired, latest, delta, sdkapi);
  }

  /** The part of the update after the tags. */
  method SetTerminalOnDrift(desired: AccessPoint, delta: Deltas.Delta)
    requires AllDistinct(desired.conditions)
    modifies desired`conditions, desired.conditions
    ensures Values(desired.conditions) ==
            if Drifted(delta.paths)
            then WithTerminal(old(Values(desired.conditions)), True, Some(DRIFT_MESSAGE), None)
            else old(Values(desired.conditions))
  {
    if Deltas.DifferentAt(delta.paths, FILE_SYSTEM_ID)
       || Deltas.DifferentAt(delta.paths, POSIX)
       || Deltas.DifferentAt(delta.paths, ROOT)
    {
      var cs := SetTerminal(desired.conditions, True, Some(DRIFT_MESSAGE), None);
      desired.conditions := cs;
    }
  }

  /** The Terminal condition that drift sets is reset by the `onSuccess` that ends the same update:
      drift is reported exactly when the resource had more than one Terminal condition before. */
  lemma DriftIsNotReported(cs: seq<ConditionValue>)
    ensures var after := ConditionsAfter(cs, OperationSucceeds(Some((True, Some(DRIFT_MESSAGE)))));
            Has(after, Terminal) <==> !AtMostOne(cs, Terminal)
  {
    HookTerminalDoesNotSurviveSuccess(cs, Some(DRIFT_MESSAGE));
  }

  // ---------------------------------------------------------------- create and read

  datatype SdkPosixUser = SdkPosixUser(gid: Option<int64>, secondaryGids: Option<seq<int64>>, uid: Option<int64>)

  /** What CreateAccessPoint is sent, and the same fields of what Create and Get answer.
      CreationPermissions and RootDirectory have the same fields on both sides. */
  datatype Payload = Payload(fileSystemId: Option<string>, posixUser: Option<SdkPosixUser>,
                             rootDirectory: Option<RootDirectory>, tags: Option<seq<Tag>>)

  datatype Output = Output(payload: Payload, accessPointArn: Option<string>, accessPointId: Option<string>,
                           name: Option<string>, ownerId: Option<string>, status: string)

  function Numbers(s: seq<Option<int64>>): seq<int64> {
    seq(|s|, i requires 0 <= i < |s| => if s[i].Some? then s[i].value else 0)
  }

  function NumberPointers(s: seq<int64>): seq<Option<int64>> {
    seq(|s|, i requires 0 <= i < |s| => Some(s[i]))
  }

  function SentPosix(p: PosixUser): SdkPosixUser {
    SdkPosixUser(p.gid, if p.secondaryGIDs.Some? then Some(Numbers(p.secondaryGIDs.value)) else None, p.uid)
  }

  function ReadPosix(p: SdkPosixUser): PosixUser {
    PosixUser(p.gid, if p.secondaryGids.Some? then Some(NumberPointers(p.secondaryGids.value)) else None, p.uid)
  }

  function Sent(spec: AccessPointSpec): Payload {
    Payload(spec.fileSystemID, if spec.posixUser.Some? then Some(SentPosix(spec.posixUser.value)) else None,
            spec.rootDirectory, spec.tags)
  }

  function SpecRead(spec: AccessPointSpec, out: Payload): AccessPointSpec {
    spec.(fileSystemID := out.fileSystemId,
          posixUser := if out.posixUser.Some? then Some(ReadPosix(out.posixUser.value)) else None,
          rootDirectory := out.rootDirectory, tags := out.tags)
  }

  function OutputMetadata(metadata: Option<ResourceMetadata>, out: Output): ResourceMetadata {
    var m := if metadata.Some? then metadata.value else NO_METADATA;
    if out.accessPointArn.Some? then m.(arn := out.accessPointArn) else m
  }

  /** An ARN that is known stays if the output has none; the other fields are what the output says. */
  function StatusRead(rm: ManagerIdentity, status: AccessPointStatus, out: Output): AccessPointStatus {
    AccessPointStatus(Some(DefaultedMetadata(rm, Some(OutputMetadata(status.metadata, out)))),
                      out.accessPointId, out.name, out.ownerId, if out.status != "" then Some(out.status) else None)
  }

  /** The SDK's `aws.ToInt64Slice`: a nil entry becomes 0. */
  method ToInt64Slice(s: seq<Option<int64>>) returns (r: seq<int64>)
    ensures r == Numbers(s)
  {
    r := [];
    for i := 0 to |s|
      invariant r == Numbers(s)[..i]
    {
      r := r + [if s[i].Some? then s[i].value else 0];
    }
  }

  method Int64Slice(s: seq<int64>) returns (r: seq<Option<int64>>)
    ensures r == NumberPointers(s)
  {
    r := [];
    for i := 0 to |s|
      invariant r == NumberPointers(s)[..i]
    {
      r := r + [Some(s[i])];
    }
  }

  method CopyRoot(root: RootDirectory) returns (copy: RootDirectory)
    ensures copy == root
  {
    copy := RootDirectory(None, None);
    if root.creationPermissions.Some? {
      var p := CreationPermissions(None, None, None);
      if root.creationPermissions.value.ownerGID.Some? {
        p := p.(ownerGID := root.creationPermissions.value.ownerGID);
      }
      if root.creationPermissions.value.ownerUID.Some? {
        p := p.(ownerUID := root.creationPermissions.value.ownerUID);
      }
      if root.creationPermissions.value.permissions.Some? {
        p := p.(permissions := root.creationPermissions.value.permissions);
      }
      copy := copy.(creationPermissions := Some(p));
    }
    if root.path.Some? {
      copy := copy.(path := root.path);
    }
  }

  method NewCreateRequestPayload(spec: AccessPointSpec) returns (res: Payload)
    ensures res == Sent(spec)
    ensures res.fileSystemId == spec.fileSystemID && res.rootDirectory == spec.rootDirectory && res.tags == spec.tags
    ensures res.posixUser.Some? <==> spec.posixUser.Some?
    ensures res.posixUser.Some? ==>
              var p, q := spec.posixUser.value, res.posixUser.value;
              && q.gid == p.gid && q.uid == p.uid
              && (q.secondaryGids.Some? <==> p.secondaryGIDs.Some?)
              && (q.secondaryGids.Some? ==>
                    && |q.secondaryGids.value| == |p.secondaryGIDs.value|
                    && forall i :: 0 <= i < |q.secondaryGids.value| ==>
                         q.secondaryGids.value[i] == match p.secondaryGIDs.value[i] case Some(n) => n case None => 0)
  {
    res := Payload(None, None, None, None);
    if spec.fileSystemID.Some? {
      res := res.(fileSystemId := spec.fileSystemID);
    }
    if spec.posixUser.Some? {
      var f1 := SdkPosixUser(None, None, None);
      if spec.posixUser.value.gid.Some? {
        f1 := f1.(gid := spec.posixUser.value.gid);
      }
      if spec.posixUser.value.secondaryGIDs.Some? {
        var gids := ToInt64Slice(spec.posixUser.value.secondaryGIDs.value);
        f1 := f1.(secondaryGids := Some(gids));
      }
      if spec.posixUser.value.uid.Some? {
        f1 := f1.(uid := spec.posixUser.value.uid);
      }
      res := res.(posixUser := Some(f1));
    }
    if spec.rootDirectory.Some? {
      var f2 := CopyRoot(spec.rootDirectory.value);
      res := res.(rootDirectory := Some(f2));
    }
    if spec.tags.Some? {
      var f3 := CopyTags(spec.tags.value);
      res := res.(tags := Some(f3));
    }
  }

  /** The output mapping, the same in `sdkCreate` and `sdkFind`. */
  method SetFromOutput(rm: ManagerIdentity, ko: AccessPoint, resp: Output)
    modifies ko`spec, ko`status
    ensures ko.spec == SpecRead(old(ko.spec), resp.payload)
    ensures ko.spec.fileSystemID == resp.payload.fileSystemId && ko.spec.rootDirectory == resp.payload.rootDirectory
    ensures ko.spec.tags == resp.payload.tags && ko.spec.fileSystemRef == old(ko.spec).fileSystemRef
    ensures ko.spec.posixUser.Some? <==> resp.payload.posixUser.Some?
    ensures ko.spec.posixUser.Some? ==>
              var p, q := ko.spec.posixUser.value, resp.payload.posixUser.value;
              && p.gid == q.gid && p.uid == q.uid
              && (p.secondaryGIDs.Some? <==> q.secondaryGids.Some?)
              && (p.secondaryGIDs.Some? ==>
                    && |p.secondaryGIDs.value| == |q.secondaryGids.value|
                    && forall i :: 0 <= i < |p.secondaryGIDs.value| ==>
                         p.secondaryGIDs.value[i] == Some(q.secondaryGids.value[i]))
    ensures ko.status == StatusRead(rm, old(ko.status), resp)
    ensures ko.status.id == resp.accessPointId && ko.status.name == resp.name && ko.status.ownerID == resp.ownerId
    ensures ko.status.state == if resp.status == "" then None else Some(resp.status)
    ensures ko.status.metadata.Some?
    ensures resp.accessPointArn.Some? ==> ko.status.metadata.value.arn == resp.accessPointArn
    ensures resp.accessPointArn.None? ==>
              ko.status.metadata.value.arn == match old(ko.status).metadata case Some(m) => m.arn case None => None
  {
    if ko.status.metadata.None? {
      ko.status := ko.status.(metadata := Some(NO_METADATA));
    }
    if resp.accessPointArn.Some? {
      ko.status := ko.status.(metadata := Some(ko.status.metadata.value.(arn := resp.accessPointArn)));
    }
    ko.status := ko.status.(id := resp.accessPointId, name := resp.name, ownerID := resp.ownerId,
                            state := if resp.status != "" then Some(resp.status) else None);
    SetSpecFromOutput(ko, resp.payload);
    SetStatusDefaults(rm, ko);
  }

  method SetStatusDefaults(rm: ManagerIdentity, ko: AccessPoint)
    modifies ko`status
    ensures ko.status == old(ko.status).(metadata := Some(DefaultedMetadata(rm, old(ko.status.metadata))))
  {
    if ko.status.metadata.None? {
      ko.status := ko.status.(metadata := Some(NO_METADATA));
    }
    if ko.status.metadata.value.region.None? {
      ko.status := ko.status.(metadata := Some(ko.status.metadata.value.(region := Some(rm.region))));
    }
    if ko.status.metadata.value.partition.None? {
      ko.status := ko.status.(metadata := Some(ko.status.metadata.value.(partition := Some(rm.partition))));
    }
    if ko.status.metadata.value.ownerAccountID.None? {
      ko.status := ko.status.(metadata := Some(ko.status.metadata.value.(ownerAccountID := Some(rm.accountID))));
    }
  }

  method SetSpecFromOutput(ko: AccessPoint, resp: Payload)
    modifies ko`spec
    ensures ko.spec == SpecRead(old(ko.spec), resp)
  {
    ko.spec := ko.spec.(fileSystemID := resp.fileSystemId);
    if resp.posixUser.Some? {
      var f6 := PosixUser(None, None, None);
      if resp.posixUser.value.gid.Some? {
        f6 := f6.(gid := resp.posixUser.value.gid);
      }
      if resp.posixUser.value.secondaryGids.Some? {
        var gids := Int64Slice(resp.posixUser.value.secondaryGids.value);
        f6 := f6.(secondaryGIDs := Some(gids));
      }
      if resp.posixUser.value.uid.Some? {
        f6 := f6.(uid := resp.posixUser.value.uid);
      }
      ko.spec := ko.spec.(posixUser := Some(f6));
    } else {
      ko.spec := ko.spec.(posixUser := None);
    }
    if resp.rootDirectory.Some? {
      var f7 := CopyRoot(resp.rootDirectory.value);
      ko.spec := ko.spec.(rootDirectory := Some(f7));
    } else {
      ko.spec := ko.spec.(rootDirectory := None);
    }
    if resp.tags.Some? {
      var f9 := CopyTags(resp.tags.value);
      ko.spec := ko.spec.(tags := Some(f9));
    } else {
      ko.spec := ko.spec.(tags := None);
    }
  }

  predicate NoNilGID(spec: AccessPointSpec) {
    spec.posixUser.Some? ==> forall i :: 0 <= i < |GIDs(spec.posixUser.value)| ==> GIDs(spec.posixUser.value)[i].Some?
  }

  /** If the service stores and returns what it is sent, reading after a create gives the desired spec,
      or one that agrees with it, exactly when no secondary group ID is a nil entry. The object the
      output is merged into (the desired one, or what create returned) makes no difference. */
  lemma CreateThenReadAgrees(bl: Blanks, desired: AccessPointSpec)
    ensures AgreeSpec(bl, desired, SpecRead(desired, Sent(desired))) <==> NoNilGID(desired)
    ensures SpecRead(desired, Sent(desired)) == desired <==> NoNilGID(desired)
    ensures SpecRead(SpecRead(desired, Sent(desired)), Sent(desired)) == SpecRead(desired, Sent(desired))
  {
  }
}
