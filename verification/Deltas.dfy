/** The runtime's record of differences, and its comparison of pointers. */
module Deltas {
  import opened Nilable

  /** The names that field paths are made of; `Nothing` is the one component of the path "". */
  datatype Component =
    | Nothing | Spec
    | Bucket | BucketRef | KMSKeyID | KMSKeyRef | Policy | Prefix | RoleARN | RoleRef | Tags
    | ImportDataRules | ExpirationDataRules
    | FileSystemID | FileSystemRef
    | PosixUser | GID | SecondaryGIDs | UID
    | RootDirectory | CreationPermissions | OwnerGID | OwnerUID | Permissions | DirectoryPath

  /** A field path, by its components. */
  type Path = seq<Component>

  class Delta {
    var paths: seq<Path>

    constructor ()
      ensures paths == []
    {
      paths := [];
    }

    method Add(p: Path)
      modifies this
      ensures paths == old(paths) + [p]
      ensures forall q :: q in paths <==> q in old(paths) || q == p
    {
      paths := paths + [p];
    }
  }

  /** DifferentAt(p): some recorded path is `p` or lies below it. */
  predicate DifferentAt(paths: seq<Path>, p: Path) {
    exists i :: 0 <= i < |paths| && p <= paths[i]
  }

  /** Among paths of one length, only the path itself counts. */
  lemma DifferentAtSameLength(paths: seq<Path>, p: Path)
    requires forall i :: 0 <= i < |paths| ==> |paths[i]| == |p|
    ensures DifferentAt(paths, p) <==> p in paths
  {
    if p in paths {
      var i :| 0 <= i < |paths| && paths[i] == p;
      assert p <= paths[i];
    }
    if i :| 0 <= i < |paths| && p <= paths[i] {
      assert p == paths[i];
    }
  }

  /** HasNilDifference, whatever it takes to be as good as nil: `blank` is any set of values. */
  function HasNilDifference<T>(blank: T -> bool, a: Option<T>, b: Option<T>): bool {
    match (a, b)
    case (None, Some(v)) => !blank(v)
    case (Some(v), None) => !blank(v)
    case _ => false
  }

  /** Two pointers agree: both nil, or both set to values `same` accepts, or one nil and the other blank. */
  predicate Agree<T>(blank: T -> bool, same: (T, T) -> bool, a: Option<T>, b: Option<T>) {
    && (a.Some? && b.Some? ==> same(a.value, b.value))
    && (a.Some? && b.None? ==> blank(a.value))
    && (a.None? && b.Some? ==> blank(b.value))
  }
}
