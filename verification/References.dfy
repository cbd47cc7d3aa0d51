/** Cross-resource references: looking a referent up, and the one-field step that every
    `resolveReferenceFor...` function repeats (`pkg/resource/mount_target/references.go`). */
module References {
  import opened Nilable
  import opened AckTypes

  datatype Kind = FileSystemKind | SecurityGroupKind | SubnetKind | BucketKind | KeyKind | RoleKind

  /** What is read of a referenced object: its conditions and the field that is the target of the reference. */
  datatype Referent = Referent(conditions: seq<ConditionValue>, target: Option<string>)

  datatype RefError =
    | NameMissing(field: string)
    | NamespaceRejected
    | Unreadable
    | ReferentTerminal(kind: Kind, namespace: string, name: string)
    | ReferentNotSynced(kind: Kind, namespace: string, name: string)
    | TargetMissing(kind: Kind, namespace: string, name: string)
    | RefAndIDGiven(field: string)
    | RefOrIDRequired(field: string)

  /** The cluster. `get(n, ...)` answers the read made for the n-th reference of the object, so reads
      of one object may disagree; `namespaceFor` is the runtime's cross-namespace rule. Either may refuse. */
  datatype Cluster = Cluster(
    namespaceFor: (string, Option<string>, string) -> Option<string>,
    get: (nat, Kind, string, string) -> Option<Referent>)

  // ---------------------------------------------------------------- specification

  ghost function StateError(obj: Referent, kind: Kind, namespace: string, name: string): Option<RefError> {
    if Has(obj.conditions, Terminal) then Some(ReferentTerminal(kind, namespace, name))
    else if !Has(obj.conditions, ResourceSynced) then Some(ReferentNotSynced(kind, namespace, name))
    else if obj.target.None? then Some(TargetMissing(kind, namespace, name))
    else None
  }

  predicate HasFrom(ref: Option<Ref>) {
    ref.Some? && ref.value.from.Some?
  }

  /** The object that `from` names, in the namespace it stands for, was found by the `at`-th read with some
      Synced=True and no Terminal=True condition, and `id` is its target field. */
  ghost predicate Names(c: Cluster, at: nat, kind: Kind, owner: string, from: RefFrom, id: string) {
    && from.name.Some? && from.name.value != ""
    && var namespace := c.namespaceFor(owner, from.namespace, from.name.value);
       namespace.Some?
       && var obj := c.get(at, kind, namespace.value, from.name.value);
          && obj.Some? && obj.value.target == Some(id)
          && (exists i :: 0 <= i < |obj.value.conditions| && obj.value.conditions[i].ctype == ResourceSynced
                          && obj.value.conditions[i].status == True)
          && !(exists i :: 0 <= i < |obj.value.conditions| && obj.value.conditions[i].ctype == Terminal
                           && obj.value.conditions[i].status == True)
  }

  datatype Target = Identifier(id: string) | Failed(error: RefError)

  /** Following one reference: the identifier it stands for, or why there is none. */
  ghost function Follow(c: Cluster, at: nat, kind: Kind, owner: string, field: string, from: RefFrom): (r: Target)
    ensures forall id :: r == Identifier(id) <==> Names(c, at, kind, owner, from, id)
  {
    if from.name.None? || from.name.value == "" then Failed(NameMissing(field)) else
    var name := from.name.value;
    var ns := c.namespaceFor(owner, from.namespace, name);
    if ns.None? then Failed(NamespaceRejected) else
    var obj := c.get(at, kind, ns.value, name);
    if obj.None? then Failed(Unreadable) else
    var e := StateError(obj.value, kind, ns.value, name);
    if e.Some? then Failed(e.value) else Identifier(obj.value.target.value)
  }

  /** Why a reference cannot be followed, in the order of precedence. */
  lemma FollowFails(c: Cluster, at: nat, kind: Kind, owner: string, field: string, from: RefFrom)
    ensures var name := if from.name.Some? then from.name.value else "";
            var namespace := c.namespaceFor(owner, from.namespace, name);
            var r := Follow(c, at, kind, owner, field, from);
            && (r == Failed(NameMissing(field)) <==> name == "")
            && (name != "" ==> (r == Failed(NamespaceRejected) <==> namespace.None?))
            && (name != "" && namespace.Some? ==>
                  var obj := c.get(at, kind, namespace.value, name);
                  && (r == Failed(Unreadable) <==> obj.None?)
                  && (obj.Some? ==>
                        var cs := obj.value.conditions;
                        var terminal :=
                          exists i :: 0 <= i < |cs| && cs[i].ctype == Terminal && cs[i].status == True;
                        var synced :=
                          exists i :: 0 <= i < |cs| && cs[i].ctype == ResourceSynced && cs[i].status == True;
                        && (r == Failed(ReferentTerminal(kind, namespace.value, name)) <==> terminal)
                        && (r == Failed(ReferentNotSynced(kind, namespace.value, name)) <==> !terminal && !synced)
                        && (r == Failed(TargetMissing(kind, namespace.value, name)) <==>
                              !terminal && synced && obj.value.target.None?)))
  {
  }

  /** A single-valued field: the value it gets, whether there is a reference, and the error. */
  datatype FieldResult = FieldResult(id: Option<string>, hasReferences: bool, error: Option<RefError>)

  ghost function ResolvedField(c: Cluster, at: nat, kind: Kind, owner: string, field: string,
                               ref: Option<Ref>, id: Option<string>): FieldResult {
    if !HasFrom(ref) then FieldResult(id, false, None) else
    match Follow(c, at, kind, owner, field, ref.value.from.value)
    case Failed(e) => FieldResult(id, true, Some(e))
    case Identifier(found) => FieldResult(Some(found), true, None)
  }

  /** The reference names something, and `id` is the target of what it names. */
  ghost predicate NamedBy(c: Cluster, at: nat, kind: Kind, owner: string, ref: Option<Ref>, id: Option<string>) {
    ref.Some? && ref.value.from.Some? && id.Some? && Names(c, at, kind, owner, ref.value.from.value, id.value)
  }

  /** The reference names something and cannot be followed. */
  ghost predicate CannotFollow(c: Cluster, at: nat, kind: Kind, owner: string, ref: Option<Ref>) {
    && ref.Some? && ref.value.from.Some?
    && forall id :: !Names(c, at, kind, owner, ref.value.from.value, id)
  }

  predicate RefAndID(ref: Option<Ref>, id: Option<string>) {
    ref.Some? && id.Some?
  }

  function ClearedField(ref: Option<Ref>, id: Option<string>): Option<string> {
    if ref.Some? then None else id
  }

  // ---------------------------------------------------------------- the code

  method GetReferencedResourceState(c: Cluster, at: nat, kind: Kind, name: string, namespace: string)
    returns (obj: Option<Referent>, err: Option<RefError>)
    ensures obj == c.get(at, kind, namespace, name)
    ensures err == if obj.None? then Some(Unreadable) else StateError(obj.value, kind, namespace, name)
  {
    obj := c.get(at, kind, namespace, name);
    if obj.None? {
      return obj, Some(Unreadable);
    }
    var conditions := obj.value.conditions;
    for i := 0 to |conditions|
      invariant forall j :: 0 <= j < i ==> !(conditions[j].ctype == Terminal && conditions[j].status == True)
    {
      if conditions[i].ctype == Terminal && conditions[i].status == True {
        return obj, Some(ReferentTerminal(kind, namespace, name));
      }
    }
    var refResourceSynced := false;
    for i := 0 to |conditions|
      invariant refResourceSynced <==>
        exists j :: 0 <= j < i && conditions[j].ctype == ResourceSynced && conditions[j].status == True
    {
      if conditions[i].ctype == ResourceSynced && conditions[i].status == True {
        refResourceSynced := true;
      }
    }
    if !refResourceSynced {
      return obj, Some(ReferentNotSynced(kind, namespace, name));
    }
    if obj.value.target.None? {
      return obj, Some(TargetMissing(kind, namespace, name));
    }
    return obj, None;
  }

  /** The shared body: check the name, settle the namespace, read the referent, take its target field. */
  method FollowReference(c: Cluster, at: nat, kind: Kind, owner: string, field: string, arr: RefFrom)
    returns (r: Target)
    ensures r == Follow(c, at, kind, owner, field, arr)
  {
    if arr.name.None? || arr.name.value == "" {
      return Failed(NameMissing(field));
    }
    var namespace := c.namespaceFor(owner, arr.namespace, arr.name.value);
    if namespace.None? {
      return Failed(NamespaceRejected);
    }
    var obj, err := GetReferencedResourceState(c, at, kind, arr.name.value, namespace.value);
    if err.Some? {
      return Failed(err.value);
    }
    return Identifier(obj.value.target.value);
  }
}
