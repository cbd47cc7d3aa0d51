/** The manager's tag operations (`pkg/resource/file_system/manager.go`) and runs of tag reconciles. */
module TagManager {
  import opened Nilable
  import opened OrderedTags
  import opened Service
  import opened TagSync
  import opened FileSystems

  /** The runtime's tag merge: existing tags win over default ones. */
  function Merge(existing: map<string, string>, defaults: map<string, string>): map<string, string> {
    defaults + existing
  }

  // ---------------------------------------------------------------- the code

  method EnsureTags(r: FileSystem, defaultTags: map<string, string>)
    modifies r`spec
    ensures r.spec == old(r.spec).(tags := r.spec.tags)
    ensures Ensured(old(r.spec.tags), defaultTags, r.spec.tags)
  {
    var resourceTags, keyOrder := ConvertToOrderedACKTags(r.spec.tags);
    var tags := new TagMap(Merge(resourceTags.entries, defaultTags));
    var list := FromACKTags(tags, keyOrder);
    r.spec := r.spec.(tags := list);
  }

  method FilterSystemTags(r: FileSystem?, systemTags: seq<string>)
    modifies (if r == null then {} else {r})`spec
    ensures r != null ==> r.spec == old(r.spec).(tags := r.spec.tags)
    ensures r != null ==> Filtered(old(r.spec.tags), systemTags, r.spec.tags)
  {
    if r == null {
      return;
    }
    var resourceTags, tagKeyOrder := ConvertToOrderedACKTags(r.spec.tags);
    IgnoreSystemTags(resourceTags, systemTags);
    var list := FromACKTags(resourceTags, tagKeyOrder);
    r.spec := r.spec.(tags := list);
  }

  method MirrorAWSTags(a: FileSystem?, b: FileSystem?)
    modifies (if a == null || b == null then {} else {a})`spec
    ensures a != null && b != null ==> a.spec == old(a.spec).(tags := a.spec.tags)
    ensures a != null && b != null ==> Mirrored(old(a.spec.tags), old(b.spec.tags), a.spec.tags)
  {
    if a == null || b == null {
      return;
    }
    var desiredTags, desiredTagKeyOrder := ConvertToOrderedACKTags(a.spec.tags);
    var latestTags, _ := ConvertToOrderedACKTags(b.spec.tags);
    SyncAWSTags(desiredTags, latestTags);
    var list := FromACKTags(desiredTags, desiredTagKeyOrder);
    a.spec := a.spec.(tags := list);
  }

  // ---------------------------------------------------------------- the three operations as relations between lists

  ghost predicate Ensured(before: seq<Tag>, defaults: map<string, string>, after: seq<Tag>) {
    Renders(after, Merge(ToMap(before), defaults), KeyOrder(before))
  }

  ghost predicate Filtered(before: seq<Tag>, systemTags: seq<string>, after: seq<Tag>) {
    Renders(after, WithoutSystem(ToMap(before), systemTags), KeyOrder(before))
  }

  ghost predicate Mirrored(before: seq<Tag>, latest: seq<Tag>, after: seq<Tag>) {
    Renders(after, Mirror(ToMap(before), ToMap(latest)), KeyOrder(before))
  }

  /** No existing value changes; every default key is present; nothing else is. */
  lemma EnsureTagsKeepsExisting(before: seq<Tag>, defaults: map<string, string>, after: seq<Tag>)
    requires Ensured(before, defaults, after)
    ensures forall k :: k in ToMap(before) ==> Lookup(ToMap(after), k) == Lookup(ToMap(before), k)
    ensures forall k :: k !in ToMap(before) ==> Lookup(ToMap(after), k) == Lookup(defaults, k)
  {
    RenderingGivesMapBack(after, Merge(ToMap(before), defaults), KeyOrder(before));
  }

  /** A second time changes nothing, not even the order, whatever the iteration orders were. */
  lemma EnsureTagsIsIdempotent(before: seq<Tag>, defaults: map<string, string>, once: seq<Tag>, twice: seq<Tag>)
    requires Ensured(before, defaults, once) && Ensured(once, defaults, twice)
    ensures twice == once
  {
    var merged := Merge(ToMap(before), defaults);
    RenderingGivesMapBack(once, merged, KeyOrder(before));
    assert Merge(ToMap(once), defaults) == merged;
    CoveredRenderingIsUnique(twice, merged, KeyOrder(once));
    KnownOfListing(KeyOrder(once), merged.Keys);
    RenderingIsEntries(once, merged, KeyOrder(before));
  }

  lemma RenderingIsEntries(list: seq<Tag>, m: map<string, string>, order: seq<string>)
    requires Renders(list, m, order)
    ensures forall k :: k in KeyOrder(list) ==> k in m
    ensures list == Entries(m, KeyOrder(list))
  {
    var rest :| RendersWith(list, m, order, rest);
    EntriesKeyOrder(m, Known(order, m.Keys) + rest);
  }

  lemma NormaliseKeepsMap(tags: seq<Tag>)
    ensures ToMap(Normalise(tags)) == ToMap(tags)
  {
    var m := ToMap(tags);
    var known := Known(KeyOrder(tags), m.Keys);
    ToMapKeys(tags);
    KnownIsListed(KeyOrder(tags), m.Keys);
    EntriesToMap(m, known);
    forall k | k in m ensures k in known { assert k in Elements(known); }
  }

  lemma FilterRestoresUserTags(before: seq<Tag>, defaults: map<string, string>, systemTags: seq<string>,
          ensured: seq<Tag>, filtered: seq<Tag>)
    requires Ensured(before, defaults, ensured) && Filtered(ensured, systemTags, filtered)
    requires WithoutSystem(Merge(ToMap(before), defaults), systemTags) == ToMap(before)
    ensures filtered == Normalise(before)
  {
    var user, order := ToMap(before), KeyOrder(before);
    var merged := Merge(user, defaults);
    RenderingGivesMapBack(ensured, merged, order);
    CoveredRenderingIsUnique(filtered, user, KeyOrder(ensured));
    var rest :| RendersWith(ensured, merged, order, rest);
    var known := Known(order, merged.Keys);
    EntriesKeyOrder(merged, known + rest);
    ToMapKeys(before);
    KnownIsListed(order, user.Keys);
    KnownDependsOnOverlap(order, merged.Keys, user.Keys);
    KnownSkipsStrangers(known, rest, user.Keys);
    KnownOfListing(known, user.Keys);
  }

  /** Filtering out the default keys undoes EnsureTags exactly when the user wrote no system key. */
  lemma FilterUndoesEnsure(before: seq<Tag>, defaults: map<string, string>, systemTags: seq<string>,
          ensured: seq<Tag>, filtered: seq<Tag>)
    requires Ensured(before, defaults, ensured) && Filtered(ensured, systemTags, filtered)
    requires forall k :: k in defaults ==> "aws:" <= k || k in systemTags
    ensures filtered == Normalise(before) <==>
              forall k :: k in ToMap(before) ==> !("aws:" <= k) && k !in systemTags
  {
    var user := ToMap(before);
    var left := WithoutSystem(Merge(user, defaults), systemTags);
    if forall k :: k in user ==> !IsSystem(k, systemTags) {
      assert left == user;
      FilterRestoresUserTags(before, defaults, systemTags, ensured, filtered);
    } else {
      RenderingGivesMapBack(ensured, Merge(user, defaults), KeyOrder(before));
      RenderingGivesMapBack(filtered, left, KeyOrder(ensured));
      NormaliseKeepsMap(before);
    }
  }

  lemma MirrorMeans(a: map<string, string>, b: map<string, string>)
    ensures forall k :: "aws:" <= k && k in b ==> Lookup(Mirror(a, b), k) == Lookup(b, k)
    ensures forall k :: !("aws:" <= k && k in b) ==> Lookup(Mirror(a, b), k) == Lookup(a, k)
  {
  }

  /** After mirroring, the desired tags show every tag of the latest ones whose key starts with "aws:",
      and are otherwise what the user wrote. */
  lemma MirroringMeans(before: seq<Tag>, latest: seq<Tag>, after: seq<Tag>)
    requires Mirrored(before, latest, after)
    ensures ToMap(after) == Mirror(ToMap(before), ToMap(latest))
    ensures forall k :: "aws:" <= k && k in ToMap(latest) ==> Lookup(ToMap(after), k) == Lookup(ToMap(latest), k)
    ensures forall k :: !("aws:" <= k && k in ToMap(latest)) ==> Lookup(ToMap(after), k) == Lookup(ToMap(before), k)
  {
    RenderingGivesMapBack(after, Mirror(ToMap(before), ToMap(latest)), KeyOrder(before));
    MirrorMeans(ToMap(before), ToMap(latest));
  }

  /** After filtering, no key starts with "aws:" or is one of the system tags, and every other tag is
      there with its value. */
  lemma FilteringMeans(before: seq<Tag>, systemTags: seq<string>, after: seq<Tag>)
    requires Filtered(before, systemTags, after)
    ensures forall k :: k in ToMap(after) <==> k in ToMap(before) && !("aws:" <= k) && k !in systemTags
    ensures forall k :: k in ToMap(after) ==> ToMap(after)[k] == ToMap(before)[k]
    ensures forall i :: 0 <= i < |after| ==>
              after[i].key.Some? && !("aws:" <= after[i].key.value) && after[i].key.value !in systemTags
  {
    var left := WithoutSystem(ToMap(before), systemTags);
    RenderingGivesMapBack(after, left, KeyOrder(before));
    RenderingIsEntries(after, left, KeyOrder(before));
  }

  // ---------------------------------------------------------------- runs of reconciles

  /** A reconcile reads the remote tags, mirrors, and, `at` calls having been made before, makes the first
      `calls` calls of its plan (fewer than planned if the controller stops), with any failures. Between
      reconciles AWS may write its own tags, and withdraw those the user does not list. */
  datatype Event =
    | Reconcile(outcomes: nat -> Outcome, at: nat, calls: nat)
    | AwsWrites(tags: map<string, string>, withdrawn: set<string>)

  function PlanFor(user: map<string, string>, s: Remote, id: Option<string>): seq<Call> {
    TagPlan(s.tags, Mirror(user, s.tags), id)
  }

  function Step(user: map<string, string>, id: Option<string>, s: Remote, e: Event): Remote {
    match e
    case Reconcile(outcomes, at, calls) =>
      Execute(s, Shortened(PlanFor(user, s, id), calls), outcomes, at).state
    case AwsWrites(tags, withdrawn) => s.(tags := AwsWritten(user, s.tags, tags, withdrawn))
  }

  function Shortened(plan: seq<Call>, calls: nat): seq<Call> {
    if calls < |plan| then plan[..calls] else plan
  }

  function AwsWritten(user: map<string, string>, before: map<string, string>, tags: map<string, string>,
          withdrawn: set<string>): map<string, string> {
    before + (map k | k in tags && "aws:" <= k :: tags[k]) - set k | k in withdrawn && "aws:" <= k && k !in user
  }

  function RemoteAfter(user: map<string, string>, id: Option<string>, s: Remote, events: seq<Event>): Remote {
    if events == [] then s else Step(user, id, RemoteAfter(user, id, s, events[..|events| - 1]), events[|events| - 1])
  }

  /** The keys on which the remote and the mirrored desired tags disagree. */
  function Disagreeing(user: map<string, string>, tags: map<string, string>): set<string> {
    set k | k in tags.Keys + user.Keys && Lookup(tags, k) != Lookup(Mirror(user, tags), k)
  }

  lemma BetweenShrinksDisagreement(user: map<string, string>, tags: map<string, string>, now: map<string, string>)
    requires Between(tags, Mirror(user, tags), now)
    ensures Disagreeing(user, now) <= Disagreeing(user, tags)
  {
  }

  lemma StepShrinksDisagreement(user: map<string, string>, id: Option<string>, s: Remote, e: Event)
    ensures Disagreeing(user, Step(user, id, s, e).tags) <= Disagreeing(user, s.tags)
  {
    if e.Reconcile? {
      var plan := PlanFor(user, s, id);
      assert plan[..|plan|] == plan;
      SyncStaysBetween(s, s.tags, Mirror(user, s.tags), id, e.outcomes, e.at,
              if e.calls < |plan| then e.calls else |plan|);
      BetweenShrinksDisagreement(user, s.tags, Step(user, id, s, e).tags);
    }
  }

  lemma {:induction false} DisagreementNeverGrows(user: map<string, string>, id: Option<string>, s: Remote,
          events: seq<Event>)
    ensures Disagreeing(user, RemoteAfter(user, id, s, events).tags) <= Disagreeing(user, s.tags)
    ensures |Disagreeing(user, RemoteAfter(user, id, s, events).tags)| <= |Disagreeing(user, s.tags)|
  {
    if events != [] {
      var n := |events| - 1;
      DisagreementNeverGrows(user, id, s, events[..n]);
      StepShrinksDisagreement(user, id, RemoteAfter(user, id, s, events[..n]), events[n]);
    }
    SubsetSize(Disagreeing(user, RemoteAfter(user, id, s, events).tags), Disagreeing(user, s.tags));
  }

  lemma SubsetSize(a: set<string>, b: set<string>)
    requires a <= b
    ensures |a| <= |b|
  {
    assert b == a + (b - a);
  }

  /** One reconcile without error leaves no disagreement, and no later one of the run has a call to make. */
  lemma SuccessfulReconcileSettles(user: map<string, string>, id: Option<string>, s: Remote,
          outcomes: nat -> Outcome, at: nat, later: seq<Event>)
    requires Execute(s, PlanFor(user, s, id), outcomes, at).error.None?
    ensures var s' := Execute(s, PlanFor(user, s, id), outcomes, at).state;
            && s'.tags == Mirror(user, s.tags) == Mirror(user, s'.tags)
            && Disagreeing(user, s'.tags) == {}
            && PlanFor(user, RemoteAfter(user, id, s', later), id) == []
  {
    SuccessfulSyncConverges(s, Mirror(user, s.tags), id, outcomes, at);
    var s' := Execute(s, PlanFor(user, s, id), outcomes, at).state;
    MirrorTwice(user, s.tags);
    DisagreementNeverGrows(user, id, s', later);
    NothingToDoIffAgreed(user, RemoteAfter(user, id, s', later), id);
  }

  lemma NothingToDoIffAgreed(user: map<string, string>, s: Remote, id: Option<string>)
    ensures PlanFor(user, s, id) == [] <==> Disagreeing(user, s.tags) == {}
  {
    NoCallIffEqual(s.tags, Mirror(user, s.tags), id);
    if Disagreeing(user, s.tags) == {} {
      MirrorOfAgreed(user, s.tags);
    }
  }

  lemma MirrorTwice(user: map<string, string>, tags: map<string, string>)
    ensures Mirror(user, Mirror(user, tags)) == Mirror(user, tags)
    ensures Disagreeing(user, Mirror(user, tags)) == {}
  {
  }

  lemma MirrorOfAgreed(user: map<string, string>, tags: map<string, string>)
    requires Disagreeing(user, tags) == {}
    ensures Mirror(user, tags) == tags
  {
    var m := Mirror(user, tags);
    forall k | k in tags.Keys + user.Keys ensures Lookup(tags, k) == Lookup(m, k) {
      assert k !in Disagreeing(user, tags);
    }
    forall k | k in m ensures k in tags && tags[k] == m[k] { assert Lookup(tags, k) == Lookup(m, k); }
    forall k | k in tags ensures k in m { assert Lookup(tags, k) == Lookup(m, k); }
  }

  /** A tag whose key starts with "aws:" and that is present when a reconcile reads is left exactly as it
      is by all its calls. */
  lemma ReconcileLeavesAwsTags(user: map<string, string>, id: Option<string>, s: Remote, outcomes: nat -> Outcome,
          at: nat, calls: nat)
    ensures forall k :: "aws:" <= k && k in s.tags ==>
              Lookup(Step(user, id, s, Reconcile(outcomes, at, calls)).tags, k) == Lookup(s.tags, k)
  {
    var plan := PlanFor(user, s, id);
    assert plan[..|plan|] == plan;
    SyncStaysBetween(s, s.tags, Mirror(user, s.tags), id, outcomes, at, if calls < |plan| then calls else |plan|);
    MirrorMeans(user, s.tags);
  }
}
