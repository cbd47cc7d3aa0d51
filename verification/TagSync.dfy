/** Moving the remote tags to the desired ones (`pkg/tags/tags.go`). */
module TagSync {
  import opened Nilable
  import opened OrderedTags
  import opened Service

  // ---------------------------------------------------------------- specification

  function Added(from: map<string, string>, to: map<string, string>): map<string, string> {
    map k | k in to && !(k in from && from[k] == to[k]) :: to[k]
  }

  function Removed(from: map<string, string>, to: map<string, string>): set<string> {
    from.Keys - to.Keys
  }

  function TagPlan(from: map<string, string>, to: map<string, string>, id: Option<string>): seq<Call> {
    AddPart(from, to, id) + RemovePart(from, to, id)
  }

  function AddPart(from: map<string, string>, to: map<string, string>, id: Option<string>): seq<Call> {
    if Added(from, to) == map[] then [] else [TagResource(id, Added(from, to))]
  }

  function RemovePart(from: map<string, string>, to: map<string, string>, id: Option<string>): seq<Call> {
    if Removed(from, to) == {} then [] else [UntagResource(id, Removed(from, to))]
  }

  /** The contract of the runtime's GetTagsDifference: a key whose value changes is in `added`, and
      may be in `removed` as well. */
  ghost predicate IsTagsDifference(from: map<string, string>, to: map<string, string>,
                                   added: map<string, string>, removed: map<string, string>) {
    && added == Added(from, to)
    && (forall k :: k in removed ==> k in from && removed[k] == from[k])
    && from.Keys - to.Keys <= removed.Keys <= from.Keys - to.Keys + added.Keys
  }

  // ---------------------------------------------------------------- the code

  method GetTagsDifference(from: TagMap, to: TagMap) returns (added: TagMap, removed: TagMap)
    ensures fresh(added) && fresh(removed) && added != removed
    ensures IsTagsDifference(from.entries, to.entries, added.entries, removed.entries)
  {
    added := new TagMap(Added(from.entries, to.entries));
    var changed := set k | k in added.entries && k in from.entries;
    var also: set<string> :| also <= changed;
    removed := new TagMap(map k | k in from.entries && (k !in to.entries || k in also) :: from.entries[k]);
  }

  /** The clean-up loop: a key that is being added is not to be removed. */
  method DropAdded(removed: TagMap, added: TagMap)
    requires removed != added
    modifies removed
    ensures removed.entries == old(removed.entries) - added.entries.Keys
  {
    ghost var before := removed.entries;
    var visited: set<string> := {};
    while removed.entries.Keys - visited != {}
      invariant visited <= before.Keys
      invariant removed.entries == before - (visited * added.entries.Keys)
      decreases before.Keys - visited
    {
      var key :| key in removed.entries && key !in visited;
      visited := visited + {key};
      if key in added.entries {
        removed.entries := removed.entries - {key};
      }
    }
    forall k | k in removed.entries ensures k !in added.entries {
      assert k in visited || k in removed.entries.Keys - visited;
    }
  }

  lemma ToMapOneMore(tags: seq<Tag>, key: string, value: string)
    ensures ToMap(tags + [Tag(Some(key), Some(value))]) == ToMap(tags)[key := value]
    ensures KeyOrder(tags + [Tag(Some(key), Some(value))]) == KeyOrder(tags) + [key]
  {
  }

  method TagList(added: TagMap) returns (toAdd: seq<Tag>)
    ensures ToMap(toAdd) == added.entries
    ensures |KeyOrder(toAdd)| == |added.entries|
  {
    toAdd := [];
    var visited: set<string> := {};
    while added.entries.Keys - visited != {}
      invariant visited <= added.entries.Keys
      invariant forall k :: k in ToMap(toAdd) <==> k in visited
      invariant forall k :: k in visited ==> ToMap(toAdd)[k] == added.entries[k]
      invariant |KeyOrder(toAdd)| == |visited|
      decreases added.entries.Keys - visited
    {
      var key :| key in added.entries && key !in visited;
      visited := visited + {key};
      ToMapOneMore(toAdd, key, added.entries[key]);
      toAdd := toAdd + [Tag(Some(key), Some(added.entries[key]))];
    }
    assert forall k :: k in added.entries ==> k in visited || k in added.entries.Keys - visited;
    assert visited == added.entries.Keys;
  }

  method KeyList(removed: TagMap) returns (toRemove: seq<string>)
    ensures Lists(toRemove, removed.entries.Keys)
  {
    toRemove := [];
    while removed.entries.Keys - Elements(toRemove) != {}
      invariant Elements(toRemove) <= removed.entries.Keys && Distinct(toRemove)
      decreases removed.entries.Keys - Elements(toRemove)
    {
      var key :| key in removed.entries && key !in toRemove;
      assert Elements(toRemove + [key]) == Elements(toRemove) + {key};
      toRemove := toRemove + [key];
    }
    assert forall k :: k in removed.entries ==>
      k in Elements(toRemove) || k in removed.entries.Keys - Elements(toRemove);
  }

  method Tags(desiredTags: seq<Tag>, latestTags: seq<Tag>, resourceID: Option<string>, sdkapi: Client)
    returns (err: Option<Error>)
    modifies sdkapi
    ensures Follows(TagPlan(ToMap(latestTags), ToMap(desiredTags), resourceID), sdkapi.outcomes,
                    old(sdkapi.state), old(sdkapi.log), sdkapi.state, sdkapi.log, err)
  {
    var from, _ := ConvertToOrderedACKTags(latestTags);
    var to, _ := ConvertToOrderedACKTags(desiredTags);
    var added, removed := GetTagsDifference(from, to);
    DropAdded(removed, added);
    assert removed.entries.Keys == Removed(from.entries, to.entries);
    err := SendAdded(added, from, to, resourceID, sdkapi);
    ghost var state1, log1 := sdkapi.state, sdkapi.log;
    ghost var addPart, removePart := AddPart(from.entries, to.entries, resourceID), RemovePart(from.entries,
            to.entries, resourceID);
    if err.Some? {
      FollowsFirstPart(addPart, removePart, sdkapi.outcomes, old(sdkapi.state), old(sdkapi.log), state1, log1, err);
      return;
    }
    err := SendRemoved(removed, from, to, resourceID, sdkapi);
    FollowsBothParts(addPart, removePart, sdkapi.outcomes, old(sdkapi.state), old(sdkapi.log), state1, log1,
            sdkapi.state, sdkapi.log, err);
  }

  method SendAdded(added: TagMap, ghost from: TagMap, ghost to: TagMap, resourceID: Option<string>, sdkapi: Client)
    returns (err: Option<Error>)
    requires added.entries == Added(from.entries, to.entries)
    modifies sdkapi
    ensures Follows(AddPart(from.entries, to.entries, resourceID), sdkapi.outcomes,
                    old(sdkapi.state), old(sdkapi.log), sdkapi.state, sdkapi.log, err)
  {
    if |added.entries| > 0 {
      var toAdd := TagList(added);
      err := sdkapi.Invoke(TagResource(resourceID, ToMap(toAdd)));
      FollowsOne(TagResource(resourceID, ToMap(toAdd)), sdkapi.outcomes, old(sdkapi.state), old(sdkapi.log));
    } else {
      err := None;
    }
  }

  method SendRemoved(removed: TagMap, ghost from: TagMap, ghost to: TagMap, resourceID: Option<string>, sdkapi: Client)
    returns (err: Option<Error>)
    requires removed.entries.Keys == Removed(from.entries, to.entries)
    modifies sdkapi
    ensures Follows(RemovePart(from.entries, to.entries, resourceID), sdkapi.outcomes,
                    old(sdkapi.state), old(sdkapi.log), sdkapi.state, sdkapi.log, err)
  {
    if |removed.entries| > 0 {
      var toRemove := KeyList(removed);
      assert Elements(toRemove) == Removed(from.entries, to.entries);
      err := sdkapi.Invoke(UntagResource(resourceID, Elements(toRemove)));
      FollowsOne(UntagResource(resourceID, Elements(toRemove)), sdkapi.outcomes, old(sdkapi.state), old(sdkapi.log));
    } else {
      err := None;
    }
  }

  // ---------------------------------------------------------------- one synchronisation, any failures

  function Lookup(m: map<string, string>, k: string): Option<string> {
    if k in m then Some(m[k]) else None
  }

  /** Key by key, `m` is as `a` or as `b`. */
  ghost predicate Between(a: map<string, string>, b: map<string, string>, m: map<string, string>) {
    forall k :: Lookup(m, k) == Lookup(a, k) || Lookup(m, k) == Lookup(b, k)
  }

  /** No call is planned exactly when there is no difference. */
  lemma NoCallIffEqual(from: map<string, string>, to: map<string, string>, id: Option<string>)
    ensures TagPlan(from, to, id) == [] <==> from == to
  {
    if Added(from, to) == map[] && Removed(from, to) == {} {
      forall k | k in to ensures k in from && from[k] == to[k] { assert k !in Added(from, to); }
      forall k | k in from ensures k in to { assert k !in Removed(from, to); }
    }
    if from == to {
      assert Added(from, to) == map[];
    }
  }

  /** What is planned: a new or changed tag is sent with its desired value and nothing else is; a key that
      is no longer desired is removed and nothing else is; and the tags are sent before the removal. */
  lemma TagPlanMeans(from: map<string, string>, to: map<string, string>, id: Option<string>)
    ensures var plan := TagPlan(from, to, id);
            && (forall i :: 0 <= i < |plan| ==> plan[i].id == id && (plan[i].TagResource? || plan[i].UntagResource?))
            && (forall i, j :: 0 <= i < j < |plan| ==> plan[i].TagResource? && plan[j].UntagResource?)
            && (forall i, k :: 0 <= i < |plan| && plan[i].TagResource? ==>
                  (k in plan[i].tags <==> k in to && Lookup(from, k) != Some(to[k]))
                  && (k in plan[i].tags ==> plan[i].tags[k] == to[k]))
            && (forall i, k :: 0 <= i < |plan| && plan[i].UntagResource? ==>
                  (k in plan[i].keys <==> k in from && k !in to))
    ensures forall k :: k in to && Lookup(from, k) != Some(to[k]) ==>
              exists i :: 0 <= i < |TagPlan(from, to, id)| && TagPlan(from, to, id)[i].TagResource?
    ensures forall k :: k in from && k !in to ==>
              exists i :: 0 <= i < |TagPlan(from, to, id)| && TagPlan(from, to, id)[i].UntagResource?
    ensures TagPlan(from, to, id) == [] <==> from == to
  {
    NoCallIffEqual(from, to, id);
    var plan := TagPlan(from, to, id);
    forall k | k in to && Lookup(from, k) != Some(to[k])
      ensures exists i :: 0 <= i < |plan| && plan[i].TagResource?
    {
      assert k in Added(from, to);
      assert plan[0].TagResource?;
    }
    forall k | k in from && k !in to ensures exists i :: 0 <= i < |plan| && plan[i].UntagResource? {
      assert k in Removed(from, to);
      assert plan[|plan| - 1].UntagResource?;
    }
  }

  lemma TagCallStaysBetween(a: map<string, string>, to: map<string, string>, s: Remote, c: Call, o: Outcome)
    requires Between(a, to, s.tags)
    requires c.TagResource? ==> c.tags.Keys <= to.Keys && forall k :: k in c.tags ==> c.tags[k] == to[k]
    requires c.UntagResource? ==> c.keys !! to.Keys
    requires c.TagResource? || c.UntagResource?
    ensures Between(a, to, Effect(s, c, o).tags)
  {
  }

  /** After every number of calls, whatever failed and whatever the failed calls reached, and even if
      `from` was out of date: each key is as it was before or as desired. */
  lemma SyncStaysBetween(s: Remote, from: map<string, string>, to: map<string, string>, id: Option<string>,
                         outcomes: nat -> Outcome, at: nat, calls: nat)
    requires calls <= |TagPlan(from, to, id)|
    ensures Between(s.tags, to, Execute(s, TagPlan(from, to, id)[..calls], outcomes, at).state.tags)
  {
    var plan := TagPlan(from, to, id)[..calls];
    if |plan| > 0 {
      var o := outcomes(at);
      var s1 := Effect(s, plan[0], o);
      TagCallStaysBetween(s.tags, to, s, plan[0], o);
      if |plan| > 1 {
        var rest := plan[1..];
        TagCallStaysBetween(s.tags, to, s1, plan[1], outcomes(at + 1));
        assert rest[1..] == [];
        assert Execute(s1, rest, outcomes, at + 1).state == Effect(s1, plan[1], outcomes(at + 1));
      } else {
        assert plan[1..] == [];
      }
    }
  }

  lemma WholeSyncStaysBetween(s: Remote, from: map<string, string>, to: map<string, string>, id: Option<string>,
                              outcomes: nat -> Outcome, at: nat)
    ensures Between(s.tags, to, Execute(s, TagPlan(from, to, id), outcomes, at).state.tags)
  {
    var plan := TagPlan(from, to, id);
    assert plan[..|plan|] == plan;
    SyncStaysBetween(s, from, to, id, outcomes, at, |plan|);
  }

  /** Keys in both the old and the desired tags are never absent, and no key outside both appears. */
  lemma SyncIntermediateStates(s: Remote, from: map<string, string>, to: map<string, string>, id: Option<string>,
                               outcomes: nat -> Outcome, at: nat, calls: nat)
    requires calls <= |TagPlan(from, to, id)|
    ensures var now := Execute(s, TagPlan(from, to, id)[..calls], outcomes, at).state;
            && s.tags.Keys * to.Keys <= now.tags.Keys <= s.tags.Keys + to.Keys
            && now == s.(tags := now.tags)
  {
    SyncStaysBetween(s, from, to, id, outcomes, at, calls);
    var now := Execute(s, TagPlan(from, to, id)[..calls], outcomes, at).state;
    forall k | k in s.tags && k in to ensures k in now.tags { assert Lookup(now.tags, k).Some?; }
    forall k | k in now.tags ensures k in s.tags || k in to { assert Lookup(now.tags, k).Some?; }
    OnlyTagsChange(s, TagPlan(from, to, id)[..calls], outcomes, at);
  }

  lemma {:induction false} OnlyTagsChange(s: Remote, plan: seq<Call>, outcomes: nat -> Outcome, at: nat)
    requires forall i :: 0 <= i < |plan| ==> plan[i].TagResource? || plan[i].UntagResource?
    ensures Execute(s, plan, outcomes, at).state == s.(tags := Execute(s, plan, outcomes, at).state.tags)
    decreases |plan|
  {
    if plan != [] {
      OnlyTagsChange(Effect(s, plan[0], outcomes(at)), plan[1..], outcomes, at + 1);
    }
  }

  /** With tags that were just read, a run without error ends at the desired tags. */
  lemma SuccessfulSyncConverges(s: Remote, to: map<string, string>, id: Option<string>, outcomes: nat -> Outcome,
          at: nat)
    requires Execute(s, TagPlan(s.tags, to, id), outcomes, at).error.None?
    ensures Execute(s, TagPlan(s.tags, to, id), outcomes, at).state == s.(tags := to)
  {
    var plan := TagPlan(s.tags, to, id);
    OnlyTagsChange(s, plan, outcomes, at);
    NoCallIffEqual(s.tags, to, id);
    if plan != [] {
      var s1 := Effect(s, plan[0], outcomes(at));
      if |plan| > 1 {
        var rest := plan[1..];
        assert rest[1..] == [];
        assert Execute(s1, rest, outcomes, at + 1).state == Effect(s1, rest[0], outcomes(at + 1));
        assert plan[0] == TagResource(id, Added(s.tags, to)) && plan[1] == UntagResource(id, Removed(s.tags, to));
      } else {
        assert plan[1..] == [];
        assert Execute(s, plan, outcomes, at).state == s1;
        if Added(s.tags, to) == map[] {
          assert forall k :: k in to ==> k !in Added(s.tags, to);
        } else {
          assert forall k :: k in s.tags ==> k !in Removed(s.tags, to);
        }
      }
    }
  }
}
