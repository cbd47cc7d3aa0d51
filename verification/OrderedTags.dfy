/** Tag lists, tag maps and the conversions between them (`pkg/resource/file_system/tags.go`). */
module OrderedTags {
  import opened Nilable

  datatype Tag = Tag(key: Option<string>, value: Option<string>)

  /** A Go map is a reference: the callee's deletions and insertions are seen by the caller. */
  class TagMap {
    var entries: map<string, string>

    constructor (init: map<string, string>)
      ensures entries == init
    {
      entries := init;
    }
  }

  // ---------------------------------------------------------------- specification

  function ValueOf(t: Tag): string {
    if t.value.Some? then t.value.value else ""
  }

  /** The map a tag list stands for; `ToMapReadsLastOccurrence` says which value a key gets. */
  function ToMap(tags: seq<Tag>): map<string, string> {
    if tags == [] then map[] else
    var t, init := tags[|tags| - 1], ToMap(tags[..|tags| - 1]);
    if t.key.Some? then init[t.key.value := ValueOf(t)] else init
  }

  /** The non-nil keys in list order, repetitions included. */
  function KeyOrder(tags: seq<Tag>): seq<string> {
    if tags == [] then [] else
    var t, init := tags[|tags| - 1], KeyOrder(tags[..|tags| - 1]);
    if t.key.Some? then init + [t.key.value] else init
  }

  function Elements(s: seq<string>): set<string> {
    set k | k in s
  }

  ghost predicate Distinct(s: seq<string>) {
    forall i, j :: 0 <= i < j < |s| ==> s[i] != s[j]
  }

  /** `s` runs through the keys `ks` in some order, each once. */
  ghost predicate Lists(s: seq<string>, ks: set<string>) {
    Distinct(s) && Elements(s) == ks
  }

  /** The keys of `order` that are in `ks`, each at its first occurrence. */
  function Known(order: seq<string>, ks: set<string>): seq<string> {
    if order == [] then [] else
    var k, init := order[|order| - 1], order[..|order| - 1];
    if k in ks && k !in init then Known(init, ks) + [k] else Known(init, ks)
  }

  function Entries(m: map<string, string>, keys: seq<string>): seq<Tag>
    requires forall k :: k in keys ==> k in m
  {
    seq(|keys|, i requires 0 <= i < |keys| => Tag(Some(keys[i]), Some(m[keys[i]])))
  }

  /** `list` shows the map `m`: the known keys of `order` first, then the others in any order. */
  ghost predicate Renders(list: seq<Tag>, m: map<string, string>, order: seq<string>) {
    exists rest :: RendersWith(list, m, order, rest)
  }

  ghost predicate RendersWith(list: seq<Tag>, m: map<string, string>, order: seq<string>, rest: seq<string>) {
    && Lists(rest, m.Keys - Elements(order))
    && (forall k :: k in Known(order, m.Keys) + rest ==> k in m)
    && list == Entries(m, Known(order, m.Keys) + rest)
  }

  /** What is left of a list once it has been through a map and back. */
  function Normalise(tags: seq<Tag>): seq<Tag> {
    KnownIsListed(KeyOrder(tags), ToMap(tags).Keys);
    Entries(ToMap(tags), Known(KeyOrder(tags), ToMap(tags).Keys))
  }

  predicate IsAws(key: string) {
    "aws:" <= key
  }

  predicate IsSystem(key: string, systemTags: seq<string>) {
    IsAws(key) || key in systemTags
  }

  function WithoutSystem(m: map<string, string>, systemTags: seq<string>): map<string, string> {
    map k | k in m && !IsSystem(k, systemTags) :: m[k]
  }

  /** `a` with the AWS-managed tags of `b` written over it. */
  function Mirror(a: map<string, string>, b: map<string, string>): map<string, string> {
    a + map k | k in b && IsAws(k) :: b[k]
  }

  // ---------------------------------------------------------------- the code

  /** The loop that copies a tag list field by field between the custom resource and the API. */
  method CopyTags(tags: seq<Tag>) returns (copy: seq<Tag>)
    ensures copy == tags
  {
    copy := [];
    for i := 0 to |tags|
      invariant copy == tags[..i]
    {
      var elem := Tag(None, None);
      if tags[i].key.Some? {
        elem := elem.(key := tags[i].key);
      }
      if tags[i].value.Some? {
        elem := elem.(value := tags[i].value);
      }
      copy := copy + [elem];
    }
  }

  method ConvertToOrderedACKTags(tags: seq<Tag>) returns (result: TagMap, keyOrder: seq<string>)
    ensures fresh(result)
    ensures result.entries == ToMap(tags)
    ensures keyOrder == KeyOrder(tags)
  {
    result := new TagMap(map[]);
    keyOrder := [];
    for i := 0 to |tags|
      invariant result.entries == ToMap(tags[..i])
      invariant keyOrder == KeyOrder(tags[..i])
    {
      assert tags[..i + 1][..i] == tags[..i];
      var t := tags[i];
      if t.key.Some? {
        keyOrder := keyOrder + [t.key.value];
        if t.value.Some? {
          result.entries := result.entries[t.key.value := t.value.value];
        } else {
          result.entries := result.entries[t.key.value := ""];
        }
      }
    }
    assert tags[..|tags|] == tags;
  }

  /** Empties `tags` of the keys in `keyOrder`, as the first loop deletes what it has rendered. */
  method FromACKTags(tags: TagMap, keyOrder: seq<string>) returns (result: seq<Tag>)
    modifies tags
    ensures Renders(result, old(tags.entries), keyOrder)
    ensures tags.entries == old(tags.entries) - Elements(keyOrder)
  {
    ghost var m := tags.entries;
    result := [];
    for i := 0 to |keyOrder|
      invariant tags.entries == m - Elements(keyOrder[..i])
      invariant forall k :: k in Known(keyOrder[..i], m.Keys) ==> k in m
      invariant result == Entries(m, Known(keyOrder[..i], m.Keys))
    {
      var k := keyOrder[i];
      assert keyOrder[..i + 1] == keyOrder[..i] + [k];
      if k in tags.entries {
        result := result + [Tag(Some(k), Some(tags.entries[k]))];
        tags.entries := tags.entries - {k};
      }
    }
    assert keyOrder[..|keyOrder|] == keyOrder;
    ghost var known := Known(keyOrder, m.Keys);
    ghost var rest: seq<string> := [];
    var visited: set<string> := {};
    while tags.entries.Keys - visited != {}
      invariant visited <= tags.entries.Keys
      invariant Lists(rest, visited)
      invariant forall k :: k in known + rest ==> k in m
      invariant result == Entries(m, known + rest)
      decreases tags.entries.Keys - visited
    {
      var k :| k in tags.entries && k !in visited;
      visited := visited + {k};
      result := result + [Tag(Some(k), Some(tags.entries[k]))];
      assert known + (rest + [k]) == (known + rest) + [k];
      rest := rest + [k];
    }
    assert RendersWith(result, m, keyOrder, rest);
  }

  method IgnoreSystemTags(tags: TagMap, systemTags: seq<string>)
    modifies tags
    ensures tags.entries == WithoutSystem(old(tags.entries), systemTags)
    ensures forall k :: k in tags.entries <==> k in old(tags.entries) && !("aws:" <= k) && k !in systemTags
    ensures forall k :: k in tags.entries ==> tags.entries[k] == old(tags.entries)[k]
  {
    ghost var m := tags.entries;
    var visited: set<string> := {};
    // A key removed before it is reached is never produced; a key produced is not produced again.
    while tags.entries.Keys - visited != {}
      invariant tags.entries == map k | k in m && !(k in visited && IsSystem(k, systemTags)) :: m[k]
      invariant visited <= m.Keys
      decreases m.Keys - visited
    {
      var k :| k in tags.entries && k !in visited;
      visited := visited + {k};
      if IsAws(k) || k in systemTags {
        tags.entries := tags.entries - {k};
      }
    }
    forall k | k in m && !IsSystem(k, systemTags) ensures k in tags.entries {}
    forall k | k in tags.entries ensures !IsSystem(k, systemTags) {
      assert k in visited;
    }
  }

  method SyncAWSTags(a: TagMap, b: TagMap)
    modifies a
    ensures a.entries == Mirror(old(a.entries), old(b.entries))
    ensures forall k :: k in a.entries <==> k in old(a.entries) || (k in old(b.entries) && "aws:" <= k)
    ensures forall k :: k in a.entries ==>
              a.entries[k] == if k in old(b.entries) && "aws:" <= k then old(b.entries)[k] else old(a.entries)[k]
  {
    ghost var before, source := a.entries, b.entries;
    var visited: set<string> := {};
    while b.entries.Keys - visited != {}
      invariant visited <= source.Keys
      invariant b.entries == source
      invariant forall k :: k in a.entries <==> k in before || (k in visited && IsAws(k))
      invariant forall k :: k in a.entries ==> a.entries[k] == if k in visited && IsAws(k) then source[k] else before[k]
      decreases source.Keys - visited
    {
      var k :| k in b.entries && k !in visited;
      visited := visited + {k};
      if IsAws(k) {
        a.entries := a.entries[k := b.entries[k]];
      }
    }
    forall k | k in source ensures k in visited {
      assert k in b.entries.Keys - visited || k in visited;
    }
  }

  // ---------------------------------------------------------------- what the conversions mean

  lemma {:induction false} ToMapKeys(tags: seq<Tag>)
    ensures ToMap(tags).Keys == Elements(KeyOrder(tags))
  {
    if tags != [] {
      ToMapKeys(tags[..|tags| - 1]);
    }
  }

  /** A key is in the map exactly when the list has it, and its last occurrence decides the value, nil
      being read as "". */
  lemma {:induction false} ToMapReadsLastOccurrence(tags: seq<Tag>, key: string)
    ensures key in ToMap(tags) <==> exists i :: 0 <= i < |tags| && tags[i].key == Some(key)
    ensures forall i :: 0 <= i < |tags| && tags[i].key == Some(key)
                        && (forall j :: i < j < |tags| ==> tags[j].key != Some(key))
                        ==> key in ToMap(tags)
                            && (tags[i].value.None? ==> ToMap(tags)[key] == "")
                            && (tags[i].value.Some? ==> ToMap(tags)[key] == tags[i].value.value)
  {
    if tags != [] {
      var n := |tags| - 1;
      ToMapReadsLastOccurrence(tags[..n], key);
      if tags[n].key != Some(key) {
        forall i | 0 <= i < |tags| && tags[i].key == Some(key) ensures tags[..n][i].key == Some(key) {}
      }
    }
  }

  lemma {:induction false} KnownIsListed(order: seq<string>, ks: set<string>)
    ensures Lists(Known(order, ks), Elements(order) * ks)
    ensures forall k :: k in Known(order, ks) ==> k in ks
  {
    if order != [] {
      var n := |order| - 1;
      KnownIsListed(order[..n], ks);
      assert order == order[..n] + [order[n]];
      assert Elements(order) == Elements(order[..n]) + {order[n]};
      var known := Known(order[..n], ks);
      assert Elements(known + [order[n]]) == Elements(known) + {order[n]};
      forall i | 0 <= i < |known| ensures known[i] in order[..n] {
        assert known[i] in Elements(known);
      }
    }
  }

  /** Known keys keep the order of their first occurrences. */
  lemma {:induction false} KnownKeepsFirstOccurrences(order: seq<string>, ks: set<string>, i: nat, j: nat)
    requires i < j < |Known(order, ks)|
    ensures exists p, q :: 0 <= p < q < |order|
                           && order[p] == Known(order, ks)[i] && order[p] !in order[..p]
                           && order[q] == Known(order, ks)[j] && order[q] !in order[..q]
  {
    var n := |order| - 1;
    var init := order[..n];
    if j < |Known(init, ks)| {
      KnownKeepsFirstOccurrences(init, ks, i, j);
      var p, q :| 0 <= p < q < |init| && init[p] == Known(init, ks)[i] && init[p] !in init[..p]
                  && init[q] == Known(init, ks)[j] && init[q] !in init[..q];
      assert order[..p] == init[..p] && order[..q] == init[..q];
    } else {
      FirstOccurrence(init, ks, i);
      var p :| 0 <= p < |init| && init[p] == Known(init, ks)[i] && init[p] !in init[..p];
      assert order[..p] == init[..p];
    }
  }

  lemma {:induction false} FirstOccurrence(order: seq<string>, ks: set<string>, i: nat)
    requires i < |Known(order, ks)|
    ensures exists p :: 0 <= p < |order| && order[p] == Known(order, ks)[i] && order[p] !in order[..p]
  {
    var n := |order| - 1;
    var init := order[..n];
    if i < |Known(init, ks)| {
      FirstOccurrence(init, ks, i);
      var p :| 0 <= p < |init| && init[p] == Known(init, ks)[i] && init[p] !in init[..p];
      assert order[..p] == init[..p];
    }
  }

  lemma {:induction false} EntriesKeyOrder(m: map<string, string>, keys: seq<string>)
    requires forall k :: k in keys ==> k in m
    ensures KeyOrder(Entries(m, keys)) == keys
  {
    if keys != [] {
      var n := |keys| - 1;
      EntriesKeyOrder(m, keys[..n]);
      assert Entries(m, keys)[..n] == Entries(m, keys[..n]);
    }
  }

  lemma {:induction false} EntriesToMap(m: map<string, string>, keys: seq<string>)
    requires forall k :: k in keys ==> k in m
    ensures ToMap(Entries(m, keys)) == map k | k in m && k in keys :: m[k]
  {
    if keys != [] {
      var n := |keys| - 1;
      var init := keys[..n];
      EntriesToMap(m, init);
      assert Entries(m, keys)[..n] == Entries(m, init);
      assert keys == init + [keys[n]];
    }
  }

  lemma EmptyListing(s: seq<string>)
    ensures s == [] <==> Elements(s) == {}
  {
    assert s != [] ==> s[0] in Elements(s);
  }

  /** Whatever the key order and the iteration order, the rendered list stands for the map again,
      repeats no key, and starts with the known keys of the key order. */
  lemma RenderingGivesMapBack(list: seq<Tag>, m: map<string, string>, order: seq<string>)
    requires Renders(list, m, order)
    ensures ToMap(list) == m
    ensures Lists(KeyOrder(list), m.Keys)
    ensures Known(order, m.Keys) <= KeyOrder(list)
  {
    var rest :| RendersWith(list, m, order, rest);
    var known := Known(order, m.Keys);
    KnownIsListed(order, m.Keys);
    EntriesKeyOrder(m, known + rest);
    EntriesToMap(m, known + rest);
    forall k | k in m ensures k in known + rest {
      if k in Elements(order) { assert k in Elements(known); } else { assert k in Elements(rest); }
    }
    forall i, j | 0 <= i < j < |known + rest| ensures (known + rest)[i] != (known + rest)[j] {
      if i < |known| <= j {
        assert (known + rest)[i] in Elements(known) && (known + rest)[j] in Elements(rest);
      }
    }
  }

  /** When the key order covers the map there is only one rendering. */
  lemma CoveredRenderingIsUnique(list: seq<Tag>, m: map<string, string>, order: seq<string>)
    requires Renders(list, m, order)
    requires m.Keys <= Elements(order)
    ensures list == Entries(m, Known(order, m.Keys))
  {
    var rest :| RendersWith(list, m, order, rest);
    EmptyListing(rest);
    assert Known(order, m.Keys) + rest == Known(order, m.Keys);
  }

  lemma {:induction false} KnownOfListing(s: seq<string>, ks: set<string>)
    requires Distinct(s) && Elements(s) <= ks
    ensures Known(s, ks) == s
  {
    if s != [] {
      var n := |s| - 1;
      KnownOfListing(s[..n], ks);
      assert s[n] in Elements(s);
    }
  }

  lemma {:induction false} KnownSkipsStrangers(a: seq<string>, b: seq<string>, ks: set<string>)
    requires Elements(b) !! ks
    ensures Known(a + b, ks) == Known(a, ks)
  {
    if b == [] {
      assert a + b == a;
    } else {
      var n := |b| - 1;
      assert (a + b)[..|a| + n] == a + b[..n];
      assert b[n] in Elements(b);
      KnownSkipsStrangers(a, b[..n], ks);
    }
  }

  lemma {:induction false} KnownDependsOnOverlap(order: seq<string>, ks: set<string>, ls: set<string>)
    requires Elements(order) * ks == Elements(order) * ls
    ensures Known(order, ks) == Known(order, ls)
  {
    if order != [] {
      var n := |order| - 1;
      assert order[n] in Elements(order);
      assert forall k :: k in order ==> k in Elements(order);
      assert forall k :: k in Elements(order) && k in ks ==> k in Elements(order) * ks;
      assert forall k :: k in Elements(order) && k in ls ==> k in Elements(order) * ls;
      KnownDependsOnOverlap(order[..n], ks, ls);
    }
  }

  /** List to map to list: the outcome does not depend on the iteration order, and doing it again
      changes nothing. Nil keys are gone, each key is left once, with its last value. */
  lemma ListMapListIsIdempotent(tags: seq<Tag>, list: seq<Tag>)
    requires Renders(list, ToMap(tags), KeyOrder(tags))
    ensures list == Normalise(tags) == Normalise(list)
    ensures ToMap(list) == ToMap(tags)
    ensures forall t :: t in list ==> t.key.Some? && t.value == Some(ToMap(tags)[t.key.value])
  {
    ToMapKeys(tags);
    CoveredRenderingIsUnique(list, ToMap(tags), KeyOrder(tags));
    RenderingGivesMapBack(list, ToMap(tags), KeyOrder(tags));
    KnownIsListed(KeyOrder(tags), ToMap(tags).Keys);
    EntriesKeyOrder(ToMap(tags), Known(KeyOrder(tags), ToMap(tags).Keys));
    KnownOfListing(KeyOrder(list), ToMap(list).Keys);
  }
}
