/** The version number of the synchronization configuration, with other writers about
    (`customUpdateFileSystem` in `hooks.go`, `sdkFind` in `sdk.go`, `latestVersionNumber` in the API type). */
module Versions {
  import opened Nilable
  import opened Service
  import opened SyncRules

  datatype Store = Absent | Stored(version: int32, config: SyncConfiguration)

  /** What the controller's last read left: the version number for the next put, and, for the
      statement of the theorem, the configuration it saw. */
  datatype Memory = Memory(version: Option<int64>, seen: Option<SyncConfiguration>)

  /** `current`: the last read was answered, and nothing has been written since. */
  datatype World = World(store: Store, memory: Option<Memory>, current: bool)

  /** Somebody else writes; the controller reads, and is told that there is nothing to read, or the
      configuration, with its number or without one; the controller puts. A successful write gets any
      greater version number. */
  datatype Event =
    | OtherWrites(config: SyncConfiguration, version: int32)
    | Reads(answered: bool, numbered: bool)
    | Puts(config: SyncConfiguration, version: int32)

  /** The service's rule: a number that is not the current one is stale and is rejected; no number is always
      accepted. */
  predicate Accepts(store: Store, sent: Option<int32>) {
    sent.None? || (store.Stored? && store.version == sent.value)
  }

  predicate Newer(version: int32, store: Store) {
    store.Stored? ==> version > store.version
  }

  predicate Enabled(w: World, e: Event) {
    match e
    case OtherWrites(_, version) => Newer(version, w.store)
    case Reads(_, _) => true
    case Puts(_, version) => w.memory.Some? && Newer(version, w.store)
  }

  /** The number the controller sends: the conversion of what it remembers. */
  function Sends(w: World): Option<int32>
    requires w.memory.Some?
  {
    SentVersion(w.memory.value.version)
  }

  function Next(w: World, e: Event): World
    requires Enabled(w, e)
  {
    match e
    case OtherWrites(config, version) => World(Stored(version, config), w.memory, false)
    case Reads(answered, numbered) =>
      if answered && w.store.Stored? then
        var number := if numbered then Some(w.store.version) else None;
        World(w.store, Some(Memory(ReadVersion(number), Some(w.store.config))), true)
      else World(w.store, Some(Memory(None, None)), answered)
    case Puts(config, version) =>
      if Accepts(w.store, Sends(w)) then World(Stored(version, config), w.memory, false) else w
  }

  ghost predicate IsRun(run: seq<World>) {
    |run| > 0 && forall i :: 0 <= i < |run| - 1 ==> IsStep(run[i], run[i + 1])
  }

  ghost predicate IsStep(w: World, w': World) {
    exists e :: Enabled(w, e) && w' == Next(w, e)
  }

  /** What was read is still stored if nothing was written since. A remembered number is not from the
      future, and is the current one exactly if nothing was written since. */
  predicate Inv(w: World) {
    && (w.current && w.store.Stored? ==> w.memory.Some? && w.memory.value.seen == Some(w.store.config))
    && (w.memory.Some? && w.memory.value.version.Some? ==>
          && FitsInt32(w.memory.value.version.value)
          && w.store.Stored?
          && w.memory.value.version.value <= w.store.version
          && (w.memory.value.version.value == w.store.version <==> w.current))
  }

  lemma {:induction false} RunKeepsInv(run: seq<World>, j: nat)
    requires IsRun(run) && run[0].memory.None? && !run[0].current && j < |run|
    ensures Inv(run[j])
    decreases j
  {
    if j > 0 {
      RunKeepsInv(run, j - 1);
      assert IsStep(run[j - 1], run[j - 1 + 1]);
      var e :| Enabled(run[j - 1], e) && run[j] == Next(run[j - 1], e);
    }
  }

  /** A put would be accepted and overwrite a configuration that was written after the controller's
      last read, or that its last read did not show. */
  predicate OverwritesUnread(w: World)
    requires w.memory.Some?
  {
    w.store.Stored? && !w.current && Accepts(w.store, Sends(w))
  }

  /** In every run of reads, puts and other writers: a put is accepted exactly when it carries no number
      or nothing was written since the last read; so it overwrites a configuration that was not read
      exactly when there is one and the put carries no number. */
  lemma OnlyUnnumberedPutsOverwriteUnread(run: seq<World>, j: nat)
    requires IsRun(run) && run[0].memory.None? && !run[0].current && j < |run| && run[j].memory.Some?
    ensures var w := run[j];
            && (Accepts(w.store, Sends(w)) <==> Sends(w).None? || w.current)
            && (OverwritesUnread(w) <==> w.store.Stored? && !w.current && Sends(w).None?)
            && (w.store.Stored? && w.current ==> w.memory.value.seen == Some(w.store.config))
  {
    RunKeepsInv(run, j);
    var m := run[j].memory.value;
    if m.version.Some? {
      assert ToInt32(m.version.value) == m.version.value;
    }
  }

  /** A number is current exactly as long as nobody, the controller included, has written since the read. */
  lemma {:induction false} NumberStaysCurrentUntilWrite(run: seq<World>, j: nat)
    requires IsRun(run) && j < |run|
    requires run[0].store.Stored? && run[0].memory == Some(Memory(Some(run[0].store.version as int64),
            Some(run[0].store.config)))
    requires forall i :: 0 <= i <= j ==> run[i].memory == run[0].memory
    ensures run[j].store.Stored? && run[j].store.version >= run[0].store.version
    ensures Accepts(run[j].store, Sends(run[j])) <==> forall i :: 0 <= i <= j ==> run[i].store == run[0].store
    decreases j
  {
    assert ToInt32(run[0].store.version as int64) == run[0].store.version;
    if j > 0 {
      NumberStaysCurrentUntilWrite(run, j - 1);
      assert IsStep(run[j - 1], run[j - 1 + 1]);
      var e :| Enabled(run[j - 1], e) && run[j] == Next(run[j - 1], e);
      assert run[j].store == run[j - 1].store || run[j].store.version > run[j - 1].store.version;
      assert run[j - 1].memory == run[0].memory && run[j].memory == run[0].memory;
    }
  }

  /** Without a number the put is blind: after a read that was told there is nothing, or was answered
      without a number, a put overwrites what others have written since. */
  lemma UnnumberedPutOverwritesUnread(before: Store, theirs: SyncConfiguration, ours: SyncConfiguration,
          version: int32, next: int32, read: Event)
    requires Newer(version, before) && version < next
    requires read.Reads? && (before.Absent? || !read.answered || !read.numbered)
    ensures exists run: seq<World> :: IsRun(run) && run[0] == World(before, None, false)
              && var w := run[|run| - 1];
                 && w.store == Stored(version, theirs) && w.memory.Some? && OverwritesUnread(w)
                 && Enabled(w, Puts(ours, next)) && Next(w, Puts(ours, next)).store == Stored(next, ours)
  {
    var w0 := World(before, None, false);
    var w1 := Next(w0, read);
    var w2 := Next(w1, OtherWrites(theirs, version));
    assert IsStep(w0, w1) && IsStep(w1, w2);
    var run := [w0, w1, w2];
    assert IsRun(run) && run[|run| - 1] == w2;
  }
}
