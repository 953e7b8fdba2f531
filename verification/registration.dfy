/**
 The registration calls (fsnotify.go:67-113).  Each one writes the interest
 registry first and only then calls the platform layer, whose answer is
 passed in here as a `Status`.  The recursive variants hand a callback to a
 directory walk; the walk is given as the sequence of callback invocations it
 would make.
 */
module Registration {
  import opened Flags
  import opened Registry

  /** The error result of a call: Go's `nil`, or a non-nil error with its message. */
  datatype Status = Ok | Err(message: string)

  /** The registry after a call, and the error the call returns. */
  datatype Reply = Reply(registry: Registry, status: Status)

  /** `Watch(path)`: subscribe `path` to every category, then start the platform
      watch, which answers `started`.  The subscription stays even when that fails. */
  function Watch(reg: Registry, path: string, started: Status): (r: Reply)
    ensures path in r.registry && r.registry[path] == ALL_FLAGS
    ensures r.registry - {path} == reg - {path}
    ensures r.status == started
  {
    Reply(Set(reg, path, ALL_FLAGS), started)
  }

  /** `WatchFlags(path, flags)`: subscribe `path` to exactly `flags`, overwriting any
      earlier mask, then start the platform watch. */
  function WatchFlags(reg: Registry, path: string, flags: Mask, started: Status): (r: Reply)
    ensures path in r.registry && r.registry[path] == flags
    ensures r.registry - {path} == reg - {path}
    ensures r.status == started
  {
    Reply(Set(reg, path, flags), started)
  }

  /** `RemoveWatch(path)`: forget `path`, then stop the platform watch, which answers
      `stopped`.  The entry is gone whatever that answer is. */
  function RemoveWatch(reg: Registry, path: string, stopped: Status): (r: Reply)
    ensures path !in r.registry
    ensures r.registry - {path} == reg - {path}
    ensures r.status == stopped
  {
    Reply(Remove(reg, path), stopped)
  }

  /** Removing a watch twice leaves the registry as removing it once. */
  lemma RemoveWatchIdempotent(reg: Registry, path: string, s1: Status, s2: Status)
    ensures RemoveWatch(RemoveWatch(reg, path, s1).registry, path, s2).registry
         == RemoveWatch(reg, path, s1).registry
  {
  }

  /** One invocation of the walk callback: the visited path, the error the walk
      passes to the callback, and the platform's answer to watching that path. */
  datatype Visit = Visit(path: string, walkError: Status, started: Status)

  /** `WatchAll(path)`: the walk callback calls `Watch` on every visited path and
      ignores the error the walk passes in; the first failing `Watch` ends the walk
      and is its result. */
  function WatchAll(reg: Registry, visits: seq<Visit>): (r: Reply)
    ensures reg.Keys <= r.registry.Keys
    ensures r.status.Ok? <==> forall i :: 0 <= i < |visits| ==> visits[i].started.Ok?
    ensures r.status.Err? ==> exists i :: 0 <= i < |visits| && visits[i].started == r.status
    decreases |visits|
  {
    if |visits| == 0 then Reply(reg, Ok)
    else
      var w := Watch(reg, visits[0].path, visits[0].started);
      if w.status.Err? then w else WatchAll(w.registry, visits[1..])
  }

  /** `WatchAllFlags(path, flags)`: write `flags` for the root, then run the same
      walk as `WatchAll`, whose callback uses the all-categories `Watch`. */
  function WatchAllFlags(reg: Registry, root: string, flags: Mask, visits: seq<Visit>): (r: Reply)
    ensures root in r.registry
    ensures r.status.Ok? <==> forall i :: 0 <= i < |visits| ==> visits[i].started.Ok?
  {
    WatchAll(Set(reg, root, flags), visits)
  }

  /** The index of the first visit whose watch fails, or the number of visits. */
  function FirstFailure(visits: seq<Visit>): (k: nat)
    ensures k <= |visits|
    ensures forall i :: 0 <= i < k ==> visits[i].started.Ok?
    ensures k < |visits| ==> visits[k].started.Err?
    decreases |visits|
  {
    if |visits| == 0 then 0
    else if visits[0].started.Err? then 0
    else 1 + FirstFailure(visits[1..])
  }

  /** The visits whose callback runs: all of them up to and including the first failure. */
  function Performed(visits: seq<Visit>): seq<Visit> {
    var k := FirstFailure(visits);
    if k < |visits| then visits[..k + 1] else visits
  }

  /** The paths of a sequence of visits. */
  function PathsOf(visits: seq<Visit>): set<string> {
    set i | 0 <= i < |visits| :: visits[i].path
  }

  lemma PathsOfCons(visits: seq<Visit>)
    requires |visits| > 0
    ensures PathsOf(visits) == {visits[0].path} + PathsOf(visits[1..])
  {
  }

  lemma PerformedCons(visits: seq<Visit>)
    requires |visits| > 0 && visits[0].started.Ok?
    ensures Performed(visits) == [visits[0]] + Performed(visits[1..])
  {
  }

  /** `reg` with every path of `paths` subscribed to every category. */
  function SubscribeAll(reg: Registry, paths: set<string>): Registry {
    map p | p in reg.Keys + paths :: if p in paths then ALL_FLAGS else reg[p]
  }

  lemma SubscribeAllCons(reg: Registry, path: string, paths: set<string>)
    ensures SubscribeAll(Set(reg, path, ALL_FLAGS), paths) == SubscribeAll(reg, {path} + paths)
  {
  }

  /** The registry `WatchAll` leaves: every path the walk visits up to and including
      the first failing watch is subscribed to every category (and stays so when the
      call fails); every other entry is as it was. */
  lemma {:induction false} WatchAllRegistry(reg: Registry, visits: seq<Visit>)
    ensures WatchAll(reg, visits).registry == SubscribeAll(reg, PathsOf(Performed(visits)))
    decreases |visits|
  {
    if |visits| == 0 {
      assert PathsOf(Performed(visits)) == {};
    } else if visits[0].started.Err? {
      assert Performed(visits) == [visits[0]];
      assert PathsOf([visits[0]]) == {visits[0].path} by {
        assert [visits[0]][0] == visits[0];
      }
      SubscribeAllCons(reg, visits[0].path, {});
    } else {
      var w := Watch(reg, visits[0].path, visits[0].started);
      WatchAllRegistry(w.registry, visits[1..]);
      PerformedCons(visits);
      PathsOfCons(Performed(visits));
      assert Performed(visits)[1..] == Performed(visits[1..]);
      SubscribeAllCons(reg, visits[0].path, PathsOf(Performed(visits[1..])));
    }
  }

  /** The error `WatchAll` returns: that of the first failing watch, or success. */
  lemma {:induction false} WatchAllStatus(reg: Registry, visits: seq<Visit>)
    ensures WatchAll(reg, visits).status
         == if FirstFailure(visits) < |visits| then visits[FirstFailure(visits)].started else Ok
    decreases |visits|
  {
    if |visits| > 0 && visits[0].started.Ok? {
      WatchAllStatus(Watch(reg, visits[0].path, visits[0].started).registry, visits[1..]);
    }
  }

  /** The callback ignores the error the walk hands it: two walks that visit the
      same paths with the same watch results register the same way. */
  lemma {:induction false} WatchAllIgnoresWalkErrors(reg: Registry, visits: seq<Visit>, other: seq<Visit>)
    requires |visits| == |other|
    requires forall i :: 0 <= i < |visits| ==> visits[i].path == other[i].path && visits[i].started == other[i].started
    ensures WatchAll(reg, visits) == WatchAll(reg, other)
    decreases |visits|
  {
    if |visits| > 0 {
      var w := Watch(reg, visits[0].path, visits[0].started);
      WatchAllIgnoresWalkErrors(w.registry, visits[1..], other[1..]);
    }
  }

  /** `WatchAllFlags`'s callback ignores the walk's error in the same way. */
  lemma WatchAllFlagsIgnoresWalkErrors(reg: Registry, root: string, flags: Mask, visits: seq<Visit>, other: seq<Visit>)
    requires |visits| == |other|
    requires forall i :: 0 <= i < |visits| ==> visits[i].path == other[i].path && visits[i].started == other[i].started
    ensures WatchAllFlags(reg, root, flags, visits) == WatchAllFlags(reg, root, flags, other)
  {
    WatchAllIgnoresWalkErrors(Set(reg, root, flags), visits, other);
  }

  /** The effect of `WatchAllFlags` on its root: the caller's `flags` survive only if
      the walk never reaches the root; once the callback visits it, it is
      overwritten with ALL_FLAGS. */
  lemma WatchAllFlagsRoot(reg: Registry, root: string, flags: Mask, visits: seq<Visit>)
    ensures root in PathsOf(Performed(visits)) ==> Lookup(WatchAllFlags(reg, root, flags, visits).registry, root) == ALL_FLAGS
    ensures root !in PathsOf(Performed(visits)) ==> Lookup(WatchAllFlags(reg, root, flags, visits).registry, root) == flags
  {
    var start := Set(reg, root, flags);
    WatchAllRegistry(start, visits);
    var r := SubscribeAll(start, PathsOf(Performed(visits)));
    assert root in r;
  }

  /** Apart from the root, `WatchAllFlags` registers and answers exactly as `WatchAll`. */
  lemma WatchAllFlagsElsewhere(reg: Registry, root: string, flags: Mask, visits: seq<Visit>)
    ensures WatchAllFlags(reg, root, flags, visits).registry - {root} == WatchAll(reg, visits).registry - {root}
    ensures WatchAllFlags(reg, root, flags, visits).status == WatchAll(reg, visits).status
  {
    var start := Set(reg, root, flags);
    var paths := PathsOf(Performed(visits));
    WatchAllRegistry(start, visits);
    WatchAllRegistry(reg, visits);
    WatchAllStatus(start, visits);
    WatchAllStatus(reg, visits);
    var a := SubscribeAll(start, paths);
    var b := SubscribeAll(reg, paths);
    assert (a - {root}).Keys == (b - {root}).Keys;
    forall p | p in a - {root} ensures (a - {root})[p] == (b - {root})[p] {
    }
  }

  /** True when the walk starts at `root`, as `filepath.Walk` does: it calls the
      callback on the root first, even when the root cannot be examined. */
  predicate StartsAt(visits: seq<Visit>, root: string) {
    |visits| > 0 && visits[0].path == root
  }

  /** Since the walk calls the callback on the root first, `WatchAllFlags` ends the
      same as `WatchAll`: the caller's flags never outlast the call, and the root
      is left with ALL_FLAGS. */
  lemma WatchAllFlagsOverwritesRoot(reg: Registry, root: string, flags: Mask, visits: seq<Visit>)
    requires StartsAt(visits, root)
    ensures WatchAllFlags(reg, root, flags, visits) == WatchAll(reg, visits)
    ensures Lookup(WatchAllFlags(reg, root, flags, visits).registry, root) == ALL_FLAGS
  {
    assert Set(Set(reg, root, flags), root, ALL_FLAGS) == Set(reg, root, ALL_FLAGS);
    WatchAllFlagsRoot(reg, root, flags, visits);
    assert visits[0] in Performed(visits);
    assert Performed(visits)[0] == visits[0];
  }
}
