/**
 The whole watcher as a sequential system: registration calls made by callers
 and events handled by the dispatch loop, interleaved in one order.  Every
 registry access is done under the watcher's lock, so each call and each
 event is one atomic step on the shared registry.
 */
module Watcher {
  import opened Flags
  import opened Events
  import opened Registry
  import opened Dispatch
  import opened Registration

  /** A registration call, together with the platform's answers it receives. */
  datatype Call =
    | WatchCall(path: string, started: Status)
    | WatchFlagsCall(path: string, flags: Mask, started: Status)
    | WatchAllCall(visits: seq<Visit>)
    | WatchAllFlagsCall(root: string, flags: Mask, visits: seq<Visit>)
    | RemoveWatchCall(path: string, stopped: Status)

  /** One step of the system: the dispatch loop handles an event, or a caller makes a call. */
  datatype Action = Deliver(event: Event) | Register(call: Call)

  /** The registry, the events forwarded so far, and the results returned to callers so far. */
  datatype State = State(registry: Registry, out: seq<Event>, results: seq<Status>)

  /** The effect of one registration call. */
  function Apply(reg: Registry, call: Call): Reply {
    match call
    case WatchCall(path, started) => Watch(reg, path, started)
    case WatchFlagsCall(path, flags, started) => WatchFlags(reg, path, flags, started)
    case WatchAllCall(visits) => WatchAll(reg, visits)
    case WatchAllFlagsCall(root, flags, visits) => WatchAllFlags(reg, root, flags, visits)
    case RemoveWatchCall(path, stopped) => RemoveWatch(reg, path, stopped)
  }

  /** One step: a delivered event goes through the dispatch step; a call updates
      the registry and returns its result to the caller. */
  function Next(s: State, a: Action): (t: State)
    ensures a.Deliver? ==> t.results == s.results
    ensures a.Deliver? ==> t.out == s.out + (if exists c: Category :: a.event.Is(c) && Requested(Lookup(s.registry, a.event.name), Bit(c)) then [a.event] else [])
    ensures a.Deliver? && a.event.isDelete ==> t.registry == s.registry - {a.event.name}
    ensures a.Deliver? && !a.event.isDelete ==> t.registry == s.registry
    ensures a.Register? ==> t.out == s.out && |t.results| == |s.results| + 1
    ensures s.out <= t.out
  {
    match a
    case Deliver(e) =>
      var r := Step(s.registry, e);
      State(r.registry, s.out + (if r.forwarded then [e] else []), s.results)
    case Register(call) =>
      var r := Apply(s.registry, call);
      State(r.registry, s.out, s.results + [r.status])
  }

  /** The system after `actions`, in order, starting from registry `reg`. */
  function Run(reg: Registry, actions: seq<Action>): (s: State)
    ensures |s.out| + |s.results| <= |actions|
    ensures forall i :: 0 <= i < |s.out| ==> Deliver(s.out[i]) in actions
    decreases |actions|
  {
    if |actions| == 0 then State(reg, [], [])
    else
      var n := |actions| - 1;
      assert actions == actions[..n] + [actions[n]];
      Next(Run(reg, actions[..n]), actions[n])
  }

  /** The actions that deliver `es`, in order, with no call between them. */
  function Deliveries(es: seq<Event>): (acts: seq<Action>)
    ensures |acts| == |es|
    ensures forall i :: 0 <= i < |es| ==> acts[i] == Deliver(es[i])
  {
    seq(|es|, i requires 0 <= i < |es| => Deliver(es[i]))
  }

  /** A run that only delivers events leaves the starting registry minus every
      deleted path, and returns nothing to any caller. */
  lemma {:induction false} RunDeliveriesRegistry(reg: Registry, es: seq<Event>)
    ensures Run(reg, Deliveries(es)).registry == reg - DeletedPaths(es)
    ensures Run(reg, Deliveries(es)).results == []
    decreases |es|
  {
    if |es| > 0 {
      var n := |es| - 1;
      var acts := Deliveries(es);
      assert acts[..n] == Deliveries(es[..n]);
      RunDeliveriesRegistry(reg, es[..n]);
      assert Run(reg, acts) == Next(Run(reg, acts[..n]), Deliver(es[n]));
      DeletedPathsSnoc(es, n);
      assert es[..n + 1] == es;
    }
  }

  /** Appending an event to `pre` extends the closed-form output by that event
      exactly when its decision forwards it. */
  lemma SelectDecisionsSnoc(reg: Registry, pre: seq<Event>, e: Event)
    ensures Select(pre + [e], Decisions(reg, pre + [e]))
         == Select(pre, Decisions(reg, pre)) + (if ForwardedAt(reg, pre + [e], |pre|) then [e] else [])
  {
    var es := pre + [e];
    var n := |pre|;
    assert es[..n] == pre;
    assert es[..n + 1] == es;
    DecisionsSnoc(reg, es, n);
    SelectSnoc(pre, Decisions(reg, pre), e, ForwardedAt(reg, es, n));
  }

  /** A run that only delivers events forwards the events the per-event decisions
      of the dispatch loop's closed form keep, in arrival order. */
  lemma {:induction false} RunDeliveriesOut(reg: Registry, es: seq<Event>)
    ensures Run(reg, Deliveries(es)).out == Select(es, Decisions(reg, es))
    decreases |es|
  {
    if |es| > 0 {
      var n := |es| - 1;
      var acts := Deliveries(es);
      assert acts[..n] == Deliveries(es[..n]);
      RunDeliveriesOut(reg, es[..n]);
      RunDeliveriesRegistry(reg, es[..n]);
      var before := Run(reg, acts[..n]);
      assert Run(reg, acts) == Next(before, Deliver(es[n]));
      assert Step(before.registry, es[n]).forwarded == ForwardedAt(reg, es, n);
      assert es[..n] + [es[n]] == es;
      SelectDecisionsSnoc(reg, es[..n], es[n]);
    }
  }

  /** With no registration call in between, the system forwards exactly what the
      dispatch loop `Dispatch.Purge` forwards, in the same order, leaves the same
      registry, and returns nothing to any caller. */
  lemma RunIsPurge(reg: Registry, es: seq<Event>)
    ensures Run(reg, Deliveries(es)) == State(Purge(reg, es).registry, Purge(reg, es).out, [])
  {
    RunDeliveriesRegistry(reg, es);
    RunDeliveriesOut(reg, es);
    PurgeOutput(reg, es);
    PurgeRegistry(reg, es);
  }

  /** The events of the deliveries among `actions`, in order. */
  function Delivered(actions: seq<Action>): (es: seq<Event>)
    ensures |es| <= |actions|
    decreases |actions|
  {
    if |actions| == 0 then []
    else
      var n := |actions| - 1;
      Delivered(actions[..n]) + (if actions[n].Deliver? then [actions[n].event] else [])
  }

  /** One step keeps the output a subsequence of the events delivered so far. */
  lemma NextInOrder(s: State, a: Action, delivered: seq<Event>)
    requires IsSubsequence(s.out, delivered)
    ensures IsSubsequence(Next(s, a).out, delivered + (if a.Deliver? then [a.event] else []))
  {
    if a.Deliver? {
      if Step(s.registry, a.event).forwarded {
        SubsequenceSnocBoth(s.out, delivered, a.event);
      } else {
        assert Next(s, a).out == s.out;
        SubsequenceSnocRight(s.out, delivered, a.event);
      }
    } else {
      assert delivered + [] == delivered;
    }
  }

  /** Whatever calls run in between, the events forwarded are delivered events,
      each at most once and in the order they were delivered. */
  lemma {:induction false} RunInOrder(reg: Registry, actions: seq<Action>)
    ensures IsSubsequence(Run(reg, actions).out, Delivered(actions))
    decreases |actions|
  {
    if |actions| > 0 {
      var n := |actions| - 1;
      RunInOrder(reg, actions[..n]);
      assert Run(reg, actions) == Next(Run(reg, actions[..n]), actions[n]);
      NextInOrder(Run(reg, actions[..n]), actions[n], Delivered(actions[..n]));
    }
  }

  /** True when `call` may give `path` a mask: it names the path, or its walk may visit it. */
  predicate Registers(call: Call, path: string) {
    match call
    case WatchCall(p, _) => p == path
    case WatchFlagsCall(p, _, _) => p == path
    case WatchAllCall(visits) => path in PathsOf(visits)
    case WatchAllFlagsCall(root, _, visits) => root == path || path in PathsOf(visits)
    case RemoveWatchCall(_, _) => false
  }

  /** True when `a` leaves `path` without a mask: a deletion event on it, or a `RemoveWatch` of it. */
  predicate Unregisters(a: Action, path: string) {
    match a
    case Deliver(e) => e.isDelete && e.name == path
    case Register(call) => call.RemoveWatchCall? && call.path == path
  }

  lemma PerformedPaths(visits: seq<Visit>)
    ensures PathsOf(Performed(visits)) <= PathsOf(visits)
  {
  }

  /** A call that does not register `path` leaves it unregistered. */
  lemma ApplyKeepsAbsent(reg: Registry, call: Call, path: string)
    requires path !in reg && !Registers(call, path)
    ensures path !in Apply(reg, call).registry
  {
    match call
    case WatchAllCall(visits) =>
      WatchAllRegistry(reg, visits);
      PerformedPaths(visits);
    case WatchAllFlagsCall(root, flags, visits) =>
      WatchAllRegistry(Set(reg, root, flags), visits);
      PerformedPaths(visits);
    case _ =>
  }

  /** A step that unregisters `path`, and no later call that registers it, leave
      `path` out of the registry. */
  lemma {:induction false} StaysUnregistered(reg: Registry, actions: seq<Action>, path: string, i: nat)
    requires i < |actions| && Unregisters(actions[i], path)
    requires forall k :: i < k < |actions| && actions[k].Register? ==> !Registers(actions[k].call, path)
    ensures path !in Run(reg, actions).registry
    decreases |actions|
  {
    var n := |actions| - 1;
    var before := Run(reg, actions[..n]);
    if i < n {
      var prefix := actions[..n];
      assert prefix[i] == actions[i];
      forall k | i < k < |prefix| && prefix[k].Register? ensures !Registers(prefix[k].call, path) {
        assert prefix[k] == actions[k];
      }
      StaysUnregistered(reg, prefix, path, i);
      match actions[n]
      case Deliver(e) =>
      case Register(call) =>
        ApplyKeepsAbsent(before.registry, call, path);
    }
  }

  /** After a deletion event on a path or a `RemoveWatch` of it (whatever the
      platform answered), no event on that path is forwarded until a call
      registers the path again. */
  lemma NothingForwardedUntilRegistered(reg: Registry, actions: seq<Action>, i: nat, e: Event)
    requires i < |actions| && Unregisters(actions[i], e.name)
    requires forall k :: i < k < |actions| && actions[k].Register? ==> !Registers(actions[k].call, e.name)
    ensures Run(reg, actions + [Deliver(e)]).out == Run(reg, actions).out
  {
    StaysUnregistered(reg, actions, e.name, i);
    assert (actions + [Deliver(e)])[..|actions|] == actions;
  }

  /** `RemoveWatch` followed by an event on the same path forwards nothing, even
      when the platform fails to stop watching. */
  lemma RemoveThenDeliver(reg: Registry, path: string, stopped: Status, e: Event)
    requires e.name == path
    ensures Run(reg, [Register(RemoveWatchCall(path, stopped)), Deliver(e)]).out == []
  {
    var actions := [Register(RemoveWatchCall(path, stopped)), Deliver(e)];
    assert actions[..1][..0] == [];
    assert actions[..1] == [Register(RemoveWatchCall(path, stopped))];
  }

  /** After `WatchFlags(path, flags)`, an event on the path is forwarded exactly
      when one of its categories is in `flags`. */
  lemma WatchFlagsThenDeliver(reg: Registry, path: string, flags: Mask, started: Status, e: Event)
    requires e.name == path
    ensures Run(reg, [Register(WatchFlagsCall(path, flags, started)), Deliver(e)]).out
         == if exists c: Category :: e.Is(c) && Requested(flags, Bit(c)) then [e] else []
  {
    var actions := [Register(WatchFlagsCall(path, flags, started)), Deliver(e)];
    assert actions[..1][..0] == [];
    assert actions[..1] == [Register(WatchFlagsCall(path, flags, started))];
  }

  /** `WatchAllFlags("/dir", MODIFY)` with a walk that visits only "/dir": the root
      ends up subscribed to every category, so a creation event on "/dir" is
      forwarded; "/dir/a", created after the walk, is not in the registry, so
      neither its creation nor a write to it is forwarded. */
  lemma WatchAllFlagsExample()
    ensures var create := Event("/dir", true, false, false, false, false);
            var createA := Event("/dir/a", true, false, false, false, false);
            var writeA := Event("/dir/a", false, true, false, false, true);
            Run(map[], [Register(WatchAllFlagsCall("/dir", MODIFY, [Visit("/dir", Ok, Ok)])),
                        Deliver(createA), Deliver(writeA), Deliver(create)]).out == [create]
  {
    var create := Event("/dir", true, false, false, false, false);
    var createA := Event("/dir/a", true, false, false, false, false);
    var writeA := Event("/dir/a", false, true, false, false, true);
    var call := Register(WatchAllFlagsCall("/dir", MODIFY, [Visit("/dir", Ok, Ok)]));
    var actions := [call, Deliver(createA), Deliver(writeA), Deliver(create)];
    assert actions[..3] == [call, Deliver(createA), Deliver(writeA)];
    assert actions[..3][..2] == [call, Deliver(createA)];
    assert actions[..3][..2][..1] == [call];
    assert [call][..0] == [];
    var visits := [Visit("/dir", Ok, Ok)];
    var w := Watch(map["/dir" := MODIFY], "/dir", Ok);
    assert visits[1..] == [];
    assert WatchAll(map["/dir" := MODIFY], visits) == WatchAll(w.registry, []);
    assert Apply(map[], call.call).registry == map["/dir" := ALL_FLAGS];
    var s1 := Run(map[], [call]);
    assert [call][..|[call]| - 1] == [];
    assert Run(map[], []) == State(map[], [], []);
    assert s1 == Next(State(map[], [], []), call);
    assert s1.registry == map["/dir" := ALL_FLAGS];
    var s2 := Run(map[], [call, Deliver(createA)]);
    assert s2 == Next(s1, Deliver(createA));
    var s3 := Run(map[], actions[..3]);
    assert s3 == Next(s2, Deliver(writeA));
    assert s3.out == [] && s3.registry == s1.registry;
    assert "/dir/a" !in s1.registry;
    assert Step(s1.registry, createA).registry == s1.registry;
  }
}
