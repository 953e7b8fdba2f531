/**
 The filter-and-dispatch loop (`purgeEvents`, fsnotify.go:23-65).  For every
 incoming event it reads the mask of the event's path, forwards the event when
 some category of the event is requested by that mask, and forgets the path
 when the event is a deletion.  The channel loop is modelled as a fold over a
 finite sequence of events that yields the forwarded events in order and the
 registry left behind.
 */
module Dispatch {
  import opened Flags
  import opened Events
  import opened Registry

  /** The forwarding decision for an event whose path has mask `mask`: the five
      guarded tests of the loop body, each of which may set the send flag. */
  function Forwards(mask: Mask, e: Event): (send: bool)
    ensures send <==> exists c: Category :: e.Is(c) && Requested(mask, Bit(c))
    ensures mask == 0 ==> !send
  {
    var send := false;
    var send := if Requested(mask, CREATE) && e.isCreate then true else send;
    var send := if Requested(mask, MODIFY) && e.isModify then true else send;
    var send := if Requested(mask, DELETE) && e.isDelete then true else send;
    var send := if Requested(mask, RENAME) && e.isRename then true else send;
    var send := if Requested(mask, FILE_WRITE) && e.isFileWrite then true else send;
    SomeCategoryRequested(mask, e);
    send
  }

  /** Some category of `e` is requested by `mask` exactly when one of the five
      per-category tests succeeds. */
  lemma SomeCategoryRequested(mask: Mask, e: Event)
    ensures (exists c: Category :: e.Is(c) && Requested(mask, Bit(c)))
        <==> ((Requested(mask, CREATE) && e.isCreate) || (Requested(mask, MODIFY) && e.isModify)
              || (Requested(mask, DELETE) && e.isDelete) || (Requested(mask, RENAME) && e.isRename)
              || (Requested(mask, FILE_WRITE) && e.isFileWrite))
  {
    if Requested(mask, CREATE) && e.isCreate {
      assert e.Is(Create) && Requested(mask, Bit(Create));
    }
    if Requested(mask, MODIFY) && e.isModify {
      assert e.Is(Modify) && Requested(mask, Bit(Modify));
    }
    if Requested(mask, DELETE) && e.isDelete {
      assert e.Is(Delete) && Requested(mask, Bit(Delete));
    }
    if Requested(mask, RENAME) && e.isRename {
      assert e.Is(Rename) && Requested(mask, Bit(Rename));
    }
    if Requested(mask, FILE_WRITE) && e.isFileWrite {
      assert e.Is(FileWrite) && Requested(mask, Bit(FileWrite));
    }
  }

  /** The decision is the overlap test of the subscription mask with the event's category mask. */
  lemma ForwardsIsOverlap(mask: Mask, e: Event)
    ensures Forwards(mask, e) <==> mask & CategoryMask(e) != 0
  {
  }

  /** What one turn of the loop produces: whether the event went out, and the registry after it. */
  datatype StepResult = StepResult(forwarded: bool, registry: Registry)

  /** One turn of the loop: look up, decide, then drop the path if the event is a deletion
      (whether or not the event was forwarded). */
  function Step(reg: Registry, e: Event): (r: StepResult)
    ensures r.forwarded <==> exists c: Category :: e.Is(c) && Requested(Lookup(reg, e.name), Bit(c))
    ensures e.name !in reg ==> !r.forwarded
    ensures e.isDelete ==> e.name !in r.registry
    ensures !e.isDelete ==> r.registry == reg
    ensures e.name !in reg ==> r.registry == reg
    ensures r.registry - {e.name} == reg - {e.name}
  {
    var send := Forwards(Lookup(reg, e.name), e);
    StepResult(send, if e.isDelete then Remove(reg, e.name) else reg)
  }

  /** What the loop produces over a finite stream: the forwarded events and the final registry. */
  datatype PurgeResult = PurgeResult(out: seq<Event>, registry: Registry)

  /** The loop over `es`, first event first. */
  function Purge(reg: Registry, es: seq<Event>): (r: PurgeResult)
    ensures IsSubsequence(r.out, es)
    decreases |es|
  {
    if |es| == 0 then PurgeResult([], reg)
    else
      var s := Step(reg, es[0]);
      var rest := Purge(s.registry, es[1..]);
      if s.forwarded then
        assert ([es[0]] + rest.out)[1..] == rest.out;
        PurgeResult([es[0]] + rest.out, rest.registry)
      else PurgeResult(rest.out, rest.registry)
  }

  // ----- A closed-form description of the loop -----

  /** The paths named by the deletion events of `es`. */
  function DeletedPaths(es: seq<Event>): set<string> {
    set i | 0 <= i < |es| && es[i].isDelete :: es[i].name
  }

  /** Whether the `i`-th event of `es` is forwarded by a loop that starts from `reg`:
      its path still has its starting mask unless an earlier deletion removed it. */
  predicate ForwardedAt(reg: Registry, es: seq<Event>, i: nat)
    requires i < |es|
  {
    Forwards(Lookup(reg - DeletedPaths(es[..i]), es[i].name), es[i])
  }

  /** The forwarding decision for every event of `es`. */
  function Decisions(reg: Registry, es: seq<Event>): (d: seq<bool>)
    ensures |d| == |es|
  {
    seq(|es|, i requires 0 <= i < |es| => ForwardedAt(reg, es, i))
  }

  /** The elements of `xs` whose flag in `keep` is set, each once, in their original order. */
  function Select<T>(xs: seq<T>, keep: seq<bool>): (r: seq<T>)
    requires |keep| == |xs|
    ensures IsSubsequence(r, xs)
    decreases |xs|
  {
    if |xs| == 0 then []
    else
      var rest := Select(xs[1..], keep[1..]);
      if keep[0] then
        assert ([xs[0]] + rest)[1..] == rest;
        [xs[0]] + rest
      else rest
  }

  /** True when `xs` is `ys` with some elements left out, the rest kept in order. */
  predicate IsSubsequence<T(==)>(xs: seq<T>, ys: seq<T>)
    decreases |ys|
  {
    || |xs| == 0
    || (|ys| > 0 && ((xs[0] == ys[0] && IsSubsequence(xs[1..], ys[1..])) || IsSubsequence(xs, ys[1..])))
  }

  /** Appending an element to the right sequence keeps a subsequence a subsequence. */
  lemma {:induction false} SubsequenceSnocRight<T>(xs: seq<T>, ys: seq<T>, y: T)
    requires IsSubsequence(xs, ys)
    ensures IsSubsequence(xs, ys + [y])
    decreases |ys|
  {
    if |xs| > 0 {
      assert (ys + [y])[1..] == ys[1..] + [y];
      if xs[0] == ys[0] && IsSubsequence(xs[1..], ys[1..]) {
        SubsequenceSnocRight(xs[1..], ys[1..], y);
      } else {
        SubsequenceSnocRight(xs, ys[1..], y);
      }
    }
  }

  /** Appending the same element to both sequences keeps a subsequence a subsequence. */
  lemma {:induction false} SubsequenceSnocBoth<T>(xs: seq<T>, ys: seq<T>, y: T)
    requires IsSubsequence(xs, ys)
    ensures IsSubsequence(xs + [y], ys + [y])
    decreases |ys|
  {
    if |ys| == 0 {
      assert xs + [y] == [y] && (xs + [y])[1..] == [];
    } else {
      assert (ys + [y])[1..] == ys[1..] + [y];
      if |xs| == 0 {
        SubsequenceSnocBoth(xs, ys[1..], y);
      } else if xs[0] == ys[0] && IsSubsequence(xs[1..], ys[1..]) {
        assert (xs + [y])[1..] == xs[1..] + [y];
        SubsequenceSnocBoth(xs[1..], ys[1..], y);
      } else {
        SubsequenceSnocBoth(xs, ys[1..], y);
      }
    }
  }

  lemma DeletedPathsCons(es: seq<Event>)
    requires |es| > 0
    ensures DeletedPaths(es) == (if es[0].isDelete then {es[0].name} else {}) + DeletedPaths(es[1..])
  {
  }

  lemma DeletedPathsSnoc(es: seq<Event>, i: nat)
    requires i < |es|
    ensures DeletedPaths(es[..i + 1]) == DeletedPaths(es[..i]) + (if es[i].isDelete then {es[i].name} else {})
  {
  }

  lemma {:induction false} SelectSnoc<T>(xs: seq<T>, keep: seq<bool>, x: T, k: bool)
    requires |keep| == |xs|
    ensures Select(xs + [x], keep + [k]) == Select(xs, keep) + (if k then [x] else [])
    decreases |xs|
  {
    if |xs| > 0 {
      assert (xs + [x])[1..] == xs[1..] + [x];
      assert (keep + [k])[1..] == keep[1..] + [k];
      SelectSnoc(xs[1..], keep[1..], x, k);
    }
  }

  lemma DecisionsSnoc(reg: Registry, es: seq<Event>, i: nat)
    requires i < |es|
    ensures Decisions(reg, es[..i + 1]) == Decisions(reg, es[..i]) + [ForwardedAt(reg, es, i)]
  {
    forall j | 0 <= j < i
      ensures ForwardedAt(reg, es[..i + 1], j) == ForwardedAt(reg, es[..i], j)
    {
      assert es[..i + 1][..j] == es[..i][..j];
    }
    assert es[..i + 1][..i] == es[..i];
  }

  /** The fold forgets exactly the paths of the deletion events it went through. */
  lemma {:induction false} PurgeRegistry(reg: Registry, es: seq<Event>)
    ensures Purge(reg, es).registry == reg - DeletedPaths(es)
    decreases |es|
  {
    if |es| > 0 {
      var s := Step(reg, es[0]);
      PurgeRegistry(s.registry, es[1..]);
      DeletedPathsCons(es);
    }
  }

  /** The fold emits exactly the events the closed-form decision forwards, each once,
      in arrival order. */
  lemma {:induction false} PurgeOutput(reg: Registry, es: seq<Event>)
    ensures Purge(reg, es).out == Select(es, Decisions(reg, es))
    decreases |es|
  {
    if |es| > 0 {
      var s := Step(reg, es[0]);
      PurgeOutput(s.registry, es[1..]);
      var head: set<string> := if es[0].isDelete then {es[0].name} else {};
      assert s.registry == reg - head;
      assert es[..0] == [];
      assert Decisions(reg, es)[0] == s.forwarded;
      forall i | 0 <= i < |es| - 1
        ensures Decisions(reg, es)[i + 1] == Decisions(s.registry, es[1..])[i]
      {
        DeletedPathsCons(es[..i + 1]);
        assert es[..i + 1][1..] == es[1..][..i];
        assert reg - DeletedPaths(es[..i + 1]) == s.registry - DeletedPaths(es[1..][..i]);
      }
      assert Decisions(reg, es)[1..] == Decisions(s.registry, es[1..]);
    }
  }

  /** Once an event deletes a path, no later event on that path is forwarded. */
  lemma NoForwardAfterDelete(reg: Registry, es: seq<Event>, i: nat, j: nat)
    requires i < j < |es|
    requires es[i].isDelete && es[j].name == es[i].name
    ensures !Decisions(reg, es)[j]
  {
    assert es[..j][i] == es[i];
    assert es[j].name in DeletedPaths(es[..j]);
  }

  /** The loop of `purgeEvents` over a finite stream, with its send flag, its
      locked look-up and its deletion clean-up. */
  method PurgeEvents(reg: Registry, es: seq<Event>) returns (out: seq<Event>, final: Registry)
    ensures out == Select(es, Decisions(reg, es))
    ensures final == reg - DeletedPaths(es)
  {
    out := [];
    final := reg;
    var i := 0;
    while i < |es|
      invariant 0 <= i <= |es|
      invariant final == reg - DeletedPaths(es[..i])
      invariant out == Select(es[..i], Decisions(reg, es[..i]))
    {
      var ev := es[i];
      var fsnFlags := Lookup(final, ev.name);
      var sendEvent := Forwards(fsnFlags, ev);
      DecisionsSnoc(reg, es, i);
      SelectSnoc(es[..i], Decisions(reg, es[..i]), ev, sendEvent);
      assert es[..i + 1] == es[..i] + [ev];
      if sendEvent {
        out := out + [ev];
      }
      DeletedPathsSnoc(es, i);
      if ev.isDelete {
        final := Remove(final, ev.name);
      }
      i := i + 1;
    }
    assert es[..i] == es;
  }
}
