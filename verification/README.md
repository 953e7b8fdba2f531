# fsnotify2 subscription layer, modelled in Dafny

This project models the per-path subscription layer of `fsnotify2`
(`fsnotify.go`), which sits on top of a platform file-change notifier.

- **Interest registry.** The watcher keeps a map from each watched path to a
  32-bit mask of requested categories. The categories are CREATE, MODIFY,
  DELETE, RENAME and FILE_WRITE, and ALL_FLAGS is their union.
- **Dispatch loop (`purgeEvents`).** For each classified event, the loop reads
  the mask of the event's path. A path with no entry reads as 0. The event is
  forwarded when some category of the event is set in that mask. A deletion
  event then drops the path from the registry, whether or not it was forwarded.
- **Registration calls.** `Watch`, `WatchFlags` and `RemoveWatch` write the
  registry first and only then call the platform layer. `WatchAllFlags` writes
  the caller's flags for the root and then starts a directory walk. `WatchAll`
  writes nothing itself and starts the walk at once. In both, the walk's
  callback calls `Watch` on every visited path.
- **`FileEvent.String`.** It renders an event as its quoted path, `": "`, and
  its category names joined by `|`.

Modules, one per component:

| file | module | models |
|---|---|---|
| flags.dfy | `Flags` | the category constants and the single-bit test `mask&FLAG == FLAG` |
| events.dfy | `Events` | a classified event: its path and its five category predicates |
| registry.dfy | `Registry` | the `fsnFlags` map: look-up (absent reads as 0), overwrite, delete |
| dispatch.dfy | `Dispatch` | the forwarding decision, one loop turn, the loop as a fold, a closed-form description of the loop, and the loop as a method |
| registration.dfy | `Registration` | the five registration calls; the directory walk given as its sequence of callback invocations |
| format.dfy | `Format` | `FileEvent.String`, with an independent join/split description and a decoder |
| watcher.dfy | `Watcher` | registration calls and event deliveries interleaved as atomic steps on one registry |

Each operation is paired with an independent description, and a lemma ties the
two together for all inputs:

- **Forwarding decision.** The five guarded tests of the loop are proved equal
  to "some category of the event is requested". They are also proved equal to
  the bit-overlap test against the event's category mask.
- **Dispatch fold.** The fold is proved equal to a closed form. The events sent
  are the input filtered by a per-index decision. That decision reads each
  event's mask from the starting registry minus the paths deleted earlier. The
  registry left behind is the starting one minus every deleted path. The
  imperative loop `PurgeEvents` is proved to meet the same closed form.
- **`WatchAll`.** Its registry effect is proved equal to "subscribe every path
  visited, up to and including the first failing watch, to ALL_FLAGS". Its
  result is proved to be that first failure, or success.
- **`FileEvent.String`.** The string the Go code builds is proved to be the `|`
  join of the category names, in listing order. Splitting it on `|` gives back
  exactly the event's categories.
- **The whole watcher.** A run of the interleaved system that only delivers
  events is proved equal to the dispatch fold: the same events, in the same
  order, and the same registry left behind (`Watcher.RunIsPurge`).

Behaviour of the code that the model keeps:

- In `WatchAllFlags` (fsnotify.go:85-95), the caller's flags are written only
  for the root. The walk callback then calls the all-categories `Watch` for
  every visited path. `filepath.Walk` always calls the callback on the root
  first, even when the root cannot be examined. So the root's flags are always
  overwritten with ALL_FLAGS, and `WatchAllFlags` ends exactly as `WatchAll`
  does (`Registration.WatchAllFlagsOverwritesRoot`). The caller's flags never
  outlast the call.
- The walk callback ignores the error the walk passes to it
  (`Registration.WatchAllIgnoresWalkErrors`,
  `Registration.WatchAllFlagsIgnoresWalkErrors`).
- Nothing in `fsnotify.go` gives an entry to a path created under the root
  after the walk, so by this file's code none of its events is forwarded. A
  write to a new file `/dir/a` after `WatchAllFlags("/dir", MODIFY)` is dropped
  there, not forwarded as MODIFY. The model follows `fsnotify.go` here, and
  `Watcher.WatchAllFlagsExample` states the concrete run under the assumption
  that the platform code adds no entry of its own.

## Model

| member | source | states |
|---|---|---|
| Flags.Bit | fsnotify.go:12-17 | each category constant is a single non-zero bit and lies inside ALL_FLAGS |
| Flags.CategoryBits | fsnotify.go:12-20 | CREATE, MODIFY, DELETE, RENAME, FILE_WRITE are 1, 2, 4, 8, 16, pairwise disjoint; ALL_FLAGS is their union, 31; ALL_FLAGS requests every category and 0 requests none |
| Events.CategoryMask | fsnotify.go:30-48 | the category mask of an event has bit `Bit(c)` set exactly when the event is a `c` event |
| Registry.Lookup | fsnotify.go:27 | a path absent from the registry reads as the zero mask |
| Registry.Set | fsnotify.go:70 | writing a path's mask overwrites that entry only; every other entry is unchanged |
| Registry.Remove | fsnotify.go:59 | deleting a path removes it, changes no other entry, and is a no-op on an absent path |
| Dispatch.Forwards | fsnotify.go:25-48 | an event is forwarded iff at least one category is both true on the event and requested by the mask; a zero mask forwards nothing |
| Dispatch.SomeCategoryRequested | fsnotify.go:30-48 | "some category of the event is requested" holds exactly when one of the five per-category tests succeeds |
| Dispatch.ForwardsIsOverlap | fsnotify.go:30-48 | the forwarding decision equals the overlap test of the mask with the event's category mask |
| Dispatch.Step | fsnotify.go:24-61 | one loop turn forwards iff some requested category matches the path's mask (never for an absent path); a deletion removes the path whether or not it was forwarded; other events leave the registry unchanged; no other path changes |
| Dispatch.Purge | fsnotify.go:23-65 | the loop as a fold over a finite stream: its output is a subsequence of the input (each event at most once, in arrival order); its exact output and final registry are stated by `Dispatch.PurgeOutput` and `Dispatch.PurgeRegistry` |
| Dispatch.Select | fsnotify.go:50-52 | the events kept by the per-event send decisions form a subsequence of the input, each kept event once and in order |
| Dispatch.PurgeRegistry | fsnotify.go:54-61 | after the loop, the registry is the starting one with exactly the paths of the deletion events removed |
| Dispatch.PurgeOutput | fsnotify.go:24-52 | the loop emits exactly the events whose path's mask, read from the starting registry minus the paths deleted earlier, requests one of their categories, each once and in arrival order |
| Dispatch.NoForwardAfterDelete | fsnotify.go:27-61 | once an event deletes a path, no later event on that path is forwarded by the loop |
| Dispatch.PurgeEvents | fsnotify.go:23-65 | the imperative loop yields the same forwarded sequence and final registry as the closed-form description |
| Registration.Watch | fsnotify.go:68-73 | `Watch` sets the path to ALL_FLAGS and changes no other path; the entry stays whatever the platform call returns, and that result is returned |
| Registration.WatchFlags | fsnotify.go:98-104 | `WatchFlags` overwrites the path's mask with exactly the given flags and changes no other path; the platform result is returned |
| Registration.RemoveWatch | fsnotify.go:107-113 | `RemoveWatch` removes the path whatever the platform's stop call returns, changes no other path, and returns that result |
| Registration.RemoveWatchIdempotent | fsnotify.go:107-113 | removing a watch twice leaves the same registry as removing it once |
| Registration.FirstFailure | fsnotify.go:77-81 | the walk runs callbacks up to the first failing watch: every earlier watch succeeded and that one failed |
| Registration.WatchAll | fsnotify.go:76-82 | `WatchAll` never drops an existing entry; it succeeds exactly when every visited path's watch succeeds, and otherwise returns the error of one of them; its full effect is stated by `Registration.WatchAllRegistry` and `Registration.WatchAllStatus` |
| Registration.WatchAllFlags | fsnotify.go:85-95 | after `WatchAllFlags` the root always has an entry, and the call succeeds exactly when every visited path's watch succeeds; its effect on the root is stated by `Registration.WatchAllFlagsRoot` and `Registration.WatchAllFlagsOverwritesRoot` |
| Registration.WatchAllRegistry | fsnotify.go:76-82 | after `WatchAll`, every path visited up to and including the first failing watch maps to ALL_FLAGS, even when the call fails, and every other entry is unchanged |
| Registration.WatchAllStatus | fsnotify.go:76-82 | `WatchAll` returns the error of the first failing watch, or success when none fails |
| Registration.WatchAllIgnoresWalkErrors | fsnotify.go:77-79 | the walk callback of `WatchAll` ignores the error the walk passes in: walks with the same paths and watch results register and answer identically |
| Registration.WatchAllFlagsIgnoresWalkErrors | fsnotify.go:90-92 | the walk callback of `WatchAllFlags` ignores the error the walk passes in: walks with the same paths and watch results register and answer identically |
| Registration.WatchAllFlagsRoot | fsnotify.go:85-95 | for any visit sequence, `WatchAllFlags` leaves the root with ALL_FLAGS once the walk has visited it, and with the caller's flags otherwise; a real walk always visits the root first, so only the first case arises |
| Registration.WatchAllFlagsOverwritesRoot | fsnotify.go:85-95 | for a walk that starts at the root, as `filepath.Walk` always does, `WatchAllFlags` returns exactly what `WatchAll` returns and leaves the root at ALL_FLAGS, so the caller's flags never outlast the call |
| Registration.WatchAllFlagsElsewhere | fsnotify.go:85-95 | apart from the root, `WatchAllFlags` leaves the same registry and returns the same result as `WatchAll` |
| Format.String | fsnotify.go:117-145 | the rendering is the path in quotes, `": "`, and the names of the event's categories in the order CREATE, DELETE, MODIFY, FILE_WRITE, RENAME joined by the pipe character |
| Format.CategoryListIsJoin | fsnotify.go:118-142 | the list built by appending a pipe and the NAME per true predicate and dropping the first character is the pipe-separated join of the category names |
| Format.CategoryList | fsnotify.go:118-142 | the list has no leading or trailing pipe, and is empty exactly when no category predicate is true |
| Format.DecodeCategoryList | fsnotify.go:118-142 | splitting the list at each pipe names exactly the event's categories, so the event is recovered from its path and its list |
| Format.SplitJoin | fsnotify.go:140-142 | splitting on the separator undoes joining when no piece contains the separator |
| Format.ModifyWriteExample | fsnotify.go:128-144 | a modify-and-write event on /tmp/x renders as the quoted path, a colon, and MODIFY then FILE_WRITE separated by a pipe |
| Watcher.Next | fsnotify.go:23-113 | one step of the system: a delivered event is appended to the output exactly when one of its categories is requested by its path's mask, its path is dropped from the registry exactly when it is a deletion, and no caller gets a result; a registration call returns one result and forwards nothing |
| Watcher.Run | fsnotify.go:23-113 | a run of interleaved calls and deliveries emits only delivered events, and returns at most one event or result per action |
| Watcher.RunInOrder | fsnotify.go:24-51 | whatever calls run in between, the forwarded events are a subsequence of the delivered events: each at most once, in channel order |
| Watcher.RunDeliveriesRegistry | fsnotify.go:54-61 | a run that only delivers events leaves the starting registry minus every deleted path and returns no result to any caller |
| Watcher.RunDeliveriesOut | fsnotify.go:23-65 | a run that only delivers events forwards exactly the events the dispatch loop's per-event decisions keep, in arrival order |
| Watcher.RunIsPurge | fsnotify.go:23-65 | a run that only delivers events ends in the same state as the dispatch loop `purgeEvents` over those events: same forwarded events in the same order, same registry |
| Watcher.NothingForwardedUntilRegistered | fsnotify.go:54-61 | after a deletion event on a path, or a `RemoveWatch` of it, no event on that path is forwarded until a call registers the path again |
| Watcher.RemoveThenDeliver | fsnotify.go:107-113 | `RemoveWatch` followed by an event on that path forwards nothing, even when the platform's stop call fails |
| Watcher.WatchFlagsThenDeliver | fsnotify.go:98-104 | after `WatchFlags(path, flags)`, an event on the path is forwarded exactly when one of its categories is in `flags` |
| Watcher.WatchAllFlagsExample | fsnotify.go:85-95 | after `WatchAllFlags("/dir", MODIFY)` with a walk visiting only /dir, a creation on /dir is forwarded (the root now has ALL_FLAGS), and a creation of or write to /dir/a is not, provided the platform code adds no entry for /dir/a |

## Left out

- The goroutine and channel plumbing of `purgeEvents` is not modelled: the `range` over the internal channel, the blocking send on `w.Event` and `close(w.Event)`. The loop is a fold over a finite sequence of events that returns the forwarded sequence, so backpressure and shutdown are outside the model.
- The mutex `fsnmut` is not modelled. Each registry read or write is taken as one atomic step.
- Dispatch.Step: one event is handled as one atomic step. In the Go code, the look-up and the deletion take the lock separately, so a registration call could run between them. `Watcher` does not interleave calls inside an event's handling.
- Watcher.Run: `WatchAll` and `WatchAllFlags` each count as one atomic step. In the Go code, every `Watch` made by the walk takes the lock on its own, so events could be handled between them.
- Watcher.NothingForwardedUntilRegistered: a `WatchAll` or `WatchAllFlags` call counts as registering a path when its walk visits the path at all, not only within the part of the walk that actually ran. This makes the hypothesis stronger than necessary.
- `watchAllEvents` and `removeWatch` are platform code and are not part of this model. Their error results are inputs: a `Status` per call.
- `filepath.Walk` and `os.FileInfo` are not modelled. A walk is the sequence of callback invocations it makes, each with the visited path, the error passed to the callback, and the platform's answer for that path. The visit order and any repeated visit of a directory whose listing fails are decided by that sequence.
- The event predicates `IsCreate`, `IsModify`, `IsDelete`, `IsRename` and `IsFileWrite` are defined in platform files that are not part of this model. An event stores their five answers.
- Registration.WatchAllFlagsRoot: this lemma and `Registration.WatchAll` accept any visit sequence, including one that does not start at the root or is empty, which `filepath.Walk` never produces. The lemma's case of a root the walk never reaches therefore cannot arise in the Go code. `Registration.StartsAt` states the real shape of a walk, and `Registration.WatchAllFlagsOverwritesRoot` assumes it.
- Event names are Unicode strings. Go's `ev.Name` is a byte string, so a path that is not valid UTF-8 cannot be represented. Map-key equality and the rendering of the ASCII category names do not depend on this.
- Format.String: Go's `%q` quoting is modelled as wrapping the name in double quotes, without escaping. So the rendering of a name that contains quotes, backslashes or non-printable characters differs from Go's.
- Writes to `fsnFlags` made by the platform code are not modelled, for example giving a new child the mask of its directory. `fsnotify.go` touches the map only in the places modelled here, but the platform files that declare it may write to it as well. `Watcher.WatchAllFlagsExample` and the `/dir/a` behaviour above hold only if the platform adds no such entry.
- The declaration of the watcher's `fsnFlags` map lives in a platform file that is not part of this model. Masks are taken as 32-bit, matching the `uint32` flags parameter of `WatchFlags` and `WatchAllFlags`.
