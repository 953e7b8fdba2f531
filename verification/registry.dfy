/**
 The interest registry: a map from watched path to its subscription mask
 (the watcher's `fsnFlags` field).  Each read or write of the map is done
 under the watcher's lock, so every operation here is one atomic step.
 */
module Registry {
  import opened Flags

  type Registry = map<string, Mask>

  /** The mask of `path`; an absent path reads as the zero mask, as a Go map does. */
  function Lookup(reg: Registry, path: string): (m: Mask)
    ensures path !in reg ==> m == 0
    ensures path in reg ==> m == reg[path]
  {
    if path in reg then reg[path] else 0
  }

  /** Inserts or overwrites the mask of `path`; no other entry changes. */
  function Set(reg: Registry, path: string, mask: Mask): (r: Registry)
    ensures path in r && r[path] == mask
    ensures r - {path} == reg - {path}
    ensures r.Keys == reg.Keys + {path}
  {
    reg[path := mask]
  }

  /** Deletes the entry of `path`; removing an absent path leaves the map as it was. */
  function Remove(reg: Registry, path: string): (r: Registry)
    ensures path !in r
    ensures r - {path} == reg - {path}
    ensures path !in reg ==> r == reg
    ensures r.Keys == reg.Keys - {path}
  {
    reg - {path}
  }
}
