/**
 The category bits of the watcher (fsnotify.go:12-20).  Each change category
 is one bit of a 32-bit mask; a subscription is any combination of them.
 */
module Flags {

  /** A subscription mask, as the `uint32` flags argument of the registration calls. */
  type Mask = bv32

  // `1 << iota` for iota = 0, 1, 2, 3, 4
  const CREATE: Mask := 1 << 0
  const MODIFY: Mask := 1 << 1
  const DELETE: Mask := 1 << 2
  const RENAME: Mask := 1 << 3
  const FILE_WRITE: Mask := 1 << 4

  const ALL_FLAGS: Mask := MODIFY | DELETE | RENAME | CREATE | FILE_WRITE

  /** The five change categories an event can belong to. */
  datatype Category = Create | Modify | Delete | Rename | FileWrite

  /** The bit that stands for category `c`: exactly one bit, and inside ALL_FLAGS. */
  function Bit(c: Category): (b: Mask)
    ensures b != 0 && b & (b - 1) == 0
    ensures b & ALL_FLAGS == b
  {
    match c
    case Create => CREATE
    case Modify => MODIFY
    case Delete => DELETE
    case Rename => RENAME
    case FileWrite => FILE_WRITE
  }

  /** True when every bit of `flag` is set in `mask` (the Go code's `mask&FLAG == FLAG`). */
  predicate Requested(mask: Mask, flag: Mask) {
    mask & flag == flag
  }

  /** The constants are the single bits 1, 2, 4, 8, 16, pairwise distinct, and
      ALL_FLAGS is exactly their union, 31. */
  lemma CategoryBits(c1: Category, c2: Category)
    ensures [CREATE, MODIFY, DELETE, RENAME, FILE_WRITE] == [1, 2, 4, 8, 16]
    ensures c1 != c2 ==> Bit(c1) & Bit(c2) == 0
    ensures ALL_FLAGS == Bit(Create) | Bit(Modify) | Bit(Delete) | Bit(Rename) | Bit(FileWrite)
    ensures ALL_FLAGS == 31
    ensures Requested(ALL_FLAGS, Bit(c1))
    ensures !Requested(0, Bit(c1))
  {
  }
}
