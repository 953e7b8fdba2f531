/**
 A classified change event as handed to the dispatch loop.  The platform
 layer answers the five `IsCreate` … `IsFileWrite` questions; here the answers
 are stored in the event itself.
 */
module Events {
  import opened Flags

  datatype Event = Event(
    name: string,
    isCreate: bool,
    isModify: bool,
    isDelete: bool,
    isRename: bool,
    isFileWrite: bool)
  {
    /** True when this event belongs to category `c`. */
    predicate Is(c: Category) {
      match c
      case Create => isCreate
      case Modify => isModify
      case Delete => isDelete
      case Rename => isRename
      case FileWrite => isFileWrite
    }
  }

  /** The categories of `e` as a mask: bit `Bit(c)` is set exactly when `e` is a `c` event. */
  function CategoryMask(e: Event): (m: Mask)
    ensures forall c: Category :: Requested(m, Bit(c)) <==> e.Is(c)
    ensures m & ALL_FLAGS == m
  {
    (if e.isCreate then CREATE else 0)
    | (if e.isModify then MODIFY else 0)
    | (if e.isDelete then DELETE else 0)
    | (if e.isRename then RENAME else 0)
    | (if e.isFileWrite then FILE_WRITE else 0)
  }
}
