/**
 Rendering of an event as text (`FileEvent.String`, fsnotify.go:115-145): the
 quoted path, `": "`, and the names of the event's categories in the fixed
 order CREATE, DELETE, MODIFY, FILE_WRITE, RENAME, separated by `|`.
 The rendering looks only at the event, never at the registry.
 */
module Format {
  import opened Flags
  import opened Events

  /** Go's `%q` verb, reduced to wrapping the name in double quotes (no escaping). */
  function Quote(s: string): string {
    "\"" + s + "\""
  }

  /** The name a category is printed under. */
  function Name(c: Category): string {
    match c
    case Create => "CREATE"
    case Delete => "DELETE"
    case Modify => "MODIFY"
    case FileWrite => "FILE_WRITE"
    case Rename => "RENAME"
  }

  /** The order in which the categories are listed. */
  const Order: seq<Category> := [Create, Delete, Modify, FileWrite, Rename]

  /** The string `FileEvent.String` accumulates: `"|" + NAME` appended for each true
      predicate, in listing order. */
  function Accumulated(e: Event): string {
    var events := "";
    var events := if e.isCreate then events + ("|" + "CREATE") else events;
    var events := if e.isDelete then events + ("|" + "DELETE") else events;
    var events := if e.isModify then events + ("|" + "MODIFY") else events;
    var events := if e.isFileWrite then events + ("|" + "FILE_WRITE") else events;
    var events := if e.isRename then events + ("|" + "RENAME") else events;
    events
  }

  /** The category list: the accumulated string with its leading `|` dropped. */
  function CategoryList(e: Event): (s: string)
    ensures |s| > 0 ==> s[0] != '|' && s[|s| - 1] != '|'
    ensures s == "" <==> !(e.isCreate || e.isModify || e.isDelete || e.isRename || e.isFileWrite)
  {
    var events := Accumulated(e);
    if |events| > 0 then events[1..] else events
  }

  /** `FileEvent.String`: the quoted name, `": "`, and the category names of `e`
      in listing order joined by `|`. */
  function String(e: Event): (s: string)
    ensures s == Quote(e.name) + ": " + Join(NamesOf(e), '|')
  {
    CategoryListIsJoin(e);
    Quote(e.name) + ": " + CategoryList(e)
  }

  // ----- An independent description: names, joining and splitting -----

  /** The names of the categories of `cs` that `e` belongs to, in the order of `cs`. */
  function NamesIn(cs: seq<Category>, e: Event): seq<string>
    decreases |cs|
  {
    if |cs| == 0 then []
    else (if e.Is(cs[0]) then [Name(cs[0])] else []) + NamesIn(cs[1..], e)
  }

  /** The names of the categories `e` belongs to, in listing order. */
  function NamesOf(e: Event): seq<string> {
    NamesIn(Order, e)
  }

  /** The strings of `xs` with `sep` between consecutive ones. */
  function Join(xs: seq<string>, sep: char): string
    decreases |xs|
  {
    if |xs| == 0 then ""
    else if |xs| == 1 then xs[0]
    else xs[0] + [sep] + Join(xs[1..], sep)
  }

  /** The pieces of `s` between occurrences of `sep` (at least one piece). */
  function Split(s: string, sep: char): (r: seq<string>)
    ensures |r| >= 1
    decreases |s|
  {
    if |s| == 0 then [""]
    else
      var rest := Split(s[1..], sep);
      if s[0] == sep then [""] + rest else [[s[0]] + rest[0]] + rest[1..]
  }

  /** The category names listed in a category list; the empty list names none. */
  function Fields(s: string): seq<string> {
    if |s| == 0 then [] else Split(s, '|')
  }

  /** Reads an event back from its path and its category list. */
  function Decode(name: string, list: string): Event {
    FromNames(name, Fields(list))
  }

  /** The event on `name` whose categories are those named in `names`. */
  function FromNames(name: string, names: seq<string>): Event {
    Event(name, "CREATE" in names, "MODIFY" in names, "DELETE" in names,
          "RENAME" in names, "FILE_WRITE" in names)
  }

  // ----- Lemmas -----

  /** `"|" + x` for every `x` of `xs`, concatenated: the string `FileEvent.String` accumulates. */
  function Piped(xs: seq<string>): string
    decreases |xs|
  {
    if |xs| == 0 then "" else "|" + xs[0] + Piped(xs[1..])
  }

  lemma {:induction false} PipedAppend(xs: seq<string>, ys: seq<string>)
    ensures Piped(xs + ys) == Piped(xs) + Piped(ys)
    decreases |xs|
  {
    if |xs| == 0 {
      assert xs + ys == ys;
    } else {
      assert (xs + ys)[0] == xs[0];
      assert (xs + ys)[1..] == xs[1..] + ys;
      PipedAppend(xs[1..], ys);
    }
  }

  lemma {:induction false} PipedIsJoin(xs: seq<string>)
    requires |xs| >= 1
    ensures Piped(xs)[1..] == Join(xs, '|')
    decreases |xs|
  {
    if |xs| > 1 {
      PipedIsJoin(xs[1..]);
    }
  }

  /** The piece `FileEvent.String` appends for category `c`. */
  function Piece(e: Event, c: Category): string {
    if e.Is(c) then "|" + Name(c) else ""
  }

  lemma PipedNamesIn(cs: seq<Category>, e: Event)
    requires |cs| > 0
    ensures Piped(NamesIn(cs, e)) == Piece(e, cs[0]) + Piped(NamesIn(cs[1..], e))
  {
    var head := if e.Is(cs[0]) then [Name(cs[0])] else [];
    PipedAppend(head, NamesIn(cs[1..], e));
  }

  /** The five pieces of `e`, in listing order. */
  function Pieces(e: Event): string {
    Piece(e, Create) + (Piece(e, Delete) + (Piece(e, Modify) + (Piece(e, FileWrite) + Piece(e, Rename))))
  }

  lemma AppendPiece(events: string, e: Event, c: Category)
    ensures (if e.Is(c) then events + ("|" + Name(c)) else events) == events + Piece(e, c)
  {
  }

  lemma AccumulatedIsPieces(e: Event)
    ensures Accumulated(e) == Pieces(e)
  {
    AppendPiece("", e, Create);
    assert "" + Piece(e, Create) == Piece(e, Create);
    var a1 := Piece(e, Create);
    AppendPiece(a1, e, Delete);
    var a2 := a1 + Piece(e, Delete);
    AppendPiece(a2, e, Modify);
    var a3 := a2 + Piece(e, Modify);
    AppendPiece(a3, e, FileWrite);
    var a4 := a3 + Piece(e, FileWrite);
    AppendPiece(a4, e, Rename);
    var p1, p2, p3, p4, p5 := Piece(e, Create), Piece(e, Delete), Piece(e, Modify), Piece(e, FileWrite), Piece(e, Rename);
    ConcatAssoc(p1 + p2, p3, p4);
    ConcatAssoc(p1 + p2, p3 + p4, p5);
    ConcatAssoc(p3, p4, p5);
    ConcatAssoc(p1, p2, p3 + (p4 + p5));
  }

  /** One regrouping of a concatenation, kept as a lemma so that each regrouping
      above is proved in a small context of its own. */
  lemma ConcatAssoc(a: string, b: string, c: string)
    ensures (a + b) + c == a + (b + c)
  {
  }

  lemma PipedNamesOf(e: Event)
    ensures Piped(NamesOf(e)) == Pieces(e)
  {
    var o4: seq<Category> := [Rename];
    var o3: seq<Category> := [FileWrite] + o4;
    var o2: seq<Category> := [Modify] + o3;
    var o1: seq<Category> := [Delete] + o2;
    var o0: seq<Category> := [Create] + o1;
    assert o0 == Order;
    assert o4[1..] == [] && o3[1..] == o4 && o2[1..] == o3 && o1[1..] == o2 && o0[1..] == o1;
    PipedNamesIn(o4, e);
    assert Piece(e, Rename) + "" == Piece(e, Rename);
    PipedNamesIn(o3, e);
    PipedNamesIn(o2, e);
    PipedNamesIn(o1, e);
    PipedNamesIn(o0, e);
  }

  /** The list `FileEvent.String` builds is the join of the category names. */
  lemma CategoryListIsJoin(e: Event)
    ensures CategoryList(e) == Join(NamesOf(e), '|')
  {
    AccumulatedIsPieces(e);
    PipedNamesOf(e);
    if |Pieces(e)| > 0 {
      PipedIsJoin(NamesOf(e));
    }
  }

  /** A name is listed exactly when the event belongs to its category. */
  lemma {:induction false} NamesInMembership(cs: seq<Category>, e: Event, c: Category)
    ensures Name(c) in NamesIn(cs, e) <==> c in cs && e.Is(c)
    decreases |cs|
  {
    if |cs| > 0 {
      NamesInMembership(cs[1..], e, c);
      assert cs == [cs[0]] + cs[1..];
    }
  }

  lemma {:induction false} SplitNoSeparator(a: string, sep: char)
    requires sep !in a
    ensures Split(a, sep) == [a]
    decreases |a|
  {
    if |a| > 0 {
      assert sep !in a[1..];
      SplitNoSeparator(a[1..], sep);
      assert [a[0]] + a[1..] == a;
    }
  }

  lemma {:induction false} SplitAppend(a: string, sep: char, b: string)
    requires sep !in a
    ensures Split(a + [sep] + b, sep) == [a] + Split(b, sep)
    decreases |a|
  {
    if |a| == 0 {
      assert a + [sep] + b == [sep] + b;
      assert ([sep] + b)[1..] == b;
    } else {
      assert (a + [sep] + b)[1..] == a[1..] + [sep] + b;
      SplitAppend(a[1..], sep, b);
      assert [a[0]] + a[1..] == a;
    }
  }

  /** Splitting undoes joining when no piece contains the separator. */
  lemma {:induction false} SplitJoin(xs: seq<string>, sep: char)
    requires |xs| >= 1
    requires forall i :: 0 <= i < |xs| ==> sep !in xs[i]
    ensures Split(Join(xs, sep), sep) == xs
    decreases |xs|
  {
    if |xs| == 1 {
      SplitNoSeparator(xs[0], sep);
    } else {
      SplitJoin(xs[1..], sep);
      SplitAppend(xs[0], sep, Join(xs[1..], sep));
    }
  }

  /** The category names are non-empty and contain no `|`. */
  lemma {:induction false} NamesInAreFields(cs: seq<Category>, e: Event)
    ensures forall i :: 0 <= i < |NamesIn(cs, e)| ==> '|' !in NamesIn(cs, e)[i] && |NamesIn(cs, e)[i]| > 0
    decreases |cs|
  {
    if |cs| > 0 {
      NamesInAreFields(cs[1..], e);
    }
  }

  lemma {:induction false} JoinNonEmpty(xs: seq<string>, sep: char)
    requires |xs| >= 1 && |xs[0]| > 0
    ensures |Join(xs, sep)| > 0
  {
  }

  /** Reading the names back out of the category list gives the names it was built from. */
  lemma FieldsOfCategoryList(e: Event)
    ensures Fields(CategoryList(e)) == NamesOf(e)
  {
    CategoryListIsJoin(e);
    var names := NamesOf(e);
    NamesInAreFields(Order, e);
    if |names| > 0 {
      JoinNonEmpty(names, '|');
      SplitJoin(names, '|');
    }
  }

  /** The category list names exactly the categories of the event, so the event's
      category predicates can be read back from its rendering. */
  lemma DecodeCategoryList(e: Event)
    ensures forall c: Category :: Name(c) in Fields(CategoryList(e)) <==> e.Is(c)
    ensures Decode(e.name, CategoryList(e)) == e
  {
    FieldsOfCategoryList(e);
    forall c: Category ensures Name(c) in NamesOf(e) <==> e.Is(c) {
      NamesInMembership(Order, e, c);
    }
    FromNamesOf(e, NamesOf(e));
  }

  lemma FromNamesOf(e: Event, names: seq<string>)
    requires forall c: Category :: Name(c) in names <==> e.Is(c)
    ensures FromNames(e.name, names) == e
  {
    assert "CREATE" in names <==> e.isCreate by { assert Name(Create) == "CREATE"; }
    assert "MODIFY" in names <==> e.isModify by { assert Name(Modify) == "MODIFY"; }
    assert "DELETE" in names <==> e.isDelete by { assert Name(Delete) == "DELETE"; }
    assert "RENAME" in names <==> e.isRename by { assert Name(Rename) == "RENAME"; }
    assert "FILE_WRITE" in names <==> e.isFileWrite by { assert Name(FileWrite) == "FILE_WRITE"; }
  }

  /** A modify-and-write event on /tmp/x renders as `"/tmp/x": MODIFY|FILE_WRITE`. */
  lemma ModifyWriteExample(e: Event)
    requires e == Event("/tmp/x", false, true, false, false, true)
    ensures String(e) == "\"/tmp/x\": MODIFY|FILE_WRITE"
  {
    ModifyWriteList(e);
    assert Quote("/tmp/x") + ": " + "MODIFY|FILE_WRITE" == "\"/tmp/x\": MODIFY|FILE_WRITE";
  }

  lemma ModifyWriteList(e: Event)
    requires e == Event("/tmp/x", false, true, false, false, true)
    ensures CategoryList(e) == "MODIFY|FILE_WRITE"
  {
    ModifyWriteAccumulated(e);
    assert "|MODIFY|FILE_WRITE"[1..] == "MODIFY|FILE_WRITE";
  }

  lemma ModifyWriteAccumulated(e: Event)
    requires e == Event("/tmp/x", false, true, false, false, true)
    ensures Accumulated(e) == "|MODIFY|FILE_WRITE"
  {
    AccumulatedIsPieces(e);
    assert Piece(e, Create) == "" && Piece(e, Delete) == "" && Piece(e, Rename) == "";
    assert Piece(e, Modify) == "|MODIFY" && Piece(e, FileWrite) == "|FILE_WRITE";
    assert "|FILE_WRITE" + "" == "|FILE_WRITE";
    assert "|MODIFY" + "|FILE_WRITE" == "|MODIFY|FILE_WRITE";
  }
}
