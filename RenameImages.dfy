/** tools/rename_images_to_project.py: every picture (or, failing that, shape) is renamed to
    the project number in column B of the row its anchor starts on. */
module RenameImages {
  import opened Common
  import opened Drawing
  import opened DeleteImageXlsx

  // ---------------------------------------------------------------- column B

  /** Column B of the first sheet, as `ws.cell(row=r, column=2).value` shows it for rows
      1..max_row: `None` for an empty cell, else the text `str(value)`. */
  type ColumnB = seq<Option<string>>

  /** The stripped text of row `r`, when the cell is not empty and not blank. */
  function CellText(cells: ColumnB, r: int): Option<string>
  {
    if 1 <= r <= |cells| && cells[r - 1].Some? && Trim(cells[r - 1].value) != []
    then Some(Trim(cells[r - 1].value))
    else None
  }

  /** The row → project-number map built from rows 1..`n`. */
  function BColumnUpTo(cells: ColumnB, n: nat): map<int, string>
  {
    if n == 0 then map[]
    else
      var m := BColumnUpTo(cells, n - 1);
      if CellText(cells, n).Some? then m[n := CellText(cells, n).value] else m
  }

  function BColumn(cells: ColumnB): map<int, string>
  {
    BColumnUpTo(cells, |cells|)
  }

  /** `get_b_column_values`: `None` is a sheet openpyxl cannot open, which yields `{}`. */
  method GetBColumnValues(sheet: Option<ColumnB>) returns (b: map<int, string>)
    ensures sheet.None? ==> b == map[]
    ensures sheet.Some? ==> b == BColumn(sheet.value)
  {
    b := map[];
    if sheet.None? {
      return;
    }
    var cells := sheet.value;
    var row := 1;
    while row <= |cells|
      invariant 1 <= row <= |cells| + 1
      invariant b == BColumnUpTo(cells, row - 1)
    {
      var value := cells[row - 1];
      if value.Some? && Trim(value.value) != [] {
        b := b[row := Trim(value.value)];
      }
      row := row + 1;
    }
  }

  /** The map has an entry for row `r` exactly when that row's cell has text, and the entry
      is that text. */
  lemma {:induction false} BColumnEntry(cells: ColumnB, n: nat, r: int)
    requires n <= |cells|
    ensures r in BColumnUpTo(cells, n) <==> 1 <= r <= n && CellText(cells, r).Some?
    ensures r in BColumnUpTo(cells, n) ==> BColumnUpTo(cells, n)[r] == CellText(cells, r).value
  {
    if n > 0 {
      BColumnEntry(cells, n - 1, r);
    }
  }

  /** A cell has text exactly when it is present and not blank; the text is never empty. */
  lemma CellTextNonBlank(cells: ColumnB, r: int)
    requires 1 <= r <= |cells|
    ensures CellText(cells, r).Some? <==> cells[r - 1].Some? && !IsBlank(cells[r - 1].value)
    ensures CellText(cells, r).Some? ==> CellText(cells, r).value != []
  {
    if cells[r - 1].Some? {
      TrimEmptyIffBlank(cells[r - 1].value);
    }
  }

  // ---------------------------------------------------------------- one anchor

  /** An anchor the loop looks at: a two-cell or one-cell anchor whose `from` has both `col`
      and `row` (the others are passed over with `continue`). */
  predicate Considered(a: Anchor)
  {
    IsCellAnchor(a) && HasOrigin(a)
  }

  /** `int(row_elem.text)` raises; the column text is never converted. */
  predicate RowRaises(a: Anchor)
  {
    Considered(a) && a.from.value.row.Garbage?
  }

  /** The project number for the anchor's one-based row, when there is a non-empty one. */
  function ProjectFor(a: Anchor, b: map<int, string>): (r: Option<string>)
    ensures r.Some? ==> Considered(a) && a.from.value.row.Value?
                        && a.from.value.row.n + 1 in b && r.value == b[a.from.value.row.n + 1] && r.value != []
  {
    if Considered(a) && a.from.value.row.Value? && a.from.value.row.n + 1 in b && b[a.from.value.row.n + 1] != []
    then Some(b[a.from.value.row.n + 1])
    else None
  }

  predicate HasNvProps(s: Option<Shape>)
  {
    s.Some? && s.value.cNvPr.Some?
  }

  /** The anchor is counted in `renamed_count`. */
  predicate IsRenamed(a: Anchor, b: map<int, string>)
  {
    ProjectFor(a, b).Some? && (HasNvProps(a.pic) || HasNvProps(a.sp))
  }

  /** The anchor is counted in `skipped_count`: read, but its row has no project number. */
  predicate IsSkipped(a: Anchor, b: map<int, string>)
  {
    Considered(a) && a.from.value.row.Value? && ProjectFor(a, b).None?
  }

  function Named(name: string): Option<Shape>
  {
    Some(Shape(Some(NvProps(Some(name)))))
  }

  /** One anchor after the loop body: the `pic` name is set when the picture has a `cNvPr`,
      otherwise the `sp` name when the shape has one; a group is never renamed. */
  function RenameAnchor(a: Anchor, b: map<int, string>): (r: Anchor)
    ensures r.kind == a.kind && r.from == a.from && r.to == a.to && r.grpSp == a.grpSp
    ensures !IsRenamed(a, b) ==> r == a
    ensures IsRenamed(a, b) && HasNvProps(a.pic) ==> r.pic == Named(ProjectFor(a, b).value) && r.sp == a.sp
    ensures IsRenamed(a, b) && !HasNvProps(a.pic) ==> r.sp == Named(ProjectFor(a, b).value) && r.pic == a.pic
  {
    match ProjectFor(a, b)
    case None => a
    case Some(p) =>
      if HasNvProps(a.pic) then a.(pic := Named(p))
      else if HasNvProps(a.sp) then a.(sp := Named(p))
      else a
  }

  /** After renaming, the name a reader resolves (pic, then sp, then grpSp) is the project
      number. */
  lemma RenamedResolvesToProject(a: Anchor, b: map<int, string>)
    requires IsRenamed(a, b)
    ensures ResolveName(RenameAnchor(a, b)) == ProjectFor(a, b)
  {
  }

  /** Renaming twice is renaming once. */
  lemma RenameIdempotent(a: Anchor, b: map<int, string>)
    ensures RenameAnchor(RenameAnchor(a, b), b) == RenameAnchor(a, b)
  {
    assert ProjectFor(RenameAnchor(a, b), b) == ProjectFor(a, b);
  }

  // ---------------------------------------------------------------- counting

  /** What happens to a cell anchor whose row is readable. */
  datatype Case = Renamed | Skipped | NotRead | NothingToRename

  predicate InCase(a: Anchor, b: map<int, string>, c: Case)
  {
    match c
    case Renamed => IsRenamed(a, b)
    case Skipped => IsSkipped(a, b)
    case NotRead => IsCellAnchor(a) && !Considered(a)
    case NothingToRename => ProjectFor(a, b).Some? && !IsRenamed(a, b)
  }

  predicate OfKind'(a: Anchor, k: Option<AnchorKind>)
  {
    k.None? || a.kind == k.value
  }

  /** The number of anchors (of kind `k`, or of any kind) in case `c`. */
  function Tally(s: seq<Anchor>, b: map<int, string>, k: Option<AnchorKind>, c: Case): (n: nat)
    ensures n <= |s|
  {
    if s == [] then 0
    else Tally(s[..|s| - 1], b, k, c) + (if OfKind'(s[|s| - 1], k) && InCase(s[|s| - 1], b, c) then 1 else 0)
  }

  /** The same count over the first `n` anchors, by position. */
  function TallyUpTo(s: seq<Anchor>, n: nat, b: map<int, string>, k: Option<AnchorKind>, c: Case): nat
    requires n <= |s|
  {
    if n == 0 then 0
    else TallyUpTo(s, n - 1, b, k, c) + (if OfKind'(s[n - 1], k) && InCase(s[n - 1], b, c) then 1 else 0)
  }

  lemma {:induction false} TallyUpToAll(s: seq<Anchor>, n: nat, b: map<int, string>, k: Option<AnchorKind>, c: Case)
    requires n <= |s|
    ensures TallyUpTo(s, n, b, k, c) == Tally(s[..n], b, k, c)
  {
    if n > 0 {
      TallyUpToAll(s, n - 1, b, k, c);
      assert s[..n][..n - 1] == s[..n - 1];
    }
  }

  function CellCount(s: seq<Anchor>): nat
  {
    if s == [] then 0 else CellCount(s[..|s| - 1]) + (if IsCellAnchor(s[|s| - 1]) then 1 else 0)
  }

  /** Every cell anchor falls in exactly one of the four cases. */
  lemma {:induction false} CountsPartition(s: seq<Anchor>, b: map<int, string>)
    requires forall i :: 0 <= i < |s| ==> !RowRaises(s[i])
    ensures Tally(s, b, None, Renamed) + Tally(s, b, None, Skipped)
            + Tally(s, b, None, NotRead) + Tally(s, b, None, NothingToRename) == CellCount(s)
    decreases |s|
  {
    if s != [] {
      CountsPartition(s[..|s| - 1], b);
    }
  }

  /** The anchors of kind `k` after one pass. */
  function RenameKind(s: seq<Anchor>, k: AnchorKind, b: map<int, string>): (r: seq<Anchor>)
    ensures |r| == |s|
  {
    seq(|s|, i requires 0 <= i < |s| => if s[i].kind == k then RenameAnchor(s[i], b) else s[i])
  }

  predicate AnyRowRaises(s: seq<Anchor>, k: AnchorKind)
  {
    exists i :: 0 <= i < |s| && s[i].kind == k && RowRaises(s[i])
  }

  /** The parsed drawing, whose `cNvPr` names the passes set in place. */
  class RenamingRoot {
    var children: seq<Anchor>

    constructor (anchors: seq<Anchor>)
      ensures children == anchors
    {
      children := anchors;
    }

    /** `for anchor in root.findall(kind)`: raises on an unreadable row; otherwise renames
        and counts. */
    method RenamePass(k: AnchorKind, b: map<int, string>) returns (raised: bool, renamed: nat, skipped: nat)
      modifies this
      ensures raised == AnyRowRaises(old(children), k)
      ensures !raised ==> children == RenameKind(old(children), k, b)
      ensures !raised ==> renamed == Tally(old(children), b, Some(k), Renamed)
                          && skipped == Tally(old(children), b, Some(k), Skipped)
    {
      var snapshot := children;
      raised, renamed, skipped := false, 0, 0;
      var i := 0;
      while i < |snapshot|
        invariant 0 <= i <= |snapshot| && |children| == |snapshot|
        invariant forall p :: 0 <= p < i ==> children[p] == RenameKind(snapshot, k, b)[p]
        invariant forall p :: i <= p < |snapshot| ==> children[p] == snapshot[p]
        invariant renamed == TallyUpTo(snapshot, i, b, Some(k), Renamed)
        invariant skipped == TallyUpTo(snapshot, i, b, Some(k), Skipped)
        invariant forall p :: 0 <= p < i ==> !(snapshot[p].kind == k && RowRaises(snapshot[p]))
      {
        var a := children[i];
        if a.kind == k && Considered(a) {
          if a.from.value.row.Garbage? {
            return true, 0, 0;
          }
          var project := ProjectFor(a, b);
          if project.None? {
            skipped := skipped + 1;
          } else {
            if HasNvProps(a.pic) || HasNvProps(a.sp) {
              renamed := renamed + 1;
              children := children[i := RenameAnchor(a, b)];
            }
          }
        }
        i := i + 1;
      }
      TallyUpToAll(snapshot, i, b, Some(k), Renamed);
      TallyUpToAll(snapshot, i, b, Some(k), Skipped);
      assert snapshot[..i] == snapshot;
    }
  }

  /** Every cell anchor renamed: the effect of the two passes on one drawing. */
  function RenameCells(s: seq<Anchor>, b: map<int, string>): (r: seq<Anchor>)
    ensures |r| == |s|
    ensures forall i :: 0 <= i < |s| ==> r[i] == if IsCellAnchor(s[i]) then RenameAnchor(s[i], b) else s[i]
  {
    if s == [] then [] else [if IsCellAnchor(s[0]) then RenameAnchor(s[0], b) else s[0]] + RenameCells(s[1..], b)
  }

  /** The two passes compose into one renaming of every cell anchor; the second pass sees the
      same rows, and so raises and counts as if it had run first. */
  lemma PassesCompose(s: seq<Anchor>, b: map<int, string>)
    ensures RenameKind(RenameKind(s, TwoCell, b), OneCell, b) == RenameCells(s, b)
    ensures AnyRowRaises(RenameKind(s, TwoCell, b), OneCell) == AnyRowRaises(s, OneCell)
    ensures Tally(RenameKind(s, TwoCell, b), b, Some(OneCell), Renamed)
            == Tally(s, b, Some(OneCell), Renamed)
    ensures Tally(RenameKind(s, TwoCell, b), b, Some(OneCell), Skipped)
            == Tally(s, b, Some(OneCell), Skipped)
  {
    var t := RenameKind(s, TwoCell, b);
    FirstPassLeavesOneCell(s, b);
    forall i | 0 <= i < |s|
      ensures RenameKind(t, OneCell, b)[i] == RenameCells(s, b)[i]
    {
    }
    OneCellCountsAgree(s, t, b);
  }

  lemma FirstPassLeavesOneCell(s: seq<Anchor>, b: map<int, string>)
    ensures forall i :: 0 <= i < |s| ==> RenameKind(s, TwoCell, b)[i].kind == s[i].kind
    ensures forall i :: 0 <= i < |s| && s[i].kind == OneCell ==> RenameKind(s, TwoCell, b)[i] == s[i]
  {
  }

  lemma {:induction false} OneCellCountsAgree(s: seq<Anchor>, t: seq<Anchor>, b: map<int, string>)
    requires |t| == |s|
    requires forall i :: 0 <= i < |s| ==> t[i].kind == s[i].kind
    requires forall i :: 0 <= i < |s| && s[i].kind == OneCell ==> t[i] == s[i]
    ensures Tally(t, b, Some(OneCell), Renamed) == Tally(s, b, Some(OneCell), Renamed)
    ensures Tally(t, b, Some(OneCell), Skipped) == Tally(s, b, Some(OneCell), Skipped)
    decreases |s|
  {
    if s != [] {
      OneCellCountsAgree(s[..|s| - 1], t[..|t| - 1], b);
    }
  }

  /** The counts of the two passes add up to the counts over every cell anchor. */
  lemma {:induction false} KindCountsAdd(s: seq<Anchor>, b: map<int, string>)
    ensures Tally(s, b, Some(TwoCell), Renamed) + Tally(s, b, Some(OneCell), Renamed)
            == Tally(s, b, None, Renamed)
    ensures Tally(s, b, Some(TwoCell), Skipped) + Tally(s, b, Some(OneCell), Skipped)
            == Tally(s, b, None, Skipped)
    decreases |s|
  {
    if s != [] {
      KindCountsAdd(s[..|s| - 1], b);
    }
  }

  predicate CellRowRaises(s: seq<Anchor>)
  {
    AnyRowRaises(s, TwoCell) || AnyRowRaises(s, OneCell)
  }

  /** Parse one drawing member and run both passes over it. */
  method RenameInDrawing(c: Content, b: map<int, string>) returns (raised: bool, renamed: nat, skipped: nat, kept: seq<Anchor>)
    ensures raised == (c.Opaque? || CellRowRaises(c.anchors))
    ensures !raised ==> kept == RenameCells(c.anchors, b)
                        && renamed == Tally(c.anchors, b, None, Renamed)
                        && skipped == Tally(c.anchors, b, None, Skipped)
  {
    if c.Opaque? {
      return true, 0, 0, [];
    }
    var root := new RenamingRoot(c.anchors);
    var raisedTwo, renamedTwo, skippedTwo := root.RenamePass(TwoCell, b);
    if raisedTwo {
      return true, 0, 0, [];
    }
    PassesCompose(c.anchors, b);
    var raisedOne, renamedOne, skippedOne := root.RenamePass(OneCell, b);
    if raisedOne {
      return true, 0, 0, [];
    }
    KindCountsAdd(c.anchors, b);
    return false, renamedTwo + renamedOne, skippedTwo + skippedOne, root.children;
  }

  // ---------------------------------------------------------------- the package

  function RenameInEntry(e: Entry, b: map<int, string>): Entry
  {
    if IsDrawingMember(e.name) && e.content.Xml?
    then Entry(e.name, Xml(RenameCells(e.content.anchors, b)))
    else e
  }

  function RenameInAll(a: Archive, b: map<int, string>): (r: Archive)
    ensures |r| == |a|
    ensures forall i :: 0 <= i < |a| ==> r[i] == RenameInEntry(a[i], b)
  {
    if a == [] then [] else [RenameInEntry(a[0], b)] + RenameInAll(a[1..], b)
  }

  predicate EntryRaisesRow(e: Entry)
  {
    IsDrawingMember(e.name) && (e.content.Opaque? || CellRowRaises(e.content.anchors))
  }

  /** Some drawing among the first `n` members raises. */
  predicate RaisesBefore(a: Archive, n: nat)
    requires n <= |a|
  {
    n > 0 && (RaisesBefore(a, n - 1) || EntryRaisesRow(a[n - 1]))
  }

  predicate SomeEntryRaisesRow(a: Archive)
  {
    RaisesBefore(a, |a|)
  }

  function EntryCount(e: Entry, b: map<int, string>, c: Case): nat
  {
    if IsDrawingMember(e.name) && e.content.Xml? then Tally(e.content.anchors, b, None, c) else 0
  }

  /** `renamed_count` (or `skipped_count`) summed over the drawing members. */
  function CountBefore(a: Archive, n: nat, b: map<int, string>, c: Case): nat
    requires n <= |a|
  {
    if n == 0 then 0 else CountBefore(a, n - 1, b, c) + EntryCount(a[n - 1], b, c)
  }

  function TotalCount(a: Archive, b: map<int, string>, c: Case): nat
  {
    CountBefore(a, |a|, b, c)
  }

  /** What the script does to a workbook once column B has been read. */
  function RenameOutcome(book: Option<Archive>, b: map<int, string>): Result<Archive, Failure>
  {
    if book.None? then Err(Raised)
    else if !HasDrawing(book.value) then Err(NoDrawing)
    else if SomeEntryRaisesRow(book.value) then Err(Raised)
    else if TotalCount(book.value, b, Renamed) == 0 then Err(NoMatch)
    else Ok(RenameInAll(book.value, b))
  }

  /** A successful rename keeps every member name and every anchor in place: only `cNvPr`
      names of cell anchors change, and each renamed anchor now resolves to its project
      number. */
  lemma RenameOutcomeShape(book: Option<Archive>, b: map<int, string>)
    requires RenameOutcome(book, b).Ok?
    ensures var r := RenameOutcome(book, b).value;
      && |r| == |book.value|
      && (forall i :: 0 <= i < |r| ==> r[i].name == book.value[i].name)
      && (forall i :: 0 <= i < |r| && !IsDrawingMember(r[i].name) ==> r[i] == book.value[i])
      && (forall i :: 0 <= i < |r| && IsDrawingMember(r[i].name) ==>
            && book.value[i].content.Xml? && r[i].content.Xml?
            && |r[i].content.anchors| == |book.value[i].content.anchors|
            && forall j :: 0 <= j < |book.value[i].content.anchors| && IsRenamed(book.value[i].content.anchors[j], b) ==>
                 ResolveName(r[i].content.anchors[j]) == ProjectFor(book.value[i].content.anchors[j], b))
  {
    var a := book.value;
    forall i | 0 <= i < |a| && IsDrawingMember(a[i].name)
      ensures a[i].content.Xml?
    {
      if a[i].content.Opaque? {
        RaisesSomewhere(a, i, |a|);
      }
    }
    forall i, j | 0 <= i < |a| && IsDrawingMember(a[i].name) && 0 <= j < |a[i].content.anchors|
                  && IsRenamed(a[i].content.anchors[j], b)
      ensures ResolveName(RenameInAll(a, b)[i].content.anchors[j]) == ProjectFor(a[i].content.anchors[j], b)
    {
      RenamedResolvesToProject(a[i].content.anchors[j], b);
    }
  }

  lemma {:induction false} RaisesSomewhere(a: Archive, i: int, n: nat)
    requires 0 <= i < n <= |a| && EntryRaisesRow(a[i])
    ensures RaisesBefore(a, n)
    decreases n
  {
    if i < n - 1 {
      RaisesSomewhere(a, i, n - 1);
    }
  }

  /** The extracted tree after the first `i` members have been processed. */
  function RenameProgress(x: Archive, i: int, b: map<int, string>): Archive
    requires 0 <= i <= |x|
  {
    RenameInAll(x[..i], b) + x[i..]
  }

  lemma RenameProgressStep(x: Archive, i: int, b: map<int, string>)
    requires 0 <= i < |x|
    ensures RenameProgress(x, i + 1, b) == RenameProgress(x, i, b)[i := RenameInEntry(x[i], b)]
    ensures RenameInEntry(x[i], b) == x[i] ==> RenameProgress(x, i + 1, b) == RenameProgress(x, i, b)
  {
    assert RenameProgress(x, i, b)[i] == x[i];
    assert x[..i + 1][..i] == x[..i];
  }

  lemma RenameProgressEnds(x: Archive, b: map<int, string>)
    ensures RenameProgress(x, 0, b) == x && x[..0] == []
    ensures RenameProgress(x, |x|, b) == RenameInAll(x, b) && x[..|x|] == x
  {
    assert x[..0] == [] && x[..|x|] == x;
  }

  /** The loop over the extracted drawing members; each one is written back. */
  method RenameAll(extracted: Archive, b: map<int, string>) returns (raised: bool, renamed: nat, skipped: nat, tree: Archive)
    ensures raised == SomeEntryRaisesRow(extracted)
    ensures !raised ==> tree == RenameInAll(extracted, b)
                        && renamed == TotalCount(extracted, b, Renamed) && skipped == TotalCount(extracted, b, Skipped)
  {
    raised, renamed, skipped, tree := false, 0, 0, extracted;
    var i := 0;
    RenameProgressEnds(extracted, b);
    while i < |extracted|
      invariant 0 <= i <= |extracted|
      invariant tree == RenameProgress(extracted, i, b)
      invariant !RaisesBefore(extracted, i)
      invariant renamed == CountBefore(extracted, i, b, Renamed) && skipped == CountBefore(extracted, i, b, Skipped)
    {
      var broke;
      broke, renamed, skipped, tree := RenameMember(extracted, i, b, renamed, skipped, tree);
      if broke {
        return true, 0, 0, [];
      }
      i := i + 1;
    }
  }

  /** One pass of the loop in `RenameAll`: member `i` is renamed and written back, or it
      raises. */
  method RenameMember(x: Archive, i: nat, b: map<int, string>, renamed: nat, skipped: nat, tree: Archive)
    returns (raised: bool, renamed': nat, skipped': nat, tree': Archive)
    requires i < |x| && tree == RenameProgress(x, i, b)
    requires renamed == CountBefore(x, i, b, Renamed) && skipped == CountBefore(x, i, b, Skipped)
    ensures raised ==> RaisesBefore(x, |x|)
    ensures !raised ==> RaisesBefore(x, i + 1) == RaisesBefore(x, i)
    ensures !raised ==> tree' == RenameProgress(x, i + 1, b)
                        && renamed' == CountBefore(x, i + 1, b, Renamed) && skipped' == CountBefore(x, i + 1, b, Skipped)
  {
    var e := x[i];
    RenameProgressStep(x, i, b);
    var r, s, e';
    raised, r, s, e' := RenameInEntryMethod(e, b);
    if raised {
      RaisesSomewhere(x, i, |x|);
      return true, 0, 0, [];
    }
    CountStep(x, i, b, r, s);
    renamed', skipped' := renamed + r, skipped + s;
    tree' := tree;
    if IsDrawingMember(e.name) {
      tree' := tree[i := e'];
    }
  }

  lemma CountStep(x: Archive, i: int, b: map<int, string>, r: nat, s: nat)
    requires 0 <= i < |x|
    requires r == EntryCount(x[i], b, Renamed) && s == EntryCount(x[i], b, Skipped)
    ensures CountBefore(x, i + 1, b, Renamed) == CountBefore(x, i, b, Renamed) + r
    ensures CountBefore(x, i + 1, b, Skipped) == CountBefore(x, i, b, Skipped) + s
  {
  }

  /** One extracted member: a drawing is parsed, renamed and written back; anything else is
      left alone. */
  method RenameInEntryMethod(e: Entry, b: map<int, string>) returns (raised: bool, renamed: nat, skipped: nat, e': Entry)
    ensures raised == EntryRaisesRow(e)
    ensures !raised ==> e' == RenameInEntry(e, b) && renamed == EntryCount(e, b, Renamed)
                        && skipped == EntryCount(e, b, Skipped)
    ensures !IsDrawingMember(e.name) ==> !raised && e' == e
  {
    if !IsDrawingMember(e.name) {
      return false, 0, 0, e;
    }
    var kept;
    raised, renamed, skipped, kept := RenameInDrawing(e.content, b);
    e' := if raised then e else Entry(e.name, Xml(kept));
  }

  /** How the call ends: a return value, or an exception that escapes it. */
  datatype Exit = Returned(value: bool) | Crashed

  /** `rename_images_to_project_numbers(xlsx_path)`. `sheet` is what openpyxl reads of column
      B of the first sheet, `None` when `load_workbook` raises; `book` is the workbook as a ZIP
      archive. When the workbook cannot be opened, the handler's `os.path.exists(temp_dir)`
      names a variable not yet assigned, and the exception escapes. The counts are those the
      script prints on success. */
  method RenameImagesToProjectNumbers(ws: Workspace, sheet: Option<ColumnB>)
    returns (exit: Exit, renamed: nat, skipped: nat)
    modifies ws
    ensures sheet.None? ==> exit == Crashed && ws.book == old(ws.book) && ws.backup == old(ws.backup)
                            && ws.temp == old(ws.temp)
    ensures sheet.Some? ==>
      var outcome := RenameOutcome(old(ws.book), BColumn(sheet.value));
      && exit == Returned(outcome.Ok?)
      && (outcome.Ok? ==> ws.book == Some(outcome.value) && ws.backup == old(ws.book) && ws.temp == None
                          && renamed == TotalCount(old(ws.book).value, BColumn(sheet.value), Renamed) && renamed > 0
                          && skipped == TotalCount(old(ws.book).value, BColumn(sheet.value), Skipped))
      && (!outcome.Ok? ==> ws.book == old(ws.book) && ws.backup == old(ws.backup))
      && (outcome == Err(NoDrawing) ==> ws.temp == old(ws.book))
      && (outcome != Err(NoDrawing) ==> ws.temp == None)
  {
    renamed, skipped := 0, 0;
    if sheet.None? {
      return Crashed, 0, 0;
    }
    var b := GetBColumnValues(sheet);
    ws.temp := Some([]);
    if ws.book.None? {
      ws.temp := None;
      return Returned(false), 0, 0;
    }
    var extracted := ws.book.value;
    ws.temp := Some(extracted);
    if !HasDrawing(extracted) {
      return Returned(false), 0, 0;
    }
    var raised, r, s, tree := RenameAll(extracted, b);
    if raised {
      ws.temp := None;
      return Returned(false), 0, 0;
    }
    ws.temp := Some(tree);
    if r == 0 {
      ws.temp := None;
      return Returned(false), 0, 0;
    }
    ws.backup := ws.book;
    ws.book := ws.temp;
    ws.temp := None;
    return Returned(true), r, s;
  }
}
