/** analyze_excel_images.py: where the pictures of a workbook sit relative to a target column,
    read from the drawing part (`parse_drawing_xml`) and classified for the report
    (`analyze_images_in_xlsx`). */
module AnalyzeImages {
  import opened Common
  import opened Drawing
  import opened DeleteImage

  // ---------------------------------------------------------------- which drawing part

  /** The first position holding member `name`. */
  function PositionOf(a: Archive, name: string): (r: Option<nat>)
    ensures r.Some? <==> name in Names(a)
    ensures r.Some? ==> r.value < |a| && a[r.value].name == name
                        && forall j :: 0 <= j < r.value ==> a[j].name != name
  {
    if a == [] then None
    else if a[0].name == name then Some(0)
    else
      var r := PositionOf(a[1..], name);
      if r.None? then None else Some(r.value + 1)
  }

  const PreferredDrawing: string := "xl/drawings/drawing1.xml"

  /** `xl/drawings/drawing1.xml` when the package has it, else the first drawing member. */
  function ChosenDrawing(a: Archive): (r: Option<nat>)
    ensures r.Some? ==> r.value < |a|
    ensures r.None? <==> forall j :: 0 <= j < |a| ==> !IsDrawingMember(a[j].name)
  {
    var p := PositionOf(a, PreferredDrawing);
    if p.Some? then
      PreferredIsDrawing();
      p
    else FirstDrawing(a)
  }

  lemma PreferredIsDrawing()
    ensures IsDrawingMember(PreferredDrawing)
  {
    assert PreferredDrawing[..19] == "xl/drawings/drawing";
    assert ContainsAt(PreferredDrawing, "xl/drawings/drawing", 0);
  }

  // ---------------------------------------------------------------- records

  /** One entry of `images_info`: one-based positions, `None` where an element is missing. */
  datatype Placement = Placement(
    fromCol: int,
    fromRow: Option<int>,
    toCol: Option<int>,
    toRow: Option<int>,
    inTargetColumn: bool)

  /** `int(elem.text) + 1` for an element that may be missing. */
  function OneBased(c: Coord): Option<int>
    requires !c.Garbage?
  {
    if c.Value? then Some(c.n + 1) else None
  }

  /** Reading a marker raises when it holds a `col` or `row` that is not an integer. */
  predicate MarkerRaises(m: Option<Marker>)
  {
    m.Some? && HasGarbage(m.value)
  }

  function ColOf(m: Option<Marker>): Option<int>
    requires !MarkerRaises(m)
  {
    if m.None? then None else OneBased(m.value.col)
  }

  function RowOf(m: Option<Marker>): Option<int>
    requires !MarkerRaises(m)
  {
    if m.None? then None else OneBased(m.value.row)
  }

  /** Python truthiness of an optional integer: present and non-zero. */
  predicate Truthy(x: Option<int>)
  {
    x.Some? && x.value != 0
  }

  /** A two-cell anchor raises when either marker does; its record exists when `from` has a
      `col`, and it is in the column when `from_col <= column <= (to_col or from_col)`. */
  predicate TwoCellRaises(a: Anchor)
  {
    MarkerRaises(a.from) || MarkerRaises(a.to)
  }

  function TwoCellRecord(a: Anchor, column: int): Option<Placement>
    requires !TwoCellRaises(a)
  {
    var fromCol := ColOf(a.from);
    if fromCol.None? then None
    else
      var toCol := ColOf(a.to);
      var upper := if Truthy(toCol) then toCol.value else fromCol.value;
      Some(Placement(fromCol.value, RowOf(a.from), toCol, RowOf(a.to), fromCol.value <= column <= upper))
  }

  /** A one-cell anchor: only `from` is read; its `to` fields are `None`, and it is in the
      column when `from_col == column`. */
  function OneCellRecord(a: Anchor, column: int): Option<Placement>
    requires !MarkerRaises(a.from)
  {
    var fromCol := ColOf(a.from);
    if fromCol.None? then None
    else Some(Placement(fromCol.value, RowOf(a.from), None, None, fromCol.value == column))
  }

  predicate Raises(a: Anchor, k: AnchorKind)
  {
    if k == TwoCell then TwoCellRaises(a) else MarkerRaises(a.from)
  }

  function RecordOf(a: Anchor, k: AnchorKind, column: int): Option<Placement>
    requires !Raises(a, k)
  {
    if k == TwoCell then TwoCellRecord(a, column) else OneCellRecord(a, column)
  }

  predicate AnyRaises(s: seq<Anchor>, k: AnchorKind)
  {
    s != [] && (AnyRaises(s[..|s| - 1], k) || Raises(s[|s| - 1], k))
  }

  function RecordsOf(s: seq<Anchor>, k: AnchorKind, column: int): (r: seq<Placement>)
    requires !AnyRaises(s, k)
    ensures |r| <= |s|
  {
    if s == [] then []
    else
      var rec := RecordOf(s[|s| - 1], k, column);
      RecordsOf(s[..|s| - 1], k, column) + (if rec.Some? then [rec.value] else [])
  }

  /** What `parse_drawing_xml` returns: the two-cell records, then the one-cell records, of the
      chosen drawing part; `[]` when there is none or on any exception. */
  function DrawingPlacements(book: Option<Archive>, column: int): seq<Placement>
  {
    if book.None? then []
    else
      var chosen := ChosenDrawing(book.value);
      if chosen.None? then []
      else
        var c := book.value[chosen.value].content;
        if c.Opaque? then []
        else
          var two := OfKind(c.anchors, TwoCell);
          var one := OfKind(c.anchors, OneCell);
          if AnyRaises(two, TwoCell) || AnyRaises(one, OneCell) then []
          else RecordsOf(two, TwoCell, column) + RecordsOf(one, OneCell, column)
  }

  // ---------------------------------------------------------------- the parser

  lemma {:induction false} RaisesInLonger(s: seq<Anchor>, k: AnchorKind, n: nat)
    requires n <= |s| && AnyRaises(s[..n], k)
    ensures AnyRaises(s, k)
    decreases |s| - n
  {
    if n < |s| {
      assert s[..n + 1][..n] == s[..n];
      RaisesInLonger(s, k, n + 1);
    } else {
      assert s[..n] == s;
    }
  }

  /** An anchor that raises makes the whole scan raise. */
  lemma RaisesAt(s: seq<Anchor>, k: AnchorKind, i: nat)
    requires i < |s| && Raises(s[i], k)
    ensures AnyRaises(s, k)
  {
    assert s[..i + 1][..i] == s[..i];
    assert s[..i + 1][i] == s[i];
    assert AnyRaises(s[..i + 1], k);
    RaisesInLonger(s, k, i + 1);
  }

  lemma ScanStep(s: seq<Anchor>, k: AnchorKind, i: nat, column: int)
    requires i < |s| && !AnyRaises(s[..i], k) && !Raises(s[i], k)
    ensures !AnyRaises(s[..i + 1], k)
    ensures RecordsOf(s[..i + 1], k, column) == RecordsOf(s[..i], k, column)
              + (if RecordOf(s[i], k, column).Some? then [RecordOf(s[i], k, column).value] else [])
  {
    assert s[..i + 1][..i] == s[..i];
    assert s[..i + 1][i] == s[i];
  }

  /** The body of the two-cell loop: read `from`, then `to`, and build the record. */
  method ReadTwoCell(anchor: Anchor, column: int) returns (raised: bool, rec: Option<Placement>)
    ensures raised == TwoCellRaises(anchor)
    ensures !raised ==> rec == TwoCellRecord(anchor, column)
  {
    var fromCol: Option<int> := None;
    var fromRow: Option<int> := None;
    var toCol: Option<int> := None;
    var toRow: Option<int> := None;
    if anchor.from.Some? {
      var m := anchor.from.value;
      if m.col.Garbage? || m.row.Garbage? {
        return true, None;
      }
      fromCol, fromRow := OneBased(m.col), OneBased(m.row);
    }
    if anchor.to.Some? {
      var m := anchor.to.value;
      if m.col.Garbage? || m.row.Garbage? {
        return true, None;
      }
      toCol, toRow := OneBased(m.col), OneBased(m.row);
    }
    raised := false;
    if fromCol.Some? {
      var upper := if toCol.Some? && toCol.value != 0 then toCol.value else fromCol.value;
      rec := Some(Placement(fromCol.value, fromRow, toCol, toRow, fromCol.value <= column <= upper));
    } else {
      rec := None;
    }
  }

  /** The body of the one-cell loop. */
  method ReadOneCell(anchor: Anchor, column: int) returns (raised: bool, rec: Option<Placement>)
    ensures raised == MarkerRaises(anchor.from)
    ensures !raised ==> rec == OneCellRecord(anchor, column)
  {
    var fromCol: Option<int> := None;
    var fromRow: Option<int> := None;
    if anchor.from.Some? {
      var m := anchor.from.value;
      if m.col.Garbage? || m.row.Garbage? {
        return true, None;
      }
      fromCol, fromRow := OneBased(m.col), OneBased(m.row);
    }
    raised := false;
    if fromCol.Some? {
      rec := Some(Placement(fromCol.value, fromRow, None, None, fromCol.value == column));
    } else {
      rec := None;
    }
  }

  method ReadAnchor(anchor: Anchor, k: AnchorKind, column: int) returns (raised: bool, rec: Option<Placement>)
    ensures raised == Raises(anchor, k)
    ensures !raised ==> rec == RecordOf(anchor, k, column)
  {
    if k == TwoCell {
      raised, rec := ReadTwoCell(anchor, column);
    } else {
      raised, rec := ReadOneCell(anchor, column);
    }
  }

  /** One of the two loops of `parse_drawing_xml`, appending to `images_info`. */
  method ScanKind(anchors: seq<Anchor>, k: AnchorKind, column: int, acc: seq<Placement>)
    returns (raised: bool, info: seq<Placement>)
    ensures raised == AnyRaises(OfKind(anchors, k), k)
    ensures !raised ==> info == acc + RecordsOf(OfKind(anchors, k), k, column)
  {
    var found := OfKind(anchors, k);
    info := acc;
    var i := 0;
    while i < |found|
      invariant 0 <= i <= |found|
      invariant !AnyRaises(found[..i], k)
      invariant info == acc + RecordsOf(found[..i], k, column)
    {
      var r;
      r, info := ScanAnchor(found, k, i, column, acc, info);
      if r {
        return true, [];
      }
      i := i + 1;
    }
    assert found[..i] == found;
    raised := false;
  }

  /** One pass of the loop in `ScanKind`: anchor `i` raises, or its record (if any) is
      appended. */
  method ScanAnchor(found: seq<Anchor>, k: AnchorKind, i: nat, column: int, acc: seq<Placement>, info: seq<Placement>)
    returns (raised: bool, info': seq<Placement>)
    requires i < |found| && !AnyRaises(found[..i], k) && info == acc + RecordsOf(found[..i], k, column)
    ensures raised ==> AnyRaises(found, k)
    ensures !raised ==> !AnyRaises(found[..i + 1], k) && info' == acc + RecordsOf(found[..i + 1], k, column)
  {
    var rec;
    raised, rec := ReadAnchor(found[i], k, column);
    if raised {
      RaisesAt(found, k, i);
      return true, [];
    }
    ScanStep(found, k, i, column);
    info' := info + (if rec.Some? then [rec.value] else []);
  }

  /** `parse_drawing_xml`. */
  method ParseDrawingXml(book: Option<Archive>, column: int) returns (info: seq<Placement>)
    ensures info == DrawingPlacements(book, column)
  {
    if book.None? {
      return [];
    }
    var chosen := ChosenDrawing(book.value);
    if chosen.None? {
      return [];
    }
    var c := book.value[chosen.value].content;
    if c.Opaque? {
      return [];
    }
    var raised, two := ScanKind(c.anchors, TwoCell, column, []);
    if raised {
      return [];
    }
    assert two == RecordsOf(OfKind(c.anchors, TwoCell), TwoCell, column);
    raised, info := ScanKind(c.anchors, OneCell, column, two);
    if raised {
      return [];
    }
  }

  // ---------------------------------------------------------------- classification

  datatype Placing = FullyInside | Spanning | Outside

  /** The verdict printed for a record of `parse_drawing_xml`. */
  function Classify(p: Placement, column: int): Placing
  {
    if Truthy(p.toCol) then
      if p.fromCol == p.toCol.value == column then FullyInside
      else if p.fromCol <= column <= p.toCol.value then Spanning
      else Outside
    else if p.fromCol == column then FullyInside
    else Outside
  }

  /** The verdict printed for a picture object that openpyxl loaded with its anchor (zero-based
      columns): a two-cell anchor spans `[from, to]`, a one-cell anchor covers its own column. */
  function ClassifyObject(kind: AnchorKind, fromCol0: int, toCol0: int, column: int): Placing
  {
    if kind == TwoCell then
      if fromCol0 + 1 <= column <= toCol0 + 1 then
        if fromCol0 + 1 == column && toCol0 + 1 == column then FullyInside else Spanning
      else Outside
    else if fromCol0 + 1 == column then FullyInside
    else Outside
  }

  /** Fully inside exactly when the picture starts in the column and either has no end column
      or ends there too; spanning exactly when it has an end column, covers the target, and
      does not sit in it alone. */
  lemma ClassifyMeaning(p: Placement, column: int)
    ensures Classify(p, column) == FullyInside
        <==> p.fromCol == column && (!Truthy(p.toCol) || p.toCol.value == column)
    ensures Classify(p, column) == Spanning
        <==> Truthy(p.toCol) && p.fromCol <= column <= p.toCol.value
             && !(p.fromCol == column && p.toCol.value == column)
  {
  }

  /** `get_column_letter` raises `ValueError` for a column number outside 1..18278. */
  const MaxColumn := 18278

  predicate Spellable(col: int)
  {
    1 <= col <= MaxColumn
  }

  /** Reporting one record spells its start column, and its end column when that is truthy;
      the verdict is printed only when both can be spelt. */
  predicate ReportRaises(p: Placement)
  {
    !Spellable(p.fromCol) || (Truthy(p.toCol) && !Spellable(p.toCol.value))
  }

  function Verdict(p: Placement, column: int): Option<Placing>
  {
    if ReportRaises(p) then None else Some(Classify(p, column))
  }

  /** The verdicts the drawing-part loop prints, in order: a raise leaves the loop for the
      `except` after it, so no record from the failing one on is reported. */
  function Reported(ps: seq<Placement>, column: int): (r: seq<Placing>)
    ensures |r| <= |ps|
    ensures forall i :: 0 <= i < |r| ==> Verdict(ps[i], column) == Some(r[i])
    ensures |r| < |ps| <==> exists i :: 0 <= i < |ps| && ReportRaises(ps[i])
    ensures |r| < |ps| ==> ReportRaises(ps[|r|])
  {
    if ps == [] then []
    else if ReportRaises(ps[0]) then []
    else
      var rest := Reported(ps[1..], column);
      assert forall i :: 1 <= i < |ps| ==> ps[1..][i - 1] == ps[i];
      [Classify(ps[0], column)] + rest
  }

  /** The verdict printed for a picture object: both columns of a two-cell anchor are spelt,
      the start column of a one-cell anchor; a raise there is raised again to the caller. */
  function ObjectVerdict(kind: AnchorKind, fromCol0: int, toCol0: int, column: int): Option<Placing>
  {
    if !Spellable(fromCol0 + 1) || (kind == TwoCell && !Spellable(toCol0 + 1)) then None
    else Some(ClassifyObject(kind, fromCol0, toCol0, column))
  }

  /** For every record the parser builds, the report raises exactly when the zero-based start
      column, or a present non-zero-based end column of a two-cell anchor, lies outside
      0..18277; otherwise the picture is reported outside exactly when the stored
      `in_target_column` flag is false. */
  lemma ClassifyAgreesWithFlag(a: Anchor, k: AnchorKind, column: int)
    requires !Raises(a, k) && RecordOf(a, k, column).Some?
    ensures Verdict(RecordOf(a, k, column).value, column).None?
        <==> !(0 <= a.from.value.col.n < MaxColumn)
             || (k == TwoCell && Truthy(ColOf(a.to)) && !(0 <= a.to.value.col.n < MaxColumn))
    ensures Verdict(RecordOf(a, k, column).value, column).Some? ==>
              (Verdict(RecordOf(a, k, column).value, column).value != Outside
               <==> RecordOf(a, k, column).value.inTargetColumn)
  {
  }

  /** For a two-cell anchor with a proper end column, the drawing-part report and the
      picture-object report raise together, and otherwise print the same verdict. */
  lemma RecordAndObjectAgree(a: Anchor, column: int)
    requires !TwoCellRaises(a) && a.from.Some? && a.to.Some?
    requires a.from.value.col.Value? && a.to.value.col.Value? && a.to.value.col.n >= 0
    ensures TwoCellRecord(a, column).Some?
    ensures Verdict(TwoCellRecord(a, column).value, column)
            == ObjectVerdict(TwoCell, a.from.value.col.n, a.to.value.col.n, column)
  {
  }

  /** A picture whose drawing column is -1 is recorded at column 0, which cannot be spelt: the
      report stops there, and a picture in column R after it is not reported either. */
  lemma UnspellableStopsReport()
    ensures var bad := Anchor(OneCell, Some(Marker(Value(-1), Value(0))), None, None, None, None);
            var good := Anchor(OneCell, Some(Marker(Value(17), Value(0))), None, None, None, None);
            var ps := RecordsOf([bad, good], OneCell, 18);
            |ps| == 2 && ps[1].inTargetColumn && Reported(ps, 18) == []
  {
    var bad := Anchor(OneCell, Some(Marker(Value(-1), Value(0))), None, None, None, None);
    var good := Anchor(OneCell, Some(Marker(Value(17), Value(0))), None, None, None, None);
    assert [bad, good][..1] == [bad];
    assert [bad][..0] == [];
  }

  // ---------------------------------------------------------------- what the records mean

  /** Record `p` is what anchor `a` of kind `k` gives: its `from` has a `col`, which is one
      less than the record's, and a one-cell record has no end. */
  predicate Explains(a: Anchor, p: Placement, k: AnchorKind)
  {
    a.from.Some? && a.from.value.col.Value? && p.fromCol == a.from.value.col.n + 1
    && (k == OneCell ==> p.toCol.None? && p.toRow.None?)
  }

  lemma RecordExplained(a: Anchor, k: AnchorKind, column: int)
    requires !Raises(a, k) && RecordOf(a, k, column).Some?
    ensures Explains(a, RecordOf(a, k, column).value, k)
  {
  }

  /** Every record comes from an anchor of its kind whose `from` has a `col`. */
  lemma {:induction false} RecordsFromAnchors(s: seq<Anchor>, k: AnchorKind, column: int)
    requires !AnyRaises(s, k)
    ensures forall p :: p in RecordsOf(s, k, column) ==> exists a :: a in s && Explains(a, p, k)
  {
    if s != [] {
      var init := s[..|s| - 1];
      var a := s[|s| - 1];
      assert s == init + [a];
      RecordsFromAnchors(init, k, column);
      var rec := RecordOf(a, k, column);
      if rec.Some? {
        RecordExplained(a, k, column);
      }
      forall p | p in RecordsOf(s, k, column) ensures exists a' :: a' in s && Explains(a', p, k) {
        if p in RecordsOf(init, k, column) {
          var a' :| a' in init && Explains(a', p, k);
          assert a' in s;
        } else {
          assert p == rec.value && a in s;
        }
      }
    }
  }

  function WithFromCol(s: seq<Anchor>): nat
  {
    if s == [] then 0
    else
      var a := s[|s| - 1];
      WithFromCol(s[..|s| - 1]) + (if a.from.Some? && a.from.value.col.Value? then 1 else 0)
  }

  /** Exactly the anchors whose `from` has a `col` are recorded; the others are omitted. */
  lemma {:induction false} OneRecordPerFromCol(s: seq<Anchor>, k: AnchorKind, column: int)
    requires !AnyRaises(s, k)
    ensures |RecordsOf(s, k, column)| == WithFromCol(s)
  {
    if s != [] {
      OneRecordPerFromCol(s[..|s| - 1], k, column);
    }
  }

  /** `drawing1.xml` is read whenever it exists, even when another drawing member comes
      first. */
  lemma PreferredWins(a: Archive)
    requires PreferredDrawing in Names(a)
    ensures ChosenDrawing(a).Some? && a[ChosenDrawing(a).value].name == PreferredDrawing
  {
  }
}
