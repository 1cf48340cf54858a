/** check_image_names.py: count the pictures of the first drawing part and how many of them
    carry a name, resolving the name from the `pic`, else the `sp`, else the `grpSp`. */
module ImageNames {
  import opened Common
  import opened Drawing
  import opened DeleteImage

  /** One printed line: the running picture number, the one-based column and row where they
      are present, and the resolved name. */
  datatype Sighting = Sighting(number: nat, col: Option<int>, row: Option<int>, name: Option<string>)

  /** How a run ends: no drawing part (nothing is counted), an exception (caught and printed),
      or the two totals with the lines printed for the pictures. */
  datatype Outcome =
    | NoDrawing
    | Failed
    | Counted(imageCount: nat, namedCount: nat, listed: seq<Sighting>)

  /** `int(elem.text) + 1` for an element that may be missing. */
  function OneBased(c: Coord): Option<int>
    requires !c.Garbage?
  {
    if c.Value? then Some(c.n + 1) else None
  }

  /** Reading a position raises when a present `col` or `row` is not an integer; unlike the
      other scripts, a missing one is allowed. */
  predicate PositionRaises(a: Anchor)
  {
    a.from.Some? && HasGarbage(a.from.value)
  }

  /** `if name:` — a resolved name that is present and not empty. */
  predicate IsNamed(a: Anchor)
  {
    ResolveName(a).Some? && ResolveName(a).value != ""
  }

  function SightingOf(a: Anchor, number: nat): (s: Sighting)
    requires !PositionRaises(a)
    ensures s.number == number && s.name == ResolveName(a)
    ensures a.from.Some? && a.from.value.col.Value? ==> s.col == Some(a.from.value.col.n + 1)
    ensures a.from.Some? && a.from.value.row.Value? ==> s.row == Some(a.from.value.row.n + 1)
    ensures a.from.None? ==> s.col.None? && s.row.None?
  {
    if a.from.None? then Sighting(number, None, None, ResolveName(a))
    else Sighting(number, OneBased(a.from.value.col), OneBased(a.from.value.row), ResolveName(a))
  }

  predicate AnyPositionRaises(s: seq<Anchor>)
  {
    s != [] && (AnyPositionRaises(s[..|s| - 1]) || PositionRaises(s[|s| - 1]))
  }

  function NamedCount(s: seq<Anchor>): (n: nat)
    ensures n <= |s|
  {
    if s == [] then 0 else NamedCount(s[..|s| - 1]) + (if IsNamed(s[|s| - 1]) then 1 else 0)
  }

  function UnnamedCount(s: seq<Anchor>): nat
  {
    if s == [] then 0 else UnnamedCount(s[..|s| - 1]) + (if IsNamed(s[|s| - 1]) then 0 else 1)
  }

  /** The lines printed for `s` when its pictures are numbered from `base + 1`: every named
      picture, and the unnamed ones among the first ten. */
  function ListedFrom(s: seq<Anchor>, base: nat): seq<Sighting>
    requires !AnyPositionRaises(s)
  {
    if s == [] then []
    else
      var a := s[|s| - 1];
      var n := base + |s|;
      ListedFrom(s[..|s| - 1], base) + (if IsNamed(a) || n <= 10 then [SightingOf(a, n)] else [])
  }

  /** What the script reports for a package. */
  function NamesOutcome(book: Option<Archive>): Outcome
  {
    if book.None? then Failed
    else
      var first := FirstDrawing(book.value);
      if first.None? then NoDrawing
      else
        var c := book.value[first.value].content;
        if c.Opaque? then Failed
        else
          var two := OfKind(c.anchors, TwoCell);
          var one := OfKind(c.anchors, OneCell);
          if AnyPositionRaises(two) || AnyPositionRaises(one) then Failed
          else Counted(|two| + |one|, NamedCount(two) + NamedCount(one),
                       ListedFrom(two, 0) + ListedFrom(one, |two|))
  }

  lemma {:induction false} RaisesInLonger(s: seq<Anchor>, n: nat)
    requires n <= |s| && AnyPositionRaises(s[..n])
    ensures AnyPositionRaises(s)
    decreases |s| - n
  {
    if n < |s| {
      assert s[..n + 1][..n] == s[..n];
      RaisesInLonger(s, n + 1);
    } else {
      assert s[..n] == s;
    }
  }

  /** The name lookup of one anchor: the `pic`'s `cNvPr` name; if that is `None`, the
      `sp`'s; if still `None`, the `grpSp`'s. */
  method LookUpName(anchor: Anchor) returns (name: Option<string>)
    ensures name == ResolveName(anchor)
  {
    name := None;
    if anchor.pic.Some? && anchor.pic.value.cNvPr.Some? {
      name := anchor.pic.value.cNvPr.value.name;
    }
    if name.None? && anchor.sp.Some? && anchor.sp.value.cNvPr.Some? {
      name := anchor.sp.value.cNvPr.value.name;
    }
    if name.None? && anchor.grpSp.Some? && anchor.grpSp.value.cNvPr.Some? {
      name := anchor.grpSp.value.cNvPr.value.name;
    }
  }

  /** The body of the loop for the picture numbered `number`: read the position, look up the
      name, and decide whether a line is printed. */
  method SightAnchor(anchor: Anchor, number: nat) returns (raised: bool, named: bool, line: Option<Sighting>)
    ensures raised == PositionRaises(anchor)
    ensures !raised ==> named == IsNamed(anchor)
    ensures !raised ==> line == if named || number <= 10 then Some(SightingOf(anchor, number)) else None
  {
    var col: Option<int> := None;
    var row: Option<int> := None;
    if anchor.from.Some? {
      var m := anchor.from.value;
      if m.col.Garbage? || m.row.Garbage? {
        return true, false, None;
      }
      if m.col.Value? {
        col := Some(m.col.n + 1);
      }
      if m.row.Value? {
        row := Some(m.row.n + 1);
      }
    }
    raised := false;
    var name := LookUpName(anchor);
    named := name.Some? && name.value != "";
    if named || number <= 10 {
      line := Some(Sighting(number, col, row, name));
    } else {
      line := None;
    }
  }

  lemma ScanStep(s: seq<Anchor>, i: nat, base: nat)
    requires i < |s| && !AnyPositionRaises(s[..i]) && !PositionRaises(s[i])
    ensures !AnyPositionRaises(s[..i + 1])
    ensures NamedCount(s[..i + 1]) == NamedCount(s[..i]) + (if IsNamed(s[i]) then 1 else 0)
    ensures ListedFrom(s[..i + 1], base) == ListedFrom(s[..i], base)
              + (if IsNamed(s[i]) || base + i + 1 <= 10 then [SightingOf(s[i], base + i + 1)] else [])
  {
    assert s[..i + 1][..i] == s[..i];
    assert s[..i + 1][i] == s[i];
  }

  /** One `findall` pass: every anchor is counted and examined in turn. */
  method ScanNames(anchors: seq<Anchor>, k: AnchorKind, count0: nat, named0: nat, listed0: seq<Sighting>)
    returns (raised: bool, imageCount: nat, namedCount: nat, listed: seq<Sighting>)
    ensures raised == AnyPositionRaises(OfKind(anchors, k))
    ensures !raised ==> imageCount == count0 + |OfKind(anchors, k)|
                        && namedCount == named0 + NamedCount(OfKind(anchors, k))
                        && listed == listed0 + ListedFrom(OfKind(anchors, k), count0)
  {
    var found := OfKind(anchors, k);
    imageCount, namedCount, listed := count0, named0, listed0;
    var idx := 0;
    while idx < |found|
      invariant 0 <= idx <= |found|
      invariant !AnyPositionRaises(found[..idx])
      invariant imageCount == count0 + idx
      invariant namedCount == named0 + NamedCount(found[..idx])
      invariant listed == listed0 + ListedFrom(found[..idx], count0)
    {
      var anchor := found[idx];
      imageCount := imageCount + 1;
      var r, named, line := SightAnchor(anchor, imageCount);
      if r {
        assert found[..idx + 1][idx] == anchor;
        RaisesInLonger(found, idx + 1);
        return true, 0, 0, [];
      }
      ScanStep(found, idx, count0);
      if named {
        namedCount := namedCount + 1;
      }
      if line.Some? {
        listed := listed + [line.value];
      }
      idx := idx + 1;
    }
    assert found[..idx] == found;
    raised := false;
  }

  /** `check_image_names`. */
  method CheckImageNames(book: Option<Archive>) returns (out: Outcome)
    ensures out == NamesOutcome(book)
  {
    if book.None? {
      return Failed;
    }
    var first := FirstDrawing(book.value);
    if first.None? {
      return NoDrawing;
    }
    var c := book.value[first.value].content;
    if c.Opaque? {
      return Failed;
    }
    var raised, count, named, listed := ScanNames(c.anchors, TwoCell, 0, 0, []);
    if raised {
      return Failed;
    }
    ghost var two := OfKind(c.anchors, TwoCell);
    assert count == |two| && named == NamedCount(two) && listed == ListedFrom(two, 0);
    var raised', count', named', listed' := ScanNames(c.anchors, OneCell, count, named, listed);
    if raised' {
      return Failed;
    }
    out := Counted(count', named', listed');
  }

  // ---------------------------------------------------------------- what the totals mean

  function CellAnchorCount(s: seq<Anchor>): nat
  {
    if s == [] then 0 else CellAnchorCount(s[..|s| - 1]) + (if IsCellAnchor(s[|s| - 1]) then 1 else 0)
  }

  lemma {:induction false} KindsAddUp(s: seq<Anchor>)
    ensures |OfKind(s, TwoCell)| + |OfKind(s, OneCell)| == CellAnchorCount(s)
  {
    if s != [] {
      var init := s[..|s| - 1];
      var a := s[|s| - 1];
      assert s == init + [a];
      KindsAddUp(init);
      OfKindAppend(init, [a], TwoCell);
      OfKindAppend(init, [a], OneCell);
    }
  }

  /** Every two-cell and one-cell anchor of the first drawing part is counted as a picture,
      whatever it holds. */
  lemma CountsEveryCellAnchor(book: Option<Archive>)
    requires NamesOutcome(book).Counted?
    ensures var c := book.value[FirstDrawing(book.value).value].content;
            NamesOutcome(book).imageCount == CellAnchorCount(c.anchors)
  {
    var c := book.value[FirstDrawing(book.value).value].content;
    KindsAddUp(c.anchors);
  }

  lemma {:induction false} NamedAndUnnamed(s: seq<Anchor>)
    ensures NamedCount(s) + UnnamedCount(s) == |s|
  {
    if s != [] {
      NamedAndUnnamed(s[..|s| - 1]);
    }
  }

  /** The printed "unnamed" figure `image_count - named_count` is the number of anchors whose
      resolved name is missing or empty. */
  lemma UnnamedIsRest(book: Option<Archive>)
    requires NamesOutcome(book).Counted?
    ensures var c := book.value[FirstDrawing(book.value).value].content;
            NamesOutcome(book).imageCount - NamesOutcome(book).namedCount
            == UnnamedCount(OfKind(c.anchors, TwoCell)) + UnnamedCount(OfKind(c.anchors, OneCell))
  {
    var c := book.value[FirstDrawing(book.value).value].content;
    NamedAndUnnamed(OfKind(c.anchors, TwoCell));
    NamedAndUnnamed(OfKind(c.anchors, OneCell));
  }

  /** A picture is listed exactly when it is named or is among the first ten, and its line
      carries its number. */
  lemma {:induction false} ListedMeaning(s: seq<Anchor>, base: nat, i: nat)
    requires !AnyPositionRaises(s) && i < |s|
    ensures !PositionRaises(s[i])
    ensures SightingOf(s[i], base + i + 1) in ListedFrom(s, base) <==> IsNamed(s[i]) || base + i + 1 <= 10
  {
    var init := s[..|s| - 1];
    assert AnyPositionRaises(s) == (AnyPositionRaises(init) || PositionRaises(s[|s| - 1]));
    if i < |s| - 1 {
      assert init[i] == s[i];
      ListedMeaning(init, base, i);
      NumbersBelow(init, base);
    } else {
      NumbersBelow(init, base);
    }
  }

  lemma {:induction false} NumbersBelow(s: seq<Anchor>, base: nat)
    requires !AnyPositionRaises(s)
    ensures forall x :: x in ListedFrom(s, base) ==> base < x.number <= base + |s|
  {
    if s != [] {
      NumbersBelow(s[..|s| - 1], base);
    }
  }
}
