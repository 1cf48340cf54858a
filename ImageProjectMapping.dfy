/** tools/check_image_project_mapping.py: where the pictures of the first drawing sit, and how
    their rows line up with the project numbers in column B of the first sheet. */
module ImageProjectMapping {
  import opened Common
  import opened Drawing
  import opened Grouping
  import opened DeleteImage
  import RenameImages

  // ---------------------------------------------------------------- image positions

  /** One record of `get_image_positions`: one-based row and column, and the `pic` name. */
  datatype ImagePos = ImagePos(row: int, col: int, name: Option<string>)

  /** The record of an anchor whose origin was read: the zero-based XML values plus one, and
      the name of the `pic`'s `cNvPr` only. */
  function ImageOf(a: Anchor): (p: ImagePos)
    requires HasReadableOrigin(a)
    ensures p.row - 1 == OriginRow(a) && p.col - 1 == OriginCol(a)
  {
    ImagePos(OriginRow(a) + 1, OriginCol(a) + 1, ShapeName(a.pic))
  }

  /** Some anchor's origin is present but not an integer, so `int()` raises. */
  predicate AnyOriginRaises(s: seq<Anchor>)
  {
    s != [] && (AnyOriginRaises(s[..|s| - 1]) || OriginRaises(s[|s| - 1]))
  }

  /** The records of one anchor list: anchors lacking `from`, `col` or `row` are passed over
      (when nothing raises, every other anchor has a readable origin). */
  function PositionsOf(s: seq<Anchor>): (r: seq<ImagePos>)
    ensures |r| <= |s|
  {
    if s == [] then []
    else
      var a := s[|s| - 1];
      PositionsOf(s[..|s| - 1]) + (if HasReadableOrigin(a) then [ImageOf(a)] else [])
  }

  /** When nothing raises, the records are exactly those of the anchors with an origin. */
  lemma {:induction false} PositionsOfAnchors(s: seq<Anchor>)
    requires !AnyOriginRaises(s)
    ensures forall p :: p in PositionsOf(s) ==> exists a :: a in s && HasReadableOrigin(a) && p == ImageOf(a)
    ensures forall a :: a in s && HasOrigin(a) ==> HasReadableOrigin(a) && ImageOf(a) in PositionsOf(s)
  {
    if s != [] {
      var init := s[..|s| - 1];
      var a := s[|s| - 1];
      assert s == init + [a];
      PositionsOfAnchors(init);
      forall p | p in PositionsOf(s) ensures exists a' :: a' in s && HasReadableOrigin(a') && p == ImageOf(a') {
        if p in PositionsOf(init) {
          var a' :| a' in init && HasReadableOrigin(a') && p == ImageOf(a');
          assert a' in s;
        } else {
          assert a in s;
        }
      }
    }
  }

  /** The anchors of the first drawing member, when the package opens and that member
      parses. */
  function FirstDrawingAnchors(book: Option<Archive>): Option<seq<Anchor>>
  {
    if book.None? then None
    else
      var first := FirstDrawing(book.value);
      if first.None? then None
      else
        var c := book.value[first.value].content;
        if c.Opaque? then None else Some(c.anchors)
  }

  /** What `get_image_positions` returns: the two-cell records, then the one-cell records, of
      the first drawing member; `[]` when there is none, when it cannot be read, or when an
      origin is not an integer (the exception handler). */
  function ImagePositions(book: Option<Archive>): seq<ImagePos>
  {
    var anchors := FirstDrawingAnchors(book);
    if anchors.None? then []
    else
      var two := OfKind(anchors.value, TwoCell);
      var one := OfKind(anchors.value, OneCell);
      if AnyOriginRaises(two) || AnyOriginRaises(one) then []
      else PositionsOf(two) + PositionsOf(one)
  }

  /** One `findall` pass, appending to the records of earlier passes. */
  method ScanKind(anchors: seq<Anchor>, k: AnchorKind, acc: seq<ImagePos>)
    returns (raised: bool, images: seq<ImagePos>)
    ensures raised == AnyOriginRaises(OfKind(anchors, k))
    ensures !raised ==> images == acc + PositionsOf(OfKind(anchors, k))
  {
    var found := OfKind(anchors, k);
    images := acc;
    var i := 0;
    while i < |found|
      invariant 0 <= i <= |found|
      invariant !AnyOriginRaises(found[..i])
      invariant images == acc + PositionsOf(found[..i])
    {
      var a := found[i];
      PrefixSnoc(found, i);
      ScanSnoc(found[..i], a);
      if a.from.Some? && !a.from.value.col.Absent? && !a.from.value.row.Absent? {
        if a.from.value.col.Garbage? || a.from.value.row.Garbage? {
          assert AnyOriginRaises(found[..i + 1]);
          RaisesInLonger(found, i + 1);
          return true, [];
        }
        images := images + [ImagePos(a.from.value.row.n + 1, a.from.value.col.n + 1, ShapeName(a.pic))];
      }
      i := i + 1;
    }
    assert found[..i] == found;
    raised := false;
  }

  /** One more anchor: it raises, or adds its record when its origin is readable. */
  lemma ScanSnoc(s: seq<Anchor>, a: Anchor)
    ensures AnyOriginRaises(s + [a]) == (AnyOriginRaises(s) || OriginRaises(a))
    ensures PositionsOf(s + [a]) == PositionsOf(s) + (if HasReadableOrigin(a) then [ImageOf(a)] else [])
  {
    assert (s + [a])[..|s|] == s;
  }

  lemma {:induction false} RaisesInLonger(s: seq<Anchor>, n: nat)
    requires n <= |s| && AnyOriginRaises(s[..n])
    ensures AnyOriginRaises(s)
    decreases |s| - n
  {
    if n < |s| {
      assert s[..n + 1][..n] == s[..n];
      RaisesInLonger(s, n + 1);
    } else {
      assert s[..n] == s;
    }
  }

  /** `get_image_positions`. */
  method GetImagePositions(book: Option<Archive>) returns (images: seq<ImagePos>)
    ensures images == ImagePositions(book)
  {
    var anchors := FirstDrawingAnchors(book);
    if anchors.None? {
      return [];
    }
    var raised, two := ScanKind(anchors.value, TwoCell, []);
    if raised {
      return [];
    }
    assert two == PositionsOf(OfKind(anchors.value, TwoCell));
    raised, images := ScanKind(anchors.value, OneCell, two);
    if raised {
      return [];
    }
  }

  /** A record has a name only when the anchor's `pic` has one, and then it is the name the
      pic → sp → grpSp resolution of check_image_names.py would give; a shape name is never
      used. */
  lemma NamesComeFromPicOnly(a: Anchor)
    requires HasReadableOrigin(a)
    ensures ImageOf(a).name.Some? ==> ImageOf(a).name == ResolveName(a)
    ensures a.pic.None? ==> ImageOf(a).name.None?
  {
  }

  lemma FirstDrawingOfPrefix(a: Archive, rest: Archive, i: nat)
    requires FirstDrawing(a) == Some(i)
    ensures FirstDrawing(a + rest) == Some(i)
  {
    assert (a + rest)[i] == a[i];
    assert forall j :: 0 <= j < i ==> (a + rest)[j] == a[j];
  }

  /** Only the first drawing member counts: members added after it change nothing. */
  lemma LaterMembersIgnored(a: Archive, rest: Archive)
    requires FirstDrawing(a).Some?
    ensures ImagePositions(Some(a + rest)) == ImagePositions(Some(a))
  {
    var i := FirstDrawing(a).value;
    FirstDrawingOfPrefix(a, rest, i);
    assert (a + rest)[i] == a[i];
  }

  // ---------------------------------------------------------------- counting

  /** The report's numbers (`multiple_images` and the number of image rows are printed; the
      rest are returned). */
  datatype Stats = Stats(
    totalImages: nat,
    matched: nat,
    noMatch: nat,
    multipleImages: nat,
    imageRows: nat,
    oneToOne: nat,
    oneToMany: nat,
    manyToOne: nat)

  datatype Verdict = Perfect | Partial | NoCorrespondence

  /** The conclusion printed at the end of the report. */
  function VerdictOf(s: Stats): Verdict
  {
    if s.oneToOne == s.imageRows && s.manyToOne == 0 then Perfect
    else if s.oneToOne > 0 then Partial
    else NoCorrespondence
  }

  /** `b_column.get(row)` is truthy. */
  predicate Mapped(b: map<int, string>, r: int)
  {
    r in b && b[r] != ""
  }

  function MappedRows(b: map<int, string>): (m: set<int>)
    ensures forall r :: r in m <==> Mapped(b, r)
  {
    set r | r in b && Mapped(b, r)
  }

  function RowsOf(images: seq<ImagePos>): (ks: seq<int>)
    ensures |ks| == |images| && forall i :: 0 <= i < |images| ==> ks[i] == images[i].row
  {
    seq(|images|, i requires 0 <= i < |images| => images[i].row)
  }

  function Elems(ks: seq<int>): set<int>
  {
    set k | k in ks
  }

  /** The keys occurring more than once, and exactly once. */
  function Repeated<K(==,!new)>(ks: seq<K>): set<K>
  {
    set k | k in ks && Occ(ks, k) > 1
  }

  function Single(ks: seq<int>): set<int>
  {
    set k | k in ks && Occ(ks, k) == 1
  }

  /** The project numbers of the mapped rows of `d`, in order (`project_to_rows` filled from the
      image rows). */
  function Projects(d: seq<int>, b: map<int, string>): (ps: seq<string>)
    ensures |ps| <= |d|
  {
    if d == [] then []
    else
      var r := d[|d| - 1];
      Projects(d[..|d| - 1], b) + (if Mapped(b, r) then [b[r]] else [])
  }

  /** A project number is listed exactly when some mapped row of `d` carries it. */
  lemma {:induction false} ProjectsMembers(d: seq<int>, b: map<int, string>)
    ensures forall p :: p in Projects(d, b) <==> exists r :: r in d && Mapped(b, r) && b[r] == p
  {
    if d != [] {
      var init := d[..|d| - 1];
      var r := d[|d| - 1];
      assert d == init + [r];
      ProjectsMembers(init, b);
    }
  }

  /** What the counters mean, stated over images and distinct image rows rather than over the
      dictionaries the script builds. */
  function Expected(images: seq<ImagePos>, b: map<int, string>): Stats
  {
    var ks := RowsOf(images);
    var d := Distinct(ks);
    var ps := Projects(d, b);
    var m := MappedRows(b);
    Stats(
      |images|,
      CountIn(ks, m),
      CountIn(ks, Elems(ks) - m),
      CountIn(d, Repeated(ks)),
      |d|,
      CountIn(d, m * Single(ks)),
      CountIn(d, m * Repeated(ks)),
      CountIn(ps, Repeated(ps)))
  }

  /** Every image of a group sits on the group's row. */
  predicate AllOnRow(g: seq<ImagePos>, r: int)
  {
    forall i :: 0 <= i < |g| ==> g[i].row == r
  }

  /** `rows_with_images` after the images of `s` were added in order. */
  function GroupsOf(s: seq<ImagePos>): map<int, seq<ImagePos>>
  {
    if s == [] then map[]
    else
      var g := GroupsOf(s[..|s| - 1]);
      var img := s[|s| - 1];
      g[img.row := (if img.row in g then g[img.row] else []) + [img]]
  }

  /** A row has a group exactly when an image sits on it; the group holds that row's images,
      as many as there are. */
  lemma {:induction false} GroupsOfMeaning(s: seq<ImagePos>)
    ensures forall r :: r in GroupsOf(s) <==> r in RowsOf(s)
    ensures forall r :: r in GroupsOf(s) ==> |GroupsOf(s)[r]| == Occ(RowsOf(s), r) && AllOnRow(GroupsOf(s)[r], r)
  {
    if s != [] {
      var init := s[..|s| - 1];
      assert RowsOf(s) == RowsOf(init) + [s[|s| - 1].row];
      GroupsOfMeaning(init);
      SnocFacts(RowsOf(init), s[|s| - 1].row);
    }
  }

  /** Adding one image appends it to its row's group, and lists its row when it is new. */
  lemma GroupsStep(s: seq<ImagePos>, img: ImagePos)
    ensures GroupsOf(s + [img]) == GroupsOf(s)[img.row := (if img.row in GroupsOf(s) then GroupsOf(s)[img.row] else []) + [img]]
    ensures Distinct(RowsOf(s + [img]))
      == if img.row in GroupsOf(s) then Distinct(RowsOf(s)) else Distinct(RowsOf(s)) + [img.row]
  {
    assert (s + [img])[..|s|] == s;
    assert RowsOf(s + [img]) == RowsOf(s) + [img.row];
    SnocFacts(RowsOf(s), img.row);
    GroupsOfMeaning(s);
  }

  /** `rows_with_images`: the images grouped by row, rows in first-occurrence order. */
  method GroupByRow(images: seq<ImagePos>) returns (order: seq<int>, groups: map<int, seq<ImagePos>>)
    ensures order == Distinct(RowsOf(images))
    ensures groups == GroupsOf(images)
  {
    order := [];
    groups := map[];
    var i := 0;
    while i < |images|
      invariant 0 <= i <= |images|
      invariant order == Distinct(RowsOf(images[..i]))
      invariant groups == GroupsOf(images[..i])
    {
      assert images[..i + 1] == images[..i] + [images[i]];
      order, groups := AddImage(images[..i], images[i], order, groups);
      i := i + 1;
    }
    assert images[..i] == images;
  }

  /** One pass of the loop in `GroupByRow`: the image joins its row's group, and a new row is
      listed. */
  method AddImage(s: seq<ImagePos>, img: ImagePos, order: seq<int>, groups: map<int, seq<ImagePos>>)
    returns (order': seq<int>, groups': map<int, seq<ImagePos>>)
    requires order == Distinct(RowsOf(s)) && groups == GroupsOf(s)
    ensures order' == Distinct(RowsOf(s + [img])) && groups' == GroupsOf(s + [img])
  {
    GroupsStep(s, img);
    order' := order;
    if img.row !in groups {
      order' := order + [img.row];
    }
    var group := if img.row in groups then groups[img.row] else [];
    groups' := groups[img.row := group + [img]];
  }

  /** The first pass over the image rows: `matched`, `no_match` and `multiple_images`. */
  method CountMatches(ks: seq<int>, order: seq<int>, sizes: map<int, nat>, b: map<int, string>)
    returns (matched: nat, noMatch: nat, multiple: nat)
    requires order == Distinct(ks)
    requires forall r :: r in order ==> r in sizes && sizes[r] == Occ(ks, r)
    ensures matched == CountIn(ks, MappedRows(b))
    ensures noMatch == CountIn(ks, Elems(ks) - MappedRows(b))
    ensures multiple == CountIn(order, Repeated(ks))
  {
    ghost var m := MappedRows(b);
    matched, noMatch, multiple := 0, 0, 0;
    var j := 0;
    while j < |order|
      invariant 0 <= j <= |order|
      invariant matched == SumOcc(order[..j], ks, m)
      invariant noMatch == SumOcc(order[..j], ks, Elems(ks) - m)
      invariant multiple == CountIn(order[..j], Repeated(ks))
    {
      var row := order[j];
      assert order[..j + 1][..j] == order[..j];
      assert order[..j + 1][j] == row;
      if sizes[row] > 1 {
        multiple := multiple + 1;
      }
      if Mapped(b, row) {
        matched := matched + sizes[row];
      } else {
        noMatch := noMatch + sizes[row];
      }
      j := j + 1;
    }
    assert order[..j] == order;
    Partition(ks, m);
    Partition(ks, Elems(ks) - m);
  }

  /** The second pass: mapped rows with one image and with several. */
  method CountOneToOne(ks: seq<int>, order: seq<int>, sizes: map<int, nat>, b: map<int, string>)
    returns (oneToOne: nat, oneToMany: nat)
    requires order == Distinct(ks)
    requires forall r :: r in order ==> r in sizes && sizes[r] == Occ(ks, r)
    ensures oneToOne == CountIn(order, MappedRows(b) * Single(ks))
    ensures oneToMany == CountIn(order, MappedRows(b) * Repeated(ks))
  {
    ghost var m := MappedRows(b);
    oneToOne, oneToMany := 0, 0;
    var j := 0;
    while j < |order|
      invariant 0 <= j <= |order|
      invariant oneToOne == CountIn(order[..j], m * Single(ks))
      invariant oneToMany == CountIn(order[..j], m * Repeated(ks))
    {
      var row := order[j];
      assert order[..j + 1][..j] == order[..j];
      assert order[..j + 1][j] == row;
      assert row in ks;
      if Mapped(b, row) {
        if sizes[row] == 1 {
          oneToOne := oneToOne + 1;
        } else {
          oneToMany := oneToMany + 1;
        }
      }
      j := j + 1;
    }
    assert order[..j] == order;
  }

  /** `project_to_rows` after the rows of `d` were visited in order. */
  function ProjectGroupsOf(d: seq<int>, b: map<int, string>): map<string, seq<int>>
  {
    if d == [] then map[]
    else
      var g := ProjectGroupsOf(d[..|d| - 1], b);
      var r := d[|d| - 1];
      if Mapped(b, r) then g[b[r] := (if b[r] in g then g[b[r]] else []) + [r]] else g
  }

  /** A project has a group exactly when a mapped row carries it; the group has one entry per
      such row. */
  lemma {:induction false} ProjectGroupsMeaning(d: seq<int>, b: map<int, string>)
    ensures forall p :: p in ProjectGroupsOf(d, b) <==> p in Projects(d, b)
    ensures forall p :: p in ProjectGroupsOf(d, b) ==> |ProjectGroupsOf(d, b)[p]| == Occ(Projects(d, b), p)
  {
    if d != [] {
      var init := d[..|d| - 1];
      var r := d[|d| - 1];
      ProjectGroupsMeaning(init, b);
      if Mapped(b, r) {
        assert Projects(d, b) == Projects(init, b) + [b[r]];
        SnocFacts(Projects(init, b), b[r]);
      } else {
        assert Projects(d, b) == Projects(init, b);
        assert ProjectGroupsOf(d, b) == ProjectGroupsOf(init, b);
      }
    }
  }

  /** One more visited row: how the project list and the groups grow. */
  lemma ProjectGroupsStep(d: seq<int>, row: int, b: map<int, string>)
    ensures Mapped(b, row) ==>
              ProjectGroupsOf(d + [row], b)
              == ProjectGroupsOf(d, b)[b[row] := (if b[row] in ProjectGroupsOf(d, b) then ProjectGroupsOf(d, b)[b[row]] else []) + [row]]
    ensures !Mapped(b, row) ==> ProjectGroupsOf(d + [row], b) == ProjectGroupsOf(d, b)
    ensures Distinct(Projects(d + [row], b))
      == if Mapped(b, row) && b[row] !in ProjectGroupsOf(d, b) then Distinct(Projects(d, b)) + [b[row]]
         else Distinct(Projects(d, b))
  {
    assert (d + [row])[..|d|] == d;
    ProjectGroupsMeaning(d, b);
    if Mapped(b, row) {
      assert Projects(d + [row], b) == Projects(d, b) + [b[row]];
      SnocFacts(Projects(d, b), b[row]);
    } else {
      assert Projects(d + [row], b) == Projects(d, b);
    }
  }

  /** One pass of the loop in `GroupByProject`: a mapped row joins its project's group, and a
      new project is listed. */
  method AddRow(d: seq<int>, row: int, b: map<int, string>,
                projects: seq<string>, projectToRows: map<string, seq<int>>)
    returns (projects': seq<string>, projectToRows': map<string, seq<int>>)
    requires projects == Distinct(Projects(d, b)) && projectToRows == ProjectGroupsOf(d, b)
    ensures projects' == Distinct(Projects(d + [row], b)) && projectToRows' == ProjectGroupsOf(d + [row], b)
  {
    ProjectGroupsStep(d, row, b);
    projects', projectToRows' := projects, projectToRows;
    if Mapped(b, row) {
      var p := b[row];
      if p !in projectToRows {
        projects' := projects + [p];
      }
      var rows := if p in projectToRows then projectToRows[p] else [];
      projectToRows' := projectToRows[p := rows + [row]];
    }
  }

  /** `project_to_rows`: the mapped image rows grouped by project number, projects in
      first-occurrence order. */
  method GroupByProject(order: seq<int>, b: map<int, string>)
    returns (projects: seq<string>, projectToRows: map<string, seq<int>>)
    ensures projects == Distinct(Projects(order, b))
    ensures projectToRows == ProjectGroupsOf(order, b)
  {
    projects := [];
    projectToRows := map[];
    var j := 0;
    while j < |order|
      invariant 0 <= j <= |order|
      invariant projects == Distinct(Projects(order[..j], b))
      invariant projectToRows == ProjectGroupsOf(order[..j], b)
    {
      PrefixSnoc(order, j);
      projects, projectToRows := AddRow(order[..j], order[j], b, projects, projectToRows);
      j := j + 1;
    }
    assert order[..j] == order;
  }

  /** `many_to_one`: the sizes of the project groups with more than one row, summed. */
  method CountManyToOne(order: seq<int>, b: map<int, string>) returns (manyToOne: nat)
    ensures manyToOne == CountIn(Projects(order, b), Repeated(Projects(order, b)))
  {
    var ps := Projects(order, b);
    var projects, projectToRows := GroupByProject(order, b);
    ProjectGroupsMeaning(order, b);
    manyToOne := 0;
    var k := 0;
    while k < |projects|
      invariant 0 <= k <= |projects|
      invariant manyToOne == SumOcc(projects[..k], ps, Repeated(ps))
    {
      var p := projects[k];
      assert projects[..k + 1][..k] == projects[..k];
      assert projects[..k + 1][k] == p;
      if |projectToRows[p]| > 1 {
        manyToOne := manyToOne + |projectToRows[p]|;
      }
      k := k + 1;
    }
    assert projects[..k] == projects;
    Partition(ps, Repeated(ps));
  }

  /** The counting part of `check_image_project_mapping`. */
  method CountMapping(images: seq<ImagePos>, b: map<int, string>) returns (stats: Stats)
    ensures stats == Expected(images, b)
  {
    var order, groups := GroupByRow(images);
    GroupsOfMeaning(images);
    var sizes := map r | r in groups :: |groups[r]| as nat;
    var matched, noMatch, multiple := CountMatches(RowsOf(images), order, sizes, b);
    var oneToOne, oneToMany := CountOneToOne(RowsOf(images), order, sizes, b);
    var manyToOne := CountManyToOne(order, b);
    stats := Stats(|images|, matched, noMatch, multiple, |order|, oneToOne, oneToMany, manyToOne);
  }

  /** `check_image_project_mapping`: `None` when the workbook cannot be opened to read its sheet
      names (that call is outside any handler, so the script stops). */
  method CheckImageProjectMapping(book: Option<Archive>, sheet: Option<RenameImages.ColumnB>)
    returns (r: Option<Stats>)
    ensures sheet.None? ==> r.None?
    ensures sheet.Some? ==> r == Some(Expected(ImagePositions(book), RenameImages.BColumn(sheet.value)))
  {
    var images := GetImagePositions(book);
    if sheet.None? {
      return None;
    }
    var b := RenameImages.GetBColumnValues(sheet);
    var stats := CountMapping(images, b);
    r := Some(stats);
  }

  // ---------------------------------------------------------------- what the numbers mean

  /** Every image is either matched or not: the two counts add up to the number of images. */
  lemma MatchedPlusNoMatch(images: seq<ImagePos>, b: map<int, string>)
    ensures Expected(images, b).matched + Expected(images, b).noMatch == |images|
  {
    var ks := RowsOf(images);
    CountComplement(ks, MappedRows(b), Elems(ks) - MappedRows(b));
  }

  /** A row with an image is a one-to-one row or a one-to-many row exactly when it is mapped. */
  lemma MappedRowsSplit(images: seq<ImagePos>, b: map<int, string>)
    ensures Expected(images, b).oneToOne + Expected(images, b).oneToMany
            == CountIn(Distinct(RowsOf(images)), MappedRows(b))
  {
    var ks := RowsOf(images);
    var d := Distinct(ks);
    var m := MappedRows(b);
    CountSplitBy(d, m, m * Single(ks), m * Repeated(ks), ks);
  }

  lemma {:induction false} CountSplitBy(d: seq<int>, m: set<int>, a: set<int>, c: set<int>, ks: seq<int>)
    requires a == m * Single(ks) && c == m * Repeated(ks)
    requires forall k :: k in d ==> k in ks
    ensures CountIn(d, a) + CountIn(d, c) == CountIn(d, m)
  {
    if d != [] {
      var k := d[|d| - 1];
      assert d == d[..|d| - 1] + [k];
      assert k in ks;
      assert Occ(ks, k) >= 1;
      CountSplitBy(d[..|d| - 1], m, a, c, ks);
    }
  }

  /** Distinct mapped rows carry distinct project numbers. */
  predicate ProjectsInjective(d: seq<int>, b: map<int, string>)
  {
    forall r1, r2 :: r1 in d && r2 in d && Mapped(b, r1) && Mapped(b, r2) && b[r1] == b[r2] ==> r1 == r2
  }

  lemma {:induction false} ProjectsNoDups(d: seq<int>, b: map<int, string>)
    requires NoDups(d)
    ensures NoDups(Projects(d, b)) <==> ProjectsInjective(d, b)
  {
    if d != [] {
      var init := d[..|d| - 1];
      var r := d[|d| - 1];
      assert d == init + [r];
      NoDupsSnoc(init, r);
      ProjectsNoDups(init, b);
      ProjectsMembers(init, b);
      var pi := Projects(init, b);
      if Mapped(b, r) {
        assert Projects(d, b) == pi + [b[r]];
        NoDupsSnoc(pi, b[r]);
        if ProjectsInjective(d, b) {
          assert ProjectsInjective(init, b);
        }
        if NoDups(pi + [b[r]]) {
          forall r1, r2 | r1 in d && r2 in d && Mapped(b, r1) && Mapped(b, r2) && b[r1] == b[r2]
            ensures r1 == r2
          {
            if r1 != r && r2 != r {
              assert r1 in init && r2 in init;
            }
          }
        }
      } else {
        assert Projects(d, b) == pi;
        assert forall x :: x in d <==> x in init || x == r;
        assert ProjectsInjective(d, b) <==> ProjectsInjective(init, b);
      }
    }
  }

  /** The report says "perfect" exactly when every picture's row has a project number, no row
      has two pictures, and no two picture rows share a project number. (With no pictures at
      all this holds vacuously.) */
  lemma PerfectMeans(images: seq<ImagePos>, b: map<int, string>)
    ensures VerdictOf(Expected(images, b)) == Perfect
        <==> (forall i :: 0 <= i < |images| ==> images[i].row in MappedRows(b)
                                                && Occ(RowsOf(images), images[i].row) == 1)
             && ProjectsInjective(Distinct(RowsOf(images)), b)
  {
    var ks := RowsOf(images);
    var d := Distinct(ks);
    var ps := Projects(d, b);
    var m := MappedRows(b);
    CountAll(d, m * Single(ks));
    CountNone(ps, Repeated(ps));
    NoDupsOcc(ps);
    ProjectsNoDups(d, b);
    if forall k :: k in d ==> k in m * Single(ks) {
      forall i | 0 <= i < |images| ensures images[i].row in m && Occ(ks, images[i].row) == 1 {
        assert ks[i] in d;
      }
    }
    if forall i :: 0 <= i < |images| ==> images[i].row in m && Occ(ks, images[i].row) == 1 {
      forall k | k in d ensures k in m * Single(ks) {
        var i :| 0 <= i < |ks| && ks[i] == k;
        assert images[i].row == k;
      }
    }
    assert (forall p :: p in ps ==> Occ(ps, p) == 1) <==> (forall p :: p in ps ==> p !in Repeated(ps));
  }
}
