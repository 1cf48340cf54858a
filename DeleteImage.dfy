/** delete_image.py: delete the pictures anchored at a given cell, looking only at the first
    drawing part of the workbook, and rewrite the workbook through a `.new` file and a
    temporary directory that is created when missing and never cleared. */
module DeleteImage {
  import opened Common
  import opened Drawing
  import opened DeleteImageXlsx

  // ---------------------------------------------------------------- which drawing

  /** The position of the first drawing member in `namelist()` order, from position `k` on. */
  function FirstDrawingFrom(a: Archive, k: nat): (r: Option<nat>)
    requires k <= |a|
    ensures r.Some? ==> k <= r.value < |a| && IsDrawingMember(a[r.value].name)
                        && forall j :: k <= j < r.value ==> !IsDrawingMember(a[j].name)
    ensures r.None? ==> forall j :: k <= j < |a| ==> !IsDrawingMember(a[j].name)
    decreases |a| - k
  {
    if k == |a| then None
    else if IsDrawingMember(a[k].name) then Some(k)
    else FirstDrawingFrom(a, k + 1)
  }

  /** `drawing_files[0]`: the first drawing member, if any. */
  function FirstDrawing(a: Archive): (r: Option<nat>)
    ensures r.Some? ==> r.value < |a| && IsDrawingMember(a[r.value].name)
                        && forall j :: 0 <= j < r.value ==> !IsDrawingMember(a[j].name)
    ensures r.None? <==> forall j :: 0 <= j < |a| ==> !IsDrawingMember(a[j].name)
  {
    FirstDrawingFrom(a, 0)
  }

  /** Python's `chr(n)`, called as `chr(64 + target_col)` in both the not-found message and
      the removal message, raises `ValueError` outside 0..0x10FFFF. */
  predicate ChrDefined(n: int)
  {
    0 <= n <= 0x10FFFF
  }

  /** What the script decides for a workbook and a zero-based target: the rewritten first
      drawing member, or why it returned False. Once the anchors are read, a column letter
      `chr` cannot spell makes the message raise, found or not, before anything is written. */
  function FirstDrawingOutcome(book: Option<Archive>, col0: int, row0: int): Result<Entry, Failure>
  {
    if book.None? then Err(Raised)
    else
      var first := FirstDrawing(book.value);
      if first.None? then Err(NoDrawing)
      else
        var e := book.value[first.value];
        if DrawingRaises(e.content) then Err(Raised)
        else if !ChrDefined(col0 + 65) then Err(Raised)
        else if !AnyMatch(e.content.anchors, col0, row0) then Err(NoMatch)
        else Ok(Entry(e.name, Xml(RemoveMatching(e.content.anchors, col0, row0))))
  }

  /** A drawing further down the package is never looked at, even when it holds an anchor at
      the target: with a first drawing that has none, the call is a miss. */
  lemma LaterDrawingsIgnored(a: Archive, i: nat, col0: int, row0: int)
    requires FirstDrawing(a) == Some(i) && a[i].content.Xml?
    requires !DrawingRaises(a[i].content) && ChrDefined(col0 + 65) && !AnyMatch(a[i].content.anchors, col0, row0)
    ensures FirstDrawingOutcome(Some(a), col0, row0) == Err(NoMatch)
  {
  }

  /** An anchor at column index -66 matches `target_col` -65, and the removal message's
      `chr(-1)` then raises: the call fails though an image was found. */
  lemma UnspellableColumnRaises()
    ensures var drawing := Entry("xl/drawings/drawing1.xml",
                                 Xml([Anchor(OneCell, Some(Marker(Value(-66), Value(23))), None, None, None, None)]));
      && AnyMatch(drawing.content.anchors, -66, 23)
      && FirstDrawingOutcome(Some([drawing]), -66, 23) == Err(Raised)
  {
    var drawing := Entry("xl/drawings/drawing1.xml",
                         Xml([Anchor(OneCell, Some(Marker(Value(-66), Value(23))), None, None, None, None)]));
    assert ContainsAt(drawing.name, "xl/drawings/drawing", 0);
    assert IsDrawingMember(drawing.name);
    assert Matches(drawing.content.anchors[0], -66, 23);
  }

  // ---------------------------------------------------------------- mark, then remove

  lemma ScanPrefixSnoc(s: seq<Anchor>, j: int, k: AnchorKind, col0: int, row0: int)
    requires 0 <= j < |s|
    ensures AnyHit(s[..j + 1], k, col0, row0) == (AnyHit(s[..j], k, col0, row0) || Hit(s[j], k, col0, row0))
    ensures AnyRaises(s[..j + 1], k) == (AnyRaises(s[..j], k) || Raises(s[j], k))
    ensures s[..j + 1][..j] == s[..j]
  {
    assert forall p :: 0 <= p < j ==> s[..j + 1][p] == s[..j][p];
    assert s[..j + 1][j] == s[j];
    assert s[..j + 1][..j] == s[..j];
  }

  lemma PrefixAll(s: seq<Anchor>)
    ensures s[..|s|] == s
  {
  }

  /** One `findall` pass: every anchor of kind `k` with an origin is read, and a hit is marked
      (added to `elements_to_remove`); the marks of earlier passes are kept. */
  method MarkPass(s: seq<Anchor>, k: AnchorKind, col0: int, row0: int, marks: seq<bool>)
    returns (raised: bool, found: bool, marked: seq<bool>)
    requires |marks| == |s|
    ensures raised == AnyRaises(s, k)
    ensures !raised ==> found == AnyHit(s, k, col0, row0)
    ensures !raised ==> |marked| == |s|
                        && forall p :: 0 <= p < |s| ==> marked[p] == (marks[p] || Hit(s[p], k, col0, row0))
  {
    marked, found := marks, false;
    var j := 0;
    while j < |s|
      invariant 0 <= j <= |s| && |marked| == |s|
      invariant forall p :: 0 <= p < |s| ==>
                  marked[p] == (marks[p] || (p < j && Hit(s[p], k, col0, row0)))
      invariant found == AnyHit(s[..j], k, col0, row0)
      invariant !AnyRaises(s[..j], k)
    {
      ScanPrefixSnoc(s, j, k, col0, row0);
      var a := s[j];
      if a.kind == k && HasOrigin(a) {
        if HasGarbage(a.from.value) {
          assert Raises(s[j], k);
          return true, false, [];
        }
        if OriginCol(a) == col0 && OriginRow(a) == row0 {
          marked := marked[j := true];
          found := true;
        }
      }
      j := j + 1;
    }
    PrefixAll(s);
    raised := false;
  }

  /** The children that are not marked, in order (`root.remove(elem)` for each marked one). */
  method RemoveMarked(s: seq<Anchor>, marked: seq<bool>, col0: int, row0: int) returns (kept: seq<Anchor>)
    requires |marked| == |s|
    requires forall p :: 0 <= p < |s| ==> marked[p] == Matches(s[p], col0, row0)
    ensures kept == RemoveMatching(s, col0, row0)
  {
    kept := [];
    var j := 0;
    while j < |s|
      invariant 0 <= j <= |s|
      invariant kept == RemoveMatching(s[..j], col0, row0)
    {
      assert s[..j + 1][..j] == s[..j];
      if !marked[j] {
        kept := kept + [s[j]];
      }
      j := j + 1;
    }
    PrefixAll(s);
  }

  /** Parse the drawing, mark the hits of the two-cell pass and then of the one-cell pass,
      and remove every marked anchor. */
  method MarkAndRemove(c: Content, col0: int, row0: int) returns (raised: bool, found: bool, kept: seq<Anchor>)
    ensures raised == DrawingRaises(c)
    ensures !raised ==> c.Xml? && found == AnyMatch(c.anchors, col0, row0)
                        && kept == RemoveMatching(c.anchors, col0, row0)
  {
    if c.Opaque? {
      return true, false, [];
    }
    var s := c.anchors;
    var raisedTwo, foundTwo, marks := MarkPass(s, TwoCell, col0, row0, seq(|s|, _ => false));
    if raisedTwo {
      return true, false, [];
    }
    var raisedOne, foundOne, marks' := MarkPass(s, OneCell, col0, row0, marks);
    if raisedOne {
      return true, false, [];
    }
    MatchIffHit(s, col0, row0);
    kept := RemoveMarked(s, marks', col0, row0);
    return false, foundTwo || foundOne, kept;
  }

  // ---------------------------------------------------------------- the temporary directory

  /** Extracting one member into a directory: a file of the same name is overwritten, any
      other file stays. */
  function Put(dir: Archive, e: Entry): (r: Archive)
    ensures e.name in Names(dir) ==> Names(r) == Names(dir)
    ensures e.name !in Names(dir) ==> r == dir + [e]
  {
    if e.name in Names(dir) then Store(dir, e.name, e.content) else dir + [e]
  }

  lemma PutKeepsNames(dir: Archive, e: Entry)
    ensures e.name in Names(Put(dir, e))
    ensures forall n :: n in Names(dir) ==> n in Names(Put(dir, e))
  {
    var r := Put(dir, e);
    if e.name !in Names(dir) {
      assert Names(r)[|dir|] == e.name;
      forall n | n in Names(dir)
        ensures n in Names(r)
      {
        var i :| 0 <= i < |dir| && Names(dir)[i] == n;
        assert Names(r)[i] == n;
      }
    }
  }

  /** `extractall` into a directory that may already hold files. */
  function Overlay(dir: Archive, a: Archive): Archive
    decreases |a|
  {
    if a == [] then dir else Overlay(Put(dir, a[0]), a[1..])
  }

  /** Nothing already in the directory disappears, and every member of the package arrives. */
  lemma {:induction false} OverlayKeepsNames(dir: Archive, a: Archive)
    ensures forall n :: n in Names(dir) ==> n in Names(Overlay(dir, a))
    ensures forall n :: n in Names(a) ==> n in Names(Overlay(dir, a))
    decreases |a|
  {
    if a != [] {
      var d := Put(dir, a[0]);
      OverlayKeepsNames(d, a[1..]);
      PutKeepsNames(dir, a[0]);
      assert forall n :: n in Names(a) ==> n == a[0].name || n in Names(a[1..]);
    }
  }

  /** Into a directory that holds nothing of the package's names, a package with unique
      names lands as itself, after the files already there. */
  lemma {:induction false} OverlayFresh(dir: Archive, a: Archive)
    requires UniqueNames(dir + a)
    ensures Overlay(dir, a) == dir + a
    decreases |a|
  {
    if a != [] {
      assert a[0] == (dir + a)[|dir|];
      assert a[0].name !in Names(dir) by {
        forall i | 0 <= i < |dir|
          ensures dir[i].name != a[0].name
        {
          assert dir[i] == (dir + a)[i];
        }
      }
      assert Put(dir, a[0]) == dir + [a[0]];
      assert (dir + [a[0]]) + a[1..] == dir + a;
      OverlayFresh(dir + [a[0]], a[1..]);
    }
  }

  function TempOrEmpty(dir: Option<Archive>): Archive
  {
    if dir.Some? then dir.value else []
  }

  /** The package the script writes, as written: the old contents of the temporary directory
      with the workbook extracted over them and the rewritten drawing stored. */
  function PackedAsWritten(oldTemp: Option<Archive>, book: Archive, drawing: Entry): Archive
  {
    Store(Overlay(TempOrEmpty(oldTemp), book), drawing.name, drawing.content)
  }

  /** The package the script is evidently meant to write: the workbook's own members with the
      rewritten drawing stored. */
  function PackedFresh(book: Archive, drawing: Entry): Archive
  {
    Store(Overlay([], book), drawing.name, drawing.content)
  }

  /** What the script touches on disk: the workbook (None when it is not a readable ZIP
      archive), the fixed temporary directory `/tmp/excel_delete_img` and `xlsx_path + '.new'`
      (None when absent). */
  class Disk {
    var book: Option<Archive>
    var tempDir: Option<Archive>
    var newFile: Option<Archive>

    constructor (book: Option<Archive>, tempDir: Option<Archive>, newFile: Option<Archive>)
      ensures this.book == book && this.tempDir == tempDir && this.newFile == newFile
    {
      this.book, this.tempDir, this.newFile := book, tempDir, newFile;
    }
  }

  /** `find_and_delete_image_by_position(xlsx_path, target_col, target_row_start,
      target_row_end)` as written; `target_col` is already a column number and the end row
      only appears in a message. */
  method FindAndDeleteImageByPosition(disk: Disk, targetCol: int, targetRowStart: int, targetRowEnd: int)
    returns (ok: bool)
    modifies disk
    ensures var outcome := FirstDrawingOutcome(old(disk.book), targetCol - 1, targetRowStart - 1);
      && ok == outcome.Ok?
      && (!ok ==> disk.book == old(disk.book) && disk.tempDir == old(disk.tempDir)
                  && disk.newFile == old(disk.newFile))
      && (ok ==> disk.tempDir == Some(PackedAsWritten(old(disk.tempDir), old(disk.book).value, outcome.value))
                 && disk.book == disk.tempDir && disk.newFile == None)
  {
    var col0, row0 := targetCol - 1, targetRowStart - 1;
    if disk.book.None? {
      return false;
    }
    var a := disk.book.value;
    var first := FirstDrawing(a);
    if first.None? {
      return false;
    }
    var e := a[first.value];
    var raised, found, kept := MarkAndRemove(e.content, col0, row0);
    if raised || !ChrDefined(targetCol + 64) || !found {
      return false;
    }
    var dir := TempOrEmpty(disk.tempDir);
    dir := Overlay(dir, a);
    dir := Store(dir, e.name, Xml(kept));
    disk.tempDir := Some(dir);
    disk.newFile := Some(dir);
    disk.book := disk.newFile;
    disk.newFile := None;
    ok := true;
  }

  /** Files left in the temporary directory by an earlier run (of this script on another
      workbook, or of delete_image_xlsx.py when it found no drawing) are packed into the
      rewritten workbook. */
  lemma StaleFileIsPacked()
    ensures var drawing := Entry("xl/drawings/drawing1.xml",
                                 Xml([Anchor(OneCell, Some(Marker(Value(1), Value(23))), None, None, None, None)]));
      var book := [drawing];
      var stale := Entry("xl/media/image9.png", Opaque([]));
      var outcome := FirstDrawingOutcome(Some(book), 1, 23);
      && outcome.Ok?
      && stale.name !in Names(book)
      && stale.name in Names(PackedAsWritten(Some([stale]), book, outcome.value))
  {
    var drawing := Entry("xl/drawings/drawing1.xml",
                         Xml([Anchor(OneCell, Some(Marker(Value(1), Value(23))), None, None, None, None)]));
    var book := [drawing];
    assert Contains(drawing.name, "xl/drawings/drawing") by {
      assert ContainsAt(drawing.name, "xl/drawings/drawing", 0);
    }
    assert IsDrawingMember(drawing.name);
    assert Matches(book[0].content.anchors[0], 1, 23);
    var stale := Entry("xl/media/image9.png", Opaque([]));
    assert stale.name != drawing.name;
    var outcome := FirstDrawingOutcome(Some(book), 1, 23);
    OverlayKeepsNames([stale], book);
    assert stale.name in Names([stale]);
    assert Names(PackedAsWritten(Some([stale]), book, outcome.value)) == Names(Overlay([stale], book));
  }

  /** The corrected script: the temporary directory is emptied before extraction and removed
      afterwards, as delete_image_xlsx.py does. */
  method FindAndDeleteImageByPositionFresh(disk: Disk, targetCol: int, targetRowStart: int, targetRowEnd: int)
    returns (ok: bool)
    modifies disk
    ensures var outcome := FirstDrawingOutcome(old(disk.book), targetCol - 1, targetRowStart - 1);
      && ok == outcome.Ok?
      && (!ok ==> disk.book == old(disk.book) && disk.tempDir == old(disk.tempDir)
                  && disk.newFile == old(disk.newFile))
      && (ok ==> disk.book == Some(PackedFresh(old(disk.book).value, outcome.value))
                 && disk.tempDir == None && disk.newFile == None)
  {
    var col0, row0 := targetCol - 1, targetRowStart - 1;
    if disk.book.None? {
      return false;
    }
    var a := disk.book.value;
    var first := FirstDrawing(a);
    if first.None? {
      return false;
    }
    var e := a[first.value];
    var raised, found, kept := MarkAndRemove(e.content, col0, row0);
    if raised || !ChrDefined(targetCol + 64) || !found {
      return false;
    }
    var dir := Overlay([], a);
    dir := Store(dir, e.name, Xml(kept));
    disk.newFile := Some(dir);
    disk.book := disk.newFile;
    disk.newFile := None;
    disk.tempDir := None;
    ok := true;
  }

  /** For a workbook with unique member names, the corrected rewrite holds exactly the
      workbook's members (position by position in this model, which keeps the archive's order
      where the script packs in directory-walk order); only the first drawing changes, and it
      keeps exactly its non-matching anchors. */
  lemma FreshRewriteKeepsMembers(book: Archive, col0: int, row0: int)
    requires UniqueNames(book)
    requires FirstDrawingOutcome(Some(book), col0, row0).Ok?
    ensures var d := FirstDrawingOutcome(Some(book), col0, row0).value;
      var r := PackedFresh(book, d);
      var i := FirstDrawing(book).value;
      && Names(r) == Names(book)
      && r[i] == d && d.name == book[i].name
      && d.content == Xml(RemoveMatching(book[i].content.anchors, col0, row0))
      && (forall j :: 0 <= j < |book| && j != i ==> r[j] == book[j])
  {
    assert [] + book == book;
    OverlayFresh([], book);
    var i := FirstDrawing(book).value;
    var e := book[i];
    var d := Entry(e.name, Xml(RemoveMatching(e.content.anchors, col0, row0)));
    assert FirstDrawingOutcome(Some(book), col0, row0).value == d;
    var r := Store(book, d.name, d.content);
    assert PackedFresh(book, d) == r;
    assert r[i] == d;
    forall j | 0 <= j < |book| && j != i
      ensures r[j] == book[j]
    {
      assert book[j].name != e.name;
    }
  }
}
