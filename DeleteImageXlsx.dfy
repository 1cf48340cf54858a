/** delete_image_xlsx.py: delete every picture anchored at a given cell, in every drawing
    part of the workbook, keeping a `.bak` copy of the original. */
module DeleteImageXlsx {
  import opened Common
  import opened Drawing
  import ColumnLetters

  // ---------------------------------------------------------------- the removal rule

  /** An anchor of kind `k` whose zero-based origin is (`col0`, `row0`). Only `from` decides:
      neither `to` nor the requested end row takes part. */
  predicate Hit(a: Anchor, k: AnchorKind, col0: int, row0: int)
  {
    a.kind == k && HasReadableOrigin(a) && OriginCol(a) == col0 && OriginRow(a) == row0
  }

  /** Reading an anchor of kind `k` raises (its origin text is not an integer). */
  predicate Raises(a: Anchor, k: AnchorKind)
  {
    a.kind == k && OriginRaises(a)
  }

  /** The children left after one `for anchor in list(root.findall(kind))` pass. */
  function RemoveOfKind(s: seq<Anchor>, k: AnchorKind, col0: int, row0: int): (r: seq<Anchor>)
    ensures |r| <= |s|
  {
    if s == [] then []
    else RemoveOfKind(s[..|s| - 1], k, col0, row0)
         + (if Hit(s[|s| - 1], k, col0, row0) then [] else [s[|s| - 1]])
  }

  predicate AnyHit(s: seq<Anchor>, k: AnchorKind, col0: int, row0: int)
  {
    exists i :: 0 <= i < |s| && Hit(s[i], k, col0, row0)
  }

  predicate AnyRaises(s: seq<Anchor>, k: AnchorKind)
  {
    exists i :: 0 <= i < |s| && Raises(s[i], k)
  }

  /** A cell anchor (two-cell or one-cell) whose origin is the target. */
  predicate Matches(a: Anchor, col0: int, row0: int)
  {
    Hit(a, TwoCell, col0, row0) || Hit(a, OneCell, col0, row0)
  }

  /** The drawing after deletion: every matching anchor gone, the others in their order. */
  function RemoveMatching(s: seq<Anchor>, col0: int, row0: int): (r: seq<Anchor>)
    ensures |r| <= |s|
  {
    if s == [] then []
    else RemoveMatching(s[..|s| - 1], col0, row0)
         + (if Matches(s[|s| - 1], col0, row0) then [] else [s[|s| - 1]])
  }

  predicate AnyMatch(s: seq<Anchor>, col0: int, row0: int)
  {
    exists i :: 0 <= i < |s| && Matches(s[i], col0, row0)
  }

  /** The drawing cannot be processed: it is not well-formed, or an anchor's origin raises. */
  predicate DrawingRaises(c: Content)
  {
    c.Opaque? || AnyRaises(c.anchors, TwoCell) || AnyRaises(c.anchors, OneCell)
  }

  // ---------------------------------------------------------------- the drawing tree

  /** The parsed drawing (`tree.getroot()`), whose children the passes remove in place. */
  class DrawingRoot {
    var children: seq<Anchor>

    constructor (anchors: seq<Anchor>)
      ensures children == anchors
    {
      children := anchors;
    }

    /** One pass over the anchors of kind `k`: `raised` when an origin is not an integer,
        otherwise every hit is removed from the root and `found` says whether there was one. */
    method RemovePass(k: AnchorKind, col0: int, row0: int) returns (found: bool, raised: bool)
      modifies this
      ensures raised == AnyRaises(old(children), k)
      ensures !raised ==> children == RemoveOfKind(old(children), k, col0, row0)
      ensures !raised ==> found == AnyHit(old(children), k, col0, row0)
    {
      var snapshot := children;
      var kept: seq<Anchor> := [];
      found, raised := false, false;
      var i := 0;
      while i < |snapshot|
        invariant 0 <= i <= |snapshot|
        invariant kept == RemoveOfKind(snapshot[..i], k, col0, row0)
        invariant found == AnyHit(snapshot[..i], k, col0, row0)
        invariant !AnyRaises(snapshot[..i], k)
      {
        var a := snapshot[i];
        PassStep(snapshot, i, k, col0, row0);
        if a.kind == k && HasOrigin(a) && HasGarbage(a.from.value) {
          assert Raises(snapshot[i], k);
          raised := true;
          return;
        }
        if a.kind == k && HasOrigin(a) && OriginCol(a) == col0 && OriginRow(a) == row0 {
          found := true;
        } else {
          kept := kept + [a];
        }
        i := i + 1;
      }
      assert snapshot[..i] == snapshot;
      children := kept;
    }
  }

  /** What one more anchor adds to a pass over a prefix. */
  lemma PassStep(s: seq<Anchor>, i: nat, k: AnchorKind, col0: int, row0: int)
    requires i < |s|
    ensures RemoveOfKind(s[..i + 1], k, col0, row0)
      == RemoveOfKind(s[..i], k, col0, row0) + (if Hit(s[i], k, col0, row0) then [] else [s[i]])
    ensures AnyHit(s[..i + 1], k, col0, row0) == (AnyHit(s[..i], k, col0, row0) || Hit(s[i], k, col0, row0))
    ensures AnyRaises(s[..i + 1], k) == (AnyRaises(s[..i], k) || Raises(s[i], k))
  {
    var t := s[..i + 1];
    assert t[..i] == s[..i];
    assert t[i] == s[i];
    ExistsSnoc(t, s[..i], (a: Anchor) => Hit(a, k, col0, row0));
    ExistsSnoc(t, s[..i], (a: Anchor) => Raises(a, k));
  }

  lemma {:induction false} KindPassesCompose(s: seq<Anchor>, col0: int, row0: int)
    ensures RemoveOfKind(RemoveOfKind(s, TwoCell, col0, row0), OneCell, col0, row0)
            == RemoveMatching(s, col0, row0)
    decreases |s|
  {
    if s != [] {
      var init, last := s[..|s| - 1], s[|s| - 1];
      KindPassesCompose(init, col0, row0);
      var t := RemoveOfKind(init, TwoCell, col0, row0);
      if Hit(last, TwoCell, col0, row0) {
        assert RemoveOfKind(s, TwoCell, col0, row0) == t;
      } else {
        assert RemoveOfKind(s, TwoCell, col0, row0) == t + [last];
        assert (t + [last])[..|t + [last]| - 1] == t;
        assert (t + [last])[|t + [last]| - 1] == last;
      }
    }
  }

  lemma {:induction false} OtherKindUntouched(s: seq<Anchor>, col0: int, row0: int)
    ensures AnyRaises(RemoveOfKind(s, TwoCell, col0, row0), OneCell) == AnyRaises(s, OneCell)
    ensures AnyHit(RemoveOfKind(s, TwoCell, col0, row0), OneCell, col0, row0)
            == AnyHit(s, OneCell, col0, row0)
    decreases |s|
  {
    if s != [] {
      var init, last := s[..|s| - 1], s[|s| - 1];
      OtherKindUntouched(init, col0, row0);
      var t := RemoveOfKind(init, TwoCell, col0, row0);
      var r := RemoveOfKind(s, TwoCell, col0, row0);
      assert s == init + [last];
      if Hit(last, TwoCell, col0, row0) {
        assert r == t;
        assert !Raises(last, OneCell) && !Hit(last, OneCell, col0, row0);
        AnyOfSnoc(init, last);
      } else {
        assert r == t + [last];
        AnyOfSnoc(t, last);
        AnyOfSnoc(init, last);
      }
    }
  }

  lemma AnyOfSnoc(s: seq<Anchor>, a: Anchor)
    ensures forall col0: int, row0: int ::
      AnyHit(s + [a], OneCell, col0, row0) == (AnyHit(s, OneCell, col0, row0) || Hit(a, OneCell, col0, row0))
    ensures AnyRaises(s + [a], OneCell) == (AnyRaises(s, OneCell) || Raises(a, OneCell))
  {
    assert forall i :: 0 <= i < |s| ==> (s + [a])[i] == s[i];
    assert (s + [a])[|s|] == a;
  }

  lemma {:induction false} MatchIffHit(s: seq<Anchor>, col0: int, row0: int)
    ensures AnyMatch(s, col0, row0) == (AnyHit(s, TwoCell, col0, row0) || AnyHit(s, OneCell, col0, row0))
  {
  }

  /** The removal is a filter: an anchor survives iff it does not match, and the survivors
      keep their relative order (removal distributes over concatenation). */
  lemma {:induction false} RemoveMatchingIsFilter(s: seq<Anchor>, col0: int, row0: int)
    ensures forall a :: a in RemoveMatching(s, col0, row0) <==> a in s && !Matches(a, col0, row0)
    ensures RemoveMatching(s, col0, row0) == s <==> !AnyMatch(s, col0, row0)
    decreases |s|
  {
    if s != [] {
      var init, last := s[..|s| - 1], s[|s| - 1];
      RemoveMatchingIsFilter(init, col0, row0);
      assert s == init + [last];
      var r := RemoveMatching(s, col0, row0);
      if Matches(last, col0, row0) {
        assert AnyMatch(s, col0, row0) by { assert Matches(s[|s| - 1], col0, row0); }
        assert |r| < |s|;
      } else {
        if AnyMatch(s, col0, row0) {
          var i :| 0 <= i < |s| && Matches(s[i], col0, row0);
          assert i < |s| - 1 && Matches(init[i], col0, row0);
          assert RemoveMatching(init, col0, row0) != init;
        }
        if AnyMatch(init, col0, row0) {
          var i :| 0 <= i < |init| && Matches(init[i], col0, row0);
          assert Matches(s[i], col0, row0);
        }
      }
    }
  }

  lemma {:induction false} RemoveMatchingDistributes(s: seq<Anchor>, t: seq<Anchor>, col0: int, row0: int)
    ensures RemoveMatching(s + t, col0, row0) == RemoveMatching(s, col0, row0) + RemoveMatching(t, col0, row0)
    decreases |t|
  {
    if t == [] {
      assert s + t == s;
    } else {
      var init, last := t[..|t| - 1], t[|t| - 1];
      RemoveMatchingDistributes(s, init, col0, row0);
      assert (s + t)[..|s + t| - 1] == s + init;
      assert (s + t)[|s + t| - 1] == last;
    }
  }

  // ---------------------------------------------------------------- the whole operation

  /** Why `delete_image_from_xlsx` returned False. */
  datatype Failure = Raised | NoDrawing | NoMatch

  /** A drawing member after deletion. */
  function DeleteInEntry(e: Entry, col0: int, row0: int): Entry
  {
    if IsDrawingMember(e.name) && e.content.Xml?
    then Entry(e.name, Xml(RemoveMatching(e.content.anchors, col0, row0)))
    else e
  }

  /** Every drawing member of the package with its matching anchors removed. */
  function DeleteInAll(a: Archive, col0: int, row0: int): (r: Archive)
    ensures |r| == |a|
    ensures forall i :: 0 <= i < |a| ==> r[i] == DeleteInEntry(a[i], col0, row0)
  {
    if a == [] then [] else [DeleteInEntry(a[0], col0, row0)] + DeleteInAll(a[1..], col0, row0)
  }

  predicate HasDrawing(a: Archive)
  {
    exists i :: 0 <= i < |a| && IsDrawingMember(a[i].name)
  }

  /** A drawing member whose processing raises: it does not parse, or one of its anchors has
      an origin `int()` rejects. */
  predicate EntryRaises(e: Entry)
  {
    IsDrawingMember(e.name) && DrawingRaises(e.content)
  }

  /** A parsed drawing member with an anchor at the target. */
  predicate EntryMatches(e: Entry, col0: int, row0: int)
  {
    IsDrawingMember(e.name) && e.content.Xml? && AnyMatch(e.content.anchors, col0, row0)
  }

  predicate SomeDrawingRaises(a: Archive)
  {
    a != [] && (SomeDrawingRaises(a[..|a| - 1]) || EntryRaises(a[|a| - 1]))
  }

  predicate SomeDrawingMatches(a: Archive, col0: int, row0: int)
  {
    a != [] && (SomeDrawingMatches(a[..|a| - 1], col0, row0) || EntryMatches(a[|a| - 1], col0, row0))
  }

  /** The two summaries are "some member does": each is an existential over positions. */
  lemma {:induction false} SummariesAreExistential(a: Archive, col0: int, row0: int)
    ensures SomeDrawingRaises(a) <==> exists i :: 0 <= i < |a| && EntryRaises(a[i])
    ensures SomeDrawingMatches(a, col0, row0) <==> exists i :: 0 <= i < |a| && EntryMatches(a[i], col0, row0)
    decreases |a|
  {
    if a != [] {
      var init := a[..|a| - 1];
      SummariesAreExistential(init, col0, row0);
      assert forall i :: 0 <= i < |init| ==> init[i] == a[i];
    }
  }

  /** What the script does to a workbook, for a zero-based target (`col0`, `row0`);
      `None` is a file that is not a readable ZIP archive. */
  function DeleteOutcome(book: Option<Archive>, col0: int, row0: int): Result<Archive, Failure>
  {
    if book.None? then Err(Raised)
    else if !HasDrawing(book.value) then Err(NoDrawing)
    else if SomeDrawingRaises(book.value) then Err(Raised)
    else if !SomeDrawingMatches(book.value, col0, row0) then Err(NoMatch)
    else Ok(DeleteInAll(book.value, col0, row0))
  }

  /** The rewritten workbook holds exactly the extracted members under their names (position
      by position in this model, which keeps the archive's order where the script packs in
      directory-walk order); members that are not drawings are copied unchanged; every
      drawing keeps exactly its non-matching anchors, in order; and at least one anchor is
      gone. */
  lemma {:induction false} DeleteOutcomeShape(book: Option<Archive>, col0: int, row0: int)
    requires DeleteOutcome(book, col0, row0).Ok?
    ensures var r := DeleteOutcome(book, col0, row0).value;
      Names(r) == Names(book.value)
      && (forall i :: 0 <= i < |r| && !IsDrawingMember(r[i].name) ==> r[i] == book.value[i])
      && (forall i :: 0 <= i < |r| && IsDrawingMember(r[i].name) ==>
            book.value[i].content.Xml? &&
            r[i].content == Xml(RemoveMatching(book.value[i].content.anchors, col0, row0)))
      && r != book.value
  {
    var a := book.value;
    var r := DeleteInAll(a, col0, row0);
    assert DeleteOutcome(book, col0, row0) == Ok(r);
    forall i | 0 <= i < |a|
      ensures r[i].name == a[i].name
    {
      assert r[i] == DeleteInEntry(a[i], col0, row0);
    }
    assert Names(r) == Names(a);
    SummariesAreExistential(a, col0, row0);
    var i :| 0 <= i < |a| && EntryMatches(a[i], col0, row0);
    RemoveMatchingIsFilter(a[i].content.anchors, col0, row0);
    assert r[i] != a[i];
  }

  /** A workbook whose drawings hold no anchor at the target is reported as a miss, never
      rewritten. */
  lemma NoMatchLeavesWorkbook(a: Archive, col0: int, row0: int)
    requires HasDrawing(a) && !SomeDrawingRaises(a)
    requires forall i :: 0 <= i < |a| && IsDrawingMember(a[i].name) ==>
               a[i].content.Xml? && !AnyMatch(a[i].content.anchors, col0, row0)
    ensures DeleteOutcome(Some(a), col0, row0) == Err(NoMatch)
  {
    SummariesAreExistential(a, col0, row0);
  }

  // ---------------------------------------------------------------- the file system

  /** What the script touches on disk: the workbook file (None when it is not a readable
      ZIP archive), its `.bak` copy and the temporary directory `/tmp/excel_delete_img`
      (None when absent). */
  class Workspace {
    var book: Option<Archive>
    var backup: Option<Archive>
    var temp: Option<Archive>

    constructor (book: Option<Archive>, backup: Option<Archive>, temp: Option<Archive>)
      ensures this.book == book && this.backup == backup && this.temp == temp
    {
      this.book, this.backup, this.temp := book, backup, temp;
    }
  }

  /** `delete_image_from_xlsx(xlsx_path, target_col_letter, target_row_start, target_row_end)`.
      The end row is accepted and not used. */
  method DeleteImageFromXlsx(ws: Workspace, targetColLetter: string, targetRowStart: int, targetRowEnd: int)
    returns (ok: bool)
    modifies ws
    ensures var col0 := ColumnLetters.ColumnNumber(targetColLetter) - 1;
      var outcome := DeleteOutcome(old(ws.book), col0, targetRowStart - 1);
      && ok == outcome.Ok?
      && (ok ==> ws.book == Some(outcome.value) && ws.backup == old(ws.book) && ws.temp == None)
      && (!ok ==> ws.book == old(ws.book) && ws.backup == old(ws.backup))
      && (outcome == Err(NoDrawing) ==> ws.temp == old(ws.book))
      && (outcome != Err(NoDrawing) ==> ws.temp == None)
  {
    var targetColNum := ColumnLetters.GetColumnNumber(targetColLetter);
    var col0, row0 := targetColNum - 1, targetRowStart - 1;
    ghost var outcome := DeleteOutcome(ws.book, col0, row0);
    ws.temp := Some([]);
    if ws.book.None? {
      ws.temp := None;
      return false;
    }
    var extracted := ws.book.value;
    ws.temp := Some(extracted);
    if !HasDrawing(extracted) {
      return false;
    }
    var raised, found, tree := RewriteAll(extracted, col0, row0);
    if raised {
      ws.temp := None;
      return false;
    }
    ws.temp := Some(tree);
    if !found {
      ws.temp := None;
      return false;
    }
    ws.backup := ws.book;
    ws.book := ws.temp;
    ws.temp := None;
    ok := true;
  }

  /** The loop over the extracted members: each drawing member is rewritten in turn (written
      back once any drawing so far has matched); the first one that raises stops the loop. */
  method RewriteAll(extracted: Archive, col0: int, row0: int) returns (raised: bool, found: bool, tree: Archive)
    ensures raised == SomeDrawingRaises(extracted)
    ensures !raised ==> found == SomeDrawingMatches(extracted, col0, row0)
    ensures !raised ==> tree == DeleteInAll(extracted, col0, row0)
  {
    found, tree := false, extracted;
    var i := 0;
    ProgressStart(extracted, col0, row0);
    while i < |extracted|
      invariant 0 <= i <= |extracted|
      invariant tree == Progress(extracted, i, col0, row0)
      invariant !SomeDrawingRaises(extracted[..i])
      invariant found == SomeDrawingMatches(extracted[..i], col0, row0)
    {
      var e := extracted[i];
      ProgressStep(extracted, i, col0, row0);
      if IsDrawingMember(e.name) {
        var broke, hit, kept := RewriteDrawing(e.content, col0, row0);
        if broke {
          RaisesInPrefix(extracted, i, col0, row0);
          return true, false, [];
        }
        found := found || hit;
        if found {
          tree := tree[i := Entry(e.name, Xml(kept))];
        } else {
          RemoveMatchingIsFilter(e.content.anchors, col0, row0);
        }
      }
      i := i + 1;
    }
    ProgressEnd(extracted, col0, row0);
    raised := false;
  }

  /** One drawing member: parse it, run the two-cell pass and then the one-cell pass over the
      same tree, and report whether anything raised, whether an anchor matched, and the
      anchors that remain. */
  method RewriteDrawing(c: Content, col0: int, row0: int) returns (raised: bool, hit: bool, kept: seq<Anchor>)
    ensures raised == DrawingRaises(c)
    ensures !raised ==> c.Xml? && hit == AnyMatch(c.anchors, col0, row0)
                        && kept == RemoveMatching(c.anchors, col0, row0)
  {
    if c.Opaque? {
      return true, false, [];
    }
    var root := new DrawingRoot(c.anchors);
    var foundTwo, raisedTwo := root.RemovePass(TwoCell, col0, row0);
    if raisedTwo {
      return true, false, [];
    }
    OtherKindUntouched(c.anchors, col0, row0);
    var foundOne, raisedOne := root.RemovePass(OneCell, col0, row0);
    if raisedOne {
      return true, false, [];
    }
    KindPassesCompose(c.anchors, col0, row0);
    MatchIffHit(c.anchors, col0, row0);
    return false, foundTwo || foundOne, root.children;
  }

  /** The extracted tree after the first `i` members have been processed. */
  function Progress(x: Archive, i: int, col0: int, row0: int): Archive
    requires 0 <= i <= |x|
  {
    DeleteInAll(x[..i], col0, row0) + x[i..]
  }

  lemma ProgressStart(x: Archive, col0: int, row0: int)
    ensures Progress(x, 0, col0, row0) == x
    ensures !SomeDrawingRaises(x[..0]) && !SomeDrawingMatches(x[..0], col0, row0)
  {
    assert x[..0] == [];
  }

  lemma ProgressEnd(x: Archive, col0: int, row0: int)
    ensures Progress(x, |x|, col0, row0) == DeleteInAll(x, col0, row0)
    ensures x[..|x|] == x
  {
    assert x[..|x|] == x;
  }

  /** Processing member `i` rewrites position `i` of the tree and nothing else. */
  lemma ProgressStep(x: Archive, i: int, col0: int, row0: int)
    requires 0 <= i < |x|
    ensures Progress(x, i + 1, col0, row0)
            == Progress(x, i, col0, row0)[i := DeleteInEntry(x[i], col0, row0)]
    ensures DeleteInEntry(x[i], col0, row0) == x[i] ==>
              Progress(x, i + 1, col0, row0) == Progress(x, i, col0, row0)
    ensures x[..i + 1][..i] == x[..i] && x[..i + 1][i] == x[i]
  {
    var p := Progress(x, i, col0, row0);
    assert p[i] == x[i];
    assert x[..i + 1][..i] == x[..i];
  }

  /** A member that raises makes the whole package raise, wherever it sits. */
  lemma RaisesInPrefix(x: Archive, i: int, col0: int, row0: int)
    requires 0 <= i < |x| && EntryRaises(x[i])
    ensures SomeDrawingRaises(x)
  {
    SummariesAreExistential(x, col0, row0);
  }
}
