/** Plain text from the positioned text items of PDF pages, as the web client rebuilds it: the
    items of a page are grouped into lines by their baseline, each line is read left to right
    with horizontal gaps turned into runs of spaces, and the lines run from the top of the page
    down. */
module PdfText {
  import opened Common

  /** A text item placed on the page: its text, the x and y of its origin and its width. */
  datatype Item = Item(text: string, x: real, y: real, width: real)

  /** A line of items sharing a baseline `y` (the y of the item that opened the line). */
  datatype Line = Line(y: real, items: seq<Item>)

  function Abs(v: real): real { if v < 0.0 then -v else v }

  // ---------------------------------------------------------------- grouping into lines

  /** `lines.find(...)` from `from` on: the first line whose baseline is within `tolerance`. */
  function FirstNear(lines: seq<Line>, y: real, tolerance: real, from: nat): (k: Option<nat>)
    requires from <= |lines|
    ensures k.Some? ==> from <= k.value < |lines| && Abs(lines[k.value].y - y) <= tolerance
    ensures forall j :: from <= j < (if k.Some? then k.value else |lines|) ==> Abs(lines[j].y - y) > tolerance
    decreases |lines| - from
  {
    if from == |lines| then None
    else if Abs(lines[from].y - y) <= tolerance then Some(from)
    else FirstNear(lines, y, tolerance, from + 1)
  }

  /** One pass of `groupByY`: the item joins the first line near its baseline, or opens one. */
  function Place(lines: seq<Line>, item: Item, tolerance: real): seq<Line>
  {
    match FirstNear(lines, item.y, tolerance, 0)
    case Some(k) => lines[k := Line(lines[k].y, lines[k].items + [item])]
    case None => lines + [Line(item.y, [item])]
  }

  function Grouped(items: seq<Item>, tolerance: real): seq<Line>
  {
    if items == [] then [] else Place(Grouped(items[..|items| - 1], tolerance), items[|items| - 1], tolerance)
  }

  /** `groupByY`: one pass over the items, pushing each into its line. */
  method GroupByY(items: seq<Item>, tolerance: real) returns (lines: seq<Line>)
    ensures lines == Grouped(items, tolerance)
  {
    lines := [];
    var i := 0;
    while i < |items|
      invariant 0 <= i <= |items|
      invariant lines == Grouped(items[..i], tolerance)
    {
      var item := items[i];
      var k := FindLine(lines, item.y, tolerance);
      GroupedStep(items, i, tolerance);
      if k < |lines| {
        lines := lines[k := Line(lines[k].y, lines[k].items + [item])];
      } else {
        lines := lines + [Line(item.y, [item])];
      }
      i := i + 1;
    }
    assert items[..i] == items;
  }

  /** The `find` of `groupByY`: the index of the first line near `y`, or `|lines|`. */
  method FindLine(lines: seq<Line>, y: real, tolerance: real) returns (k: nat)
    ensures k <= |lines|
    ensures k < |lines| <==> FirstNear(lines, y, tolerance, 0).Some?
    ensures k < |lines| ==> FirstNear(lines, y, tolerance, 0) == Some(k)
  {
    k := 0;
    while k < |lines| && Abs(lines[k].y - y) > tolerance
      invariant 0 <= k <= |lines|
      invariant FirstNear(lines, y, tolerance, 0) == FirstNear(lines, y, tolerance, k)
    {
      k := k + 1;
    }
  }

  lemma GroupedStep(items: seq<Item>, i: nat, tolerance: real)
    requires i < |items|
    ensures Grouped(items[..i + 1], tolerance) == Place(Grouped(items[..i], tolerance), items[i], tolerance)
  {
    assert items[..i + 1][..i] == items[..i];
  }

  /** Every line holds at least one item and starts with the item that opened it, every item
      lies within the tolerance of its line's baseline, and two lines' baselines are further
      apart than the tolerance. */
  predicate WellGrouped(lines: seq<Line>, tolerance: real)
  {
    (forall k :: 0 <= k < |lines| ==> lines[k].items != [] && lines[k].items[0].y == lines[k].y)
    && (forall k, i :: 0 <= k < |lines| && 0 <= i < |lines[k].items| ==>
          Abs(lines[k].items[i].y - lines[k].y) <= tolerance)
    && (forall k, j :: 0 <= k < j < |lines| ==> Abs(lines[k].y - lines[j].y) > tolerance)
  }

  lemma PlaceKeepsWellGrouped(lines: seq<Line>, item: Item, tolerance: real)
    requires tolerance >= 0.0 && WellGrouped(lines, tolerance)
    ensures WellGrouped(Place(lines, item, tolerance), tolerance)
  {
    var near := FirstNear(lines, item.y, tolerance, 0);
    if near.Some? {
      JoinKeepsWellGrouped(lines, near.value, item, tolerance);
    } else {
      OpenKeepsWellGrouped(lines, item, tolerance);
    }
  }

  lemma JoinKeepsWellGrouped(lines: seq<Line>, k: nat, item: Item, tolerance: real)
    requires WellGrouped(lines, tolerance)
    requires k < |lines| && Abs(lines[k].y - item.y) <= tolerance
    ensures WellGrouped(lines[k := Line(lines[k].y, lines[k].items + [item])], tolerance)
  {
    var r := lines[k := Line(lines[k].y, lines[k].items + [item])];
    assert forall i :: 0 <= i < |lines[k].items| ==> r[k].items[i] == lines[k].items[i];
  }

  lemma OpenKeepsWellGrouped(lines: seq<Line>, item: Item, tolerance: real)
    requires tolerance >= 0.0 && WellGrouped(lines, tolerance)
    requires forall j :: 0 <= j < |lines| ==> Abs(lines[j].y - item.y) > tolerance
    ensures WellGrouped(lines + [Line(item.y, [item])], tolerance)
  {
  }

  /** The lines `groupByY` builds are well grouped for any non-negative tolerance. */
  lemma {:induction false} GroupedIsWellGrouped(items: seq<Item>, tolerance: real)
    requires tolerance >= 0.0
    ensures WellGrouped(Grouped(items, tolerance), tolerance)
  {
    if items != [] {
      GroupedIsWellGrouped(items[..|items| - 1], tolerance);
      PlaceKeepsWellGrouped(Grouped(items[..|items| - 1], tolerance), items[|items| - 1], tolerance);
    }
  }

  /** The items of all lines, line after line. */
  function AllItems(lines: seq<Line>): seq<Item>
  {
    if lines == [] then [] else AllItems(lines[..|lines| - 1]) + lines[|lines| - 1].items
  }

  lemma {:induction false} AllItemsUpdate(lines: seq<Line>, k: nat, l: Line)
    requires k < |lines|
    ensures multiset(AllItems(lines[k := l])) == multiset(AllItems(lines)) - multiset(lines[k].items) + multiset(l.items)
    decreases |lines|
  {
    var n := |lines| - 1;
    var u := lines[k := l];
    assert AllItems(u) == AllItems(u[..n]) + u[n].items;
    assert AllItems(lines) == AllItems(lines[..n]) + lines[n].items;
    if k < n {
      assert u[..n] == lines[..n][k := l];
      assert u[n] == lines[n];
      AllItemsUpdate(lines[..n], k, l);
      AllItemsHas(lines[..n], k);
      var a, b, c, d := multiset(AllItems(lines[..n])), multiset(lines[k].items), multiset(l.items), multiset(lines[n].items);
      assert b <= a;
      assert multiset(AllItems(u)) == a - b + c + d;
      assert multiset(AllItems(lines)) == a + d;
    } else {
      assert u[..n] == lines[..n];
    }
  }

  /** Each line's items are part of all the items. */
  lemma {:induction false} AllItemsHas(lines: seq<Line>, k: nat)
    requires k < |lines|
    ensures multiset(lines[k].items) <= multiset(AllItems(lines))
    decreases |lines|
  {
    var n := |lines| - 1;
    if k < n {
      AllItemsHas(lines[..n], k);
    }
  }

  /** Placing an item adds exactly that item to the lines. */
  lemma PlaceAddsItem(lines: seq<Line>, item: Item, tolerance: real)
    ensures multiset(AllItems(Place(lines, item, tolerance))) == multiset(AllItems(lines)) + multiset{item}
  {
    var near := FirstNear(lines, item.y, tolerance, 0);
    if near.Some? {
      var k := near.value;
      AllItemsUpdate(lines, k, Line(lines[k].y, lines[k].items + [item]));
      AllItemsHas(lines, k);
    } else {
      assert (lines + [Line(item.y, [item])])[..|lines|] == lines;
    }
  }

  /** Every item lands in exactly one line: all the lines' items are the input items. */
  lemma {:induction false} GroupedKeepsItems(items: seq<Item>, tolerance: real)
    ensures multiset(AllItems(Grouped(items, tolerance))) == multiset(items)
  {
    if items != [] {
      var n := |items| - 1;
      GroupedKeepsItems(items[..n], tolerance);
      PlaceAddsItem(Grouped(items[..n], tolerance), items[n], tolerance);
      assert Grouped(items, tolerance) == Place(Grouped(items[..n], tolerance), items[n], tolerance);
      assert items == items[..n] + [items[n]];
      assert multiset(items) == multiset(items[..n]) + multiset{items[n]};
    }
  }

  // ---------------------------------------------------------------- one line as text

  /** Spaces put between two items: one per 8 units of gap, at least 1 and at most 10; one when
      the items touch or overlap. */
  function GapSpaces(prev: Item, cur: Item): (n: int)
    ensures 1 <= n <= 10
  {
    var gap := cur.x - (prev.x + prev.width);
    if gap > 0.0 then Clamp((gap / 8.0).Floor, 1, 10) else 1
  }

  /** Within the range where the clamp does not bite, the spaces count the whole 8-unit steps
      of the gap. */
  lemma GapSpacesCountSteps(prev: Item, cur: Item)
    requires 16.0 <= cur.x - (prev.x + prev.width) < 88.0
    ensures var gap := cur.x - (prev.x + prev.width);
      8.0 * GapSpaces(prev, cur) as real <= gap < 8.0 * (GapSpaces(prev, cur) as real + 1.0)
  {
    var gap := cur.x - (prev.x + prev.width);
    var f := (gap / 8.0).Floor;
    assert f as real <= gap / 8.0 < f as real + 1.0;
    assert 2 <= f <= 10;
  }

  /** What the loop of `buildLineText` carries: the text so far and the last item used. */
  datatype Acc = Acc(out: string, prev: Option<Item>)

  function Step(acc: Acc, cur: Item): Acc
  {
    var text := Clean(cur.text);
    if text == [] then acc
    else if acc.prev.None? then Acc(acc.out + text, Some(cur))
    else Acc(acc.out + Repeat(' ', GapSpaces(acc.prev.value, cur)) + text, Some(cur))
  }

  function Fold(items: seq<Item>): Acc
  {
    if items == [] then Acc([], None) else Step(Fold(items[..|items| - 1]), items[|items| - 1])
  }

  function ItemX(i: Item): real { i.x }

  /** `buildLineText`. */
  function LineText(line: Line): string
  {
    TrimEnd(Fold(SortByKey(line.items, ItemX)).out)
  }

  /** `buildLineText` as the source runs it: sort by x, then one pass accumulating `out`. */
  method BuildLineText(line: Line) returns (out: string)
    ensures out == LineText(line)
  {
    var sorted := SortByKey(line.items, ItemX);
    out := [];
    var prev: Option<Item> := None;
    var i := 0;
    while i < |sorted|
      invariant 0 <= i <= |sorted|
      invariant Acc(out, prev) == Fold(sorted[..i])
    {
      var cur := sorted[i];
      assert sorted[..i + 1][..i] == sorted[..i];
      var text := Clean(cur.text);
      if text != [] {
        if prev.None? {
          out := out + text;
        } else {
          out := out + Repeat(' ', GapSpaces(prev.value, cur)) + text;
        }
        prev := Some(cur);
      }
      i := i + 1;
    }
    assert sorted[..i] == sorted;
    out := TrimEnd(out);
  }

  /** No item has visible text. */
  predicate AllBlank(items: seq<Item>)
  {
    forall i :: 0 <= i < |items| ==> Clean(items[i].text) == []
  }

  lemma AllBlankOfPermutation(xs: seq<Item>, ys: seq<Item>)
    requires multiset(xs) == multiset(ys)
    ensures AllBlank(xs) <==> AllBlank(ys)
  {
    if AllBlank(xs) {
      forall i | 0 <= i < |ys| ensures Clean(ys[i].text) == [] {
        assert ys[i] in multiset(xs);
      }
    }
    if AllBlank(ys) {
      forall i | 0 <= i < |xs| ensures Clean(xs[i].text) == [] {
        assert xs[i] in multiset(ys);
      }
    }
  }

  /** The text so far never ends in white space, and it is empty exactly while no item with
      visible text has been met; so `trimEnd` changes nothing. */
  lemma {:induction false} FoldShape(items: seq<Item>)
    ensures var acc := Fold(items);
      (acc.out == [] <==> acc.prev.None?) && (acc.out == [] || !IsSpace(acc.out[|acc.out| - 1]))
      && (acc.prev.None? <==> AllBlank(items))
  {
    if items != [] {
      var n := |items| - 1;
      FoldShape(items[..n]);
      StepShape(Fold(items[..n]), items[n]);
      AllBlankStep(items);
    }
  }

  /** One step keeps the shape of the text so far. */
  lemma StepShape(acc: Acc, cur: Item)
    requires (acc.out == [] <==> acc.prev.None?) && (acc.out == [] || !IsSpace(acc.out[|acc.out| - 1]))
    ensures var next := Step(acc, cur);
      (next.out == [] <==> next.prev.None?) && (next.out == [] || !IsSpace(next.out[|next.out| - 1]))
      && (next.prev.None? <==> acc.prev.None? && Clean(cur.text) == [])
  {
  }

  lemma AllBlankStep(items: seq<Item>)
    requires items != []
    ensures AllBlank(items) <==> AllBlank(items[..|items| - 1]) && Clean(items[|items| - 1].text) == []
  {
    var n := |items| - 1;
    assert forall i :: 0 <= i < n ==> items[..n][i] == items[i];
  }

  /** An item whose text is only white space contributes nothing. */
  lemma BlankItemAddsNothing(items: seq<Item>, blank: Item)
    requires IsBlank(blank.text)
    ensures Fold(items + [blank]) == Fold(items)
  {
    assert (items + [blank])[..|items|] == items;
    CollapseOfBlank(blank.text);
    TrimEmptyIffBlank(CollapseSpaces(blank.text));
  }

  lemma {:induction false} CollapseOfBlank(s: string)
    requires IsBlank(s)
    ensures IsBlank(CollapseSpaces(s))
    decreases |s|
  {
    if s != [] {
      CollapseOfBlank(s[SpaceRun(s)..]);
    }
  }

  /** A line's text has no white space at its end, and is empty exactly when every item's
      text is blank. */
  lemma LineTextShape(line: Line)
    ensures var t := LineText(line);
      (t == [] || !IsSpace(t[|t| - 1])) && (t == [] <==> AllBlank(line.items))
  {
    var sorted := SortByKey(line.items, ItemX);
    FoldShape(sorted);
    AllBlankOfPermutation(sorted, line.items);
    var out := Fold(sorted).out;
    if out != [] {
      assert TrimEnd(out) == out;
    }
  }

  // ---------------------------------------------------------------- pages

  /** An entry of the page's text content: `str` when it is a string, `transform` when it is an
      array, `width` when present. */
  datatype RawItem = RawItem(str: Option<string>, transform: Option<seq<real>>, width: Option<real>)

  predicate IsUsable(raw: RawItem)
  {
    raw.str.Some? && raw.transform.Some? && |raw.transform.value| >= 6
  }

  function ToItem(raw: RawItem): Item
    requires IsUsable(raw)
  {
    Item(raw.str.value, raw.transform.value[4], raw.transform.value[5],
         if raw.width.Some? then raw.width.value else 0.0)
  }

  /** The positioned items of a page: entries without a string or a six-number transform are
      dropped. */
  function Positioned(raws: seq<RawItem>): (r: seq<Item>)
    ensures |r| <= |raws|
  {
    if raws == [] then []
    else
      var before := Positioned(raws[..|raws| - 1]);
      var last := raws[|raws| - 1];
      if IsUsable(last) then before + [ToItem(last)] else before
  }

  /** The loop that collects the positioned items. */
  method CollectPositioned(raws: seq<RawItem>) returns (positioned: seq<Item>)
    ensures positioned == Positioned(raws)
  {
    positioned := [];
    var i := 0;
    while i < |raws|
      invariant 0 <= i <= |raws|
      invariant positioned == Positioned(raws[..i])
    {
      assert raws[..i + 1][..i] == raws[..i];
      var raw := raws[i];
      if raw.str.Some? && raw.transform.Some? && |raw.transform.value| >= 6 {
        positioned := positioned + [ToItem(raw)];
      }
      i := i + 1;
    }
    assert raws[..i] == raws;
  }

  /** Every positioned item comes from a usable entry, and every usable entry gives one. */
  lemma {:induction false} PositionedMeaning(raws: seq<RawItem>)
    ensures multiset(Positioned(raws)) == multiset(UsableItems(raws))
    ensures |Positioned(raws)| == |UsableItems(raws)|
  {
    if raws != [] {
      PositionedMeaning(raws[..|raws| - 1]);
    }
  }

  /** The usable entries, as items. */
  function UsableItems(raws: seq<RawItem>): seq<Item>
  {
    if raws == [] then []
    else if IsUsable(raws[|raws| - 1]) then UsableItems(raws[..|raws| - 1]) + [ToItem(raws[|raws| - 1])]
    else UsableItems(raws[..|raws| - 1])
  }

  function NegY(l: Line): real { -l.y }

  /** The page's lines from the top down (`sort((a, b) => b.y - a.y)`). */
  function PageLines(raws: seq<RawItem>): seq<Line>
  {
    SortByKey(Grouped(Positioned(raws), 2.5), NegY)
  }

  /** The page's lines go from the highest baseline to the lowest, and between them hold every
      positioned item exactly once. */
  lemma PageLinesShape(raws: seq<RawItem>)
    ensures var lines := PageLines(raws);
      (forall i, j :: 0 <= i < j < |lines| ==> lines[i].y >= lines[j].y)
      && multiset(lines) == multiset(Grouped(Positioned(raws), 2.5))
  {
    var lines := PageLines(raws);
    SortIsSorted(Grouped(Positioned(raws), 2.5), NegY);
    assert forall i, j :: 0 <= i < j < |lines| ==> NegY(lines[i]) <= NegY(lines[j]);
  }

  /** The texts of the lines that are not blank, in order. */
  function NonBlankTexts(lines: seq<Line>): seq<string>
  {
    if lines == [] then []
    else
      var before := NonBlankTexts(lines[..|lines| - 1]);
      var t := LineText(lines[|lines| - 1]);
      if Trim(t) != [] then before + [t] else before
  }

  /** A page's text: its non-blank lines joined by newlines. */
  function PageText(raws: seq<RawItem>): string
  {
    Join(NonBlankTexts(PageLines(raws)), "\n")
  }

  /** The pages' texts, in order. */
  function PageTexts(pages: seq<seq<RawItem>>): (r: seq<string>)
    ensures |r| == |pages|
  {
    if pages == [] then [] else PageTexts(pages[..|pages| - 1]) + [PageText(pages[|pages| - 1])]
  }

  /** `extractPdfText`, given each page's text-content entries: the pages' texts joined by blank
      lines. */
  function DocumentText(pages: seq<seq<RawItem>>): string
  {
    Join(PageTexts(pages), "\n\n")
  }

  /** The page loop of `extractPdfText`. */
  method ExtractPdfText(pages: seq<seq<RawItem>>) returns (text: string)
    ensures text == DocumentText(pages)
  {
    var texts: seq<string> := [];
    var p := 0;
    while p < |pages|
      invariant 0 <= p <= |pages|
      invariant texts == PageTexts(pages[..p])
    {
      assert pages[..p + 1][..p] == pages[..p];
      var t := ReadPage(pages[p]);
      texts := texts + [t];
      p := p + 1;
    }
    assert pages[..p] == pages;
    text := Join(texts, "\n\n");
  }

  /** The body of the page loop. */
  method ReadPage(raws: seq<RawItem>) returns (t: string)
    ensures t == PageText(raws)
  {
    var positioned := CollectPositioned(raws);
    var grouped := GroupByY(positioned, 2.5);
    var lines := SortByKey(grouped, NegY);
    var kept := KeepNonBlank(lines);
    t := Join(kept, "\n");
  }

  lemma NonBlankStep(lines: seq<Line>, i: nat, t: string)
    requires i < |lines| && t == LineText(lines[i])
    ensures Trim(t) != [] ==> NonBlankTexts(lines[..i + 1]) == NonBlankTexts(lines[..i]) + [t]
    ensures Trim(t) == [] ==> NonBlankTexts(lines[..i + 1]) == NonBlankTexts(lines[..i])
  {
    assert lines[..i + 1][..i] == lines[..i];
  }

  /** `lines.map(buildLineText).filter((l) => l.trim().length > 0)`. */
  method KeepNonBlank(lines: seq<Line>) returns (kept: seq<string>)
    ensures kept == NonBlankTexts(lines)
  {
    kept := [];
    var i := 0;
    while i < |lines|
      invariant 0 <= i <= |lines|
      invariant kept == NonBlankTexts(lines[..i])
    {
      var t := BuildLineText(lines[i]);
      NonBlankStep(lines, i, t);
      if Trim(t) != [] {
        kept := kept + [t];
      }
      i := i + 1;
    }
    assert lines[..i] == lines;
  }
}
