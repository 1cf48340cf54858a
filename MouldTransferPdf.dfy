/** `parseMouldTransferPdf` of the back end: the text tokens of the first page of a mould
    transfer notice are grouped into lines, the move date is read from the page text, the six
    column headers are located to cut the page into columns, the detail rows are found by the
    row numbers at the far left (or, failing those, by the mould numbers), and each row's cells
    are read, cleaned and checked. Loading the document is left to the caller: the model starts
    from the page count, the size of the first page and its text items. */
module MouldTransferPdf {
  import opened Common
  import opened MouldText
  import opened MouldTransferPdfText
  import opened MouldTransferPdfLayout

  /** A text item of the first page: its string, its transform matrix and its width. */
  datatype Item = Item(str: string, transform: seq<real>, width: real)

  /** What the parser reads from the document: the number of pages, and the width, the height
      and the text items of the first page. */
  datatype Document = Document(numPages: nat, width: real, height: real, items: seq<Item>)

  /** The result: the move date and the detail rows. */
  datatype Parsed = Parsed(mouldMoveDate: string, rows: seq<Row>)

  function MaxR(a: real, b: real): real { if a >= b then a else b }

  function MinR(a: real, b: real): real { if a <= b then a else b }

  function TokenTop(t: Token): real { t.top }

  // ---------------------------------------------------------------- tokens

  /** An item as a token: none when its string is blank or its transform has fewer than six
      numbers; else its left x is the fifth number, its top the page height less the sixth, and
      its right x the left x plus the width, or one unit right of the left x when that is not
      further right. */
  function TokenOf(it: Item, height: real): (r: Option<Token>)
    ensures r.Some? ==> r.value.x0 < r.value.x1 && r.value.text == it.str && Trim(it.str) != []
    ensures r.None? <==> Trim(it.str) == [] || |it.transform| < 6
  {
    if Trim(it.str) == [] || |it.transform| < 6 then None
    else
      var x0 := it.transform[4];
      var x1 := x0 + it.width;
      Some(Token(it.str, x0, if x1 > x0 then x1 else x0 + 1.0, height - it.transform[5]))
  }

  /** The tokens of the page, in the order of its items. */
  function PageTokens(items: seq<Item>, height: real): (r: seq<Token>)
    ensures |r| <= |items|
    ensures forall k :: 0 <= k < |r| ==> r[k].x0 < r[k].x1 && Trim(r[k].text) != []
  {
    if items == [] then []
    else
      var before := PageTokens(items[..|items| - 1], height);
      match TokenOf(items[|items| - 1], height)
      case Some(t) => before + [t]
      case None => before
  }

  lemma PageTokensStep(items: seq<Item>, i: nat, height: real)
    requires i < |items|
    ensures PageTokens(items[..i + 1], height)
      == PageTokens(items[..i], height) + (if TokenOf(items[i], height).Some? then [TokenOf(items[i], height).value] else [])
  {
    assert items[..i + 1][..i] == items[..i];
  }

  /** The loop that turns the items into tokens. */
  method CollectTokens(items: seq<Item>, height: real) returns (tokens: seq<Token>)
    ensures tokens == PageTokens(items, height)
  {
    tokens := [];
    var i := 0;
    while i < |items|
      invariant 0 <= i <= |items|
      invariant tokens == PageTokens(items[..i], height)
    {
      PageTokensStep(items, i, height);
      var t := ReadItem(items[i], height);
      if t.Some? {
        tokens := tokens + [t.value];
      }
      i := i + 1;
    }
    assert items[..i] == items;
  }

  /** The body of that loop: a blank string or a short transform is skipped. */
  method ReadItem(it: Item, height: real) returns (t: Option<Token>)
    ensures t == TokenOf(it, height)
  {
    if Trim(it.str) != [] && |it.transform| >= 6 {
      var x0 := it.transform[4];
      var x1 := x0 + it.width;
      return Some(Token(it.str, x0, if x1 > x0 then x1 else x0 + 1.0, height - it.transform[5]));
    }
    return None;
  }

  // ---------------------------------------------------------------- the page text

  /** The trimmed texts of the tokens. */
  function TrimmedWords(ts: seq<Token>): (r: seq<string>)
    ensures |r| == |ts|
  {
    if ts == [] then [] else [Trim(ts[0].text)] + TrimmedWords(ts[1..])
  }

  /** A line of the page read from left to right, its words joined by spaces. */
  function LineWords(l: Line): string
  {
    Join(TrimmedWords(SortByKey(l.tokens, TokenX0)), " ")
  }

  function LinesWords(lines: seq<Line>): (r: seq<string>)
    ensures |r| == |lines|
  {
    if lines == [] then [] else [LineWords(lines[0])] + LinesWords(lines[1..])
  }

  /** The rough page text the move date is read from: the lines from the top down, one per
      text line. */
  function FullText(lines: seq<Line>): string
  {
    Join(LinesWords(lines), "\n")
  }

  // ---------------------------------------------------------------- column headers

  /** `HEADER_ORDER`: part number, mould name, mould number, mould maker, destination and seal
      sample number, the order of the columns. */
  const HeaderLabels: seq<string> := ["零件图号", "模具名称", "模具编号", "模具厂家", "移至地方", "封样单号"]

  /** The first line, from line `k` on, in which the target is found. */
  function FirstHit(lines: seq<Line>, target: string, k: nat): (r: Option<nat>)
    requires k <= |lines|
    ensures r.Some? ==> k <= r.value < |lines|
    decreases |lines| - k
  {
    if k == |lines| then None
    else if BboxForSubstring(lines[k], target).Some? then Some(k)
    else FirstHit(lines, target, k + 1)
  }

  /** The hit is the first line from `k` on in which the target has a box: every line before
      it has none, and there is none when no line has one. */
  lemma FirstHitMeaning(lines: seq<Line>, target: string, k: nat)
    requires k <= |lines|
    ensures var r := FirstHit(lines, target, k);
      (r.None? ==> forall j :: k <= j < |lines| ==> BboxForSubstring(lines[j], target).None?)
      && (r.Some? ==> BboxForSubstring(lines[r.value], target).Some?
                      && forall j :: k <= j < r.value ==> BboxForSubstring(lines[j], target).None?)
  {
    var bs := LineBoxes(lines, target);
    FirstHitIsFirstSome(lines, target, k);
    FirstSomeMeaning(bs, k);
    forall j | 0 <= j < |lines| ensures BboxForSubstring(lines[j], target) == bs[j] {
    }
  }

  /** The box of the target in each line. */
  function LineBoxes(lines: seq<Line>, target: string): (bs: seq<Option<Box>>)
    ensures |bs| == |lines|
  {
    seq(|lines|, j requires 0 <= j < |lines| => BboxForSubstring(lines[j], target))
  }

  /** The first index from `k` on that holds a box. */
  function FirstSome(bs: seq<Option<Box>>, k: nat): (r: Option<nat>)
    requires k <= |bs|
    decreases |bs| - k
  {
    if k == |bs| then None else if bs[k].Some? then Some(k) else FirstSome(bs, k + 1)
  }

  lemma {:induction false} FirstSomeMeaning(bs: seq<Option<Box>>, k: nat)
    requires k <= |bs|
    ensures var r := FirstSome(bs, k);
      (r.None? ==> forall j :: k <= j < |bs| ==> bs[j].None?)
      && (r.Some? ==> k <= r.value < |bs| && bs[r.value].Some? && forall j :: k <= j < r.value ==> bs[j].None?)
    decreases |bs| - k
  {
    if k < |bs| && bs[k].None? {
      FirstSomeMeaning(bs, k + 1);
    }
  }

  lemma {:induction false} FirstHitIsFirstSome(lines: seq<Line>, target: string, k: nat)
    requires k <= |lines|
    ensures FirstHit(lines, target, k) == FirstSome(LineBoxes(lines, target), k)
    decreases |lines| - k
  {
    if k < |lines| {
      assert LineBoxes(lines, target)[k] == BboxForSubstring(lines[k], target);
      FirstHitIsFirstSome(lines, target, k + 1);
    }
  }

  /** The box of the first line in which the target is found. */
  function FirstBox(lines: seq<Line>, target: string): Option<Box>
  {
    match FirstHit(lines, target, 0)
    case Some(j) => BboxForSubstring(lines[j], target)
    case None => None
  }

  /** Where each header is, in `HEADER_ORDER`. */
  function HeaderBoxes(lines: seq<Line>): (r: seq<Option<Box>>)
    ensures |r| == 6
  {
    BoxesOf(lines, HeaderLabels)
  }

  /** Where each label is found. */
  function BoxesOf(lines: seq<Line>, labels: seq<string>): (r: seq<Option<Box>>)
    ensures |r| == |labels|
  {
    seq(|labels|, i requires 0 <= i < |labels| => FirstBox(lines, NormalizeKey(labels[i])))
  }

  function Center(b: Box): real { (b.x0 + b.x1) / 2.0 }

  /** The column centres from `k` on: a header's centre, or 120 units right of the previous
      centre when the header is missing. */
  function Centers(hs: seq<Option<Box>>, prev: real): (r: seq<real>)
    ensures |r| == |hs|
  {
    if hs == [] then []
    else
      var cx := if hs[0].Some? then Center(hs[0].value) else prev + 120.0;
      [cx] + Centers(hs[1..], cx)
  }

  /** The midpoints of neighbouring centres. */
  function Midpoints(cs: seq<real>): (r: seq<real>)
    ensures |r| == if cs == [] then 0 else |cs| - 1
    ensures forall i :: 0 <= i < |r| ==> r[i] == (cs[i] + cs[i + 1]) / 2.0
  {
    if |cs| <= 1 then [] else [(cs[0] + cs[1]) / 2.0] + Midpoints(cs[1..])
  }

  /** The column boundaries: two units left of the part number header (not below 0), the
      midpoints of the column centres, and the page width. Column `k` spans from boundary `k`
      to boundary `k + 1`. */
  function Boundaries(hs: seq<Option<Box>>, width: real): (r: seq<real>)
    requires |hs| == 6 && hs[0].Some?
    ensures |r| == 7
  {
    var cs := Centers(hs, Center(hs[0].value));
    [MaxR(0.0, hs[0].value.x0 - 2.0)] + Midpoints(cs) + [width]
  }

  /** A column's centre lies within its own boundaries when the centres increase. */
  lemma CentreInColumn(hs: seq<Option<Box>>, width: real, k: nat)
    requires |hs| == 6 && hs[0].Some? && 1 <= k <= 4
    requires var cs := Centers(hs, Center(hs[0].value)); cs[k - 1] < cs[k] < cs[k + 1]
    ensures var cs := Centers(hs, Center(hs[0].value)); var b := Boundaries(hs, width);
      b[k] < cs[k] < b[k + 1]
  {
    var cs := Centers(hs, Center(hs[0].value));
    var b := Boundaries(hs, width);
    var m := Midpoints(cs);
    assert b[k] == m[k - 1] && b[k + 1] == m[k];
  }

  // ---------------------------------------------------------------- the table region

  /** The greatest top among the found headers. */
  function MaxHeaderTop(hs: seq<Option<Box>>, acc: real): (r: real)
    ensures acc <= r
    ensures forall i :: 0 <= i < |hs| && hs[i].Some? ==> hs[i].value.top <= r
  {
    if hs == [] then acc
    else
      var rest := MaxHeaderTop(hs[1..], if hs[0].Some? then MaxR(acc, hs[0].value.top) else acc);
      assert forall i :: 1 <= i < |hs| ==> hs[i] == hs[1..][i - 1];
      rest
  }

  /** Four units below the lowest header. */
  function TableStart(hs: seq<Option<Box>>): real
    requires |hs| == 6 && hs[0].Some?
  {
    MaxHeaderTop(hs[1..], hs[0].value.top) + 4.0
  }

  /** `tokens.find(...)`: the first token whose key text contains `附件`. */
  function AttachmentToken(tokens: seq<Token>): (r: Option<Token>)
    ensures r.Some? ==> r.value in tokens && Contains(NormalizeKey(r.value.text), AttachmentKey)
    ensures r.None? ==> forall t :: t in tokens ==> !Contains(NormalizeKey(t.text), AttachmentKey)
  {
    if tokens == [] then None
    else if Contains(NormalizeKey(tokens[0].text), AttachmentKey) then Some(tokens[0])
    else
      var r := AttachmentToken(tokens[1..]);
      assert forall t :: t in tokens ==> t == tokens[0] || t in tokens[1..];
      r
  }

  /** Where the table ends: two units above the attachment line, but at least ten units below
      its start; the page height when there is no attachment line. */
  function TableEnd(tokens: seq<Token>, start: real, height: real): (r: real)
    ensures AttachmentToken(tokens).Some? ==> r >= start + 10.0
  {
    match AttachmentToken(tokens)
    case Some(t) => MaxR(start + 10.0, t.top - 2.0)
    case None => height
  }

  // ---------------------------------------------------------------- row anchors

  /** `^\d{1,2}$`. */
  predicate IsRowNumber(s: string)
  {
    1 <= |s| <= 2 && AllDigits(s)
  }

  /** `^ML\d+$`. */
  predicate IsMouldNumber(s: string)
  {
    |s| >= 3 && s[0] == 'M' && s[1] == 'L' && AllDigits(s[2..])
  }

  predicate InTable(t: Token, start: real, end: real)
  {
    start <= t.top <= end
  }

  /** A row number: in the table, wholly left of the first data column (one unit of margin),
      its trimmed text one or two digits. */
  predicate IsIndexAnchor(t: Token, start: real, end: real, left: real)
  {
    InTable(t, start, end) && t.x1 <= left - 1.0 && IsRowNumber(Trim(t.text))
  }

  /** A mould number used as a fallback anchor: in the table, its centre x in `[left, right)`,
      its key text `ML` and digits. */
  predicate IsMouldAnchor(t: Token, start: real, end: real, left: real, right: real)
  {
    var cx := (t.x0 + t.x1) / 2.0;
    InTable(t, start, end) && left <= cx < right && IsMouldNumber(NormalizeKey(t.text))
  }

  function IndexAnchors(tokens: seq<Token>, start: real, end: real, left: real): (r: seq<Token>)
    ensures forall t :: t in r <==> t in tokens && IsIndexAnchor(t, start, end, left)
  {
    if tokens == [] then []
    else
      var rest := IndexAnchors(tokens[1..], start, end, left);
      assert forall t :: t in tokens <==> t == tokens[0] || t in tokens[1..];
      if IsIndexAnchor(tokens[0], start, end, left) then [tokens[0]] + rest else rest
  }

  function MouldAnchors(tokens: seq<Token>, start: real, end: real, left: real, right: real): (r: seq<Token>)
    ensures forall t :: t in r <==> t in tokens && IsMouldAnchor(t, start, end, left, right)
  {
    if tokens == [] then []
    else
      var rest := MouldAnchors(tokens[1..], start, end, left, right);
      assert forall t :: t in tokens <==> t == tokens[0] || t in tokens[1..];
      if IsMouldAnchor(tokens[0], start, end, left, right) then [tokens[0]] + rest else rest
  }

  /** The tops of the tokens. */
  function Tops(ts: seq<Token>): (r: seq<real>)
    ensures |r| == |ts|
    ensures forall i :: 0 <= i < |ts| ==> r[i] == ts[i].top
  {
    if ts == [] then [] else [ts[0].top] + Tops(ts[1..])
  }

  /** The loop that keeps an anchor's top only when it is more than `gap` away from the last
      top kept. */
  function Dedupe(tops: seq<real>, gap: real): (r: seq<real>)
    ensures |r| <= |tops|
    ensures tops != [] ==> r != []
  {
    if tops == [] then []
    else
      var before := Dedupe(tops[..|tops| - 1], gap);
      var a := tops[|tops| - 1];
      if before == [] || Abs(before[|before| - 1] - a) > gap then before + [a] else before
  }

  method DedupeTops(tops: seq<real>, gap: real) returns (rowTops: seq<real>)
    ensures rowTops == Dedupe(tops, gap)
  {
    rowTops := [];
    var i := 0;
    while i < |tops|
      invariant 0 <= i <= |tops|
      invariant rowTops == Dedupe(tops[..i], gap)
    {
      var a := tops[i];
      assert tops[..i + 1][..i] == tops[..i];
      if rowTops == [] || Abs(rowTops[|rowTops| - 1] - a) > gap {
        rowTops := rowTops + [a];
      }
      i := i + 1;
    }
    assert tops[..i] == tops;
  }

  predicate Ascending(xs: seq<real>)
  {
    forall i, j :: 0 <= i < j < |xs| ==> xs[i] <= xs[j]
  }

  /** Kept tops of ascending tops are taken from them, ascend, and lie more than `gap` apart. */
  lemma {:induction false} DedupeSpread(tops: seq<real>, gap: real)
    requires Ascending(tops) && gap >= 0.0
    ensures var r := Dedupe(tops, gap);
      (forall i :: 0 <= i < |r| ==> r[i] in tops)
      && (forall i :: 0 <= i < |r| - 1 ==> r[i + 1] - r[i] > gap)
      && Ascending(r)
  {
    if tops != [] {
      var n := |tops| - 1;
      var init := tops[..n];
      assert Ascending(init) by {
        forall i, j | 0 <= i < j < |init| ensures init[i] <= init[j] {
          assert init[i] == tops[i] && init[j] == tops[j];
        }
      }
      DedupeSpread(init, gap);
      DedupeStep(tops, Dedupe(init, gap), Dedupe(tops, gap), gap);
    }
  }

  /** The step of `DedupeSpread`, over the kept tops of all but the last top. */
  lemma DedupeStep(tops: seq<real>, before: seq<real>, r: seq<real>, gap: real)
    requires Ascending(tops) && tops != []
    requires var x := tops[|tops| - 1];
      r == if before == [] || Abs(before[|before| - 1] - x) > gap then before + [x] else before
    requires (forall i :: 0 <= i < |before| ==> before[i] in tops[..|tops| - 1])
      && (forall i :: 0 <= i < |before| - 1 ==> before[i + 1] - before[i] > gap)
      && Ascending(before)
    ensures (forall i :: 0 <= i < |r| ==> r[i] in tops)
      && (forall i :: 0 <= i < |r| - 1 ==> r[i + 1] - r[i] > gap)
      && Ascending(r)
  {
    var n := |tops| - 1;
    var x := tops[n];
    forall i | 0 <= i < |before| ensures before[i] in tops && before[i] <= x {
      var k :| 0 <= k < n && tops[..n][k] == before[i];
      assert tops[k] == before[i];
    }
    if before == [] || Abs(before[|before| - 1] - x) > gap {
      SnocSpread(before, x, gap);
      forall i | 0 <= i < |r| ensures r[i] in tops {
        if i < |before| { assert r[i] == before[i]; }
      }
    }
  }

  /** A top no lower than the kept ones, and more than `gap` from the last, keeps them
      ascending and spread. */
  lemma SnocSpread(before: seq<real>, x: real, gap: real)
    requires Ascending(before) && forall i :: 0 <= i < |before| - 1 ==> before[i + 1] - before[i] > gap
    requires forall i :: 0 <= i < |before| ==> before[i] <= x
    requires before != [] ==> Abs(before[|before| - 1] - x) > gap
    ensures var r := before + [x];
      (forall i :: 0 <= i < |r| - 1 ==> r[i + 1] - r[i] > gap) && Ascending(r)
  {
    var r := before + [x];
    forall i | 0 <= i < |r| - 1 ensures r[i + 1] - r[i] > gap {
      if i + 1 < |before| {
        assert r[i + 1] == before[i + 1] && r[i] == before[i];
      } else {
        assert r[i] == before[|before| - 1] && r[i + 1] == x;
      }
    }
    forall i, j | 0 <= i < j < |r| ensures r[i] <= r[j] {
      if j < |before| {
        assert r[i] == before[i] && r[j] == before[j];
      } else {
        assert r[i] == before[i];
      }
    }
  }

  /** The tops of the row anchors, read from the row numbers; when there are none, from the
      mould numbers of the column in `[left, right)` (ten units apart instead of six). */
  function RowTopsIn(tokens: seq<Token>, start: real, end: real, b: seq<real>, left: real, right: real): (r: seq<real>)
    requires |b| == 7
  {
    var byIndex := Dedupe(Tops(SortByKey(IndexAnchors(tokens, start, end, b[0]), TokenTop)), 6.0);
    if byIndex != [] then byIndex
    else Dedupe(Tops(SortByKey(MouldAnchors(tokens, start, end, left, right), TokenTop)), 10.0)
  }

  /** The row tops as written: the fallback reads the column between boundaries 3 and 4, which
      is the mould maker's column. */
  function RowTopsAsWritten(tokens: seq<Token>, start: real, end: real, b: seq<real>): seq<real>
    requires |b| == 7
  {
    RowTopsIn(tokens, start, end, b, b[3], b[4])
  }

  /** The row tops as intended: the fallback reads the mould number column, between boundaries
      2 and 3, the column the rows' mould numbers are read from. */
  function RowTops(tokens: seq<Token>, start: real, end: real, b: seq<real>): seq<real>
    requires |b| == 7
  {
    RowTopsIn(tokens, start, end, b, b[2], b[3])
  }

  lemma SortedTops(ts: seq<Token>)
    ensures Ascending(Tops(SortByKey(ts, TokenTop)))
  {
    SortIsSorted(ts, TokenTop);
  }

  /** The row tops ascend and lie more than six units apart (ten for mould numbers). */
  lemma RowTopsSpread(tokens: seq<Token>, start: real, end: real, b: seq<real>, left: real, right: real)
    requires |b| == 7
    ensures var r := RowTopsIn(tokens, start, end, b, left, right);
      Ascending(r) && forall i :: 0 <= i < |r| - 1 ==> r[i + 1] - r[i] > 6.0
  {
    SortedTops(IndexAnchors(tokens, start, end, b[0]));
    DedupeSpread(Tops(SortByKey(IndexAnchors(tokens, start, end, b[0]), TokenTop)), 6.0);
    SortedTops(MouldAnchors(tokens, start, end, left, right));
    DedupeSpread(Tops(SortByKey(MouldAnchors(tokens, start, end, left, right), TokenTop)), 10.0);
  }

  /** A mould number in the mould number column, in a table without row numbers: the
      as-written fallback does not see it, so no row is found, while the intended one does. */
  lemma FallbackMissesMouldColumn(t: Token, start: real, end: real, b: seq<real>)
    requires |b| == 7 && b[2] <= b[3] <= b[4]
    requires IsMouldAnchor(t, start, end, b[2], b[3]) && !IsIndexAnchor(t, start, end, b[0])
    ensures RowTopsAsWritten([t], start, end, b) == []
    ensures RowTops([t], start, end, b) == [t.top]
  {
    assert IndexAnchors([t], start, end, b[0]) == [];
    assert MouldAnchors([t], start, end, b[3], b[4]) == [];
    assert MouldAnchors([t], start, end, b[2], b[3]) == [t];
  }

  /** As intended, a table without row numbers yields rows whenever a mould number stands in
      the mould number column, and every row top is the top of such a mould number. */
  lemma FallbackFindsMouldColumn(tokens: seq<Token>, start: real, end: real, b: seq<real>, t: Token)
    requires |b| == 7
    requires forall u :: u in tokens ==> !IsIndexAnchor(u, start, end, b[0])
    requires t in tokens && IsMouldAnchor(t, start, end, b[2], b[3])
    ensures var r := RowTops(tokens, start, end, b);
      r != [] && forall i :: 0 <= i < |r| ==>
        exists u :: u in tokens && IsMouldAnchor(u, start, end, b[2], b[3]) && u.top == r[i]
  {
    var indices := IndexAnchors(tokens, start, end, b[0]);
    assert forall k :: 0 <= k < |indices| ==> indices[k] in indices;
    var anchors := MouldAnchors(tokens, start, end, b[2], b[3]);
    var sorted := SortByKey(anchors, TokenTop);
    assert t in multiset(anchors);
    assert t in sorted;
    SortedTops(anchors);
    DedupeSpread(Tops(sorted), 10.0);
    var r := RowTops(tokens, start, end, b);
    assert r == Dedupe(Tops(sorted), 10.0);
    forall i | 0 <= i < |r|
      ensures exists u :: u in tokens && IsMouldAnchor(u, start, end, b[2], b[3]) && u.top == r[i]
    {
      var j :| 0 <= j < |Tops(sorted)| && Tops(sorted)[j] == r[i];
      assert sorted[j] in multiset(anchors);
      assert sorted[j] in anchors;
    }
  }

  // ---------------------------------------------------------------- row bands

  /** Where row `i` starts: at the table start for the first row, else halfway from the
      previous row's top (not above the table start). */
  function BandTop(rowTops: seq<real>, i: nat, start: real): real
    requires i < |rowTops|
  {
    if i == 0 then start else MaxR(start, (rowTops[i - 1] + rowTops[i]) / 2.0)
  }

  /** Where row `i` ends: halfway to the next row's top (not below two units past the table
      end), or two units past the table end for the last row. */
  function BandBottom(rowTops: seq<real>, i: nat, end: real): real
    requires i < |rowTops|
  {
    if i + 1 < |rowTops| then MinR(end + 2.0, (rowTops[i] + rowTops[i + 1]) / 2.0) else end + 2.0
  }

  /** With ascending row tops an earlier band ends where a later one starts or above it, so
      no token is read into two rows. */
  lemma BandsInOrder(rowTops: seq<real>, start: real, end: real, i: nat, j: nat)
    requires Ascending(rowTops) && i < j < |rowTops|
    ensures BandBottom(rowTops, i, end) <= BandTop(rowTops, j, start)
  {
    assert rowTops[i] <= rowTops[j - 1] && rowTops[i + 1] <= rowTops[j];
  }

  /** With ascending row tops no token of a column is read into two rows. */
  lemma TokenInOneRow(tokens: seq<Token>, rowTops: seq<real>, start: real, end: real, left: real, right: real, i: nat, j: nat)
    requires Ascending(rowTops) && i < j < |rowTops|
    ensures forall t :: t in CellTokens(tokens, BandTop(rowTops, i, start), BandBottom(rowTops, i, end), left, right) ==> t !in CellTokens(tokens, BandTop(rowTops, j, start), BandBottom(rowTops, j, end), left, right)
  {
    BandsInOrder(rowTops, start, end, i, j);
  }

  // ---------------------------------------------------------------- rows

  /** The cell of column `k` in the band, its text joined as the mode says. */
  function CellText(tokens: seq<Token>, top: real, bottom: real, b: seq<real>, k: nat, mode: CellMode): string
    requires |b| == 7 && k < 6
  {
    JoinCellText(CellTokens(tokens, top, bottom, b[k], b[k + 1]), mode)
  }

  /** The seal sample number: from its own cell, else from the destination cell when that
      is not empty. */
  function SealOf(sealRaw: string, moveToRaw: string): (r: string)
    ensures r == "" || IsMlSeal(r) || IsPzSeal(r)
    ensures ExtractSealFromText(sealRaw) != "" ==> r == ExtractSealFromText(sealRaw)
  {
    var own := ExtractSealFromText(sealRaw);
    if own == "" && moveToRaw != "" then ExtractSealFromText(moveToRaw) else own
  }

  /** What every row read from a band satisfies: a part number without white space, a mould
      number in key form, a trimmed mould name, and a seal sample number that is empty or a
      well-formed `ML` or `PZ_JYFY` number. */
  predicate WellFormedRow(r: Row)
  {
    (forall i :: 0 <= i < |r.partNo| ==> !IsSpace(r.partNo[i]))
    && IsKeyText(r.mouldNo)
    && (r.mouldName == [] || (!IsSpace(r.mouldName[0]) && !IsSpace(r.mouldName[|r.mouldName| - 1])))
    && (r.sealSampleNo == "" || IsMlSeal(r.sealSampleNo) || IsPzSeal(r.sealSampleNo))
  }

  /** The row read from a band: part number with its dashes made plain and put in order,
      mould name cleaned, mould number as key text, maker and destination trimmed, and the
      seal sample number. */
  function RowIn(tokens: seq<Token>, top: real, bottom: real, b: seq<real>, index: int): (r: Row)
    requires |b| == 7
    ensures r.index == index && WellFormedRow(r)
  {
    var moveToRaw := CellText(tokens, top, bottom, b, 4, Spaced);
    Row(index,
        NormalizePartNo(NormalizeHyphens(CellText(tokens, top, bottom, b, 0, NoSpace))),
        CleanMouldName(CellText(tokens, top, bottom, b, 1, Spaced)),
        NormalizeKey(CellText(tokens, top, bottom, b, 2, NoSpace)),
        Trim(CellText(tokens, top, bottom, b, 3, Spaced)),
        Trim(moveToRaw),
        SealOf(CellText(tokens, top, bottom, b, 5, NoSpace), moveToRaw))
  }

  /** A row that is dropped: part number, mould number and mould name all empty, or an
      eight-digit part number (a date leaking into the column) without a mould number. */
  predicate Bogus(r: Row)
  {
    (r.partNo == "" && r.mouldNo == "" && r.mouldName == "")
    || (|r.partNo| == 8 && AllDigits(r.partNo) && r.mouldNo == "")
  }

  /** The row read from each band, before it is numbered. */
  function Candidates(tokens: seq<Token>, rowTops: seq<real>, start: real, end: real, b: seq<real>): (r: seq<Row>)
    requires |b| == 7
    ensures |r| == |rowTops|
  {
    seq(|rowTops|, i requires 0 <= i < |rowTops| => RowIn(tokens, BandTop(rowTops, i, start), BandBottom(rowTops, i, end), b, 0))
  }

  /** A row given its number. */
  function Numbered(r: Row, index: int): (n: Row)
    ensures n.index == index && Bogus(n) == Bogus(r) && WellFormedRow(n) == WellFormedRow(r)
  {
    r.(index := index)
  }

  /** The candidates that are not bogus, numbered from 1 in the order they are kept. */
  function Kept(cands: seq<Row>): (r: seq<Row>)
    ensures |r| <= |cands|
    ensures forall k :: 0 <= k < |r| ==> r[k].index == k + 1 && !Bogus(r[k])
  {
    if cands == [] then []
    else
      var rows := Kept(cands[..|cands| - 1]);
      var c := cands[|cands| - 1];
      if Bogus(c) then rows else rows + [Numbered(c, |rows| + 1)]
  }

  /** Each kept row is a candidate renumbered. */
  lemma {:induction false} KeptFromCandidates(cands: seq<Row>)
    ensures forall k :: 0 <= k < |Kept(cands)| ==> exists i :: 0 <= i < |cands| && Kept(cands)[k] == Numbered(cands[i], k + 1)
  {
    if cands != [] {
      var n := |cands| - 1;
      KeptFromCandidates(cands[..n]);
      var rows := Kept(cands[..n]);
      var all := Kept(cands);
      forall k | 0 <= k < |all|
        ensures exists i :: 0 <= i < |cands| && all[k] == Numbered(cands[i], k + 1)
      {
        if k < |rows| {
          var i :| 0 <= i < n && rows[k] == Numbered(cands[..n][i], k + 1);
          assert all[k] == rows[k];
          assert cands[..n][i] == cands[i];
        } else {
          assert all[k] == Numbered(cands[n], k + 1);
        }
      }
    } else {
      assert |Kept(cands)| == 0;
    }
  }

  /** Every candidate that is not bogus is kept: together with `KeptFromCandidates`, the
      rows are exactly the candidates that pass. */
  lemma {:induction false} KeptAllGood(cands: seq<Row>)
    ensures forall i :: 0 <= i < |cands| && !Bogus(cands[i]) ==> exists k :: 0 <= k < |Kept(cands)| && Kept(cands)[k] == Numbered(cands[i], k + 1)
  {
    if cands != [] {
      var n := |cands| - 1;
      KeptAllGood(cands[..n]);
      var rows := Kept(cands[..n]);
      var all := Kept(cands);
      forall i | 0 <= i < |cands| && !Bogus(cands[i])
        ensures exists k :: 0 <= k < |Kept(cands)| && Kept(cands)[k] == Numbered(cands[i], k + 1)
      {
        if i < n {
          assert cands[..n][i] == cands[i];
          var k :| 0 <= k < |rows| && rows[k] == Numbered(cands[..n][i], k + 1);
          assert all[k] == rows[k];
        } else {
          assert all[|rows|] == Numbered(cands[i], |rows| + 1);
        }
      }
      assert forall i :: 0 <= i < |cands| && !Bogus(cands[i]) ==> exists k :: 0 <= k < |Kept(cands)| && Kept(cands)[k] == Numbered(cands[i], k + 1);
    } else {
      assert |Kept(cands)| == 0;
    }
  }

  /** Well-formed candidates give well-formed rows. */
  lemma {:induction false} KeptWellFormed(cands: seq<Row>)
    requires forall i :: 0 <= i < |cands| ==> WellFormedRow(cands[i])
    ensures NumberedRows(Kept(cands))
  {
    if |cands| > 0 {
      var n := |cands| - 1;
      KeptWellFormed(cands[..n]);
      var rows := Kept(cands[..n]);
      assert Kept(cands) == if Bogus(cands[n]) then rows else rows + [Numbered(cands[n], |rows| + 1)];
    } else {
      assert |Kept(cands)| == 0;
    }
  }

  /** Every candidate is well formed. */
  lemma CandidatesWellFormed(tokens: seq<Token>, rowTops: seq<real>, start: real, end: real, b: seq<real>)
    requires |b| == 7
    ensures forall i :: 0 <= i < |rowTops| ==> WellFormedRow(Candidates(tokens, rowTops, start, end, b)[i])
  {
  }

  /** One more band: its row is kept, numbered next, unless it is bogus. */
  lemma KeptStep(cands: seq<Row>, i: nat)
    requires i < |cands|
    ensures Kept(cands[..i + 1]) == if Bogus(cands[i]) then Kept(cands[..i]) else Kept(cands[..i]) + [Numbered(cands[i], |Kept(cands[..i])| + 1)]
  {
    assert cands[..i + 1][..i] == cands[..i];
  }

  /** The candidate of band `i` is the row read between the band's edges. */
  lemma CandidateAt(tokens: seq<Token>, rowTops: seq<real>, start: real, end: real, b: seq<real>, i: nat, top: real, bottom: real)
    requires |b| == 7 && i < |rowTops|
    requires top == if i == 0 then start else MaxR(start, (rowTops[i - 1] + rowTops[i]) / 2.0)
    requires bottom == if i + 1 < |rowTops| then MinR(end + 2.0, (rowTops[i] + rowTops[i + 1]) / 2.0) else end + 2.0
    ensures Candidates(tokens, rowTops, start, end, b)[i] == RowIn(tokens, top, bottom, b, 0)
  {
  }

  /** A candidate is read the same whatever number it is given. */
  lemma RowIndex(tokens: seq<Token>, top: real, bottom: real, b: seq<real>, index: int)
    requires |b| == 7
    ensures RowIn(tokens, top, bottom, b, index) == Numbered(RowIn(tokens, top, bottom, b, 0), index)
  {
  }

  /** The loop over the bands. */
  method ReadRows(tokens: seq<Token>, rowTops: seq<real>, start: real, end: real, b: seq<real>) returns (rows: seq<Row>)
    requires |b| == 7
    ensures rows == Kept(Candidates(tokens, rowTops, start, end, b))
  {
    ghost var cands := Candidates(tokens, rowTops, start, end, b);
    rows := [];
    var i := 0;
    while i < |rowTops|
      invariant 0 <= i <= |rowTops|
      invariant rows == Kept(cands[..i])
    {
      var bandTop := if i == 0 then start else MaxR(start, (rowTops[i - 1] + rowTops[i]) / 2.0);
      var bandBottom := if i + 1 < |rowTops| then MinR(end + 2.0, (rowTops[i] + rowTops[i + 1]) / 2.0) else end + 2.0;
      var row := RowIn(tokens, bandTop, bandBottom, b, |rows| + 1);
      RowIndex(tokens, bandTop, bandBottom, b, |rows| + 1);
      CandidateAt(tokens, rowTops, start, end, b, i, bandTop, bandBottom);
      KeptStep(cands, i);
      if !Bogus(row) {
        rows := rows + [row];
      }
      i := i + 1;
    }
    assert cands[..i] == cands;
  }

  // ---------------------------------------------------------------- the whole parse

  /** Why a notice cannot be read, in the order the checks are made. */
  datatype ParseError = NoPages | NoText | TooLittleText | NoDate | NoHeader | NoAnchor | NoRows

  /** The message thrown for each error. */
  function Message(e: ParseError): string
  {
    match e
    case NoPages => "PDF 无页面"
    case NoText => "未提取到任何文字（可能是扫描/图片版 PDF，需要 OCR）"
    case TooLittleText => "提取到的文字太少（可能是扫描/图片版 PDF，需要 OCR）"
    case NoDate => "未能从“模具移模时间”处提取日期（YYYY-MM-DD）"
    case NoHeader => "未找到明细表表头（至少需要“零件图号/模具编号”）"
    case NoAnchor => "未识别到明细行（无法定位行号/模具编号）"
    case NoRows => "未解析到任何明细行"
  }

  /** Fewer than 30 tokens means a scanned page. */
  const MinTokens: nat := 30

  /** Rows as a parsed notice holds them: numbered 1, 2, ... in order, none bogus, each well
      formed. */
  predicate NumberedRows(rows: seq<Row>)
  {
    forall k :: 0 <= k < |rows| ==> rows[k].index == k + 1 && !Bogus(rows[k]) && WellFormedRow(rows[k])
  }

  /** The table once the headers are found: its rows, or the error for a table in which no
      row is found or none is kept. The mould number fallback reads the mould number column. */
  function TableRows(tokens: seq<Token>, hs: seq<Option<Box>>, width: real, height: real): (r: Result<seq<Row>, ParseError>)
    requires |hs| == 6 && hs[0].Some?
    ensures r.Ok? ==> r.value != [] && NumberedRows(r.value)
    ensures r.Err? ==> r.error == NoAnchor || r.error == NoRows
  {
    var b := Boundaries(hs, width);
    var start := TableStart(hs);
    var end := TableEnd(tokens, start, height);
    var rowTops := RowTops(tokens, start, end, b);
    if rowTops == [] then Err(NoAnchor)
    else
      var cands := Candidates(tokens, rowTops, start, end, b);
      CandidatesWellFormed(tokens, rowTops, start, end, b);
      KeptWellFormed(cands);
      var rows := Kept(cands);
      if rows == [] then Err(NoRows) else Ok(rows)
  }

  /** The checks once the page has its lines: the move date, then the two headers the table
      needs, then the table. */
  function FromLines(tokens: seq<Token>, lines: seq<Line>, width: real, height: real): (r: Result<Parsed, ParseError>)
    ensures r.Ok? ==> IsIsoDate(r.value.mouldMoveDate) && r.value.rows != [] && NumberedRows(r.value.rows)
    ensures r.Err? ==> r.error != NoPages && r.error != NoText && r.error != TooLittleText
  {
    var date := ExtractMoveDate(FullText(lines));
    if date == "" then Err(NoDate) else FromHeaders(tokens, date, HeaderBoxes(lines), width, height)
  }

  /** The checks once the date is read: the part number and mould number headers must be
      there, then the table is read. */
  function FromHeaders(tokens: seq<Token>, date: string, hs: seq<Option<Box>>, width: real, height: real): (r: Result<Parsed, ParseError>)
    requires |hs| == 6
    ensures r.Ok? ==> r.value.mouldMoveDate == date && r.value.rows != [] && NumberedRows(r.value.rows)
    ensures r.Err? ==> r.error in {NoHeader, NoAnchor, NoRows}
    ensures r == Err(NoHeader) <==> hs[0].None? || hs[2].None?
  {
    if hs[0].None? || hs[2].None? then Err(NoHeader)
    else
      match TableRows(tokens, hs, width, height)
      case Ok(rows) => Ok(Parsed(date, rows))
      case Err(e) => Err(e)
  }

  /** What `parseMouldTransferPdf` yields for a document: the first failing check in the
      order the source makes them gives its error; else the date and the rows. */
  function ParseResult(doc: Document): (r: Result<Parsed, ParseError>)
    ensures doc.numPages == 0 ==> r == Err(NoPages)
    ensures doc.numPages > 0 && doc.items == [] ==> r == Err(NoText)
    ensures doc.numPages > 0 && doc.items != [] && |PageTokens(doc.items, doc.height)| < MinTokens ==> r == Err(TooLittleText)
    ensures r == Err(NoPages) <==> doc.numPages == 0
    ensures r.Ok? ==> doc.numPages > 0 && |PageTokens(doc.items, doc.height)| >= MinTokens
    ensures r.Ok? ==> IsIsoDate(r.value.mouldMoveDate) && r.value.rows != [] && NumberedRows(r.value.rows)
  {
    if doc.numPages == 0 then Err(NoPages)
    else if doc.items == [] then Err(NoText)
    else
      var tokens := PageTokens(doc.items, doc.height);
      if |tokens| < MinTokens then Err(TooLittleText)
      else FromLines(tokens, GroupByTopSpec(tokens, 3.0), doc.width, doc.height)
  }

  /** The header search: the box of the first line holding the target. */
  method FindHeader(lines: seq<Line>, target: string) returns (found: Option<Box>)
    ensures found == FirstBox(lines, target)
  {
    found := None;
    var k := 0;
    while k < |lines|
      invariant 0 <= k <= |lines|
      invariant FirstHit(lines, target, 0) == FirstHit(lines, target, k)
    {
      var bbox := BboxForSubstring(lines[k], target);
      if bbox.Some? {
        found := bbox;
        return;
      }
      k := k + 1;
    }
  }

  /** The boxes of the headers, label by label. */
  method FindHeaders(lines: seq<Line>, labels: seq<string>) returns (hs: seq<Option<Box>>)
    ensures hs == BoxesOf(lines, labels)
  {
    ghost var all := BoxesOf(lines, labels);
    hs := [];
    var i := 0;
    while i < |labels|
      invariant 0 <= i <= |labels| == |all|
      invariant hs == all[..i]
    {
      var found := FindHeader(lines, NormalizeKey(labels[i]));
      assert found == all[i];
      PrefixSnoc(all, i);
      hs := hs + [found];
      i := i + 1;
    }
    assert all[..i] == all;
  }

  /** The column centres and the boundaries between them. */
  method ColumnBoundaries(hs: seq<Option<Box>>, width: real) returns (b: seq<real>)
    requires |hs| == 6 && hs[0].Some?
    ensures b == Boundaries(hs, width)
  {
    var centers := ColumnCenters(hs);
    var mids := MidpointsOf(centers);
    b := [MaxR(0.0, hs[0].value.x0 - 2.0)] + mids + [width];
  }

  /** The centre of each header, 120 units right of the previous one for a missing header. */
  method ColumnCenters(hs: seq<Option<Box>>) returns (centers: seq<real>)
    requires hs != [] && hs[0].Some?
    ensures centers == Centers(hs, Center(hs[0].value))
  {
    centers := [];
    var prev := Center(hs[0].value);
    var i := 0;
    while i < |hs|
      invariant 0 <= i <= |hs|
      invariant centers + Centers(hs[i..], prev) == Centers(hs, Center(hs[0].value))
    {
      var cx := if hs[i].Some? then Center(hs[i].value) else prev + 120.0;
      assert hs[i..][1..] == hs[i + 1..];
      centers := centers + [cx];
      prev := cx;
      i := i + 1;
    }
    assert hs[i..] == [];
  }

  /** The midpoints of neighbouring centres, left to right. */
  method MidpointsOf(centers: seq<real>) returns (mids: seq<real>)
    ensures mids == Midpoints(centers)
  {
    mids := [];
    if |centers| <= 1 {
      return;
    }
    ghost var m := Midpoints(centers);
    var i := 0;
    while i < |centers| - 1
      invariant 0 <= i <= |m| && |m| == |centers| - 1
      invariant mids == m[..i]
    {
      assert m[..i + 1] == m[..i] + [m[i]];
      mids := mids + [(centers[i] + centers[i + 1]) / 2.0];
      i := i + 1;
    }
    assert m[..i] == m;
  }

  /** `parseMouldTransferPdf`, step by step. */
  method ParseMouldTransferPdf(doc: Document) returns (r: Result<Parsed, ParseError>)
    ensures r == ParseResult(doc)
  {
    if doc.numPages == 0 {
      return Err(NoPages);
    }
    if doc.items == [] {
      return Err(NoText);
    }
    var tokens := CollectTokens(doc.items, doc.height);
    if |tokens| < MinTokens {
      return Err(TooLittleText);
    }
    var lines := GroupByTop(tokens, 3.0);
    r := ReadLines(tokens, lines, doc.width, doc.height);
  }

  /** The date, the headers and the table. */
  method ReadLines(tokens: seq<Token>, lines: seq<Line>, width: real, height: real) returns (r: Result<Parsed, ParseError>)
    ensures r == FromLines(tokens, lines, width, height)
  {
    var date := ExtractMoveDate(FullText(lines));
    if date == "" {
      return Err(NoDate);
    }
    var hs := FindHeaders(lines, HeaderLabels);
    if hs[0].None? || hs[2].None? {
      return Err(NoHeader);
    }
    var table := ReadTable(tokens, hs, width, height);
    match table
    case Ok(rows) => return Ok(Parsed(date, rows));
    case Err(e) => return Err(e);
  }

  /** The table once the headers are found: boundaries, region, row anchors and rows. */
  method ReadTable(tokens: seq<Token>, hs: seq<Option<Box>>, width: real, height: real) returns (r: Result<seq<Row>, ParseError>)
    requires |hs| == 6 && hs[0].Some?
    ensures r == TableRows(tokens, hs, width, height)
  {
    var b := ColumnBoundaries(hs, width);
    var start := TableStart(hs);
    var end := TableEnd(tokens, start, height);
    var rowTops := DedupeTops(Tops(SortByKey(IndexAnchors(tokens, start, end, b[0]), TokenTop)), 6.0);
    if rowTops == [] {
      rowTops := DedupeTops(Tops(SortByKey(MouldAnchors(tokens, start, end, b[2], b[3]), TokenTop)), 10.0);
    }
    assert rowTops == RowTops(tokens, start, end, b);
    if rowTops == [] {
      return Err(NoAnchor);
    }
    var rows := ReadRows(tokens, rowTops, start, end, b);
    if rows == [] {
      return Err(NoRows);
    }
    return Ok(rows);
  }
}
