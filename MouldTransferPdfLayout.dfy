/** The layout helpers of the back-end mould-transfer PDF parser: the text tokens of a page are
    grouped into lines by their top, a line is read as one space-free text together with the
    x-extent of each token's piece of it, a label is located by the box of the pieces it covers,
    and the tokens of a table cell are picked out by band and column and joined into text. */
module MouldTransferPdfLayout {
  import opened Common
  import opened MouldText
  import opened MouldTransferPdfText
  import FrontText = MouldTransferText

  /** A piece of text on the page: its left and right x, and its distance from the page top. */
  datatype Token = Token(text: string, x0: real, x1: real, top: real)

  /** A line of tokens; `top` is the running mean of the tops of its tokens. */
  datatype Line = Line(top: real, tokens: seq<Token>)

  function Abs(v: real): real { if v < 0.0 then -v else v }

  /** How far a line is from a top. */
  function Diff(l: Line, top: real): real { Abs(l.top - top) }

  function LineTop(l: Line): real { l.top }

  function TokenX0(t: Token): real { t.x0 }

  // ---------------------------------------------------------------- the nearest line

  /** After looking at the first `k` lines, `best` is what the inner loop of `groupByTop` holds:
      none when no line so far is within the tolerance, else one that is, whose distance is
      the least so far, and strictly less than that of every line before it within the
      tolerance (a line replaces the best one only when strictly nearer). */
  predicate NearestUpTo(lines: seq<Line>, top: real, tolerance: real, k: nat, best: Option<nat>)
    requires k <= |lines|
  {
    match best
    case None => forall j :: 0 <= j < k ==> Diff(lines[j], top) > tolerance
    case Some(b) =>
      b < k && Diff(lines[b], top) <= tolerance
      && (forall j :: 0 <= j < k && Diff(lines[j], top) <= tolerance ==> Diff(lines[b], top) <= Diff(lines[j], top))
      && (forall j :: 0 <= j < b && Diff(lines[j], top) <= tolerance ==> Diff(lines[b], top) < Diff(lines[j], top))
  }

  /** The line a token at `top` joins: the nearest within the tolerance, the first of equally
      near ones; none when no line is within the tolerance. */
  predicate IsNearest(lines: seq<Line>, top: real, tolerance: real, best: Option<nat>)
  {
    NearestUpTo(lines, top, tolerance, |lines|, best)
  }

  function NearestFrom(lines: seq<Line>, top: real, tolerance: real, k: nat, best: Option<nat>): (r: Option<nat>)
    requires k <= |lines| && NearestUpTo(lines, top, tolerance, k, best)
    ensures IsNearest(lines, top, tolerance, r)
    decreases |lines| - k
  {
    if k == |lines| then best
    else
      var d := Diff(lines[k], top);
      if d <= tolerance && (best.None? || d < Diff(lines[best.value], top)) then
        NearestFrom(lines, top, tolerance, k + 1, Some(k))
      else
        NearestFrom(lines, top, tolerance, k + 1, best)
  }

  function Nearest(lines: seq<Line>, top: real, tolerance: real): (r: Option<nat>)
    ensures IsNearest(lines, top, tolerance, r)
  {
    NearestFrom(lines, top, tolerance, 0, None)
  }

  /** At most one choice meets the description, so the description is the whole story. */
  lemma NearestUnique(lines: seq<Line>, top: real, tolerance: real, b1: Option<nat>, b2: Option<nat>)
    requires IsNearest(lines, top, tolerance, b1) && IsNearest(lines, top, tolerance, b2)
    ensures b1 == b2
  {
  }

  // ---------------------------------------------------------------- grouping into lines

  /** The line with one more token; its top becomes the mean of the tops again. */
  function Joined(l: Line, t: Token): Line
  {
    var n := |l.tokens| + 1;
    Line((l.top * (n - 1) as real + t.top) / n as real, l.tokens + [t])
  }

  /** One pass of the outer loop of `groupByTop`. */
  function Place(lines: seq<Line>, t: Token, tolerance: real): seq<Line>
  {
    match Nearest(lines, t.top, tolerance)
    case Some(b) => lines[b := Joined(lines[b], t)]
    case None => lines + [Line(t.top, [t])]
  }

  function Grouped(tokens: seq<Token>, tolerance: real): seq<Line>
  {
    if tokens == [] then []
    else Place(Grouped(tokens[..|tokens| - 1], tolerance), tokens[|tokens| - 1], tolerance)
  }

  /** `groupByTop`: the lines of `Grouped`, ordered by top (a stable sort). */
  function GroupByTopSpec(tokens: seq<Token>, tolerance: real): seq<Line>
  {
    SortByKey(Grouped(tokens, tolerance), LineTop)
  }

  /** `groupByTop` as the source runs it: for each token, a scan of the lines for the nearest
      one, then an update of that line or a new line, and the lines sorted at the end. */
  method GroupByTop(tokens: seq<Token>, tolerance: real) returns (lines: seq<Line>)
    ensures lines == GroupByTopSpec(tokens, tolerance)
  {
    lines := [];
    var i := 0;
    while i < |tokens|
      invariant 0 <= i <= |tokens|
      invariant lines == Grouped(tokens[..i], tolerance)
    {
      var t := tokens[i];
      var best := FindNearest(lines, t.top, tolerance);
      GroupedStep(tokens, i, tolerance);
      if best.Some? {
        var b := best.value;
        var line := lines[b];
        var n := |line.tokens| + 1;
        var top := (line.top * (n - 1) as real + t.top) / n as real;
        JoinedIs(line, t, n, top);
        lines := lines[b := Line(top, line.tokens + [t])];
      } else {
        lines := lines + [Line(t.top, [t])];
      }
      i := i + 1;
    }
    assert tokens[..i] == tokens;
    lines := SortByKey(lines, LineTop);
  }

  lemma JoinedIs(line: Line, t: Token, n: int, top: real)
    requires n == |line.tokens| + 1 && top == (line.top * (n - 1) as real + t.top) / n as real
    ensures Joined(line, t) == Line(top, line.tokens + [t])
  {
  }

  lemma GroupedStep(tokens: seq<Token>, i: nat, tolerance: real)
    requires i < |tokens|
    ensures var before := Grouped(tokens[..i], tolerance);
      Grouped(tokens[..i + 1], tolerance) == match Nearest(before, tokens[i].top, tolerance)
        case Some(b) => before[b := Joined(before[b], tokens[i])]
        case None => before + [Line(tokens[i].top, [tokens[i]])]
  {
    assert tokens[..i + 1][..i] == tokens[..i];
  }

  /** The inner loop of `groupByTop`: the best line so far and its distance. */
  method FindNearest(lines: seq<Line>, top: real, tolerance: real) returns (best: Option<nat>)
    ensures best == Nearest(lines, top, tolerance)
  {
    best := None;
    var bestDiff := 0.0;
    var k := 0;
    while k < |lines|
      invariant 0 <= k <= |lines|
      invariant NearestUpTo(lines, top, tolerance, k, best)
      invariant best.Some? ==> bestDiff == Diff(lines[best.value], top)
    {
      var diff := Abs(lines[k].top - top);
      if diff <= tolerance && (best.None? || diff < bestDiff) {
        best := Some(k);
        bestDiff := diff;
      }
      k := k + 1;
    }
    NearestUnique(lines, top, tolerance, best, Nearest(lines, top, tolerance));
  }

  // ---------------------------------------------------------------- what grouping keeps

  /** The tokens of all lines, line after line. */
  function AllTokens(lines: seq<Line>): seq<Token>
  {
    if lines == [] then [] else lines[0].tokens + AllTokens(lines[1..])
  }

  /** A line that gets one more token adds that token to all the tokens. */
  lemma {:induction false} AllTokensGrow(lines: seq<Line>, k: nat, top: real, t: Token)
    requires k < |lines|
    ensures multiset(AllTokens(lines[k := Line(top, lines[k].tokens + [t])]))
      == multiset(AllTokens(lines)) + multiset{t}
    decreases k
  {
    var u := lines[k := Line(top, lines[k].tokens + [t])];
    if k > 0 {
      assert u[0] == lines[0] && lines[1..][k - 1] == lines[k];
      assert u[1..] == lines[1..][k - 1 := Line(top, lines[k].tokens + [t])];
      AllTokensGrow(lines[1..], k - 1, top, t);
    } else {
      assert u[1..] == lines[1..];
    }
  }

  lemma {:induction false} AllTokensAppend(lines: seq<Line>, l: Line)
    ensures AllTokens(lines + [l]) == AllTokens(lines) + l.tokens
    decreases |lines|
  {
    if lines == [] {
      assert AllTokens([l]) == l.tokens + AllTokens([]);
    } else {
      assert (lines + [l])[1..] == lines[1..] + [l];
      AllTokensAppend(lines[1..], l);
    }
  }

  /** Placing a token adds exactly that token to the lines. */
  lemma PlaceAddsToken(lines: seq<Line>, t: Token, tolerance: real)
    ensures multiset(AllTokens(Place(lines, t, tolerance))) == multiset(AllTokens(lines)) + multiset{t}
  {
    var nb := Nearest(lines, t.top, tolerance);
    if nb.Some? {
      var b := nb.value;
      var j := Joined(lines[b], t);
      assert Place(lines, t, tolerance) == lines[b := j];
      AllTokensGrow(lines, b, j.top, t);
    } else {
      var l := Line(t.top, [t]);
      assert Place(lines, t, tolerance) == lines + [l];
      AllTokensAppend(lines, l);
    }
  }

  lemma {:induction false} GroupedKeepsTokens(tokens: seq<Token>, tolerance: real)
    ensures multiset(AllTokens(Grouped(tokens, tolerance))) == multiset(tokens)
  {
    if tokens != [] {
      var n := |tokens| - 1;
      GroupedKeepsTokens(tokens[..n], tolerance);
      PlaceAddsToken(Grouped(tokens[..n], tolerance), tokens[n], tolerance);
      assert tokens == tokens[..n] + [tokens[n]];
    }
  }

  lemma {:induction false} AllTokensInsert(x: Line, sorted: seq<Line>)
    ensures multiset(AllTokens(InsertByKey(x, sorted, LineTop))) == multiset(x.tokens) + multiset(AllTokens(sorted))
    decreases |sorted|
  {
    if sorted != [] && x.top > sorted[0].top {
      var r := InsertByKey(x, sorted, LineTop);
      assert r[0] == sorted[0] && r[1..] == InsertByKey(x, sorted[1..], LineTop);
      AllTokensInsert(x, sorted[1..]);
    } else {
      assert ([x] + sorted)[1..] == sorted;
    }
  }

  lemma {:induction false} AllTokensSort(lines: seq<Line>)
    ensures multiset(AllTokens(SortByKey(lines, LineTop))) == multiset(AllTokens(lines))
    decreases |lines|
  {
    if lines != [] {
      AllTokensSort(lines[1..]);
      AllTokensInsert(lines[0], SortByKey(lines[1..], LineTop));
    }
  }

  /** Every token lands in exactly one line, and the lines come out ordered by top. */
  lemma GroupByTopMeaning(tokens: seq<Token>, tolerance: real)
    ensures multiset(AllTokens(GroupByTopSpec(tokens, tolerance))) == multiset(tokens)
    ensures SortedByKey(GroupByTopSpec(tokens, tolerance), LineTop)
  {
    GroupedKeepsTokens(tokens, tolerance);
    AllTokensSort(Grouped(tokens, tolerance));
    SortIsSorted(Grouped(tokens, tolerance), LineTop);
  }

  // ---------------------------------------------------------------- each line's top

  /** The sum of the tops of the tokens. */
  function SumTops(ts: seq<Token>): real
  {
    if ts == [] then 0.0 else SumTops(ts[..|ts| - 1]) + ts[|ts| - 1].top
  }

  /** A line holds at least one token and its top is the mean of their tops. */
  predicate MeanTop(l: Line)
  {
    l.tokens != [] && l.top * (|l.tokens| as real) == SumTops(l.tokens)
  }

  predicate AllMeans(lines: seq<Line>)
  {
    forall k :: 0 <= k < |lines| ==> MeanTop(lines[k])
  }

  lemma JoinedMean(l: Line, t: Token)
    requires MeanTop(l)
    ensures MeanTop(Joined(l, t))
  {
    var n := |l.tokens| + 1;
    var j := Joined(l, t);
    assert j.tokens[..n - 1] == l.tokens;
    var s := l.top * (n - 1) as real + t.top;
    assert j.top == s / n as real;
    assert j.top * n as real == s;
  }

  lemma PlaceKeepsMeans(lines: seq<Line>, t: Token, tolerance: real)
    requires AllMeans(lines)
    ensures AllMeans(Place(lines, t, tolerance))
  {
    var nb := Nearest(lines, t.top, tolerance);
    if nb.Some? {
      JoinedMean(lines[nb.value], t);
    } else {
      var l := Line(t.top, [t]);
      assert l.tokens[..0] == [];
      assert MeanTop(l);
    }
  }

  lemma {:induction false} GroupedMeans(tokens: seq<Token>, tolerance: real)
    ensures AllMeans(Grouped(tokens, tolerance))
  {
    if tokens != [] {
      var n := |tokens| - 1;
      GroupedMeans(tokens[..n], tolerance);
      PlaceKeepsMeans(Grouped(tokens[..n], tolerance), tokens[n], tolerance);
    }
  }

  /** Every line `groupByTop` returns holds a token, and its top is the mean of its tokens'
      tops. */
  lemma GroupByTopMeans(tokens: seq<Token>, tolerance: real)
    ensures AllMeans(GroupByTopSpec(tokens, tolerance))
  {
    var g := Grouped(tokens, tolerance);
    GroupedMeans(tokens, tolerance);
    var r := SortByKey(g, LineTop);
    forall k | 0 <= k < |r| ensures MeanTop(r[k]) {
      assert r[k] in multiset(r);
      assert r[k] in g;
    }
  }

  // ---------------------------------------------------------------- a line as compact text

  /** A token's piece of the compact text of a line: where it starts and ends, and the token's
      left and right x. */
  datatype Range = Range(start: nat, end: nat, x0: real, x1: real)

  /** What `buildCompactLine` returns: the text and the pieces. */
  datatype Compact = Compact(text: string, ranges: seq<Range>)

  /** One pass of the loop of `buildCompactLine`: a token whose key text is empty is skipped,
      any other adds its key text and its piece. */
  function CompactStep(c: Compact, t: Token): Compact
  {
    var txt := NormalizeKey(t.text);
    if txt == [] then c
    else Compact(c.text + txt, c.ranges + [Range(|c.text|, |c.text| + |txt|, t.x0, t.x1)])
  }

  function CompactFold(ts: seq<Token>): Compact
  {
    if ts == [] then Compact([], []) else CompactStep(CompactFold(ts[..|ts| - 1]), ts[|ts| - 1])
  }

  /** `buildCompactLine`: the tokens read from left to right. */
  function CompactLine(line: Line): Compact
  {
    CompactFold(SortByKey(line.tokens, TokenX0))
  }

  /** `buildCompactLine` as the source runs it. */
  method BuildCompactLine(line: Line) returns (c: Compact)
    ensures c == CompactLine(line)
  {
    var tokens := SortByKey(line.tokens, TokenX0);
    var ranges: seq<Range> := [];
    var out: string := [];
    var i := 0;
    while i < |tokens|
      invariant 0 <= i <= |tokens|
      invariant Compact(out, ranges) == CompactFold(tokens[..i])
    {
      var t := tokens[i];
      CompactFoldStep(tokens, i);
      var txt := NormalizeKey(t.text);
      StepIs(Compact(out, ranges), t, txt);
      if txt != [] {
        var start := |out|;
        out := out + txt;
        var end := |out|;
        ranges := ranges + [Range(start, end, t.x0, t.x1)];
      }
      i := i + 1;
    }
    assert tokens[..i] == tokens;
    c := Compact(out, ranges);
  }

  lemma StepIs(c: Compact, t: Token, txt: string)
    requires txt == NormalizeKey(t.text)
    ensures txt == [] ==> CompactStep(c, t) == c
    ensures txt != [] ==> CompactStep(c, t) == Compact(c.text + txt, c.ranges + [Range(|c.text|, |c.text + txt|, t.x0, t.x1)])
  {
  }

  lemma CompactFoldStep(ts: seq<Token>, i: nat)
    requires i < |ts|
    ensures CompactFold(ts[..i + 1]) == CompactStep(CompactFold(ts[..i]), ts[i])
  {
    assert ts[..i + 1][..i] == ts[..i];
  }

  /** The pieces tile the text: the first starts at 0, each is non-empty and ends where the
      next starts, and the last ends at the end of the text; there are none exactly when the
      text is empty. */
  predicate Tiles(c: Compact)
  {
    (c.ranges == [] <==> c.text == [])
    && (c.ranges != [] ==> c.ranges[0].start == 0 && c.ranges[|c.ranges| - 1].end == |c.text|)
    && (forall i :: 0 <= i < |c.ranges| ==> c.ranges[i].start < c.ranges[i].end)
    && (forall i :: 0 <= i < |c.ranges| - 1 ==> c.ranges[i].end == c.ranges[i + 1].start)
  }

  lemma {:induction false} CompactFoldTiles(ts: seq<Token>)
    ensures Tiles(CompactFold(ts))
  {
    if ts != [] {
      CompactFoldTiles(ts[..|ts| - 1]);
      StepTiles(CompactFold(ts[..|ts| - 1]), ts[|ts| - 1]);
    }
  }

  lemma StepTiles(c: Compact, t: Token)
    requires Tiles(c)
    ensures Tiles(CompactStep(c, t))
  {
    var txt := NormalizeKey(t.text);
    if txt != [] {
      var n := CompactStep(c, t);
      assert forall i :: 0 <= i < |c.ranges| ==> n.ranges[i] == c.ranges[i];
    }
  }

  /** The compact text of a line and its pieces tile each other. */
  lemma CompactLineTiles(line: Line)
    ensures Tiles(CompactLine(line))
  {
    CompactFoldTiles(SortByKey(line.tokens, TokenX0));
  }

  /** Each position of the compact text lies in one of the pieces. */
  lemma {:induction false} CompactFoldCovers(ts: seq<Token>, p: nat)
    requires p < |CompactFold(ts).text|
    ensures exists r :: r in CompactFold(ts).ranges && r.start <= p < r.end
  {
    var n := |ts| - 1;
    var before := CompactFold(ts[..n]);
    if p < |before.text| {
      CompactFoldCovers(ts[..n], p);
      var r :| r in before.ranges && r.start <= p < r.end;
      assert r in CompactFold(ts).ranges;
    } else {
      var c := CompactFold(ts);
      assert c.ranges[|c.ranges| - 1] in c.ranges;
    }
  }

  // ---------------------------------------------------------------- a label's box

  /** Where a label is found: the least left x and the greatest right x of the pieces it
      covers, and the line's top. */
  datatype Box = Box(x0: real, x1: real, top: real)

  /** A piece that overlaps the span `[idx, end)`. */
  predicate Overlaps(r: Range, idx: int, end: int)
  {
    r.end > idx && r.start < end
  }

  /** `ranges.filter(...)`: the pieces that overlap the span, in order. */
  function Hits(rs: seq<Range>, idx: int, end: int): (h: seq<Range>)
    ensures forall r :: r in h <==> r in rs && Overlaps(r, idx, end)
  {
    if rs == [] then []
    else
      var before := Hits(rs[..|rs| - 1], idx, end);
      var last := rs[|rs| - 1];
      assert rs == rs[..|rs| - 1] + [last];
      if Overlaps(last, idx, end) then before + [last] else before
  }

  /** `Math.min(...xs)` over the left x of the pieces. */
  function MinX0(h: seq<Range>): (m: real)
    requires h != []
    ensures forall r :: r in h ==> m <= r.x0
    ensures exists r :: r in h && m == r.x0
  {
    if |h| == 1 then h[0].x0
    else
      var rest := MinX0(h[1..]);
      assert h == [h[0]] + h[1..];
      if h[0].x0 <= rest then h[0].x0 else rest
  }

  /** `Math.max(...xs)` over the right x of the pieces. */
  function MaxX1(h: seq<Range>): (m: real)
    requires h != []
    ensures forall r :: r in h ==> r.x1 <= m
    ensures exists r :: r in h && m == r.x1
  {
    if |h| == 1 then h[0].x1
    else
      var rest := MaxX1(h[1..]);
      assert h == [h[0]] + h[1..];
      if h[0].x1 >= rest then h[0].x1 else rest
  }

  /** The box of a target in a compact text at a given top: none when the target does not
      occur or covers no piece, else the box of the pieces its first occurrence overlaps. */
  function BoxIn(c: Compact, top: real, target: string): (r: Option<Box>)
    ensures r.Some? ==> r.value.top == top && JsIndexOf(c.text, target) >= 0
  {
    var idx := JsIndexOf(c.text, target);
    if idx < 0 then None
    else
      var hit := Hits(c.ranges, idx, idx + |target|);
      if hit == [] then None else Some(Box(MinX0(hit), MaxX1(hit), top))
  }

  /** `bboxForSubstring`. */
  function BboxForSubstring(line: Line, target: string): (r: Option<Box>)
    ensures r.Some? ==> r.value.top == line.top && JsIndexOf(CompactLine(line).text, target) >= 0
  {
    BoxIn(CompactLine(line), line.top, target)
  }

  /** The box spans exactly the pieces that the first occurrence of the target overlaps: its
      left x is the least of their left x and its right x the greatest of their right x. */
  lemma BoxInSpan(c: Compact, top: real, target: string)
    requires BoxIn(c, top, target).Some?
    ensures var b := BoxIn(c, top, target).value; var idx := JsIndexOf(c.text, target);
      (forall g :: g in c.ranges && Overlaps(g, idx, idx + |target|) ==> b.x0 <= g.x0 && g.x1 <= b.x1)
      && (exists g :: g in c.ranges && Overlaps(g, idx, idx + |target|) && g.x0 == b.x0)
      && (exists g :: g in c.ranges && Overlaps(g, idx, idx + |target|) && g.x1 == b.x1)
  {
    var idx := JsIndexOf(c.text, target);
    var hit := Hits(c.ranges, idx, idx + |target|);
    var g0 :| g0 in hit && MinX0(hit) == g0.x0;
    var g1 :| g1 in hit && MaxX1(hit) == g1.x1;
  }

  /** With the target empty no piece is overlapped, since the pieces start at 0 or later. */
  lemma BoxInEmpty(c: Compact, top: real)
    ensures BoxIn(c, top, []).None?
  {
    var idx := JsIndexOf(c.text, []);
    if idx >= 0 {
      var hit := Hits(c.ranges, idx, idx);
      assert forall g :: g in hit ==> false;
    }
  }

  /** A piece that holds the first position of the target's first occurrence yields a box. */
  lemma BoxInFound(c: Compact, top: real, target: string, g: Range)
    requires target != [] && JsIndexOf(c.text, target) >= 0
    requires g in c.ranges && g.start <= JsIndexOf(c.text, target) < g.end
    ensures BoxIn(c, top, target).Some?
  {
    var idx := JsIndexOf(c.text, target);
    assert g in Hits(c.ranges, idx, idx + |target|);
  }

  /** A box is found exactly when the target is non-empty and occurs in the line's compact
      text. */
  lemma BboxFound(line: Line, target: string)
    ensures BboxForSubstring(line, target).Some? <==> target != [] && Contains(CompactLine(line).text, target)
  {
    var c := CompactLine(line);
    var idx := JsIndexOf(c.text, target);
    JsIndexOfMeaning(c.text, target);
    if target == [] {
      BoxInEmpty(c, line.top);
    } else if Contains(c.text, target) {
      assert idx + |target| <= |c.text|;
      CompactFoldCovers(SortByKey(line.tokens, TokenX0), idx);
      var g :| g in c.ranges && g.start <= idx < g.end;
      BoxInFound(c, line.top, target, g);
    }
  }

  /** The box of a label in a line spans the pieces the label overlaps. */
  lemma BboxSpan(line: Line, target: string)
    requires BboxForSubstring(line, target).Some?
    ensures var b := BboxForSubstring(line, target).value;
      var c := CompactLine(line); var idx := JsIndexOf(c.text, target);
      (forall g :: g in c.ranges && Overlaps(g, idx, idx + |target|) ==> b.x0 <= g.x0 && g.x1 <= b.x1)
      && (exists g :: g in c.ranges && Overlaps(g, idx, idx + |target|) && g.x0 == b.x0)
      && (exists g :: g in c.ranges && Overlaps(g, idx, idx + |target|) && g.x1 == b.x1)
  {
    BoxInSpan(CompactLine(line), line.top, target);
  }

  // ---------------------------------------------------------------- the tokens of a cell

  /** A token whose centre x is in `[left, right)` and whose top is in `[bandTop, bandBottom)`. */
  predicate InCell(t: Token, bandTop: real, bandBottom: real, left: real, right: real)
  {
    var cx := (t.x0 + t.x1) / 2.0;
    left <= cx < right && bandTop <= t.top < bandBottom
  }

  /** The tokens of a cell, in their order. */
  function CellTokens(tokens: seq<Token>, bandTop: real, bandBottom: real, left: real, right: real): (r: seq<Token>)
    ensures |r| <= |tokens|
    ensures forall t :: t in r <==> t in tokens && InCell(t, bandTop, bandBottom, left, right)
  {
    if tokens == [] then []
    else
      var before := CellTokens(tokens[..|tokens| - 1], bandTop, bandBottom, left, right);
      var last := tokens[|tokens| - 1];
      assert tokens == tokens[..|tokens| - 1] + [last];
      if InCell(last, bandTop, bandBottom, left, right) then before + [last] else before
  }

  /** `collectTokensInBand` as the source runs it. */
  method CollectTokensInBand(tokens: seq<Token>, bandTop: real, bandBottom: real, left: real, right: real)
    returns (out: seq<Token>)
    ensures out == CellTokens(tokens, bandTop, bandBottom, left, right)
  {
    out := [];
    var i := 0;
    while i < |tokens|
      invariant 0 <= i <= |tokens|
      invariant out == CellTokens(tokens[..i], bandTop, bandBottom, left, right)
    {
      var t := tokens[i];
      assert tokens[..i + 1][..i] == tokens[..i];
      var cx := (t.x0 + t.x1) / 2.0;
      if !(cx < left || cx >= right) && !(t.top < bandTop || t.top >= bandBottom) {
        out := out + [t];
      }
      i := i + 1;
    }
    assert tokens[..i] == tokens;
  }

  /** Two cells side by side share no token. */
  lemma CellsApart(tokens: seq<Token>, bandTop: real, bandBottom: real, a: real, b: real, c: real)
    requires a <= b <= c
    ensures forall t :: t in CellTokens(tokens, bandTop, bandBottom, a, b) ==> t !in CellTokens(tokens, bandTop, bandBottom, b, c)
  {
  }

  // ---------------------------------------------------------------- a cell's text

  /** How `joinCellText` puts the lines of a cell together. */
  datatype CellMode = NoSpace | Spaced

  /** The trimmed texts of the tokens, one after another. */
  function TrimmedTexts(ts: seq<Token>): string
  {
    if ts == [] then [] else TrimmedTexts(ts[..|ts| - 1]) + Trim(ts[|ts| - 1].text)
  }

  /** A line of a cell read from left to right. */
  function CellLineText(l: Line): string
  {
    TrimmedTexts(SortByKey(l.tokens, TokenX0))
  }

  function CellLineTexts(lines: seq<Line>): (r: seq<string>)
    ensures |r| == |lines|
  {
    if lines == [] then [] else [CellLineText(lines[0])] + CellLineTexts(lines[1..])
  }

  /** `joinCellText`: the tokens grouped into lines three units apart, each line read from left
      to right; the lines then put together without white space at all, or with single spaces
      and trimmed. */
  function JoinCellText(tokens: seq<Token>, mode: CellMode): (r: string)
    ensures tokens == [] ==> r == []
    ensures mode == NoSpace ==> forall i :: 0 <= i < |r| ==> !IsSpace(r[i])
    ensures mode == Spaced ==> r == [] || (!IsSpace(r[0]) && !IsSpace(r[|r| - 1]))
  {
    if tokens == [] then []
    else
      var texts := CellLineTexts(GroupByTopSpec(tokens, 3.0));
      match mode
      case NoSpace => RemoveSpaces(Join(texts, ""))
      case Spaced => Clean(Join(texts, " "))
  }

  lemma {:induction false} RemoveSpacesOfJoin(xs: seq<string>)
    ensures RemoveSpaces(Join(xs, " ")) == RemoveSpaces(Join(xs, ""))
    decreases |xs|
  {
    if |xs| > 1 {
      RemoveSpacesOfJoin(xs[1..]);
      FrontText.RemoveSpacesAppend(xs[0] + " ", Join(xs[1..], " "));
      FrontText.RemoveSpacesAppend(xs[0], " ");
      FrontText.RemoveSpacesAppend(xs[0] + "", Join(xs[1..], ""));
      assert xs[0] + "" == xs[0];
      assert RemoveSpaces(" ") == [];
    }
  }

  /** The two ways of joining a cell agree on everything but white space. */
  lemma JoinCellModes(tokens: seq<Token>)
    ensures RemoveSpaces(JoinCellText(tokens, Spaced)) == JoinCellText(tokens, NoSpace)
  {
    if tokens != [] {
      var texts := CellLineTexts(GroupByTopSpec(tokens, 3.0));
      FrontText.RemoveSpacesOfClean(Join(texts, " "));
      RemoveSpacesOfJoin(texts);
    }
  }
}
