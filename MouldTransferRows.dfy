/** The row-level steps of the newer mould-transfer notice parser in the web front end
    (`packages/frontend/src/utils/pdf/mouldTransferParser.ts`): seal numbers split over two
    lines joined again, rows split at a part number merged again, a row read from one line
    or filled from the next, the whole-text fallback, the seal numbers collected from the
    whole notice, and the clean-up of mould names.

    Where the source uses its seal-number pattern, this model uses the pattern as it is meant
    (`Seal`); the compiled pattern never matches text without a backslash
    (`MouldTransferText.SealNumberMissed`). */
module MouldTransferRows {
  import opened Common
  import opened MouldText
  import opened MouldTransferText
  import L = MouldTransferLegacy
  import G = Grouping

  // ---------------------------------------------------------------- seal numbers split over two lines

  /** `isSealNoPrefixLine`: `^\s*ML\s*[-－—–‑−]` under the `i` flag. */
  predicate IsSealNoPrefixLine(line: string)
  {
    var a := SkipSpaces(line, 0);
    a + 2 <= |line| && ToLowerChar(line[a]) == 'm' && ToLowerChar(line[a + 1]) == 'l'
    && HyphenGap(line, a + 2, false).Some?
  }

  /** `isSealNoSuffixLine`: `^\s*\d{2}\s*[-－—–‑−]\s*\d+\s*$`, the two last digits of the date,
      a hyphen and the serial number. */
  predicate IsSealNoSuffixLine(line: string)
  {
    var a := SkipSpaces(line, 0);
    DigitsFrom(line, a) == 2 &&
    var h := HyphenGap(line, a + 2, false);
    h.Some? && var m := DigitsFrom(line, h.value); m >= 1 && SkipSpaces(line, h.value + m) == |line|
  }

  /** `/\d{8}\s*$/`: eight digits, then nothing but white space. */
  predicate EndsWithDate(line: string)
  {
    var t := TrimEnd(line);
    |t| >= 8 && forall k :: |t| - 8 <= k < |t| ==> IsDigit(t[k])
  }

  /** `^\s*[-－—–‑−]?\s*\d+\s*$` (without the leading `\s*` when `lead` is false): a serial
      number, perhaps after a hyphen. */
  predicate IsSerialLine(s: string, lead: bool)
  {
    var a := if lead then SkipSpaces(s, 0) else 0;
    var b := if a < |s| && IsHyphen(s[a]) then SkipSpaces(s, a + 1) else SkipSpaces(s, a);
    var m := DigitsFrom(s, b);
    m >= 1 && SkipSpaces(s, b + m) == |s|
  }

  /** Whether `cur` starts a seal number that `next` completes: the day and serial number, or
      the serial number after a full date. */
  predicate JoinsNext(cur: string, next: string)
  {
    IsSealNoPrefixLine(cur) && (IsSealNoSuffixLine(next) || (EndsWithDate(cur) && IsSerialLine(next, true)))
  }

  /** `joinSealNoSplitLines` as a value, read from line `i` on. The source pairs the last line
      with "", which completes nothing, so only a following line can be joined. */
  function JoinFrom(lines: seq<string>, i: nat): (out: seq<string>)
    requires i <= |lines|
    ensures |out| <= |lines| - i
    decreases |lines| - i
  {
    if i == |lines| then []
    else if i + 1 < |lines| && JoinsNext(lines[i], lines[i + 1]) then [Clean(lines[i] + lines[i + 1])] + JoinFrom(lines, i + 2)
    else [lines[i]] + JoinFrom(lines, i + 1)
  }

  function JoinSealLines(lines: seq<string>): seq<string>
  {
    JoinFrom(lines, 0)
  }

  /** `joinSealNoSplitLines`: each line that starts a seal number is joined with the line that
      completes it, and that line is skipped. */
  method JoinSealNoSplitLines(lines: seq<string>) returns (out: seq<string>)
    ensures out == JoinSealLines(lines)
  {
    out := [];
    var i := 0;
    while i < |lines|
      invariant i <= |lines|
      invariant out + JoinFrom(lines, i) == JoinSealLines(lines)
      decreases |lines| - i
    {
      var piece, next := JoinStep(lines, i);
      assert out + JoinFrom(lines, i) == (out + [piece]) + JoinFrom(lines, next);
      out := out + [piece];
      i := next;
    }
  }

  /** One pass of the loop in `joinSealNoSplitLines`: the line, or the line joined with the
      next, and where reading goes on. */
  method JoinStep(lines: seq<string>, i: nat) returns (piece: string, next: nat)
    requires i < |lines|
    ensures i < next <= |lines|
    ensures JoinFrom(lines, i) == [piece] + JoinFrom(lines, next)
  {
    var cur := lines[i];
    if i + 1 < |lines| && JoinsNext(cur, lines[i + 1]) {
      piece, next := Clean(cur + lines[i + 1]), i + 2;
    } else {
      piece, next := cur, i + 1;
    }
  }

  /** The lines run together. */
  function Concat(lines: seq<string>): string
  {
    if lines == [] then [] else lines[0] + Concat(lines[1..])
  }

  lemma ConcatAt(lines: seq<string>, i: nat)
    requires i < |lines|
    ensures Concat(lines[i..]) == lines[i] + Concat(lines[i + 1..])
  {
    assert lines[i..][1..] == lines[i + 1..];
  }

  lemma ConcatCons(x: string, ys: seq<string>)
    ensures Concat([x] + ys) == x + Concat(ys)
  {
    assert ([x] + ys)[1..] == ys;
  }

  /** Joining loses no text: apart from white space the lines say the same before and after. */
  lemma {:induction false} JoinSealLinesKeepsText(lines: seq<string>)
    ensures RemoveSpaces(Concat(JoinSealLines(lines))) == RemoveSpaces(Concat(lines))
  {
    JoinFromKeepsText(lines, 0);
    assert lines[0..] == lines;
  }

  lemma {:induction false} JoinFromKeepsText(lines: seq<string>, i: nat)
    requires i <= |lines|
    ensures RemoveSpaces(Concat(JoinFrom(lines, i))) == RemoveSpaces(Concat(lines[i..]))
    decreases |lines| - i, 1
  {
    if i == |lines| {
      assert lines[i..] == [];
    } else if i + 1 < |lines| && JoinsNext(lines[i], lines[i + 1]) {
      JoinedKeepsText(lines, i);
    } else {
      PassedKeepsText(lines, i);
    }
  }

  /** Line `i` joined with the next keeps the text. */
  lemma {:induction false} JoinedKeepsText(lines: seq<string>, i: nat)
    requires i + 1 < |lines| && JoinsNext(lines[i], lines[i + 1])
    ensures RemoveSpaces(Concat(JoinFrom(lines, i))) == RemoveSpaces(Concat(lines[i..]))
    decreases |lines| - i, 0
  {
    var a, b := lines[i], lines[i + 1];
    var rest := JoinFrom(lines, i + 2);
    JoinFromJoined(lines, i);
    JoinFromKeepsText(lines, i + 2);
    ConcatCons(Clean(a + b), rest);
    ConcatAt(lines, i);
    ConcatAt(lines, i + 1);
    JoinedText(a, b, Concat(rest), Concat(lines[i + 2..]));
  }

  /** One step of `JoinFrom` where line `i` is joined with the next. */
  lemma JoinFromJoined(lines: seq<string>, i: nat)
    requires i + 1 < |lines| && JoinsNext(lines[i], lines[i + 1])
    ensures JoinFrom(lines, i) == [Clean(lines[i] + lines[i + 1])] + JoinFrom(lines, i + 2)
  {
  }

  /** Joining two pieces and cleaning them keeps their text. */
  lemma JoinedText(a: string, b: string, x: string, y: string)
    requires RemoveSpaces(x) == RemoveSpaces(y)
    ensures RemoveSpaces(Clean(a + b) + x) == RemoveSpaces(a + (b + y))
  {
    CleanedText(a + b, x);
    SplitText3(a, b, y);
  }

  lemma CleanedText(t: string, x: string)
    ensures RemoveSpaces(Clean(t) + x) == RemoveSpaces(t) + RemoveSpaces(x)
  {
    RemoveSpacesAppend(Clean(t), x);
    RemoveSpacesOfClean(t);
  }

  lemma SplitText3(a: string, b: string, y: string)
    ensures RemoveSpaces(a + b) + RemoveSpaces(y) == RemoveSpaces(a + (b + y))
  {
    RemoveSpacesAppend(a, b);
    RemoveSpacesAppend(b, y);
    RemoveSpacesAppend(a, b + y);
  }

  /** Line `i` passed on as it is keeps the text. */
  lemma {:induction false} PassedKeepsText(lines: seq<string>, i: nat)
    requires i < |lines| && !(i + 1 < |lines| && JoinsNext(lines[i], lines[i + 1]))
    ensures RemoveSpaces(Concat(JoinFrom(lines, i))) == RemoveSpaces(Concat(lines[i..]))
    decreases |lines| - i, 0
  {
    var a := lines[i];
    var rest := JoinFrom(lines, i + 1);
    assert JoinFrom(lines, i) == [a] + rest;
    JoinFromKeepsText(lines, i + 1);
    ConcatCons(a, rest);
    ConcatAt(lines, i);
    RemoveSpacesAppend(a, Concat(rest));
    RemoveSpacesAppend(a, Concat(lines[i + 1..]));
  }

  /** Lines none of which starts a seal number are passed through as they are. */
  lemma JoinSealLinesPlain(lines: seq<string>)
    requires forall k :: 0 <= k < |lines| ==> !IsSealNoPrefixLine(lines[k])
    ensures JoinSealLines(lines) == lines
  {
    JoinFromPlain(lines, 0);
  }

  lemma {:induction false} JoinFromPlain(lines: seq<string>, i: nat)
    requires i <= |lines|
    requires forall k :: 0 <= k < |lines| ==> !IsSealNoPrefixLine(lines[k])
    ensures JoinFrom(lines, i) == lines[i..]
    decreases |lines| - i
  {
    if i < |lines| {
      JoinFromPlain(lines, i + 1);
      assert lines[i..] == [lines[i]] + lines[i + 1..];
    }
  }

  // ---------------------------------------------------------------- rows split at a part number

  /** `/^ML\s*[-－—]/i`: a name that is really the start of a seal number. */
  predicate StartsWithMlDash(s: string)
  {
    |s| >= 2 && ToLowerChar(s[0]) == 'm' && ToLowerChar(s[1]) == 'l' && HyphenGap(s, 2, true).Some?
  }

  /** The condition of `mergeSplitPartNoRows`: a row whose part number is a prefix token,
      followed by one whose part number is a suffix token, their mould numbers not in conflict. */
  predicate ShouldMerge(cur: Row, next: Row)
  {
    IsPartNoPrefixToken(cur.partNo) && IsPartNoSuffixToken(next.partNo)
    && (NormalizeMouldNo(cur.mouldNo) == "" || NormalizeMouldNo(next.mouldNo) == ""
        || NormalizeMouldNo(cur.mouldNo) == NormalizeMouldNo(next.mouldNo))
  }

  /** The following row after a merge: the joined part number, and each empty field taken from
      the dropped row, the name only when it is not a seal-number fragment. */
  function MergeInto(cur: Row, next: Row): (r: Row)
    ensures r.index == next.index
  {
    next.(partNo := JoinSplitPartNo(cur.partNo, next.partNo),
          sealSampleNo := if next.sealSampleNo == "" then cur.sealSampleNo else next.sealSampleNo,
          mouldNo := if next.mouldNo == "" then cur.mouldNo else next.mouldNo,
          mouldFactory := if next.mouldFactory == "" then cur.mouldFactory else next.mouldFactory,
          moveTo := if next.moveTo == "" then cur.moveTo else next.moveTo,
          mouldName := if next.mouldName == "" && !StartsWithMlDash(cur.mouldName) then cur.mouldName else next.mouldName)
  }

  /** Row `k` is dropped when it merges into the row after it. */
  predicate Dropped(rows: seq<Row>, k: nat)
  {
    k + 1 < |rows| && ShouldMerge(rows[k], rows[k + 1])
  }

  /** Row `k` once the row before it has been merged into it, if it was. */
  function Settled(rows: seq<Row>, k: nat): (r: Row)
    requires k < |rows|
    ensures r.index == rows[k].index
  {
    if k > 0 && ShouldMerge(rows[k - 1], rows[k]) then MergeInto(rows[k - 1], rows[k]) else rows[k]
  }

  /** The first `n` rows after merging: every row that is not dropped, settled. */
  function MergedUpTo(rows: seq<Row>, n: nat): (out: seq<Row>)
    requires n <= |rows|
    ensures |out| <= n
  {
    if n == 0 then []
    else MergedUpTo(rows, n - 1) + (if Dropped(rows, n - 1) then [] else [Settled(rows, n - 1)])
  }

  /** The rows after `mergeSplitPartNoRows`. */
  function MergedRows(rows: seq<Row>): seq<Row>
  {
    MergedUpTo(rows, |rows|)
  }

  /** A joined part number ends with the last digit of its suffix, so it is no prefix token. */
  lemma JoinedIsNoPrefix(prefix: string, suffix: string)
    requires IsPartNoSuffixToken(suffix)
    ensures !IsPartNoPrefixToken(JoinSplitPartNo(prefix, suffix))
  {
    var v := Trim(suffix);
    var parts := Split(v, '.');
    assert v != [] by {
      if v == [] {
        assert false;
      }
    }
    var c := v[|v| - 1];
    assert c != '.' by {
      if c == '.' {
        LastOfSplit(v, '.');
        LastSegmentOfDot(v);
        assert false;
      }
    }
    var init := v[..|v| - 1];
    assert v == init + [c];
    var j := JoinSplitPartNo(prefix, suffix);
    RemoveSpacesAppend(Trim(prefix), v);
    RemoveSpacesAppend(init, [c]);
    assert RemoveSpaces([c]) == [c];
    assert j == RemoveSpaces(Trim(prefix)) + RemoveSpaces(init) + [c];
    TrimOfTrimmed(j);
  }

  /** What merging a row into its successor does to the next decision: a settled row merges on
      exactly when the original row would, and a row that merges on was not merged into. */
  lemma SettledStep(rows: seq<Row>, i: nat)
    requires i + 1 < |rows|
    ensures ShouldMerge(Settled(rows, i), rows[i + 1]) == Dropped(rows, i)
    ensures Dropped(rows, i) ==> Settled(rows, i) == rows[i]
  {
    if i > 0 && ShouldMerge(rows[i - 1], rows[i]) {
      JoinedIsNoPrefix(rows[i - 1].partNo, rows[i].partNo);
      if IsPartNoPrefixToken(rows[i].partNo) {
        PrefixIsNoSuffix(rows[i].partNo);
      }
    }
  }

  /** `mergeSplitPartNoRows`: the row after a dropped row is updated in place, then read as
      the current row in its turn. */
  method MergeSplitPartNoRows(rows: seq<Row>) returns (out: seq<Row>)
    ensures out == MergedRows(rows)
  {
    var w := rows;
    out := [];
    var i := 0;
    while i < |w|
      invariant |w| == |rows| && i <= |rows|
      invariant out == MergedUpTo(rows, i)
      invariant forall k :: i < k < |rows| ==> w[k] == rows[k]
      invariant i < |rows| ==> w[i] == Settled(rows, i)
      decreases |rows| - i
    {
      w, out := MergeAt(rows, w, out, i);
      i := i + 1;
    }
  }

  /** One turn of the loop of `mergeSplitPartNoRows`, at row `i`. */
  method MergeAt(rows: seq<Row>, w: seq<Row>, out: seq<Row>, i: nat) returns (w2: seq<Row>, out2: seq<Row>)
    requires |w| == |rows| && i < |rows|
    requires out == MergedUpTo(rows, i)
    requires forall k :: i < k < |rows| ==> w[k] == rows[k]
    requires w[i] == Settled(rows, i)
    ensures |w2| == |rows| && out2 == MergedUpTo(rows, i + 1)
    ensures forall k :: i + 1 < k < |rows| ==> w2[k] == rows[k]
    ensures i + 1 < |rows| ==> w2[i + 1] == Settled(rows, i + 1)
  {
    var cur := w[i];
    if i + 1 < |w| {
      SettledStep(rows, i);
    }
    if i + 1 < |w| && ShouldMerge(cur, w[i + 1]) {
      w2 := w[i + 1 := MergeInto(cur, w[i + 1])];
      out2 := out;
    } else {
      w2 := w;
      out2 := out + [cur];
    }
  }

  /** Merging can only happen at a row whose part number is a prefix token: without one, the
      rows are kept as they are. */
  lemma {:induction false} MergedPlain(rows: seq<Row>, n: nat)
    requires n <= |rows|
    requires forall k :: 0 <= k < |rows| ==> !IsPartNoPrefixToken(rows[k].partNo)
    ensures MergedUpTo(rows, n) == rows[..n]
  {
    if n > 0 {
      MergedPlain(rows, n - 1);
      assert rows[..n] == rows[..n - 1] + [rows[n - 1]];
    }
  }

  /** Rows merged so far are never changed by the rows after them: the `j`-th row merged from
      the first `n` rows is the `j`-th row merged from any longer run. */
  lemma {:induction false} MergedGrows(rows: seq<Row>, n: nat, m: nat, j: nat)
    requires n <= m <= |rows| && j < |MergedUpTo(rows, n)|
    ensures j < |MergedUpTo(rows, m)| && MergedUpTo(rows, m)[j] == MergedUpTo(rows, n)[j]
    decreases m - n
  {
    if n < m {
      MergedGrows(rows, n, m - 1, j);
      MergedStep(rows, m, j);
    }
  }

  lemma MergedStep(rows: seq<Row>, m: nat, j: nat)
    requires 0 < m <= |rows| && j < |MergedUpTo(rows, m - 1)|
    ensures j < |MergedUpTo(rows, m)| && MergedUpTo(rows, m)[j] == MergedUpTo(rows, m - 1)[j]
  {
    IndexOfAppend(MergedUpTo(rows, m - 1), if Dropped(rows, m - 1) then [] else [Settled(rows, m - 1)], j);
  }

  /** A row that is dropped gives its part number to the row after it: that row is in the
      result with the two part numbers joined, white space removed. */
  lemma MergedPair(rows: seq<Row>, k: nat)
    requires Dropped(rows, k)
    ensures MergeInto(rows[k], rows[k + 1]) in MergedRows(rows)
    ensures MergeInto(rows[k], rows[k + 1]).partNo == RemoveSpaces(rows[k].partNo) + RemoveSpaces(rows[k + 1].partNo)
  {
    JoinSplitPartNoMeaning(rows[k].partNo, rows[k + 1].partNo);
    if IsPartNoPrefixToken(rows[k + 1].partNo) {
      PrefixIsNoSuffix(rows[k + 1].partNo);
    }
    assert !Dropped(rows, k + 1);
    var a := MergedUpTo(rows, k + 2);
    assert a[|a| - 1] == MergeInto(rows[k], rows[k + 1]);
    MergedGrows(rows, k + 2, |rows|, |a| - 1);
    assert MergedRows(rows)[|a| - 1] == a[|a| - 1];
  }

  // ---------------------------------------------------------------- completeness

  /** The number of filled fields of a row, out of six. */
  function Filled(r: Row): (n: nat)
    ensures n <= 6
  {
    (if r.partNo != "" then 1 else 0) + (if r.mouldName != "" then 1 else 0) + (if r.mouldNo != "" then 1 else 0)
    + (if r.mouldFactory != "" then 1 else 0) + (if r.moveTo != "" then 1 else 0) + (if r.sealSampleNo != "" then 1 else 0)
  }

  /** `completenessScore`: the filled fields of all rows. */
  function CompletenessScore(rows: seq<Row>): nat
  {
    if rows == [] then 0 else CompletenessScore(rows[..|rows| - 1]) + Filled(rows[|rows| - 1])
  }

  /** The score is at most six per row. */
  lemma {:induction false} ScoreBound(rows: seq<Row>)
    ensures CompletenessScore(rows) <= 6 * |rows|
  {
    if rows != [] {
      ScoreBound(rows[..|rows| - 1]);
    }
  }

  /** The score adds up over a split of the rows. */
  lemma {:induction false} ScoreAppend(rows: seq<Row>, more: seq<Row>)
    ensures CompletenessScore(rows + more) == CompletenessScore(rows) + CompletenessScore(more)
    decreases |more|
  {
    if more != [] {
      ScoreAppend(rows, more[..|more| - 1]);
      assert (rows + more)[..|rows + more| - 1] == rows + more[..|more| - 1];
    } else {
      assert rows + more == rows;
    }
  }

  // ---------------------------------------------------------------- suspicious rows

  /** `/ML\s*[-－—]/i` at `i`. */
  predicate MlDashAt(s: string, i: nat)
  {
    i + 2 <= |s| && ToLowerChar(s[i]) == 'm' && ToLowerChar(s[i + 1]) == 'l' && HyphenGap(s, i + 2, true).Some?
  }

  /** `/\d{2}\s*[-－—]\s*\d{6,}/` at `i`: the day and serial number of a seal number. */
  predicate DaySerialAt(s: string, i: nat)
  {
    i + 2 <= |s| && IsDigit(s[i]) && IsDigit(s[i + 1])
    && var h := HyphenGap(s, i + 2, true); h.Some? && DigitsFrom(s, h.value) >= 6
  }

  /** `isSuspiciousRow`: a row whose name is empty, holds its factory or destination, or holds
      a piece of a seal number was most likely read across columns. */
  predicate IsSuspiciousRow(r: Row)
  {
    var name := NormalizeText(r.mouldName);
    name == "" || (r.mouldFactory != "" && Contains(name, r.mouldFactory)) || (r.moveTo != "" && Contains(name, r.moveTo))
    || (exists i :: 0 <= i < |name| && MlDashAt(name, i)) || (exists i :: 0 <= i < |name| && DaySerialAt(name, i))
  }

  // ---------------------------------------------------------------- one row from one line

  /** A mould number in its normal form: `ML` and digits. */
  predicate IsMouldNoText(t: string)
  {
    |t| >= 3 && t[..2] == "ML" && AllDigits(t[2..])
  }

  /** A mould number the pattern finds normalises to `ML` followed by its digits. */
  lemma MouldNoNormal(s: string, i: nat)
    requires MouldNoEnd(s, i).Some?
    ensures IsMouldNoText(NormalizeMouldNo(s[i..MouldNoEnd(s, i).value]))
  {
    var a := SkipSpaces(s, i + 2);
    var e := MouldNoEnd(s, i).value;
    var ml, gap, digits := s[i..i + 2], s[i + 2..a], s[a..e];
    assert s[i..e] == ml + (gap + digits);
    SkipSpacesBlank(s, i + 2);
    NormalizeMouldNoMeaning(s[i..e]);
    MlGapDigits(ml, gap, digits);
  }

  lemma MlGapDigits(ml: string, gap: string, digits: string)
    requires ml == "ML" && IsBlank(gap) && digits != [] && AllDigits(digits)
    ensures IsMouldNoText(RemoveSpaces(ml + (gap + digits)))
  {
    RemoveSpacesAppend(ml, gap + digits);
    RemoveSpacesAppend(gap, digits);
    RemoveSpacesOfSolid(ml);
    RemoveSpacesOfBlank(gap);
    RemoveSpacesOfSolid(digits);
    var r := ml + digits;
    assert r[2..] == digits;
  }

  /** `s.replace(/^\s*\d+(?:[.、]|\s)\s+/, '')`. */
  function DropRowNumber(s: string): string
  {
    var e := NewRowEnd(s);
    if e.Some? then s[e.value..] else s
  }

  /** `parseSingleLineRow`: the seal number, the mould number and a likely part number are taken
      out of the line in that order, and what is left is split into name, factory and
      destination. */
  function ParseSingleLineRow(index: int, line: string): Row
  {
    var s0 := DropRowNumber(Clean(StripCheckboxPrefix(line)));
    var seal := FirstText(Seal, s0);
    var s1 := L.Without(s0, seal);
    var mouldNo := FirstText(MouldNo, s1);
    var s2 := L.Without(s1, mouldNo);
    var partNo := ExtractPartNo(s2);
    var finalPartNo := if partNo != "" && IsLikelyPartNo(partNo) then partNo else "";
    var s3 := L.Without(s2, finalPartNo);
    var rest := L.Residual(WsTokens(s3));
    Row(index, Clean(finalPartNo), Clean(rest.name), NormalizeMouldNo(mouldNo), Clean(rest.factory),
        Clean(rest.moveTo), NormalizeSealNo(seal))
  }

  /** The seal number a pattern finds, normalised, is a printed seal number. */
  lemma FoundSealNormal(s: string)
    ensures var seal := FirstText(Seal, s); seal == "" || IsSealText(NormalizeSealNo(seal))
  {
    var m := First(Seal, s, 0);
    if m.Some? {
      SealNormalized(s, m.value.0);
    }
  }

  /** The mould number a pattern finds, normalised, is `ML` and digits. */
  lemma FoundMouldNoNormal(s: string)
    ensures var mouldNo := FirstText(MouldNo, s); mouldNo == "" || IsMouldNoText(NormalizeMouldNo(mouldNo))
  {
    var m := First(MouldNo, s, 0);
    if m.Some? {
      MouldNoNormal(s, m.value.0);
    }
  }

  lemma NormalizeEmpty()
    ensures NormalizeSealNo("") == "" && NormalizeMouldNo("") == ""
  {
    assert CollapseSpaces("") == "";
    assert TrimStart("") == "" && TrimEnd("") == "";
  }

  /** A row read from one line keeps its index, and its seal and mould numbers are empty or in
      their printed forms. */
  lemma SingleLineNumbers(index: int, line: string)
    ensures var r := ParseSingleLineRow(index, line);
      r.index == index
      && (r.sealSampleNo == "" || IsSealText(r.sealSampleNo))
      && (r.mouldNo == "" || IsMouldNoText(r.mouldNo))
  {
    var s0 := DropRowNumber(Clean(StripCheckboxPrefix(line)));
    var seal := FirstText(Seal, s0);
    NormalizeEmpty();
    FoundSealNormal(s0);
    FoundMouldNoNormal(L.Without(s0, seal));
  }

  // ---------------------------------------------------------------- filling a row from a line

  /** The seal, mould and part numbers a line supplies to a row, each only where the row has
      none, and the text left once they and the row's known numbers are taken out. */
  function TakeNumbers(row: Row, s0: string): (Row, string)
  {
    var k1 := L.Without(s0, row.sealSampleNo);
    var k2 := L.Without(k1, row.mouldNo);
    var k3 := L.Without(k2, row.partNo);
    var seal := if row.sealSampleNo == "" then FirstText(Seal, k3) else "";
    var s1 := L.Without(k3, seal);
    var mouldNo := if row.mouldNo == "" then FirstText(MouldNo, s1) else "";
    var s2 := L.Without(s1, mouldNo);
    var part := if row.partNo == "" then ExtractPartNo(s2) else "";
    var r := row.(sealSampleNo := if seal != "" then NormalizeSealNo(seal) else row.sealSampleNo,
                  mouldNo := if mouldNo != "" then NormalizeMouldNo(mouldNo) else row.mouldNo,
                  partNo := if part != "" then part else row.partNo);
    (r, L.Without(s2, part))
  }

  /** Text left over: before the row has a mould number it continues the name, unless it is a
      bare number or the row's own index; after it, it fills the factory, then the destination,
      and is otherwise added to the name. */
  function Leftover(r: Row, s: string): Row
  {
    if r.mouldNo == "" then
      if AllDigits(s) || s == IntToString(r.index) then r
      else r.(mouldName := if r.mouldName != "" then Clean(r.mouldName + " " + s) else s)
    else if r.mouldFactory == "" then r.(mouldFactory := s)
    else if r.moveTo == "" then r.(moveTo := s)
    else r.(mouldName := if r.mouldName != "" then Clean(r.mouldName + " " + s) else s)
  }

  /** `fillMissingFieldsFromLine` as a value: the row after the line has filled what it can. */
  function FilledRow(row: Row, line: string): Row
  {
    var s0 := Clean(StripCheckboxPrefix(line));
    if s0 == "" then row
    else
      var t := TakeNumbers(row, s0);
      if t.1 == "" then t.0 else Leftover(t.0, t.1)
  }

  /** `fillMissingFieldsFromLine`, step by step on the row it is given. */
  method FillMissingFieldsFromLine(row: Row, line: string) returns (r: Row)
    ensures r == FilledRow(row, line)
  {
    r := row;
    var s := Clean(StripCheckboxPrefix(line));
    if s == "" {
      return;
    }
    s := L.Without(s, r.sealSampleNo);
    s := L.Without(s, r.mouldNo);
    s := L.Without(s, r.partNo);
    var seal := "";
    if r.sealSampleNo == "" {
      seal := FirstText(Seal, s);
      if seal != "" {
        r := r.(sealSampleNo := NormalizeSealNo(seal));
      }
    }
    s := L.Without(s, seal);
    var mouldNo := "";
    if r.mouldNo == "" {
      mouldNo := FirstText(MouldNo, s);
      if mouldNo != "" {
        r := r.(mouldNo := NormalizeMouldNo(mouldNo));
      }
    }
    s := L.Without(s, mouldNo);
    var part := "";
    if r.partNo == "" {
      part := ExtractPartNo(s);
      if part != "" {
        r := r.(partNo := part);
      }
    }
    s := L.Without(s, part);
    if s == "" {
      return;
    }
    r := Leftover(r, s);
  }

  /** Filling never overwrites a known seal, mould or part number, factory or destination; a
      number it fills in is in its printed form; a row still without a mould number only has
      its name extended; the factory is filled only once the row has a mould number, and the
      destination only once it has a factory. */
  lemma FillKeepsKnownFields(row: Row, line: string)
    ensures var r := FilledRow(row, line);
      r.index == row.index
      && (row.sealSampleNo != "" ==> r.sealSampleNo == row.sealSampleNo)
      && (row.mouldNo != "" ==> r.mouldNo == row.mouldNo)
      && (row.partNo != "" ==> r.partNo == row.partNo)
      && (row.mouldFactory != "" ==> r.mouldFactory == row.mouldFactory)
      && (row.moveTo != "" ==> r.moveTo == row.moveTo)
      && (r.sealSampleNo != row.sealSampleNo ==> IsSealText(r.sealSampleNo))
      && (r.mouldNo != row.mouldNo ==> IsMouldNoText(r.mouldNo))
      && (r.mouldNo == "" ==> r.mouldFactory == row.mouldFactory && r.moveTo == row.moveTo)
      && (r.mouldFactory != row.mouldFactory ==> r.mouldNo != "" && r.mouldName == row.mouldName && r.moveTo == row.moveTo)
      && (r.moveTo != row.moveTo ==> r.mouldFactory != "" && row.mouldFactory != "" && r.mouldName == row.mouldName)
  {
    var s0 := Clean(StripCheckboxPrefix(line));
    if s0 != "" {
      var t := TakeNumbers(row, s0);
      TakeNumbersShape(row, s0);
      if t.1 != "" {
        LeftoverShape(t.0, t.1);
      }
    }
  }

  lemma TakeNumbersShape(row: Row, s0: string)
    ensures var r := TakeNumbers(row, s0).0;
      r.index == row.index && r.mouldName == row.mouldName && r.mouldFactory == row.mouldFactory && r.moveTo == row.moveTo
      && (row.sealSampleNo != "" ==> r.sealSampleNo == row.sealSampleNo)
      && (row.mouldNo != "" ==> r.mouldNo == row.mouldNo)
      && (row.partNo != "" ==> r.partNo == row.partNo)
      && (r.sealSampleNo != row.sealSampleNo ==> IsSealText(r.sealSampleNo))
      && (r.mouldNo != row.mouldNo ==> IsMouldNoText(r.mouldNo))
  {
    var k3 := L.Without(L.Without(L.Without(s0, row.sealSampleNo), row.mouldNo), row.partNo);
    var seal := if row.sealSampleNo == "" then FirstText(Seal, k3) else "";
    FoundSealNormal(k3);
    FoundMouldNoNormal(L.Without(k3, seal));
  }

  lemma LeftoverShape(r: Row, s: string)
    ensures var o := Leftover(r, s);
      o.index == r.index && o.partNo == r.partNo && o.mouldNo == r.mouldNo && o.sealSampleNo == r.sealSampleNo
      && (r.mouldFactory != "" ==> o.mouldFactory == r.mouldFactory)
      && (r.moveTo != "" ==> o.moveTo == r.moveTo)
      && (o.mouldNo == "" ==> o.mouldFactory == r.mouldFactory && o.moveTo == r.moveTo)
      && (o.mouldFactory != r.mouldFactory ==> o.mouldNo != "" && o.mouldName == r.mouldName && o.moveTo == r.moveTo)
      && (o.moveTo != r.moveTo ==> o.mouldFactory != "" && r.mouldFactory != "" && o.mouldName == r.mouldName)
  {
  }

  // ---------------------------------------------------------------- the whole-text fallback

  /** Positions of one match of `([A-Z]?\d[\w.]*\w)[\s\S]{0,220}?\b(ML\s*\d+)\b`. */
  datatype Hit = Hit(start: nat, partEnd: nat, mouldStart: nat, mouldEnd: nat)

  /** The part number comes first, starts with a capital or a digit and is two characters or
      more; the mould number follows it. */
  predicate HitShape(h: Hit, s: string)
  {
    h.start + 2 <= h.partEnd <= h.mouldStart < h.mouldEnd <= |s|
    && (IsAsciiUpper(s[h.start]) || IsDigit(s[h.start]))
    && MouldNoEnd(s, h.mouldStart) == Some(h.mouldEnd)
  }

  /** `\b(ML\s*\d+)\b` at `p`: a word boundary on both sides of the mould number. */
  function BoundedMouldEnd(s: string, p: nat): (r: Option<nat>)
    ensures r.Some? ==> MouldNoEnd(s, p) == r
  {
    if !Boundary(s, p) then None
    else
      var q := MouldNoEnd(s, p);
      if q.Some? && Boundary(s, q.value) then q else None
  }

  /** The lazy gap `[\s\S]{0,220}?` after the part number: 0, 1, … 220 characters. */
  function MouldWithin(s: string, e: nat, k: nat): (r: Option<(nat, nat)>)
    ensures r.Some? ==> e <= r.value.0 && MouldNoEnd(s, r.value.0) == Some(r.value.1)
    decreases 221 - k
  {
    if k > 220 || e + k > |s| then None
    else
      var q := BoundedMouldEnd(s, e + k);
      if q.Some? then Some((e + k, q.value)) else MouldWithin(s, e, k + 1)
  }

  /** `[\w.]*\w` gives back one character at a time, longest first: the part number ends at `e`,
      on a word character, no earlier than `lo`. */
  function PartBack(s: string, i: nat, lo: nat, e: nat): (r: Option<Hit>)
    requires i < |s| && (IsAsciiUpper(s[i]) || IsDigit(s[i]))
    requires i + 2 <= lo && e <= |s|
    ensures r.Some? ==> r.value.start == i && lo <= r.value.partEnd <= e && HitShape(r.value, s)
    decreases e
  {
    if e < lo then None
    else
      var m := if IsWord(s[e - 1]) then MouldWithin(s, e, 0) else None;
      if m.Some? then Some(Hit(i, e, m.value.0, m.value.1)) else PartBack(s, i, lo, e - 1)
  }

  /** The fallback pattern at `i`: `[A-Z]?` takes a capital when a digit follows it. */
  function HitAt(s: string, i: nat): (r: Option<Hit>)
    ensures r.Some? ==> r.value.start == i && HitShape(r.value, s)
  {
    if i >= |s| then None
    else
      var j := if IsAsciiUpper(s[i]) && i + 1 < |s| && IsDigit(s[i + 1]) then i + 1 else i;
      if !IsDigit(s[j]) then None
      else
        var run := WordDotRun(s, j + 1);
        if run == 0 then None else PartBack(s, i, j + 2, j + 1 + run)
  }

  /** The leftmost match at or after `from`. */
  function NextHit(s: string, from: nat): (r: Option<Hit>)
    ensures r.Some? ==> from <= r.value.start && HitShape(r.value, s)
    decreases |s| + 1 - from
  {
    if from > |s| then None
    else
      var h := HitAt(s, from);
      if h.Some? then h else NextHit(s, from + 1)
  }

  /** Every match from `from` on, each search starting where the last match ended. */
  function Hits(s: string, from: nat): (hs: seq<Hit>)
    requires from <= |s|
    ensures forall k :: 0 <= k < |hs| ==> HitShape(hs[k], s)
    decreases |s| - from
  {
    var h := NextHit(s, from);
    if h.None? then [] else [h.value] + Hits(s, h.value.mouldEnd)
  }

  /** The row of one match: the text between the part and the mould number is the name; up to
      240 characters on, the first seal number is the seal, and the words between the mould
      number and it are the factory and then the destination. */
  function RowOfHit(s: string, h: Hit, index: int): (r: Row)
    requires HitShape(h, s)
    ensures r.index == index && FallbackShape(r)
  {
    var segment := s[h.start..Min(|s|, h.mouldEnd + 240)];
    var partNo := s[h.start..h.partEnd];
    var mouldNo := s[h.mouldStart..h.mouldEnd];
    var sealMatch := FirstText(Seal, segment);
    var name := NameBetween(segment, partNo, mouldNo);
    var tokens := TailWords(segment, mouldNo, sealMatch);
    HitPieces(s, h);
    SealOfFound(segment);
    HitRowShape(index, partNo, name, mouldNo, tokens, sealMatch);
    HitRow(index, partNo, name, mouldNo, tokens, sealMatch)
  }

  /** A row from the pieces of a match: the first tail word is the factory and the others the
      destination. */
  function HitRow(index: int, partNo: string, name: string, mouldNo: string, tokens: seq<string>, sealMatch: string): Row
  {
    Row(index, partNo, name, NormalizeMouldNo(mouldNo), if tokens == [] then "" else tokens[0],
        Join(if tokens == [] then [] else tokens[1..], " "), SealOf(sealMatch))
  }

  /** The text between the part number and the mould number, compressed. */
  function NameBetween(segment: string, partNo: string, mouldNo: string): string
  {
    Clean(Trim(JsSlice(segment, JsIndexOf(segment, partNo) + |partNo|, JsIndexOf(segment, mouldNo))))
  }

  /** The words after the mould number, up to the seal number when there is one. */
  function TailWords(segment: string, mouldNo: string, sealMatch: string): seq<string>
  {
    var tail0 := JsSlice(segment, JsIndexOf(segment, mouldNo) + |mouldNo|, |segment|);
    WsTokens(Clean(if sealMatch != "" then JsSlice(tail0, 0, JsIndexOf(tail0, sealMatch)) else tail0))
  }

  /** The seal of a row: the match normalised, or "" without one. */
  function SealOf(sealMatch: string): string
  {
    if sealMatch != "" then NormalizeSealNo(sealMatch) else ""
  }

  /** What every fallback row carries: a part number of two characters or more starting with a
      capital or a digit, a mould number `ML` and digits, and no seal or a printed one. */
  predicate FallbackShape(r: Row)
  {
    |r.partNo| >= 2 && (IsAsciiUpper(r.partNo[0]) || IsDigit(r.partNo[0]))
    && IsMouldNoText(r.mouldNo) && (r.sealSampleNo == "" || IsSealText(r.sealSampleNo))
  }

  /** The seal of a row is empty or printed. */
  lemma SealOfFound(segment: string)
    ensures SealOf(FirstText(Seal, segment)) == "" || IsSealText(SealOf(FirstText(Seal, segment)))
  {
    FoundSealNormal(segment);
  }

  /** The part number of a match is two characters or more and starts with a capital or a
      digit; its mould number, normalised, is `ML` and digits. */
  lemma HitPieces(s: string, h: Hit)
    requires HitShape(h, s)
    ensures var partNo := s[h.start..h.partEnd];
      |partNo| >= 2 && (IsAsciiUpper(partNo[0]) || IsDigit(partNo[0]))
    ensures IsMouldNoText(NormalizeMouldNo(s[h.mouldStart..h.mouldEnd]))
  {
    MouldNoNormal(s, h.mouldStart);
    assert s[h.start..h.partEnd][0] == s[h.start];
  }

  lemma HitRowShape(index: int, partNo: string, name: string, mouldNo: string, tokens: seq<string>, sealMatch: string)
    requires |partNo| >= 2 && (IsAsciiUpper(partNo[0]) || IsDigit(partNo[0]))
    requires IsMouldNoText(NormalizeMouldNo(mouldNo))
    requires SealOf(sealMatch) == "" || IsSealText(SealOf(sealMatch))
    ensures var r := HitRow(index, partNo, name, mouldNo, tokens, sealMatch); r.index == index && FallbackShape(r)
  {
  }

  /** The rows of the matches, numbered from 1 in order. */
  function HitRows(s: string, hs: seq<Hit>): (rows: seq<Row>)
    requires forall k :: 0 <= k < |hs| ==> HitShape(hs[k], s)
    ensures |rows| == |hs| && RowsShaped(rows)
  {
    if hs == [] then []
    else
      var before := HitRows(s, hs[..|hs| - 1]);
      var last := RowOfHit(s, hs[|hs| - 1], |hs|);
      AppendShaped(before, last);
      before + [last]
  }

  /** `parseRowsByGlobalRegex`. */
  function GlobalRows(sectionText: string): (rows: seq<Row>)
    ensures forall k :: 0 <= k < |rows| ==> rows[k].index == k + 1 && FallbackShape(rows[k])
  {
    var s := Clean(sectionText);
    HitRows(s, Hits(s, 0))
  }

  /** Rows numbered 1, 2, … in order, each of the fallback shape. */
  predicate RowsShaped(rows: seq<Row>)
  {
    forall k :: 0 <= k < |rows| ==> rows[k].index == k + 1 && FallbackShape(rows[k])
  }

  /** Numbered, well-shaped rows stay so when the next such row is appended. */
  lemma AppendShaped(before: seq<Row>, last: Row)
    requires RowsShaped(before)
    requires last.index == |before| + 1 && FallbackShape(last)
    ensures RowsShaped(before + [last])
  {
    var rows := before + [last];
    forall k | 0 <= k < |rows|
      ensures rows[k].index == k + 1 && FallbackShape(rows[k])
    {
      if k < |before| {
        assert rows[k] == before[k];
      }
    }
  }

  /** `parseRowsByGlobalRegex`: `exec` in a loop, each match giving the next row. */
  method ParseRowsByGlobalRegex(sectionText: string) returns (rows: seq<Row>)
    ensures rows == GlobalRows(sectionText)
  {
    var s := Clean(sectionText);
    rows := [];
    ghost var done: seq<Hit> := [];
    var pos := 0;
    var more := true;
    while more
      invariant pos <= |s|
      invariant Shaped(done, s)
      invariant more ==> done + Hits(s, pos) == Hits(s, 0)
      invariant !more ==> done == Hits(s, 0)
      invariant rows == HitRows(s, done)
      decreases |s| - pos, more
    {
      more, rows, pos, done := ExecOnce(s, pos, rows, done);
    }
  }

  /** One `exec`: the next match, if any, gives the next row and moves the search on. */
  method ExecOnce(s: string, pos: nat, rows: seq<Row>, ghost done: seq<Hit>)
      returns (more: bool, rows2: seq<Row>, pos2: nat, ghost done2: seq<Hit>)
    requires pos <= |s|
    requires Shaped(done, s)
    requires done + Hits(s, pos) == Hits(s, 0)
    requires rows == HitRows(s, done)
    ensures pos2 <= |s| && Shaped(done2, s)
    ensures more ==> pos < pos2 && done2 + Hits(s, pos2) == Hits(s, 0)
    ensures !more ==> pos2 == pos && done2 == Hits(s, 0)
    ensures rows2 == HitRows(s, done2)
  {
    var h := NextHit(s, pos);
    if h.None? {
      ExecNone(s, pos, done);
      return false, rows, pos, done;
    }
    ExecSome(s, pos, done, h.value);
    RowsAppend(s, rows, done, h.value);
    return true, rows + [RowOfHit(s, h.value, |rows| + 1)], h.value.mouldEnd, done + [h.value];
  }

  /** The row of a further match extends the rows of the matches so far. */
  lemma RowsAppend(s: string, rows: seq<Row>, done: seq<Hit>, h: Hit)
    requires Shaped(done, s) && HitShape(h, s) && rows == HitRows(s, done)
    ensures Shaped(done + [h], s)
    ensures rows + [RowOfHit(s, h, |rows| + 1)] == HitRows(s, done + [h])
  {
    assert |rows| == |done|;
    ShapedSnoc(done, h, s);
    HitRowsSnoc(s, done, h);
  }

  /** No further match: the matches so far are all of them. */
  lemma ExecNone(s: string, pos: nat, done: seq<Hit>)
    requires pos <= |s| && done + Hits(s, pos) == Hits(s, 0) && NextHit(s, pos).None?
    ensures done == Hits(s, 0)
  {
    HitsStep(s, pos);
  }

  /** A further match `h`: it joins the matches so far and the search goes on after it. */
  lemma ExecSome(s: string, pos: nat, done: seq<Hit>, h: Hit)
    requires pos <= |s| && Shaped(done, s) && done + Hits(s, pos) == Hits(s, 0) && NextHit(s, pos) == Some(h)
    ensures pos < h.mouldEnd <= |s| && HitShape(h, s) && Shaped(done + [h], s)
    ensures (done + [h]) + Hits(s, h.mouldEnd) == Hits(s, 0)
  {
    HitsStep(s, pos);
    ShapedSnoc(done, h, s);
    SnocAssoc(done, h, Hits(s, h.mouldEnd));
  }

  lemma SnocAssoc<T>(a: seq<T>, x: T, b: seq<T>)
    ensures a + ([x] + b) == (a + [x]) + b
  {
  }

  lemma HitsStep(s: string, pos: nat)
    requires pos <= |s|
    ensures NextHit(s, pos).None? ==> Hits(s, pos) == []
    ensures NextHit(s, pos).Some? ==>
      pos < NextHit(s, pos).value.mouldEnd <= |s| && Hits(s, pos) == [NextHit(s, pos).value] + Hits(s, NextHit(s, pos).value.mouldEnd)
  {
  }

  /** Every match in `hs` has its shape. */
  predicate Shaped(hs: seq<Hit>, s: string)
  {
    forall k :: 0 <= k < |hs| ==> HitShape(hs[k], s)
  }

  lemma ShapedSnoc(hs: seq<Hit>, h: Hit, s: string)
    requires Shaped(hs, s) && HitShape(h, s)
    ensures Shaped(hs + [h], s)
  {
  }

  lemma HitRowsSnoc(s: string, done: seq<Hit>, h: Hit)
    requires Shaped(done, s)
    requires HitShape(h, s)
    ensures HitRows(s, done + [h]) == HitRows(s, done) + [RowOfHit(s, h, |done| + 1)]
  {
    assert (done + [h])[..|done|] == done;
  }

  // ---------------------------------------------------------------- the seal numbers of the whole notice

  /** The seal number rebuilt from the trimmed groups of a split spelling, unless a group is
      empty. */
  function SplitText(g: SealGroups, kind: SplitKind): seq<string>
  {
    var code := Trim(g.code);
    var serial := Trim(g.serial);
    if kind == SerialSplit then
      var date := Trim(g.ym + g.dd);
      if code == "" || date == "" || serial == "" then [] else [NormalizeSealNo("ML-" + code + "-" + date + "-" + serial)]
    else
      var ym := Trim(g.ym);
      var dd := Trim(g.dd);
      if code == "" || ym == "" || dd == "" || serial == "" then [] else [NormalizeSealNo("ML-" + code + "-" + ym + dd + "-" + serial)]
  }

  /** What one match of a collecting pass adds to the list: the normalised seal number for the
      plain pattern, when it is not empty, or the rebuilt one for a split spelling. */
  function MatchText(blob: string, p: Pattern, m: (nat, nat)): seq<string>
    requires p == Seal || p.SplitSeal?
    requires MatchEnd(p, blob, m.0) == Some(m.1)
  {
    if p == Seal then
      var v := NormalizeSealNo(blob[m.0..m.1]);
      if v != "" then [v] else []
    else
      SplitText(SplitSealAt(blob, m.0, p.kind).value, p.kind)
  }

  /** Each pair of `ms` is a match of `p` in `blob`, as its start and end. */
  predicate AreMatches(p: Pattern, blob: string, ms: seq<(nat, nat)>)
  {
    forall k :: 0 <= k < |ms| ==> MatchEnd(p, blob, ms[k].0) == Some(ms[k].1)
  }

  lemma AreMatchesPrefix(p: Pattern, blob: string, ms: seq<(nat, nat)>, i: nat)
    requires AreMatches(p, blob, ms) && i <= |ms|
    ensures AreMatches(p, blob, ms[..i])
  {
  }

  lemma AllAreMatches(p: Pattern, blob: string)
    ensures AreMatches(p, blob, AllMatches(p, blob, 0))
  {
  }

  /** What the matches `ms` of a pass add, in order. */
  function PassTexts(blob: string, p: Pattern, ms: seq<(nat, nat)>): seq<string>
    requires p == Seal || p.SplitSeal?
    requires AreMatches(p, blob, ms)
  {
    if ms == [] then [] else PassTexts(blob, p, ms[..|ms| - 1]) + MatchText(blob, p, ms[|ms| - 1])
  }

  /** One pass over the whole text. */
  function Pass(blob: string, p: Pattern): seq<string>
    requires p == Seal || p.SplitSeal?
  {
    AllAreMatches(p, blob);
    PassTexts(blob, p, AllMatches(p, blob, 0))
  }

  /** The four passes in order: the plain spelling, then the date split before its day, the
      hyphens lost, and the serial number split off. */
  function SealList(blob: string): seq<string>
  {
    Pass(blob, Seal) + Pass(blob, SplitSeal(DaySplit)) + Pass(blob, SplitSeal(HyphensLost)) + Pass(blob, SplitSeal(SerialSplit))
  }

  /** `collectSealSampleNos` as a value: the list without repeats, in the order of first
      occurrence, and without empty entries. */
  function CollectSeals(rawText: string): seq<string>
  {
    NonEmpty(G.Distinct(SealList(Clean(rawText))))
  }

  /** `collectSealSampleNos`: the four passes push onto one list, which is then de-duplicated. */
  method CollectSealSampleNos(rawText: string) returns (list: seq<string>)
    ensures list == CollectSeals(rawText)
  {
    var blob := Clean(rawText);
    var found: seq<string> := [];
    found := PushPass(blob, Seal, found);
    assert found == Pass(blob, Seal);
    found := PushPass(blob, SplitSeal(DaySplit), found);
    found := PushPass(blob, SplitSeal(HyphensLost), found);
    found := PushPass(blob, SplitSeal(SerialSplit), found);
    assert found == SealList(blob);
    list := NonEmpty(G.Distinct(found));
  }

  /** One `for … of blob.matchAll(re)` loop. */
  method PushPass(blob: string, p: Pattern, list: seq<string>) returns (out: seq<string>)
    requires p == Seal || p.SplitSeal?
    ensures out == list + Pass(blob, p)
  {
    var ms := AllMatches(p, blob, 0);
    AllAreMatches(p, blob);
    out := list;
    var i := 0;
    while i < |ms|
      invariant i <= |ms|
      invariant AreMatches(p, blob, ms[..i])
      invariant out == list + PassTexts(blob, p, ms[..i])
    {
      AreMatchesPrefix(p, blob, ms, i + 1);
      PassTextsSnoc(blob, p, ms, i);
      AppendAssoc(list, PassTexts(blob, p, ms[..i]), MatchText(blob, p, ms[i]));
      out := out + MatchText(blob, p, ms[i]);
      i := i + 1;
    }
    assert ms[..|ms|] == ms;
  }

  lemma PassTextsSnoc(blob: string, p: Pattern, ms: seq<(nat, nat)>, i: nat)
    requires p == Seal || p.SplitSeal?
    requires AreMatches(p, blob, ms) && i < |ms|
    ensures AreMatches(p, blob, ms[..i]) && AreMatches(p, blob, ms[..i + 1])
    ensures PassTexts(blob, p, ms[..i + 1]) == PassTexts(blob, p, ms[..i]) + MatchText(blob, p, ms[i])
  {
    assert ms[..i + 1][..i] == ms[..i];
  }

  lemma AppendAssoc<T>(a: seq<T>, b: seq<T>, c: seq<T>)
    ensures a + b + c == a + (b + c)
  {
  }

  /** Text without white space is left as it is by compressing. */
  lemma {:induction false} CollapseOfSolid(t: string)
    requires forall k :: 0 <= k < |t| ==> !IsSpace(t[k])
    ensures CollapseSpaces(t) == t
    decreases |t|
  {
    if t != [] {
      CollapseOfSolid(t[1..]);
    }
  }

  lemma CleanOfSolid(t: string)
    requires forall k :: 0 <= k < |t| ==> !IsSpace(t[k])
    ensures Clean(t) == t && Trim(t) == t
  {
    CollapseOfSolid(t);
    TrimOfTrimmed(t);
  }

  /** A text without white space whose only hyphen is `-` is its own normalised seal number. */
  lemma NormalizeOfDashed(t: string)
    requires forall k :: 0 <= k < |t| ==> !IsSpace(t[k]) && (IsHyphen(t[k]) ==> t[k] == '-')
    ensures NormalizeSealNo(t) == t
  {
    CleanOfSolid(t);
    RemoveSpacesOfSolid(t);
    DehyphenMeaning(t);
  }

  /** A rebuilt seal number is a printed one. */
  lemma SplitTextShape(g: SealGroups, kind: SplitKind)
    requires GroupsShaped(g)
    ensures |SplitText(g, kind)| == 1 && IsSealText(SplitText(g, kind)[0])
  {
    SolidCode(g.code);
    SolidDigits(g.serial);
    SolidDigits(g.ym);
    SolidDigits(g.dd);
    var date := g.ym + g.dd;
    DigitsConcat(g.ym, g.dd);
    SolidDigits(date);
    SplitTextIs(g, kind);
    RebuiltSeal(g.code, date, g.serial);
  }

  lemma SolidCode(t: string)
    requires forall k :: 0 <= k < |t| ==> IsCodeChar(t[k], false)
    ensures Trim(t) == t
  {
    CleanOfSolid(t);
  }

  lemma SolidDigits(t: string)
    requires AllDigits(t)
    ensures Trim(t) == t
  {
    CleanOfSolid(t);
  }

  /** The rebuilt seal number of groups that need no trimming. */
  lemma SplitTextIs(g: SealGroups, kind: SplitKind)
    requires g.code != [] && g.serial != [] && |g.ym| == 6 && |g.dd| == 2
    requires Trim(g.code) == g.code && Trim(g.serial) == g.serial
    requires Trim(g.ym) == g.ym && Trim(g.dd) == g.dd && Trim(g.ym + g.dd) == g.ym + g.dd
    ensures SplitText(g, kind) == [NormalizeSealNo(SealText(g.code, g.ym + g.dd, g.serial))]
  {
    assert "ML-" + g.code + "-" + (g.ym + g.dd) + "-" + g.serial == SealText(g.code, g.ym + g.dd, g.serial);
    assert "ML-" + g.code + "-" + g.ym + g.dd + "-" + g.serial == SealText(g.code, g.ym + g.dd, g.serial);
  }

  lemma RebuiltSeal(code: string, date: string, serial: string)
    requires code != [] && forall k :: 0 <= k < |code| ==> IsCodeChar(code[k], false)
    requires |date| == 8 && AllDigits(date) && serial != [] && AllDigits(serial)
    ensures IsSealText(NormalizeSealNo(SealText(code, date, serial)))
  {
    DashedSealText(code, date, serial);
    NormalizeOfDashed(SealText(code, date, serial));
    SealTextOf(code, date, serial);
  }

  lemma DashedSealText(code: string, date: string, serial: string)
    requires forall k :: 0 <= k < |code| ==> IsCodeChar(code[k], false)
    requires AllDigits(date) && AllDigits(serial)
    ensures var t := SealText(code, date, serial);
      forall k :: 0 <= k < |t| ==> !IsSpace(t[k]) && (IsHyphen(t[k]) ==> t[k] == '-')
  {
    var t := SealText(code, date, serial);
    forall k | 0 <= k < |t| ensures !IsSpace(t[k]) && (IsHyphen(t[k]) ==> t[k] == '-') {
      var a := 3 + |code|;
      var b := a + 1 + |date|;
      if k < 3 { assert t[k] == "ML-"[k]; }
      else if k < a { assert t[k] == code[k - 3]; }
      else if k == a { assert t[k] == '-'; }
      else if k < b { assert t[k] == date[k - a - 1]; }
      else if k == b { assert t[k] == '-'; }
      else { assert t[k] == serial[k - b - 1]; }
    }
  }

  /** Every entry one match adds is a printed seal number. */
  lemma MatchTextShape(blob: string, p: Pattern, m: (nat, nat))
    requires p == Seal || p.SplitSeal?
    requires MatchEnd(p, blob, m.0) == Some(m.1)
    ensures forall x :: x in MatchText(blob, p, m) ==> IsSealText(x)
  {
    if p == Seal {
      SealMatchTextShape(blob, m);
    } else {
      SplitMatchTextShape(blob, p.kind, m);
    }
  }

  lemma SealMatchTextShape(blob: string, m: (nat, nat))
    requires SealEnd(blob, m.0) == Some(m.1)
    ensures forall x :: x in MatchText(blob, Seal, m) ==> IsSealText(x)
  {
    SealNormalized(blob, m.0);
    var v := NormalizeSealNo(blob[m.0..m.1]);
    assert MatchText(blob, Seal, m) == if v != "" then [v] else [];
  }

  lemma SplitMatchTextShape(blob: string, kind: SplitKind, m: (nat, nat))
    requires MatchEnd(SplitSeal(kind), blob, m.0) == Some(m.1)
    ensures forall x :: x in MatchText(blob, SplitSeal(kind), m) ==> IsSealText(x)
  {
    assert SplitSealAt(blob, m.0, kind).Some?;
    var g := SplitSealAt(blob, m.0, kind).value;
    assert MatchText(blob, SplitSeal(kind), m) == SplitText(g, kind);
    SplitGroupsShape(blob, m.0, kind);
    SplitTextsShape(g, kind);
  }

  lemma SplitTextsShape(g: SealGroups, kind: SplitKind)
    requires GroupsShaped(g)
    ensures forall x :: x in SplitText(g, kind) ==> IsSealText(x)
  {
    SplitTextShape(g, kind);
    var t := SplitText(g, kind);
    assert t == [t[0]];
  }

  lemma {:induction false} PassTextsShape(blob: string, p: Pattern, ms: seq<(nat, nat)>)
    requires p == Seal || p.SplitSeal?
    requires AreMatches(p, blob, ms)
    ensures forall x :: x in PassTexts(blob, p, ms) ==> IsSealText(x)
  {
    if ms != [] {
      PassTextsShape(blob, p, ms[..|ms| - 1]);
      MatchTextShape(blob, p, ms[|ms| - 1]);
    }
  }

  lemma SealListShape(blob: string)
    ensures forall x :: x in SealList(blob) ==> IsSealText(x)
  {
    AllAreMatches(Seal, blob);
    AllAreMatches(SplitSeal(DaySplit), blob);
    AllAreMatches(SplitSeal(HyphensLost), blob);
    AllAreMatches(SplitSeal(SerialSplit), blob);
    PassTextsShape(blob, Seal, AllMatches(Seal, blob, 0));
    PassTextsShape(blob, SplitSeal(DaySplit), AllMatches(SplitSeal(DaySplit), blob, 0));
    PassTextsShape(blob, SplitSeal(HyphensLost), AllMatches(SplitSeal(HyphensLost), blob, 0));
    PassTextsShape(blob, SplitSeal(SerialSplit), AllMatches(SplitSeal(SerialSplit), blob, 0));
  }

  /** Dropping entries keeps a list free of repeats. */
  lemma {:induction false} NonEmptyNoDups(ss: seq<string>)
    requires G.NoDups(ss)
    ensures G.NoDups(NonEmpty(ss))
  {
    if ss != [] {
      NonEmptyNoDups(ss[1..]);
      var r := NonEmpty(ss[1..]);
      assert ss[0] !in ss[1..] by {
        forall j | 0 <= j < |ss| - 1 ensures ss[1..][j] != ss[0] {
          assert ss[1..][j] == ss[j + 1];
        }
      }
      if ss[0] != [] {
        var t := [ss[0]] + r;
        forall i, j | 0 <= i < j < |t| ensures t[i] != t[j] {
          assert t[j] == r[j - 1] && r[j - 1] in r;
        }
      }
    }
  }

  /** The collected seal numbers are printed seal numbers, each once, and they are exactly the
      ones the four passes find. */
  lemma CollectedSeals(rawText: string)
    ensures var r := CollectSeals(rawText);
      G.NoDups(r) && (forall k :: 0 <= k < |r| ==> IsSealText(r[k]))
      && forall x :: x in r <==> x in SealList(Clean(rawText))
  {
    var list := SealList(Clean(rawText));
    SealListShape(Clean(rawText));
    NonEmptyNoDups(G.Distinct(list));
    var r := CollectSeals(rawText);
    forall k | 0 <= k < |r| ensures IsSealText(r[k]) {
      assert r[k] in r;
    }
  }

  // ---------------------------------------------------------------- the mould name

  /** `[\uE000-\uF8FF]`: the private-use area, where some PDF fonts put their glyphs. */
  predicate IsPrivateUse(c: char) { '\U{E000}' <= c <= '\U{F8FF}' }

  /** Each private-use character made a space. */
  function MaskPrivateUse(s: string): (r: string)
    ensures |r| == |s|
    ensures forall i :: 0 <= i < |s| ==> r[i] == (if IsPrivateUse(s[i]) then ' ' else s[i])
  {
    if s == [] then [] else [if IsPrivateUse(s[0]) then ' ' else s[0]] + MaskPrivateUse(s[1..])
  }

  /** The values of the other fields, compressed, each once, that must not reappear in the
      name. */
  function BadTokens(row: Row): (bad: seq<string>)
    ensures forall k :: 0 <= k < |bad| ==> bad[k] != []
  {
    var d := G.Distinct(NonEmpty([Clean(row.mouldNo), Clean(row.mouldFactory), Clean(row.moveTo), Clean(row.sealSampleNo)]));
    assert forall k :: 0 <= k < |d| ==> d[k] in d;
    d
  }

  /** `s.split(t).join(' ')` for each bad token in turn. */
  function RemoveTokens(s: string, bad: seq<string>): string
    requires forall k :: 0 <= k < |bad| ==> bad[k] != []
  {
    if bad == [] then s else ReplaceAll(RemoveTokens(s, bad[..|bad| - 1]), bad[|bad| - 1], " ")
  }

  /** `s.replace(/^(\d+)\s+/g, '')`: a leading number followed by white space is dropped. */
  function DropLeadingNumber(s: string): string
  {
    var n := DigitsFrom(s, 0);
    var e := SkipSpaces(s, n);
    if n >= 1 && e > n then s[e..] else s
  }

  /** The tokens that may stay in the name: not the row's index, not a bad token, not a bare
      number. */
  predicate Allowed(t: string, index: string, bad: seq<string>)
  {
    t != index && t !in bad && !AllDigits(t)
  }

  function KeepTokens(ts: seq<string>, index: string, bad: seq<string>): (r: seq<string>)
    ensures forall x :: x in r <==> x in ts && Allowed(x, index, bad)
  {
    if ts == [] then []
    else (if Allowed(ts[0], index, bad) then [ts[0]] else []) + KeepTokens(ts[1..], index, bad)
  }

  /** A token equal to the one before it is dropped. */
  function DropRepeats(ts: seq<string>): (r: seq<string>)
    ensures forall x :: x in r <==> x in ts
    ensures forall i :: 0 < i < |r| ==> r[i - 1] != r[i]
    ensures ts != [] ==> r != [] && r[|r| - 1] == ts[|ts| - 1]
  {
    if ts == [] then []
    else
      var d := DropRepeats(ts[..|ts| - 1]);
      var t := ts[|ts| - 1];
      assert ts == ts[..|ts| - 1] + [t];
      if d != [] && d[|d| - 1] == t then d else d + [t]
  }

  /** `/[\u4e00-\u9fa5]/.test(t) && t.length <= 16`. */
  predicate IsShortCjk(t: string)
  {
    HasCjk(t) && |t| <= 16
  }

  /** The first short CJK token. */
  function FirstShortCjk(ts: seq<string>): (r: Option<string>)
    ensures r.Some? ==> r.value in ts && IsShortCjk(r.value)
    ensures r.None? ==> forall k :: 0 <= k < |ts| ==> !IsShortCjk(ts[k])
  {
    if ts == [] then None else if IsShortCjk(ts[0]) then Some(ts[0]) else FirstShortCjk(ts[1..])
  }

  /** The text the tokens are read from: private-use glyphs, bad tokens, seal-like fragments,
      day-and-serial fragments and stray numbers taken out. */
  function NameText(original: string, bad: seq<string>): string
    requires forall k :: 0 <= k < |bad| ==> bad[k] != []
  {
    var s0 := Clean(MaskPrivateUse(original));
    var s1 := RemoveTokens(s0, bad);
    var s2 := ReplaceEach(DashNumber, ReplaceEach(SealLike, s1, 0), 0);
    ReplaceEach(SpacedNumber, DropLeadingNumber(s2), 0)
  }

  /** `cleanMouldName` as a value. */
  function MouldNameOf(row: Row): string
  {
    var original := NormalizeText(row.mouldName);
    if original == "" then ""
    else
      var bad := BadTokens(row);
      var deduped := DropRepeats(KeepTokens(WsTokens(NameText(original, bad)), IntToString(row.index), bad));
      var cjk := FirstShortCjk(deduped);
      Clean(Trim(if cjk.Some? then cjk.value else Join(deduped, " ")))
  }

  /** `cleanMouldName`: the bad tokens are cut out one after another, and repeated tokens are
      dropped in a second loop. */
  method CleanMouldName(row: Row) returns (name: string)
    ensures name == MouldNameOf(row)
  {
    var original := NormalizeText(row.mouldName);
    if original == "" {
      return "";
    }
    var bad := BadTokens(row);
    var s := RemoveBadTokens(Clean(MaskPrivateUse(original)), bad);
    s := ReplaceEach(DashNumber, ReplaceEach(SealLike, s, 0), 0);
    s := ReplaceEach(SpacedNumber, DropLeadingNumber(s), 0);
    var deduped := DedupTokens(KeepTokens(WsTokens(s), IntToString(row.index), bad));
    var cjk := FirstShortCjk(deduped);
    name := Clean(Trim(if cjk.Some? then cjk.value else Join(deduped, " ")));
  }

  /** `for (const t of badTokens) s = s.split(t).join(' ')`. */
  method RemoveBadTokens(s0: string, bad: seq<string>) returns (s: string)
    requires forall k :: 0 <= k < |bad| ==> bad[k] != []
    ensures s == RemoveTokens(s0, bad)
  {
    s := s0;
    var i := 0;
    while i < |bad|
      invariant i <= |bad|
      invariant s == RemoveTokens(s0, bad[..i])
    {
      assert bad[..i + 1][..i] == bad[..i];
      s := ReplaceAll(s, bad[i], " ");
      i := i + 1;
    }
    assert bad[..|bad|] == bad;
  }

  /** The de-duplicating loop: a token equal to the last one kept is skipped. */
  method DedupTokens(tokens: seq<string>) returns (deduped: seq<string>)
    ensures deduped == DropRepeats(tokens)
  {
    deduped := [];
    var j := 0;
    while j < |tokens|
      invariant j <= |tokens|
      invariant deduped == DropRepeats(tokens[..j])
    {
      assert tokens[..j + 1][..j] == tokens[..j];
      if deduped != [] && deduped[|deduped| - 1] == tokens[j] {
        j := j + 1;
        continue;
      }
      deduped := deduped + [tokens[j]];
      j := j + 1;
    }
    assert tokens[..|tokens|] == tokens;
  }

  /** An empty name stays empty; a name with a short CJK word becomes the first such word left
      after the clean-up, which is no bad token, not the index and not a bare number. */
  lemma MouldNameShape(row: Row)
    ensures NormalizeText(row.mouldName) == "" ==> MouldNameOf(row) == ""
    ensures var original := NormalizeText(row.mouldName);
      var bad := BadTokens(row);
      var deduped := DropRepeats(KeepTokens(WsTokens(NameText(original, bad)), IntToString(row.index), bad));
      original != "" && FirstShortCjk(deduped).Some? ==>
        var r := MouldNameOf(row);
        r == FirstShortCjk(deduped).value && IsShortCjk(r) && Allowed(r, IntToString(row.index), bad)
        && forall k :: 0 <= k < |r| ==> !IsSpace(r[k])
  {
    var original := NormalizeText(row.mouldName);
    if original != "" {
      var bad := BadTokens(row);
      var ws := WsTokens(NameText(original, bad));
      var deduped := DropRepeats(KeepTokens(ws, IntToString(row.index), bad));
      var c := FirstShortCjk(deduped);
      if c.Some? {
        var t := c.value;
        assert t in ws;
        var k :| 0 <= k < |ws| && ws[k] == t;
        CleanOfSolid(t);
      }
    }
  }
}
