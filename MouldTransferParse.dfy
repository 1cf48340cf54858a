/** The front-end reader of a mould transfer notice (`parseMouldTransferFromText`): the title,
    move date and header checks; the column table tried first; then the row loop over the lines
    under the header, merged, filtered and finalised; column mode when the rows look polluted;
    and the pattern fallback when the loop gives no row. */
module MouldTransferParse {
  import opened Common
  import opened MouldText
  import opened MouldTransferText
  import R = MouldTransferRows
  import C = MouldTransferColumns
  import L = MouldTransferLegacy

  const BrandTitle: string := "美菱移模通知单"
  const OutboundTitle: string := "移模通知单（外调）"
  const NoticeKey: string := "移模通知单"
  const OutboundKey: string := "外调"

  const TitleError: string := "未识别到“移模通知单（外调）”相关表头关键字，无法判定为移模单。"

  /** The title test on the text without white space: the brand title, the outbound title, or
      both 移模通知单 and 外调 anywhere. */
  predicate TitleOk(raw: string)
  {
    var t := RemoveSpaces(raw);
    Contains(t, BrandTitle) || Contains(t, OutboundTitle) || (Contains(t, NoticeKey) && Contains(t, OutboundKey))
  }

  // ---------------------------------------------------------------- finishing rows

  /** `finalizeRows` on one row: a missing seal number is taken from the collected ones at the
      row's position, then the name is cleaned, keeping the old name when cleaning leaves nothing. */
  function Finalized(r: Row, i: nat, seals: seq<string>): Row
  {
    var r1 := if r.sealSampleNo == "" && seals != [] then r.(sealSampleNo := C.Cell(seals, i)) else r;
    var name := R.MouldNameOf(r1);
    r1.(mouldName := if name != "" then name else r1.mouldName)
  }

  function Finalize(rows: seq<Row>, rawText: string): seq<Row>
  {
    var seals := R.CollectSeals(rawText);
    seq(|rows|, i requires 0 <= i < |rows| => Finalized(rows[i], i, seals))
  }

  /** `finalizeRows`. */
  method FinalizeRows(rows: seq<Row>, rawText: string) returns (out: seq<Row>)
    ensures out == Finalize(rows, rawText)
  {
    var seals := R.CollectSealSampleNos(rawText);
    out := rows;
    var i := 0;
    while i < |out|
      invariant i <= |out| == |rows|
      invariant forall j :: 0 <= j < i ==> out[j] == Finalized(rows[j], j, seals)
      invariant forall j :: i <= j < |out| ==> out[j] == rows[j]
    {
      var r := FinalizeOne(out[i], i, seals);
      out := out[i := r];
      i := i + 1;
    }
  }

  /** One row of `finalizeRows`, changed in place. */
  method FinalizeOne(r0: Row, i: nat, seals: seq<string>) returns (r: Row)
    ensures r == Finalized(r0, i, seals)
  {
    r := r0;
    if r.sealSampleNo == "" && |seals| > 0 {
      r := r.(sealSampleNo := if i < |seals| then seals[i] else "");
    }
    var name := R.CleanMouldName(r);
    r := r.(mouldName := if name != "" then name else r.mouldName);
  }

  /** Finishing keeps every row in place with its number, part number, mould number, factory
      and destination; a seal number already read stays, a missing one becomes the collected
      seal number at the row's position (none when fewer were collected); a named row stays
      named. */
  lemma FinalizeShape(rows: seq<Row>, rawText: string)
    ensures var out := Finalize(rows, rawText);
      |out| == |rows|
      && forall j :: 0 <= j < |rows| ==> FinishedFrom(out[j], rows[j], j, R.CollectSeals(rawText))
  {
    var seals := R.CollectSeals(rawText);
    var out := Finalize(rows, rawText);
    R.CollectedSeals(rawText);
    forall j | 0 <= j < |rows|
      ensures FinishedFrom(out[j], rows[j], j, seals)
    {
      assert out[j] == Finalized(rows[j], j, seals);
      FinalizedShape(rows[j], j, seals);
    }
  }

  /** Row `o` is row `r`, at position `i`, finished with the collected seal numbers `seals`. */
  predicate FinishedFrom(o: Row, r: Row, i: nat, seals: seq<string>)
  {
    o.index == r.index && o.partNo == r.partNo && o.mouldNo == r.mouldNo
    && o.mouldFactory == r.mouldFactory && o.moveTo == r.moveTo
    && o.sealSampleNo == (if r.sealSampleNo != "" then r.sealSampleNo else C.Cell(seals, i))
    && (r.mouldName != "" ==> o.mouldName != "")
    && (o.sealSampleNo == "" || o.sealSampleNo == r.sealSampleNo || IsSealText(o.sealSampleNo))
  }

  /** One row finished, from seal numbers that are all printed ones. */
  lemma FinalizedShape(r: Row, i: nat, seals: seq<string>)
    requires forall k :: 0 <= k < |seals| ==> IsSealText(seals[k])
    ensures FinishedFrom(Finalized(r, i, seals), r, i, seals)
  {
  }

  // ---------------------------------------------------------------- the column table

  /** How many rows have a part number. */
  function WithPartNo(rows: seq<Row>): (n: nat)
    ensures n <= |rows|
  {
    if rows == [] then 0 else WithPartNo(rows[..|rows| - 1]) + (if rows[|rows| - 1].partNo != "" then 1 else 0)
  }

  /** How many rows have a mould number. */
  function WithMouldNo(rows: seq<Row>): (n: nat)
    ensures n <= |rows|
  {
    if rows == [] then 0 else WithMouldNo(rows[..|rows| - 1]) + (if rows[|rows| - 1].mouldNo != "" then 1 else 0)
  }

  /** The column table is taken when it has rows and at least half of them, rounded up, have a
      part number and at least half a mould number. */
  predicate EnoughColumns(rows: seq<Row>)
  {
    |rows| > 0 && WithPartNo(rows) >= (|rows| + 1) / 2 && WithMouldNo(rows) >= (|rows| + 1) / 2
  }

  /** The count of rows with a part number, by a loop. */
  method CountPartNos(rows: seq<Row>) returns (n: nat)
    ensures n == WithPartNo(rows)
  {
    n := 0;
    var i := 0;
    while i < |rows|
      invariant i <= |rows| && n == WithPartNo(rows[..i])
    {
      assert rows[..i + 1][..i] == rows[..i];
      if rows[i].partNo != "" {
        n := n + 1;
      }
      i := i + 1;
    }
    assert rows[..i] == rows;
  }

  /** The count of rows with a mould number, by a loop. */
  method CountMouldNos(rows: seq<Row>) returns (n: nat)
    ensures n == WithMouldNo(rows)
  {
    n := 0;
    var i := 0;
    while i < |rows|
      invariant i <= |rows| && n == WithMouldNo(rows[..i])
    {
      assert rows[..i + 1][..i] == rows[..i];
      if rows[i].mouldNo != "" {
        n := n + 1;
      }
      i := i + 1;
    }
    assert rows[..i] == rows;
  }

  /** The counts are those of the rows that have the field: every row has it exactly when the
      count is the number of rows. */
  lemma {:induction false} AllWithPartNo(rows: seq<Row>)
    ensures WithPartNo(rows) == |rows| <==> forall j :: 0 <= j < |rows| ==> rows[j].partNo != ""
  {
    if rows != [] {
      var init := rows[..|rows| - 1];
      AllWithPartNo(init);
      assert forall j :: 0 <= j < |init| ==> init[j] == rows[j];
    }
  }

  // ---------------------------------------------------------------- the row loop

  /** The current row continues on an index-like line while it has a part number and nothing
      that comes after the name. */
  predicate ContinuesOnIndex(r: Row)
  {
    r.partNo != "" && r.mouldNo == "" && r.mouldFactory == "" && r.moveTo == "" && r.sealSampleNo == ""
  }

  /** The change a line fills into the current row, the last one read; none before the first. */
  function Continue(rows: seq<Row>, line: string): L.Change
  {
    if rows == [] then L.Keep else L.ReplaceLast(R.FilledRow(rows[|rows| - 1], line))
  }

  /** The change one line of the table makes. */
  function LineChange(rows: seq<Row>, line: string): (c: L.Change)
    ensures c.ReplaceLast? ==> c == Continue(rows, line)
    ensures c.Append? ==>
      !IsHeaderLabelLine(line)
      && (IsIndexOnlyLine(StripCheckboxPrefix(line)) || IsNewRowLine(StripCheckboxPrefix(line))
          || c == PartLineChange(rows, line, StripCheckboxPrefix(line)))
  {
    if IsHeaderLabelLine(line) then L.Keep
    else
      var cleaned := StripCheckboxPrefix(line);
      if IsIndexOnlyLine(cleaned) then
        if rows != [] && ContinuesOnIndex(rows[|rows| - 1]) then Continue(rows, line)
        else
          var d := FirstDigits(cleaned);
          var n := IndexNumber(d);
          if d == "" || n.None? then L.Keep else L.Append(BlankRow(n.value))
      else if IsNewRowLine(cleaned) then
        var n := IndexNumber(RowNumberDigits(cleaned));
        if n.None? then L.Keep
        else
          var row := R.ParseSingleLineRow(n.value, cleaned);
          L.Append(if L.Incomplete(row) then R.FilledRow(row, cleaned) else row)
      else
        PartLineChange(rows, line, cleaned)
  }

  /** A line that is neither a row number nor a numbered row: a likely part number in its
      first column opens a new row when the current one is done with; an unlikely one, or any
      other line, continues the current row. */
  function PartLineChange(rows: seq<Row>, line: string, cleaned: string): (c: L.Change)
    ensures c.ReplaceLast? ==> c == Continue(rows, line)
    ensures c.Append? ==>
      ExtractPartNo(cleaned) != "" && L.StartsNewRow(rows, ExtractPartNo(cleaned))
      && c.row == R.FilledRow(L.ColumnsRow(|rows| + 1, L.SplitColumns(cleaned), ExtractPartNo(cleaned)), cleaned)
  {
    var partNo := ExtractPartNo(cleaned);
    var cols := L.SplitColumns(cleaned);
    var firstCol := if |cols| > 0 then cols[0] else "";
    if partNo != "" && !IsLikelyPartNo(if firstCol != "" then firstCol else partNo) then Continue(rows, line)
    else if partNo != "" && L.StartsNewRow(rows, partNo) then
      L.Append(R.FilledRow(L.ColumnsRow(|rows| + 1, cols, partNo), cleaned))
    else Continue(rows, line)
  }

  function LineStep(rows: seq<Row>, line: string): seq<Row>
  {
    L.Apply(rows, LineChange(rows, line))
  }

  /** The rows the lines give, line after line. */
  function RowsOf(lines: seq<string>): seq<Row>
  {
    L.FoldSteps(lines, [], LineStep)
  }

  /** A line that continues the current row never overwrites a part, mould or seal number, a
      factory or a destination already read, nor the row's number. */
  lemma ContinueKeepsFields(rows: seq<Row>, line: string)
    requires LineChange(rows, line).ReplaceLast?
    ensures rows != []
    ensures var last := rows[|rows| - 1];
      var r := LineChange(rows, line).row;
      r.index == last.index
      && (last.partNo != "" ==> r.partNo == last.partNo) && (last.mouldNo != "" ==> r.mouldNo == last.mouldNo)
      && (last.sealSampleNo != "" ==> r.sealSampleNo == last.sealSampleNo)
      && (last.mouldFactory != "" ==> r.mouldFactory == last.mouldFactory)
      && (last.moveTo != "" ==> r.moveTo == last.moveTo)
  {
    R.FillKeepsKnownFields(rows[|rows| - 1], line);
  }

  /** A line opens a row only when it is a row number, a numbered row, or a likely part number
      while the current row is done with; a row opened by a part number is numbered after the
      rows so far. */
  lemma OpensRow(rows: seq<Row>, line: string)
    requires LineChange(rows, line).Append?
    ensures var cleaned := StripCheckboxPrefix(line);
      !IsHeaderLabelLine(line)
      && (IsIndexOnlyLine(cleaned) || IsNewRowLine(cleaned)
          || (ExtractPartNo(cleaned) != "" && L.StartsNewRow(rows, ExtractPartNo(cleaned))
              && LineChange(rows, line).row.index == |rows| + 1))
  {
    var cleaned := StripCheckboxPrefix(line);
    if !IsIndexOnlyLine(cleaned) && !IsNewRowLine(cleaned) {
      var partNo := ExtractPartNo(cleaned);
      R.FillKeepsKnownFields(L.ColumnsRow(|rows| + 1, L.SplitColumns(cleaned), partNo), cleaned);
    }
  }

  /** The row loop from the first data line, stopping at the first line that ends the table. */
  method ScanRows(lines: seq<string>) returns (rows: seq<Row>)
    ensures rows == RowsOf(lines[..L.TableEnd(lines, 0)])
  {
    ghost var e := L.TableEnd(lines, 0);
    rows := [];
    var i := 0;
    assert lines[..0] == [];
    while i < |lines|
      invariant i <= e
      invariant rows == RowsOf(lines[..i])
    {
      if IsTableEnd(lines[i]) {
        break;
      }
      assert i + 1 <= e by { L.TableEndAhead(lines, 0, i); }
      rows := ApplyLine(rows, lines[i]);
      L.FoldStepsStep(lines, [], LineStep, i);
      i := i + 1;
    }
    assert i == e;
  }

  /** One line of the row loop, the current row updated in place as the last element. */
  method ApplyLine(rows: seq<Row>, line: string) returns (next: seq<Row>)
    ensures next == LineStep(rows, line)
  {
    var c := L.Keep;
    if !IsHeaderLabelLine(line) {
      var cleaned := StripCheckboxPrefix(line);
      if IsIndexOnlyLine(cleaned) {
        if rows != [] && ContinuesOnIndex(rows[|rows| - 1]) {
          var current := R.FillMissingFieldsFromLine(rows[|rows| - 1], line);
          c := L.ReplaceLast(current);
        } else {
          var d := FirstDigits(cleaned);
          var n := IndexNumber(d);
          if d != "" && n.Some? {
            c := L.Append(BlankRow(n.value));
          }
        }
      } else if IsNewRowLine(cleaned) {
        var n := IndexNumber(RowNumberDigits(cleaned));
        if n.Some? {
          var row := R.ParseSingleLineRow(n.value, cleaned);
          if L.Incomplete(row) {
            row := R.FillMissingFieldsFromLine(row, cleaned);
          }
          c := L.Append(row);
        }
      } else {
        c := PartLine(rows, line, cleaned);
      }
    }
    assert c == LineChange(rows, line);
    next := L.Apply(rows, c);
  }

  /** The part-number branch of the row loop. */
  method PartLine(rows: seq<Row>, line: string, cleaned: string) returns (c: L.Change)
    ensures c == PartLineChange(rows, line, cleaned)
  {
    c := L.Keep;
    var partNo := ExtractPartNo(cleaned);
    var cols := L.SplitColumns(cleaned);
    var firstCol := if |cols| > 0 then cols[0] else "";
    if partNo != "" && IsLikelyPartNo(if firstCol != "" then firstCol else partNo) && L.StartsNewRow(rows, partNo) {
      var row := L.ColumnsRow(|rows| + 1, cols, partNo);
      row := R.FillMissingFieldsFromLine(row, cleaned);
      return L.Append(row);
    }
    if rows != [] {
      var current := R.FillMissingFieldsFromLine(rows[|rows| - 1], line);
      c := L.ReplaceLast(current);
    }
  }

  // ---------------------------------------------------------------- after the loop

  /** A row with any field read. */
  predicate NonBlank(r: Row)
  {
    r.partNo != "" || r.mouldName != "" || r.mouldNo != "" || r.mouldFactory != "" || r.moveTo != "" || r.sealSampleNo != ""
  }

  /** The rows with any field read, in order. */
  function KeepNonBlank(rows: seq<Row>): (r: seq<Row>)
    ensures |r| <= |rows|
    ensures forall j :: 0 <= j < |r| ==> NonBlank(r[j])
    ensures forall x :: x in r ==> x in rows
  {
    if rows == [] then []
    else if NonBlank(rows[0]) then [rows[0]] + KeepNonBlank(rows[1..])
    else KeepNonBlank(rows[1..])
  }

  /** A row the filter drops has no field read. */
  lemma {:induction false} KeepNonBlankDrops(rows: seq<Row>, x: Row)
    requires x in rows && x !in KeepNonBlank(rows)
    ensures !NonBlank(x)
  {
    if rows[0] != x {
      KeepNonBlankDrops(rows[1..], x);
    }
  }

  /** Some row looks polluted. */
  predicate AnySuspicious(rows: seq<Row>)
  {
    exists j :: 0 <= j < |rows| && R.IsSuspiciousRow(rows[j])
  }

  /** The lines the row loop reads: what the header line holds besides its labels, then the
      lines after it, with split seal numbers joined. */
  function DataLines(lines: seq<string>, b: HeaderBlock): seq<string>
    requires b.start < |lines|
  {
    R.JoinSealLines((if b.tailLine != "" then [b.tailLine] else []) + lines[b.start + 1..])
  }

  /** The rows the line loop settles on: merged, the blank ones dropped, finished. */
  function LoopRows(rawText: string, data: seq<string>): seq<Row>
  {
    Finalize(KeepNonBlank(R.MergedRows(RowsOf(data[..L.TableEnd(data, 0)]))), rawText)
  }

  /** The rows of a notice once the title, date and header are found: the column table when
      it is complete enough, else what the row loop gives. */
  function NoticeRows(rawText: string, lines: seq<string>, b: HeaderBlock): seq<Row>
    requires b.start < |lines|
  {
    var colRows := C.ColumnTable(lines[b.start..]);
    if EnoughColumns(colRows) then Finalize(colRows, rawText) else LoopReading(rawText, DataLines(lines, b))
  }

  /** The loop rows; when they are none, the pattern fallback on the table section; when some
      looks polluted, the column-mode rows if they fill more fields. */
  function LoopReading(rawText: string, data: seq<string>): seq<Row>
  {
    var rows := LoopRows(rawText, data);
    if rows == [] then R.GlobalRows(ExtractTableSection(rawText))
    else if AnySuspicious(rows) then Preferred(rawText, rows, C.ColumnMode(data))
    else rows
  }

  /** The column-mode rows, finished, when there are some and they fill more fields than the
      loop rows; else the loop rows. */
  function Preferred(rawText: string, rows: seq<Row>, modeRows: seq<Row>): seq<Row>
  {
    if modeRows != [] && R.CompletenessScore(modeRows) > R.CompletenessScore(rows) then Finalize(modeRows, rawText)
    else rows
  }

  /** `parseMouldTransferFromText` as a value. */
  function ParseNotice(text: string): Result<L.Notice, L.Failure>
  {
    NoticeOf(NormalizeText(text))
  }

  /** The notice read from the normalised text `raw`. */
  function NoticeOf(raw: string): Result<L.Notice, L.Failure>
  {
    if !TitleOk(raw) then Err(L.Failure(TitleError, raw))
    else
      var lines := TextLines(raw);
      var date := FindMouldMoveDate(raw, lines, TryParseDate);
      if date == "" then Err(L.Failure(L.DateError, raw))
      else
        var b := FindTableHeaderBlock(lines);
        if b.None? then Err(L.Failure(L.HeaderError, raw))
        else
          var rows := NoticeRows(raw, lines, b.value);
          if rows == [] then Err(L.Failure(L.NoRowsError, raw)) else Ok(L.Notice(date, rows, raw))
  }

  /** `parseMouldTransferFromText`. */
  method ParseMouldTransferFromText(text: string) returns (r: Result<L.Notice, L.Failure>)
    ensures r == ParseNotice(text)
  {
    var raw := NormalizeText(text);
    if !TitleOk(raw) {
      return Err(L.Failure(TitleError, raw));
    }
    var lines := TextLines(raw);
    var date := FindMouldMoveDate(raw, lines, TryParseDate);
    if date == "" {
      return Err(L.Failure(L.DateError, raw));
    }
    var b := FindTableHeaderBlock(lines);
    if b.None? {
      return Err(L.Failure(L.HeaderError, raw));
    }
    var rows := ReadRows(raw, lines, b.value);
    if rows == [] {
      return Err(L.Failure(L.NoRowsError, raw));
    }
    return Ok(L.Notice(date, rows, raw));
  }

  /** The rows, in the order the parser tries its readings. */
  method ReadRows(raw: string, lines: seq<string>, b: HeaderBlock) returns (rows: seq<Row>)
    requires b.start < |lines|
    ensures rows == NoticeRows(raw, lines, b)
  {
    var colRows := C.ParseColumnTableByHeaders(lines[b.start..]);
    var withPart := CountPartNos(colRows);
    var withMould := CountMouldNos(colRows);
    if |colRows| > 0 && withPart >= (|colRows| + 1) / 2 && withMould >= (|colRows| + 1) / 2 {
      rows := FinalizeRows(colRows, raw);
      return;
    }
    rows := ReadLoop(raw, DataLines(lines, b));
  }

  /** The row loop and the fallbacks after it. */
  method ReadLoop(raw: string, data: seq<string>) returns (rows: seq<Row>)
    ensures rows == LoopReading(raw, data)
  {
    rows := LoopRowsOf(raw, data);
    if rows == [] {
      rows := R.ParseRowsByGlobalRegex(ExtractTableSection(raw));
      return;
    }
    var suspicious := HasSuspicious(rows);
    if suspicious {
      rows := PreferRows(raw, rows, data);
    }
  }

  /** The row loop, merged, filtered and finished. */
  method LoopRowsOf(raw: string, data: seq<string>) returns (rows: seq<Row>)
    ensures rows == LoopRows(raw, data)
  {
    rows := ScanRows(data);
    rows := R.MergeSplitPartNoRows(rows);
    rows := KeepNonBlank(rows);
    rows := FinalizeRows(rows, raw);
  }

  /** Column mode tried against the loop rows. */
  method PreferRows(raw: string, rows: seq<Row>, data: seq<string>) returns (out: seq<Row>)
    ensures out == Preferred(raw, rows, C.ColumnMode(data))
  {
    out := rows;
    var modeRows := C.ParseColumnMode(data);
    if modeRows != [] && R.CompletenessScore(modeRows) > R.CompletenessScore(rows) {
      out := FinalizeRows(modeRows, raw);
    }
  }

  /** `rows.some(isSuspiciousRow)`. */
  method HasSuspicious(rows: seq<Row>) returns (b: bool)
    ensures b == AnySuspicious(rows)
  {
    var i := 0;
    while i < |rows|
      invariant i <= |rows|
      invariant forall j :: 0 <= j < i ==> !R.IsSuspiciousRow(rows[j])
    {
      if R.IsSuspiciousRow(rows[i]) {
        return true;
      }
      i := i + 1;
    }
    return false;
  }

  /** The title, the move date and the header are each required, in that order; there is no
      header exactly when no line mentions 零件图号. */
  lemma NoticeFailures(raw: string)
    ensures var r := NoticeOf(raw);
      var lines := TextLines(raw);
      (r == Err(L.Failure(TitleError, raw)) <==> !TitleOk(raw))
      && (r == Err(L.Failure(L.DateError, raw)) <==> TitleOk(raw) && FindMouldMoveDate(raw, lines, TryParseDate) == "")
      && (r == Err(L.Failure(L.HeaderError, raw)) <==>
            TitleOk(raw) && FindMouldMoveDate(raw, lines, TryParseDate) != ""
            && forall j :: 0 <= j < |lines| ==> !MentionsPartKey(lines[j]))
  {
    var lines := TextLines(raw);
    FindTableHeaderBlockMeaning(lines);
    var b := FindTableHeaderBlock(lines);
    if TitleOk(raw) && FindMouldMoveDate(raw, lines, TryParseDate) != "" && b.Some? {
      NoticeFound(raw, lines, b.value);
    }
  }

  /** With the title, a date and a header found, the notice is read or fails for want of rows. */
  lemma NoticeFound(raw: string, lines: seq<string>, b: HeaderBlock)
    requires TitleOk(raw) && lines == TextLines(raw) && FindMouldMoveDate(raw, lines, TryParseDate) != ""
    requires FindTableHeaderBlock(lines) == Some(b)
    ensures b.start < |lines|
    ensures NoticeOf(raw) == (if NoticeRows(raw, lines, b) == [] then Err(L.Failure(L.NoRowsError, raw))
                              else Ok(L.Notice(FindMouldMoveDate(raw, lines, TryParseDate), NoticeRows(raw, lines, b), raw)))
  {
  }

  /** A notice that is read has a `YYYY-MM-DD` move date, at least one row and the normalised
      text. */
  lemma NoticeRead(raw: string)
    ensures var r := NoticeOf(raw);
      r.Ok? ==> IsIsoDate(r.value.mouldMoveDate) && r.value.rows != [] && r.value.rawText == raw
  {
    var lines := TextLines(raw);
    MoveDateShape(raw, lines, TryParseDate);
    var b := FindTableHeaderBlock(lines);
    if TitleOk(raw) && FindMouldMoveDate(raw, lines, TryParseDate) != "" && b.Some? {
      NoticeFound(raw, lines, b.value);
    }
  }

  /** When the column table is complete enough it is the reading, finished; and every finished
      reading keeps the rows it finishes, so a notice read from a column table has one row per
      table row, in order and numbered 1, 2, … */
  lemma ColumnTableTaken(raw: string, lines: seq<string>, b: HeaderBlock)
    requires b.start < |lines|
    requires EnoughColumns(C.ColumnTable(lines[b.start..]))
    ensures var rows := NoticeRows(raw, lines, b);
      var table := C.ColumnTable(lines[b.start..]);
      |rows| == |table|
      && forall j :: 0 <= j < |rows| ==>
        rows[j].index == j + 1 && rows[j].partNo == table[j].partNo && rows[j].mouldNo == table[j].mouldNo
  {
    ColumnsChosen(raw, lines, b);
    C.ColumnTableNumbered(lines[b.start..]);
    FinalizeNumbered(C.ColumnTable(lines[b.start..]), raw);
  }

  lemma ColumnsChosen(raw: string, lines: seq<string>, b: HeaderBlock)
    requires b.start < |lines|
    requires EnoughColumns(C.ColumnTable(lines[b.start..]))
    ensures NoticeRows(raw, lines, b) == Finalize(C.ColumnTable(lines[b.start..]), raw)
  {
  }

  /** Finishing numbered rows keeps them numbered, with their part and mould numbers. */
  lemma FinalizeNumbered(table: seq<Row>, raw: string)
    requires forall j :: 0 <= j < |table| ==> table[j].index == j + 1
    ensures var rows := Finalize(table, raw);
      |rows| == |table|
      && forall j :: 0 <= j < |rows| ==>
        rows[j].index == j + 1 && rows[j].partNo == table[j].partNo && rows[j].mouldNo == table[j].mouldNo
  {
    FinalizeShape(table, raw);
  }
}
