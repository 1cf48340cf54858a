/** The two column-wise readers of the newer mould-transfer notice parser
    (`packages/frontend/src/utils/pdf/mouldTransferParser.ts`): the table whose columns follow
    one another, each under its header label, and the looser column mode that gathers mould
    numbers, names, destinations, seal numbers and part numbers apart and lays them out by
    order. */
module MouldTransferColumns {
  import opened Common
  import opened MouldText
  import opened MouldTransferText
  import R = MouldTransferRows
  import L = MouldTransferLegacy

  // ---------------------------------------------------------------- the table by header labels

  /** The column a value line goes to. */
  datatype Field = PartField | NameField | MouldNoField | FactoryField | MoveToField | SealField

  /** The values gathered under each header label, in order. */
  datatype Columns = Columns(part: seq<string>, name: seq<string>, mouldNo: seq<string>,
                             factory: seq<string>, moveTo: seq<string>, seal: seq<string>)

  /** The columns read so far and the column the last label opened. */
  datatype TableScan = TableScan(cols: Columns, cur: Option<Field>)

  const NoColumns: Columns := Columns([], [], [], [], [], [])

  /** What a part-number prefix is stored with until its suffix line comes. */
  const Marker: string := "__PFX__"

  /** `/^ML/i`. */
  predicate StartsWithMlAnyCase(s: string)
  {
    |s| >= 2 && ToLowerChar(s[0]) == 'm' && ToLowerChar(s[1]) == 'l'
  }

  /** `/\d{8}$/`. */
  predicate EndsWithEightDigits(s: string)
  {
    |s| >= 8 && AllDigits(s[|s| - 8..])
  }

  /** `isPureDigits`. */
  predicate IsPureDigits(s: string)
  {
    var t := Trim(s);
    t != [] && AllDigits(t)
  }

  /** `isYYYYMMDD`. */
  predicate IsEightDigitText(s: string)
  {
    var t := Trim(s);
    |t| == 8 && AllDigits(t)
  }

  /** `pushSeal`: a compressed value is added to the seal column, except that a serial number
      (with or without its leading hyphen) right after a seal number that ends in its eight-digit
      date completes that seal number. */
  function PushSeal(seal: seq<string>, v: string): (r: seq<string>)
    ensures Clean(v) == "" ==> r == seal
    ensures Clean(v) != "" ==> r == seal + [Clean(v)] || (seal != [] && r == seal[..|seal| - 1] + [Clean(seal[|seal| - 1] + Clean(v))])
  {
    var cleaned := Clean(v);
    if cleaned == "" then seal
    else
      var last := if seal == [] then "" else seal[|seal| - 1];
      if last != "" && StartsWithMlAnyCase(last) && EndsWithEightDigits(last) && R.IsSerialLine(cleaned, false)
      then seal[..|seal| - 1] + [Clean(last + cleaned)]
      else seal + [cleaned]
  }

  /** A trailing marker removed, as `last.replace(/__PFX__$/, '')` does. */
  function Unmark(s: string): (r: string)
  {
    if EndsWith(s, Marker) then s[..|s| - |Marker|] else s
  }

  /** A value added to the part-number column: a prefix token is stored with the marker; a
      suffix token after a marked prefix completes that prefix; anything else is a new entry. */
  function PushPart(part: seq<string>, cleaned: string): (r: seq<string>)
    ensures |r| == |part| || |r| == |part| + 1
    ensures |part| > 0 ==> r[..|part| - 1] == part[..|part| - 1]
  {
    if IsPartNoPrefixToken(cleaned) then part + [cleaned + Marker]
    else
      var last := if part == [] then "" else part[|part| - 1];
      if EndsWith(last, Marker) && IsPartNoSuffixToken(cleaned) then
        part[..|part| - 1] + [JoinSplitPartNo(Unmark(last), cleaned)]
      else part + [cleaned]
  }

  /** The column a compact line labels: the exact label of the part number, the name, the mould
      number or the factory, or any line naming the destination or the seal number. */
  function LabelOf(c: string): Option<Field>
  {
    if c == PartKey then Some(PartField)
    else if c == NameKey then Some(NameField)
    else if c == MouldNoKey then Some(MouldNoField)
    else if c == FactoryKey then Some(FactoryField)
    else if IncludesAny(c, MoveToKeys) then Some(MoveToField)
    else if IncludesAny(c, SealKeys) then Some(SealField)
    else None
  }

  /** A line without its checkbox, compressed, and without the leading `#` and white space. */
  function ValueText(raw: string): string
  {
    var t := Clean(StripCheckboxPrefix(raw));
    t[HashSpaceRun(t)..]
  }

  /** A value added to column `f`. */
  function Put(cols: Columns, f: Field, cleaned: string): Columns
  {
    match f
    case PartField => cols.(part := PushPart(cols.part, cleaned))
    case NameField => cols.(name := cols.name + [cleaned])
    case MouldNoField => cols.(mouldNo := cols.mouldNo + [cleaned])
    case FactoryField => cols.(factory := cols.factory + [cleaned])
    case MoveToField => cols.(moveTo := cols.moveTo + [cleaned])
    case SealField => cols.(seal := PushSeal(cols.seal, cleaned))
  }

  /** One line of the table before its end: a label opens its column; a value goes to the open
      column unless it is a bare row number or a junk glyph line; lines before any label are
      skipped. */
  function ScanLine(st: TableScan, raw: string): TableScan
  {
    if raw == "" then st
    else
      var cleaned := ValueText(raw);
      var c := CompactLine(cleaned);
      if c == "" then st
      else if LabelOf(c).Some? then TableScan(st.cols, LabelOf(c))
      else if st.cur.None? || IsPureDigits(cleaned) || IsJunkLine(cleaned) then st
      else TableScan(Put(st.cols, st.cur.value, cleaned), st.cur)
  }

  /** The columns the lines give, line after line. */
  function ScanAll(lines: seq<string>): TableScan
  {
    L.FoldSteps(lines, TableScan(NoColumns, None), ScanLine)
  }

  /** The longest column. */
  function RowCount(cols: Columns): nat
  {
    Max(Max(Max(|cols.part|, |cols.name|), Max(|cols.mouldNo|, |cols.factory|)), Max(|cols.moveTo|, |cols.seal|))
  }

  /** `col[i] ?? ''`. */
  function Cell(col: seq<string>, i: nat): string
  {
    if i < |col| then col[i] else ""
  }

  /** The part number of a cell. As written, a prefix that no suffix line completed keeps its
      marker; `intended` drops it. */
  function PartCell(cell: string, intended: bool): string
  {
    Clean(if intended then Unmark(cell) else cell)
  }

  /** Whether position `i` of the columns gives a row: not when it has no part number, mould
      number or name, nor when its part number is eight digits (a stray date) and it has no mould
      number. */
  predicate Kept(cols: Columns, i: nat, intended: bool)
  {
    var partNo := PartCell(Cell(cols.part, i), intended);
    var mouldName := Clean(Cell(cols.name, i));
    var mouldNo := NormalizeMouldNo(Cell(cols.mouldNo, i));
    !(partNo == "" && mouldNo == "" && mouldName == "") && !(IsEightDigitText(partNo) && mouldNo == "")
  }

  /** The row at position `i` of the columns, numbered `index`. */
  function RowAt(cols: Columns, i: nat, index: int, intended: bool): Row
  {
    Row(index, PartCell(Cell(cols.part, i), intended), Clean(Cell(cols.name, i)),
        NormalizeMouldNo(Cell(cols.mouldNo, i)), Clean(Cell(cols.factory, i)), Clean(Cell(cols.moveTo, i)),
        NormalizeSealNo(Cell(cols.seal, i)))
  }

  /** The rows of the first `k` positions that `keep` admits, made by `at` from the position
      and the number the row gets: 1, 2, … in order. */
  function Numbered(keep: nat -> bool, at: (nat, int) -> Row, k: nat): (rows: seq<Row>)
    ensures |rows| <= k
  {
    if k == 0 then []
    else
      var prev := Numbered(keep, at, k - 1);
      if keep(k - 1) then prev + [at(k - 1, |prev| + 1)] else prev
  }

  /** The rows of the first `k` positions of the columns. */
  function RowsUpTo(cols: Columns, k: nat, intended: bool): (rows: seq<Row>)
  {
    Numbered((i: nat) => Kept(cols, i, intended), (i: nat, n: int) => RowAt(cols, i, n, intended), k)
  }

  /** A row with a part number, a mould number or a name. */
  predicate Meaningful(r: Row)
  {
    r.partNo != "" || r.mouldNo != "" || r.mouldName != ""
  }

  /** `rows.filter((r) => r.partNo || r.mouldNo || r.mouldName)`. */
  function KeepMeaningful(rows: seq<Row>): (r: seq<Row>)
  {
    if rows == [] then []
    else if Meaningful(rows[0]) then [rows[0]] + KeepMeaningful(rows[1..])
    else KeepMeaningful(rows[1..])
  }

  /** The rows the columns give. */
  function TableRowsWith(cols: Columns, intended: bool): seq<Row>
  {
    KeepMeaningful(RowsUpTo(cols, RowCount(cols), intended))
  }

  /** The rows of the table as the parser builds them. */
  function TableRowsAsWritten(cols: Columns): seq<Row>
  {
    TableRowsWith(cols, false)
  }

  /** The rows of the table with a dangling marker dropped. */
  function TableRows(cols: Columns): seq<Row>
  {
    TableRowsWith(cols, true)
  }

  /** `parseColumnTableByHeaders` on the lines from the header on: the columns read up to the
      first line that ends the table, laid out as rows. */
  function ColumnTable(lines: seq<string>): seq<Row>
  {
    TableRows(ScanAll(lines[..L.TableEnd(lines, 0)]).cols)
  }

  /** The rows of the column table are numbered 1, 2, … in order. */
  lemma ColumnTableNumbered(lines: seq<string>)
    ensures var rows := ColumnTable(lines);
      forall j :: 0 <= j < |rows| ==> rows[j].index == j + 1
  {
    TableRowsShape(ScanAll(lines[..L.TableEnd(lines, 0)]).cols);
  }

  /** `parseColumnTableByHeaders`. */
  method ParseColumnTableByHeaders(lines: seq<string>) returns (rows: seq<Row>)
    ensures rows == ColumnTable(lines)
  {
    var cols := NoColumns;
    var cur: Option<Field> := None;
    ghost var e := L.TableEnd(lines, 0);
    var i := 0;
    assert lines[..0] == [];
    while i < |lines|
      invariant i <= e
      invariant TableScan(cols, cur) == ScanAll(lines[..i])
    {
      if IsTableEnd(lines[i]) {
        break;
      }
      assert i + 1 <= e by { L.TableEndAhead(lines, 0, i); }
      cols, cur := ScanOne(cols, cur, lines[i]);
      L.FoldStepsStep(lines, TableScan(NoColumns, None), ScanLine, i);
      i := i + 1;
    }
    assert i == e;
    rows := BuildRows(cols);
    rows := KeepMeaningful(rows);
  }

  /** One line of the column loop. */
  method ScanOne(cols: Columns, cur: Option<Field>, raw: string) returns (cols2: Columns, cur2: Option<Field>)
    ensures TableScan(cols2, cur2) == ScanLine(TableScan(cols, cur), raw)
  {
    cols2, cur2 := cols, cur;
    if raw == "" {
      return;
    }
    var cleaned := ValueText(raw);
    var c := CompactLine(cleaned);
    if c == "" {
      return;
    }
    var lab := LabelOf(c);
    if lab.Some? {
      cur2 := lab;
      return;
    }
    if cur.None? || IsPureDigits(cleaned) || IsJunkLine(cleaned) {
      return;
    }
    match cur.value {
      case PartField => cols2 := cols.(part := PushPart(cols.part, cleaned));
      case SealField => cols2 := cols.(seal := PushSeal(cols.seal, cleaned));
      case NameField => cols2 := cols.(name := cols.name + [cleaned]);
      case MouldNoField => cols2 := cols.(mouldNo := cols.mouldNo + [cleaned]);
      case FactoryField => cols2 := cols.(factory := cols.factory + [cleaned]);
      case MoveToField => cols2 := cols.(moveTo := cols.moveTo + [cleaned]);
    }
  }

  /** The row loop: one row per position of the longest column, skipping the bogus ones. */
  method BuildRows(cols: Columns) returns (rows: seq<Row>)
    ensures rows == RowsUpTo(cols, RowCount(cols), true)
  {
    var n := RowCount(cols);
    rows := [];
    var k := 0;
    while k < n
      invariant k <= n
      invariant rows == RowsUpTo(cols, k, true)
    {
      var kept, row := RowOfPosition(cols, k, |rows| + 1);
      RowsUpToStep(cols, k, rows, kept, row);
      if kept {
        rows := rows + [row];
      }
      k := k + 1;
    }
  }

  /** One position of the row loop: whether it gives a row, and the row. */
  method RowOfPosition(cols: Columns, k: nat, index: int) returns (kept: bool, row: Row)
    ensures kept == Kept(cols, k, true) && row == RowAt(cols, k, index, true)
  {
    var partNo := Clean(Unmark(Cell(cols.part, k)));
    var mouldName := Clean(Cell(cols.name, k));
    var mouldNo := NormalizeMouldNo(Cell(cols.mouldNo, k));
    kept := !(partNo == "" && mouldNo == "" && mouldName == "") && !(IsEightDigitText(partNo) && mouldNo == "");
    row := Row(index, partNo, mouldName, mouldNo, Clean(Cell(cols.factory, k)),
               Clean(Cell(cols.moveTo, k)), NormalizeSealNo(Cell(cols.seal, k)));
  }

  lemma RowsUpToStep(cols: Columns, k: nat, rows: seq<Row>, kept: bool, row: Row)
    requires rows == RowsUpTo(cols, k, true)
    requires kept == Kept(cols, k, true) && row == RowAt(cols, k, |rows| + 1, true)
    ensures RowsUpTo(cols, k + 1, true) == if kept then rows + [row] else rows
  {
    NumberedStep((i: nat) => Kept(cols, i, true), (i: nat, n: int) => RowAt(cols, i, n, true), k);
  }

  lemma NumberedStep(keep: nat -> bool, at: (nat, int) -> Row, k: nat)
    ensures var prev := Numbered(keep, at, k);
      Numbered(keep, at, k + 1) == if keep(k) then prev + [at(k, |prev| + 1)] else prev
  {
  }

  // ---------------------------------------------------------------- what the table keeps

  /** The lines run together. */
  lemma {:induction false} ConcatSnoc(xs: seq<string>, x: string)
    ensures R.Concat(xs + [x]) == R.Concat(xs) + x
  {
    if xs == [] {
      assert xs + [x] == [x];
    } else {
      assert (xs + [x])[1..] == xs[1..] + [x];
      ConcatSnoc(xs[1..], x);
    }
  }

  /** Joining a serial number onto its seal number loses no text: apart from white space the
      seal column says what the values said, in order. */
  lemma PushSealKeepsText(seal: seq<string>, v: string)
    ensures RemoveSpaces(R.Concat(PushSeal(seal, v))) == RemoveSpaces(R.Concat(seal)) + RemoveSpaces(v)
  {
    var cleaned := Clean(v);
    var r := PushSeal(seal, v);
    RemoveSpacesOfClean(v);
    if cleaned == "" {
      assert r == seal;
    } else if r == seal + [cleaned] {
      AddedKeepsText(seal, cleaned);
    } else {
      var init := seal[..|seal| - 1];
      var last := seal[|seal| - 1];
      assert seal == init + [last];
      JoinedKeepsText(init, last, cleaned);
    }
  }

  lemma JoinedKeepsText(init: seq<string>, last: string, cleaned: string)
    ensures RemoveSpaces(R.Concat(init + [Clean(last + cleaned)])) == RemoveSpaces(R.Concat(init + [last])) + RemoveSpaces(cleaned)
  {
    ConcatSnoc(init, last);
    ConcatSnoc(init, Clean(last + cleaned));
    RemoveSpacesOfClean(last + cleaned);
    RemoveSpacesAppend(last, cleaned);
    RemoveSpacesAppend(R.Concat(init), last);
    RemoveSpacesAppend(R.Concat(init), Clean(last + cleaned));
  }

  lemma AddedKeepsText(seal: seq<string>, cleaned: string)
    ensures RemoveSpaces(R.Concat(seal + [cleaned])) == RemoveSpaces(R.Concat(seal)) + RemoveSpaces(cleaned)
  {
    ConcatSnoc(seal, cleaned);
    RemoveSpacesAppend(R.Concat(seal), cleaned);
  }

  /** A suffix token completes the marked prefix before it: the entry becomes the prefix and
      the suffix without white space and without the marker. */
  lemma PushPartJoins(part: seq<string>, prefix: string, suffix: string)
    requires IsPartNoPrefixToken(prefix) && IsPartNoSuffixToken(suffix)
    ensures PushPart(PushPart(part, prefix), suffix) == part + [RemoveSpaces(prefix) + RemoveSpaces(suffix)]
  {
    var p1 := part + [prefix + Marker];
    assert EndsWith(prefix + Marker, Marker) by {
      assert (prefix + Marker)[|prefix + Marker| - |Marker|..] == Marker;
    }
    assert Unmark(prefix + Marker) == prefix by {
      assert (prefix + Marker)[..|prefix|] == prefix;
    }
    PrefixIsNoSuffixOther(suffix);
    assert p1[..|p1| - 1] == part;
    JoinSplitPartNoMeaning(prefix, suffix);
  }

  /** A suffix token is never a prefix token. */
  lemma PrefixIsNoSuffixOther(s: string)
    requires IsPartNoSuffixToken(s)
    ensures !IsPartNoPrefixToken(s)
  {
    if IsPartNoPrefixToken(s) {
      PrefixIsNoSuffix(s);
    }
  }

  /** A prefix that no suffix line completes keeps the marker in the row built as written,
      while the intended row holds the prefix itself. */
  lemma DanglingPrefix(p: string)
    requires IsPartNoPrefixToken(p) && forall k :: 0 <= k < |p| ==> !IsSpace(p[k])
    ensures var cols := Columns(PushPart([], p), [], [], [], [], []);
      TableRowsAsWritten(cols) == [Row(1, p + Marker, "", "", "", "", "")]
      && TableRows(cols) == [Row(1, p, "", "", "", "", "")]
  {
    PushPartPrefix([], p);
    var cols := Columns([p + Marker], [], [], [], [], []);
    assert RowCount(cols) == 1;
    MarkedRow(p, false);
    MarkedRow(p, true);
    KeepAllMeaningful([Row(1, p + Marker, "", "", "", "", "")]);
    KeepAllMeaningful([Row(1, p, "", "", "", "", "")]);
  }

  lemma PushPartPrefix(part: seq<string>, p: string)
    requires IsPartNoPrefixToken(p)
    ensures PushPart(part, p) == part + [p + Marker]
  {
  }

  /** The one row of a part column holding a marked prefix. */
  lemma MarkedRow(p: string, intended: bool)
    requires IsPartNoPrefixToken(p) && forall k :: 0 <= k < |p| ==> !IsSpace(p[k])
    ensures RowsUpTo(Columns([p + Marker], [], [], [], [], []), 1, intended)
      == [Row(1, if intended then p else p + Marker, "", "", "", "", "")]
  {
    var cols := Columns([p + Marker], [], [], [], [], []);
    MarkedAt(p, intended);
    NumberedStep((i: nat) => Kept(cols, i, intended), (i: nat, n: int) => RowAt(cols, i, n, intended), 0);
  }

  /** The first position of a part column holding a marked prefix is kept, and its row. */
  lemma MarkedAt(p: string, intended: bool)
    requires IsPartNoPrefixToken(p) && forall k :: 0 <= k < |p| ==> !IsSpace(p[k])
    ensures var cols := Columns([p + Marker], [], [], [], [], []);
      Kept(cols, 0, intended)
      && RowAt(cols, 0, 1, intended) == Row(1, if intended then p else p + Marker, "", "", "", "", "")
  {
    MarkedCell(p);
    R.NormalizeEmpty();
  }

  /** The cell of a marked prefix, as written and as intended. */
  lemma MarkedCell(p: string)
    requires IsPartNoPrefixToken(p) && forall k :: 0 <= k < |p| ==> !IsSpace(p[k])
    ensures PartCell(p + Marker, false) == p + Marker && PartCell(p + Marker, true) == p
    ensures p != "" && !IsEightDigitText(p) && !IsEightDigitText(p + Marker)
  {
    R.CleanOfSolid(p);
    UnmarkMarked(p);
    MarkedIsSolid(p);
    R.CleanOfSolid(p + Marker);
    assert p[|p| - 1] == '.';
    EndIsNotDigit(p);
    EndIsNotDigit(p + Marker);
  }

  lemma UnmarkMarked(p: string)
    ensures Unmark(p + Marker) == p
  {
    assert (p + Marker)[|p + Marker| - |Marker|..] == Marker;
    assert (p + Marker)[..|p|] == p;
  }

  lemma MarkedIsSolid(p: string)
    requires forall k :: 0 <= k < |p| ==> !IsSpace(p[k])
    ensures forall k :: 0 <= k < |p + Marker| ==> !IsSpace((p + Marker)[k])
  {
    forall k | 0 <= k < |p + Marker| ensures !IsSpace((p + Marker)[k]) {
      if k < |p| { assert (p + Marker)[k] == p[k]; } else { assert (p + Marker)[k] == Marker[k - |p|]; }
    }
  }

  /** A trimmed text ending in a non-digit is not eight digits. */
  lemma EndIsNotDigit(s: string)
    requires s != [] && Trim(s) == s && !IsDigit(s[|s| - 1])
    ensures !IsEightDigitText(s)
  {
  }

  /** The positions among the first `k` that `keep` admits, in order. */
  function Positions(keep: nat -> bool, k: nat): (ps: seq<nat>)
  {
    if k == 0 then [] else Positions(keep, k - 1) + (if keep(k - 1) then [k - 1] else [])
  }

  /** The numbered rows are those of the admitted positions, in increasing order and numbered
      1, 2, …; no other position gives a row. */
  lemma {:induction false} NumberedMeaning(keep: nat -> bool, at: (nat, int) -> Row, k: nat)
    ensures var rows := Numbered(keep, at, k);
      var ps := Positions(keep, k);
      |rows| == |ps|
      && (forall j :: 0 <= j < |ps| ==> ps[j] < k && keep(ps[j]) && rows[j] == at(ps[j], j + 1))
      && (forall j, j' :: 0 <= j < j' < |ps| ==> ps[j] < ps[j'])
      && (forall i :: 0 <= i < k && keep(i) ==> i in ps)
  {
    if k > 0 {
      NumberedMeaning(keep, at, k - 1);
      var prev := Numbered(keep, at, k - 1);
      var pp := Positions(keep, k - 1);
      if keep(k - 1) {
        var x := at(k - 1, |prev| + 1);
        assert Numbered(keep, at, k) == prev + [x];
        assert Positions(keep, k) == pp + [k - 1];
      } else {
        assert Numbered(keep, at, k) == prev;
        assert Positions(keep, k) == pp + [];
      }
    }
  }

  /** A kept position gives a row with the number it is given, a part number, a mould number or
      a name, no stray date for a part number, and mould and seal numbers without white space. */
  lemma RowAtShape(cols: Columns, i: nat, n: int)
    requires Kept(cols, i, true)
    ensures var r := RowAt(cols, i, n, true);
      r.index == n && Meaningful(r) && !(IsEightDigitText(r.partNo) && r.mouldNo == "")
      && (forall k :: 0 <= k < |r.mouldNo| ==> !IsSpace(r.mouldNo[k]))
      && (forall k :: 0 <= k < |r.sealSampleNo| ==> !IsSpace(r.sealSampleNo[k]))
  {
    NormalizeMouldNoMeaning(Cell(cols.mouldNo, i));
    NormalizeSealNoMeaning(Cell(cols.seal, i));
  }

  /** The rows of the table are numbered 1, 2, … in order, each has a part number, a mould
      number or a name, none is a stray eight-digit date without a mould number, the mould and
      seal numbers hold no white space; each comes from a position of the columns, in order, and
      every position that is not skipped gives one. */
  lemma TableRowsShape(cols: Columns)
    ensures var rows := TableRows(cols);
      var ps := Positions((i: nat) => Kept(cols, i, true), RowCount(cols));
      |rows| == |ps| <= RowCount(cols)
      && (forall j :: 0 <= j < |rows| ==> rows[j] == RowAt(cols, ps[j], j + 1, true))
      && (forall j, j' :: 0 <= j < j' < |ps| ==> ps[j] < ps[j'])
      && (forall i :: 0 <= i < RowCount(cols) && Kept(cols, i, true) ==> i in ps)
      && forall j :: 0 <= j < |rows| ==>
        rows[j].index == j + 1 && Meaningful(rows[j]) && !(IsEightDigitText(rows[j].partNo) && rows[j].mouldNo == "")
        && (forall k :: 0 <= k < |rows[j].mouldNo| ==> !IsSpace(rows[j].mouldNo[k]))
        && (forall k :: 0 <= k < |rows[j].sealSampleNo| ==> !IsSpace(rows[j].sealSampleNo[k]))
  {
    var keep := (i: nat) => Kept(cols, i, true);
    var at := (i: nat, n: int) => RowAt(cols, i, n, true);
    var rows := RowsUpTo(cols, RowCount(cols), true);
    NumberedMeaning(keep, at, RowCount(cols));
    var ps := Positions(keep, RowCount(cols));
    forall j | 0 <= j < |rows|
      ensures rows[j] == RowAt(cols, ps[j], j + 1, true)
      ensures rows[j].index == j + 1 && Meaningful(rows[j]) && !(IsEightDigitText(rows[j].partNo) && rows[j].mouldNo == "")
      ensures forall k :: 0 <= k < |rows[j].mouldNo| ==> !IsSpace(rows[j].mouldNo[k])
      ensures forall k :: 0 <= k < |rows[j].sealSampleNo| ==> !IsSpace(rows[j].sealSampleNo[k])
    {
      assert keep(ps[j]) && rows[j] == at(ps[j], j + 1);
      RowAtShape(cols, ps[j], j + 1);
    }
    KeepAllMeaningful(rows);
  }

  /** The final filter keeps every row, since the row loop already skipped the empty ones. */
  lemma {:induction false} KeepAllMeaningful(rows: seq<Row>)
    requires forall j :: 0 <= j < |rows| ==> Meaningful(rows[j])
    ensures KeepMeaningful(rows) == rows
  {
    if rows != [] {
      KeepAllMeaningful(rows[1..]);
    }
  }

  // ---------------------------------------------------------------- column mode

  /** What `parseColumnMode` gathers line by line: the stand-alone names, destinations, seal
      numbers and part numbers, the rows that mould numbers open, and a part-number prefix and a
      name waiting to be used. */
  datatype ModeScan = ModeScan(names: seq<string>, moveTos: seq<string>, seals: seq<string>,
                               partNos: seq<string>, rows: seq<Row>, pendingPart: string, pendingName: string)

  const NoMode: ModeScan := ModeScan([], [], [], [], [], "", "")

  const NoticeWord: string := "通知单"

  /** A line with a mould number: the text before it names the mould unless it is a header
      label, a CJK word after it is the factory, and with no name on the line the waiting name
      is taken. */
  function MouldLine(st: ModeScan, line: string, a: nat, e: nat): ModeScan
    requires a <= e <= |line|
  {
    var prefix := Clean(line[..a]);
    var tail := Clean(line[e..]);
    var name := if prefix != "" && !IsHeaderLabelLine(prefix) then prefix else "";
    var factory := if tail != "" && IsCjkWord(tail) then tail else "";
    var mouldNo := NormalizeMouldNo(line[a..e]);
    if name == "" && st.pendingName != "" then
      st.(rows := st.rows + [Row(0, "", st.pendingName, mouldNo, factory, "", "")], pendingName := "")
    else
      st.(rows := st.rows + [Row(0, "", name, mouldNo, factory, "", "")])
  }

  /** A short CJK word: the factory of the last row when it has a mould number and no factory;
      else its destination when it has a factory and no destination and fewer destinations were
      listed than there are rows; else a listed destination. */
  function ShortWord(st: ModeScan, line: string): ModeScan
  {
    var n := |st.rows|;
    if n > 0 && st.rows[n - 1].mouldNo != "" && st.rows[n - 1].mouldFactory == "" then
      st.(rows := st.rows[n - 1 := st.rows[n - 1].(mouldFactory := line)])
    else if n > 0 && st.rows[n - 1].mouldNo != "" && st.rows[n - 1].mouldFactory != "" && st.rows[n - 1].moveTo == ""
            && |st.moveTos| < n then
      st.(rows := st.rows[n - 1 := st.rows[n - 1].(moveTo := line)])
    else
      st.(moveTos := st.moveTos + [line])
  }

  /** What a compressed line of column mode is, tried in the parser's order: a seal number, a
      part-number prefix, the suffix of a waiting prefix, a whole part number, a mould number, a
      short CJK word, a name. */
  datatype ModeKind = SealOf(seal: string) | PartPrefix | PartSuffix | DirectPart(part: string)
                    | MouldAt(a: nat, e: nat) | ShortCjk | NameOnly | Other

  function Classify(line: string, pendingPart: string): (k: ModeKind)
    ensures k.SealOf? ==> k.seal != "" && k.seal == FirstText(Seal, line)
    ensures k.MouldAt? ==> k.a < k.e <= |line| && First(MouldNo, line, 0) == Some((k.a, k.e))
    ensures k.NameOnly? ==> HasCjk(line)
  {
    var seal := FirstText(Seal, line);
    if seal != "" then SealOf(seal)
    else if IsPartNoPrefixToken(line) then PartPrefix
    else if pendingPart != "" && IsPartNoSuffixToken(line) then PartSuffix
    else
      var direct := ExtractPartNo(line);
      var m := First(MouldNo, line, 0);
      if direct != "" && IsLikelyPartNo(direct) && !StartsWithMl(direct) then DirectPart(direct)
      else if m.Some? then MouldAt(m.value.0, m.value.1)
      else if IsCjkWord(line) && |line| <= 4 then ShortCjk
      else if |line| <= 16 && HasCjk(line) && !Contains(line, NoticeWord) then NameOnly
      else Other
  }

  /** A line without its checkbox, compressed. */
  function ModeText(raw: string): string
  {
    Clean(StripCheckboxPrefix(raw))
  }

  /** What a raw line is: empty lines, header labels, junk glyph lines and lines that compress
      to nothing are `Other`. */
  function LineKind(raw: string, pendingPart: string): (k: ModeKind)
    ensures k.SealOf? ==> k.seal != "" && k.seal == FirstText(Seal, ModeText(raw))
    ensures k.MouldAt? ==> k.a < k.e <= |ModeText(raw)| && First(MouldNo, ModeText(raw), 0) == Some((k.a, k.e))
    ensures k.NameOnly? ==> ModeText(raw) != ""
  {
    if raw == "" || IsHeaderLabelLine(raw) || IsJunkLine(raw) || ModeText(raw) == "" then Other
    else Classify(ModeText(raw), pendingPart)
  }

  /** The effect of a line of kind `k` on what was gathered. */
  function Gather(st: ModeScan, k: ModeKind, line: string): ModeScan
    requires k.MouldAt? ==> k.a < k.e <= |line|
  {
    match k
    case SealOf(seal) => st.(seals := st.seals + [NormalizeSealNo(seal)])
    case PartPrefix => st.(pendingPart := line)
    case PartSuffix => st.(partNos := st.partNos + [JoinSplitPartNo(st.pendingPart, line)], pendingPart := "")
    case DirectPart(part) => st.(partNos := st.partNos + [part])
    case MouldAt(a, e) => MouldLine(st, line, a, e)
    case ShortCjk => ShortWord(st, line)
    case NameOnly => st.(pendingName := line, names := st.names + [line])
    case Other => st
  }

  /** One line of column mode before the end of the table. */
  function ModeLine(st: ModeScan, raw: string): ModeScan
  {
    Gather(st, LineKind(raw, st.pendingPart), ModeText(raw))
  }

  /** What the lines give, line after line. */
  function ModeAll(lines: seq<string>): ModeScan
  {
    L.FoldSteps(lines, NoMode, ModeLine)
  }

  /** How many of the first `i` rows have no name. */
  function Unnamed(rows: seq<Row>, i: nat): (n: nat)
    requires i <= |rows|
    ensures n <= i
  {
    if i == 0 then 0 else Unnamed(rows, i - 1) + (if rows[i - 1].mouldName == "" then 1 else 0)
  }

  /** Row `i` after the names were handed out: the `t`-th row without a name takes the `t`-th
      collected name, while there is one. */
  function NameFilled(rows: seq<Row>, pool: seq<string>, i: nat): Row
    requires i < |rows|
  {
    var t := Unnamed(rows, i);
    if rows[i].mouldName == "" && t < |pool| && pool[t] != "" then rows[i].(mouldName := pool[t]) else rows[i]
  }

  function FillNames(rows: seq<Row>, pool: seq<string>): seq<Row>
  {
    seq(|rows|, i requires 0 <= i < |rows| => NameFilled(rows, pool, i))
  }

  /** Row `i` given, where it has none, the destination, seal number and part number at its own
      position of the lists (for a destination the first one when the list is shorter). */
  function Assigned(r: Row, i: nat, moveTos: seq<string>, seals: seq<string>, partNos: seq<string>): Row
  {
    var moveTo := if r.moveTo == "" && moveTos != [] then (if i < |moveTos| then moveTos[i] else moveTos[0]) else r.moveTo;
    var seal := if r.sealSampleNo == "" && seals != [] then Cell(seals, i) else r.sealSampleNo;
    var partNo := if r.partNo == "" && partNos != [] then Cell(partNos, i) else r.partNo;
    r.(moveTo := moveTo, sealSampleNo := seal, partNo := partNo)
  }

  function AssignAll(rows: seq<Row>, st: ModeScan): seq<Row>
  {
    seq(|rows|, i requires 0 <= i < |rows| => Assigned(rows[i], i, st.moveTos, st.seals, st.partNos))
  }

  /** `normalizeDraft`: text fields compressed, mould and seal numbers normalised. */
  function Draft(r: Row): Row
  {
    Row(r.index, Clean(r.partNo), Clean(r.mouldName), NormalizeMouldNo(r.mouldNo), Clean(r.mouldFactory),
        Clean(r.moveTo), NormalizeSealNo(r.sealSampleNo))
  }

  function Drafts(rows: seq<Row>): seq<Row>
  {
    seq(|rows|, i requires 0 <= i < |rows| => Draft(rows[i]))
  }

  /** The rows numbered 1, 2, … in order. */
  function Reindexed(rows: seq<Row>): seq<Row>
  {
    seq(|rows|, i requires 0 <= i < |rows| => rows[i].(index := i + 1))
  }

  /** `parseColumnMode`: the lines read up to the end of the table; no rows without a mould
      number; else names, destinations, seal and part numbers handed to the mould rows, the rows
      normalised, the empty ones dropped and the rest numbered. */
  function ColumnMode(lines: seq<string>): seq<Row>
  {
    ModeRows(ModeAll(lines[..L.TableEnd(lines, 0)]))
  }

  /** The rows of what was gathered: none without a mould-number row. */
  function ModeRows(st: ModeScan): seq<Row>
  {
    if st.rows == [] then []
    else Reindexed(KeepMeaningful(Drafts(AssignAll(FillNames(st.rows, st.names), st))))
  }

  /** `parseColumnMode`. */
  method ParseColumnMode(lines: seq<string>) returns (out: seq<Row>)
    ensures out == ColumnMode(lines)
  {
    var st := NoMode;
    ghost var e := L.TableEnd(lines, 0);
    var i := 0;
    assert lines[..0] == [];
    while i < |lines|
      invariant i <= e
      invariant st == ModeAll(lines[..i])
    {
      if IsTableEnd(lines[i]) {
        break;
      }
      assert i + 1 <= e by { L.TableEndAhead(lines, 0, i); }
      st := ModeOne(st, lines[i]);
      L.FoldStepsStep(lines, NoMode, ModeLine, i);
      i := i + 1;
    }
    assert i == e;
    if |st.rows| == 0 {
      return [];
    }
    var rows := HandOutNames(st.rows, st.names);
    rows := AssignByOrder(rows, st);
    rows := DraftMeaningful(rows);
    out := Renumber(rows);
  }

  /** The rows normalised, the empty ones dropped. */
  method DraftMeaningful(rows: seq<Row>) returns (out: seq<Row>)
    ensures out == KeepMeaningful(Drafts(rows))
  {
    out := [];
    ghost var ds := Drafts(rows);
    var k := 0;
    while k < |rows|
      invariant k <= |rows| == |ds|
      invariant out == KeepMeaningful(ds[..k])
    {
      var d := Draft(rows[k]);
      assert d == ds[k];
      KeepMeaningfulSnoc(ds[..k], d);
      PrefixSnoc(ds, k);
      if Meaningful(d) {
        out := out + [d];
      }
      k := k + 1;
    }
    assert ds[..k] == ds;
  }

  /** The numbering loop. */
  method Renumber(rows: seq<Row>) returns (out: seq<Row>)
    ensures out == Reindexed(rows)
  {
    out := rows;
    var k := 0;
    while k < |out|
      invariant k <= |out| == |rows|
      invariant forall j :: 0 <= j < k ==> out[j] == rows[j].(index := j + 1)
      invariant forall j :: k <= j < |out| ==> out[j] == rows[j]
    {
      out := out[k := out[k].(index := k + 1)];
      k := k + 1;
    }
  }

  /** One line of the column-mode loop. */
  method ModeOne(st: ModeScan, raw: string) returns (st2: ModeScan)
    ensures st2 == ModeLine(st, raw)
  {
    st2 := st;
    if raw == "" || IsHeaderLabelLine(raw) || IsJunkLine(raw) {
      SkippedLine(st, raw);
      return;
    }
    var line := Clean(StripCheckboxPrefix(raw));
    if line == "" {
      SkippedLine(st, raw);
      return;
    }
    var k := KindOf(line, st.pendingPart);
    GatheredLine(st, raw, k);
    st2 := Gather(st, k, line);
  }

  /** A line that is empty, a header label, junk, or compresses to nothing changes nothing. */
  lemma SkippedLine(st: ModeScan, raw: string)
    requires raw == "" || IsHeaderLabelLine(raw) || IsJunkLine(raw) || ModeText(raw) == ""
    ensures ModeLine(st, raw) == st
  {
    assert LineKind(raw, st.pendingPart) == Other;
  }

  /** Any other line is gathered by its classification. */
  lemma GatheredLine(st: ModeScan, raw: string, k: ModeKind)
    requires !(raw == "" || IsHeaderLabelLine(raw) || IsJunkLine(raw)) && ModeText(raw) != ""
    requires k == Classify(ModeText(raw), st.pendingPart)
    ensures k.MouldAt? ==> k.a < k.e <= |ModeText(raw)|
    ensures ModeLine(st, raw) == Gather(st, k, ModeText(raw))
  {
  }

  /** The tests of a compressed line, in the parser's order. */
  method KindOf(line: string, pendingPart: string) returns (k: ModeKind)
    ensures k == Classify(line, pendingPart)
  {
    var seal := FirstText(Seal, line);
    if seal != "" {
      return SealOf(seal);
    }
    if IsPartNoPrefixToken(line) {
      return PartPrefix;
    }
    if pendingPart != "" && IsPartNoSuffixToken(line) {
      return PartSuffix;
    }
    var direct := ExtractPartNo(line);
    if direct != "" && IsLikelyPartNo(direct) && !StartsWithMl(direct) {
      return DirectPart(direct);
    }
    var m := First(MouldNo, line, 0);
    if m.Some? {
      k := MouldAt(m.value.0, m.value.1);
    } else if IsCjkWord(line) && |line| <= 4 {
      k := ShortCjk;
    } else if |line| <= 16 && HasCjk(line) && !Contains(line, NoticeWord) {
      k := NameOnly;
    } else {
      k := Other;
    }
  }

  /** The name loop: each row without a name takes the next collected name. */
  method HandOutNames(rows: seq<Row>, pool: seq<string>) returns (out: seq<Row>)
    ensures out == FillNames(rows, pool)
  {
    out := rows;
    var taken := 0;
    var i := 0;
    while i < |rows|
      invariant i <= |rows| == |out|
      invariant taken == Min(Unnamed(rows, i), |pool|)
      invariant forall j :: 0 <= j < i ==> out[j] == NameFilled(rows, pool, j)
      invariant forall j :: i <= j < |rows| ==> out[j] == rows[j]
    {
      if rows[i].mouldName == "" && taken < |pool| {
        var next := pool[taken];
        taken := taken + 1;
        if next != "" {
          out := out[i := rows[i].(mouldName := next)];
        }
      }
      i := i + 1;
    }
  }

  /** The assignment loop. */
  method AssignByOrder(rows: seq<Row>, st: ModeScan) returns (out: seq<Row>)
    ensures out == AssignAll(rows, st)
  {
    out := rows;
    var i := 0;
    while i < |rows|
      invariant i <= |rows| == |out|
      invariant forall j :: 0 <= j < i ==> out[j] == Assigned(rows[j], j, st.moveTos, st.seals, st.partNos)
      invariant forall j :: i <= j < |rows| ==> out[j] == rows[j]
    {
      var r := out[i];
      if r.moveTo == "" && |st.moveTos| > 0 {
        r := r.(moveTo := if i < |st.moveTos| then st.moveTos[i] else st.moveTos[0]);
      }
      if r.sealSampleNo == "" && |st.seals| > 0 {
        r := r.(sealSampleNo := if i < |st.seals| then st.seals[i] else "");
      }
      if r.partNo == "" && |st.partNos| > 0 {
        r := r.(partNo := if i < |st.partNos| then st.partNos[i] else "");
      }
      out := out[i := r];
      i := i + 1;
    }
  }

  lemma {:induction false} KeepMeaningfulSnoc(rows: seq<Row>, r: Row)
    ensures KeepMeaningful(rows + [r]) == KeepMeaningful(rows) + (if Meaningful(r) then [r] else [])
  {
    if rows == [] {
      assert [] + [r] == [r];
    } else {
      assert (rows + [r])[1..] == rows[1..] + [r];
      KeepMeaningfulSnoc(rows[1..], r);
    }
  }

  /** A row as a mould-number line opens it: unnumbered, with a normal mould number and no part
      or seal number yet. */
  predicate IsModeRow(r: Row)
  {
    r.index == 0 && r.partNo == "" && r.sealSampleNo == "" && R.IsMouldNoText(r.mouldNo)
  }

  /** What column mode keeps true while it reads: every row is as a mould-number line opened
      it, every seal number is printed and already normal, every collected name is non-empty. */
  predicate ModeValid(st: ModeScan)
  {
    (forall k :: 0 <= k < |st.rows| ==> IsModeRow(st.rows[k]))
    && (forall k :: 0 <= k < |st.seals| ==> IsSealText(st.seals[k]) && NormalizeSealNo(st.seals[k]) == st.seals[k])
    && (forall k :: 0 <= k < |st.names| ==> st.names[k] != "")
  }

  /** A line keeps the invariant, opens at most one row, and leaves every row before the last
      one as it was. */
  lemma ModeLineValid(st: ModeScan, raw: string)
    requires ModeValid(st)
    ensures var st2 := ModeLine(st, raw);
      ModeValid(st2) && |st.rows| <= |st2.rows| <= |st.rows| + 1
      && forall k :: 0 <= k < |st.rows| - 1 ==> st2.rows[k] == st.rows[k]
  {
    KindFacts(raw, st.pendingPart);
    GatherValid(st, LineKind(raw, st.pendingPart), ModeText(raw));
  }

  /** What the kind of a line tells about its seal or mould number. */
  lemma KindFacts(raw: string, pendingPart: string)
    ensures var k := LineKind(raw, pendingPart);
      && (k.SealOf? ==> IsSealText(NormalizeSealNo(k.seal)) && NormalizeSealNo(NormalizeSealNo(k.seal)) == NormalizeSealNo(k.seal))
      && (k.MouldAt? ==> k.a < k.e <= |ModeText(raw)| && R.IsMouldNoText(NormalizeMouldNo(ModeText(raw)[k.a..k.e])))
      && (k.NameOnly? ==> ModeText(raw) != "")
  {
    var k := LineKind(raw, pendingPart);
    var line := ModeText(raw);
    if k.SealOf? {
      R.FoundSealNormal(line);
      NormalizeSealNoTwice(k.seal);
    } else if k.MouldAt? {
      R.MouldNoNormal(line, k.a);
    }
  }

  lemma GatherValid(st: ModeScan, k: ModeKind, line: string)
    requires ModeValid(st)
    requires k.SealOf? ==> IsSealText(NormalizeSealNo(k.seal)) && NormalizeSealNo(NormalizeSealNo(k.seal)) == NormalizeSealNo(k.seal)
    requires k.MouldAt? ==> k.a < k.e <= |line| && R.IsMouldNoText(NormalizeMouldNo(line[k.a..k.e]))
    requires k.NameOnly? ==> line != ""
    ensures var st2 := Gather(st, k, line);
      ModeValid(st2) && |st.rows| <= |st2.rows| <= |st.rows| + 1
      && forall j :: 0 <= j < |st.rows| - 1 ==> st2.rows[j] == st.rows[j]
  {
    if k.MouldAt? {
      MouldLineValid(st, line, k.a, k.e);
    } else if k.ShortCjk? {
      ShortWordValid(st, line);
    }
  }

  lemma MouldLineValid(st: ModeScan, line: string, a: nat, e: nat)
    requires ModeValid(st)
    requires a < e <= |line| && R.IsMouldNoText(NormalizeMouldNo(line[a..e]))
    ensures var st2 := MouldLine(st, line, a, e);
      ModeValid(st2) && st2.rows[..|st.rows|] == st.rows && |st2.rows| == |st.rows| + 1
      && st2.seals == st.seals && st2.names == st.names
  {
  }

  lemma ShortWordValid(st: ModeScan, line: string)
    requires ModeValid(st)
    ensures var st2 := ShortWord(st, line);
      ModeValid(st2) && |st2.rows| == |st.rows| && (forall j :: 0 <= j < |st.rows| - 1 ==> st2.rows[j] == st.rows[j])
      && st2.seals == st.seals && st2.names == st.names
  {
  }

  /** Everything the lines give keeps the invariant. */
  lemma {:induction false} ModeAllValid(lines: seq<string>)
    ensures ModeValid(ModeAll(lines))
  {
    if lines != [] {
      ModeAllValid(lines[..|lines| - 1]);
      ModeLineValid(ModeAll(lines[..|lines| - 1]), lines[|lines| - 1]);
    }
  }

  /** Normalising a seal number twice changes nothing more. */
  lemma NormalizeSealNoTwice(s: string)
    ensures NormalizeSealNo(NormalizeSealNo(s)) == NormalizeSealNo(s)
  {
    NormalizeSealNoMeaning(s);
    R.NormalizeOfDashed(NormalizeSealNo(s));
  }

  /** A mould number in normal form is its own normal form. */
  lemma MouldNoFixed(t: string)
    requires R.IsMouldNoText(t)
    ensures NormalizeMouldNo(t) == t
  {
    forall k | 0 <= k < |t| ensures !IsSpace(t[k]) {
      if k < 2 {
        assert t[k] == t[..2][k];
      } else {
        assert t[k] == t[2..][k - 2];
      }
    }
    NormalizeMouldNoMeaning(t);
    RemoveSpacesOfSolid(t);
  }

  /** Column mode gives one row per mould-number line, numbered 1, 2, … in order: each keeps
      its mould number, takes the seal number listed at its own position (none when fewer were
      listed) and the part number listed at its own position. */
  lemma ColumnModeShape(lines: seq<string>)
    ensures var st := ModeAll(lines[..L.TableEnd(lines, 0)]);
      var rows := ColumnMode(lines);
      |rows| == |st.rows|
      && forall j :: 0 <= j < |rows| ==>
        rows[j].index == j + 1 && rows[j].mouldNo == st.rows[j].mouldNo && R.IsMouldNoText(rows[j].mouldNo)
        && rows[j].sealSampleNo == Cell(st.seals, j) && (rows[j].sealSampleNo == "" || IsSealText(rows[j].sealSampleNo))
        && rows[j].partNo == Clean(Cell(st.partNos, j))
  {
    ModeAllValid(lines[..L.TableEnd(lines, 0)]);
    ModeRowsShape(ModeAll(lines[..L.TableEnd(lines, 0)]));
  }

  lemma ModeRowsShape(st: ModeScan)
    requires ModeValid(st)
    ensures var rows := ModeRows(st);
      |rows| == |st.rows|
      && forall j :: 0 <= j < |rows| ==>
        rows[j].index == j + 1 && rows[j].mouldNo == st.rows[j].mouldNo && R.IsMouldNoText(rows[j].mouldNo)
        && rows[j].sealSampleNo == Cell(st.seals, j) && (rows[j].sealSampleNo == "" || IsSealText(rows[j].sealSampleNo))
        && rows[j].partNo == Clean(Cell(st.partNos, j))
  {
    if st.rows != [] {
      ModeDraftsKept(st);
      forall j | 0 <= j < |st.rows|
        ensures var r := ModeRows(st)[j];
          r.index == j + 1 && r.mouldNo == st.rows[j].mouldNo && R.IsMouldNoText(r.mouldNo)
          && r.sealSampleNo == Cell(st.seals, j) && (r.sealSampleNo == "" || IsSealText(r.sealSampleNo))
          && r.partNo == Clean(Cell(st.partNos, j))
      {
        ModeRowAt(st, j);
      }
    }
  }

  /** No mode row is dropped as empty: the rows are the numbered drafts. */
  lemma ModeDraftsKept(st: ModeScan)
    requires ModeValid(st) && st.rows != []
    ensures ModeRows(st) == Reindexed(Drafts(AssignAll(FillNames(st.rows, st.names), st)))
  {
    var drafts := Drafts(AssignAll(FillNames(st.rows, st.names), st));
    forall j | 0 <= j < |drafts| ensures Meaningful(drafts[j]) {
      DraftAt(st, j);
    }
    KeepAllMeaningful(drafts);
  }

  lemma ModeRowAt(st: ModeScan, j: nat)
    requires ModeValid(st) && st.rows != [] && j < |st.rows|
    requires ModeRows(st) == Reindexed(Drafts(AssignAll(FillNames(st.rows, st.names), st)))
    ensures |ModeRows(st)| == |st.rows|
    ensures var r := ModeRows(st)[j];
      r.index == j + 1 && r.mouldNo == st.rows[j].mouldNo && R.IsMouldNoText(r.mouldNo)
      && r.sealSampleNo == Cell(st.seals, j) && (r.sealSampleNo == "" || IsSealText(r.sealSampleNo))
      && r.partNo == Clean(Cell(st.partNos, j))
  {
    DraftAt(st, j);
    assert IsModeRow(st.rows[j]);
    assert j < |st.seals| ==> IsSealText(st.seals[j]);
  }

  /** Row `j` after names, lists and normalisation: its mould number as the line gave it, the
      seal and part numbers at its position. */
  lemma DraftAt(st: ModeScan, j: nat)
    requires ModeValid(st) && j < |st.rows|
    ensures var d := Drafts(AssignAll(FillNames(st.rows, st.names), st))[j];
      d.mouldNo == st.rows[j].mouldNo && Meaningful(d)
      && d.sealSampleNo == Cell(st.seals, j) && d.partNo == Clean(Cell(st.partNos, j))
  {
    assert IsModeRow(st.rows[j]);
    MouldNoFixed(st.rows[j].mouldNo);
    assert NormalizeSealNo("") == "" by { NormalizeSealNoMeaning(""); }
  }

  /** A row that had a name keeps it; when at least as many names were collected as rows lack
      one, every row ends up named. */
  lemma FillNamesComplete(rows: seq<Row>, pool: seq<string>)
    requires forall k :: 0 <= k < |pool| ==> pool[k] != ""
    ensures var named := FillNames(rows, pool);
      |named| == |rows|
      && (forall i :: 0 <= i < |rows| && rows[i].mouldName != "" ==> named[i] == rows[i])
      && (Unnamed(rows, |rows|) <= |pool| ==> forall i :: 0 <= i < |rows| ==> named[i].mouldName != "")
  {
    forall i | 0 <= i < |rows| && rows[i].mouldName == "" && Unnamed(rows, |rows|) <= |pool|
      ensures Unnamed(rows, i) < |pool|
    {
      UnnamedGrows(rows, i + 1, |rows|);
    }
  }

  /** The count of unnamed rows only grows along the rows. */
  lemma {:induction false} UnnamedGrows(rows: seq<Row>, i: nat, j: nat)
    requires i <= j <= |rows|
    ensures Unnamed(rows, i) <= Unnamed(rows, j)
    decreases j - i
  {
    if i < j {
      UnnamedGrows(rows, i, j - 1);
    }
  }
}
