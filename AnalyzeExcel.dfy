/** The project-sheet analysis and import of `backend/analyze-excel.js`: every sheet row
    without a project number becomes an error carrying its sheet row number, every other row is
    reduced to the known project columns (English headers renamed to their Chinese names), and
    the import updates the rows whose project number already exists, inserts the others, and
    skips the ones with nothing to write. */
module AnalyzeExcel {
  import opened Common

  // ---------------------------------------------------------------- the analysis

  /** A sheet row as `sheet_to_json(…, { raw: false })` returns it: header and formatted
      text, in column order. */
  type Row = seq<(string, string)>

  /** A project as the import receives it: column name to text. */
  type Project = map<string, string>

  /** `row[key]`: the text under the first column of that name, if any. */
  function Get(row: Row, key: string): (r: Option<string>)
    ensures r.Some? <==> exists i :: 0 <= i < |row| && row[i].0 == key
  {
    if row == [] then None
    else if row[0].0 == key then Some(row[0].1)
    else Get(row[1..], key)
  }

  /** The column holds a truthy value: present and not the empty string. */
  predicate Filled(row: Row, key: string)
  {
    Get(row, key).Some? && Get(row, key).value != ""
  }

  /** `row['项目编号'] || row['projectCode']` is truthy. */
  predicate HasProjectCode(row: Row)
  {
    Filled(row, "项目编号") || Filled(row, "projectCode")
  }

  /** The project columns the import keeps. */
  const ValidFields: set<string> := {
    "项目编号", "项目名称", "客户模号", "产品材质", "模具穴数", "项目状态", "设计师", "中标日期",
    "产品3D确认", "图纸下发时间", "计划首样日期", "首次送样日期", "移模日期", "制件厂家",
    "进度影响原因", "前模材质", "后模材质", "模具尺寸", "产品尺寸", "产品重量", "收缩率",
    "产品颜色", "模具重量", "流道类型", "机台吨位", "备注", "滑块材质", "锁模力", "定位圈",
    "容模量", "拉杆间距", "成型周期", "封样时间", "浇口类型", "浇口数量", "料柄重量",
    "流道数量", "费用出处"}

  /** English header to Chinese column name. */
  const FieldMap: map<string, string> := map[
    "projectCode" := "项目编号", "projectName" := "项目名称", "productName" := "产品名称",
    "productDrawing" := "产品图号", "customerMold" := "客户模号", "productMaterial" := "产品材质",
    "moldCavity" := "模具穴数", "projectStatus" := "项目状态", "designer" := "设计师",
    "bidDate" := "中标日期", "product3D" := "产品3D确认", "drawingIssue" := "图纸下发时间",
    "plannedSample" := "计划首样日期", "firstSample" := "首次送样日期",
    "moldTransfer" := "移模日期", "manufacturer" := "制件厂家", "impactReason" := "进度影响原因",
    "frontMold" := "前模材质", "backMold" := "后模材质", "moldSize" := "模具尺寸",
    "productSize" := "产品尺寸", "productWeight" := "产品重量", "shrinkage" := "收缩率",
    "productColor" := "产品颜色", "moldWeight" := "模具重量", "runnerType" := "流道类型",
    "machineTon" := "机台吨位", "remarks" := "备注", "slideMaterial" := "滑块材质",
    "clampingForce" := "锁模力", "positionRing" := "定位圈", "moldCapacity" := "容模量",
    "tieBarDistance" := "拉杆间距", "cycleTime" := "成型周期", "runnerCount" := "流道数量",
    "gateType" := "浇口类型", "gateCount" := "浇口数量", "sprueWeight" := "料柄重量",
    "costSource" := "费用出处", "sampleTime" := "封样时间"]

  /** `fieldMap[key] || key`, for a given rename table. */
  function Renamed(rename: map<string, string>, key: string): string
  {
    if key in rename then rename[key] else key
  }

  /** The object the column loop builds from a row, for a given rename table and set of kept
      names: each column whose (renamed) name is kept is written, a later column overwriting
      an earlier one of the same name. */
  function Written(row: Row, rename: map<string, string>, valid: set<string>): Project
  {
    if row == [] then map[]
    else
      var last := row[|row| - 1];
      var data := Written(row[..|row| - 1], rename, valid);
      if Renamed(rename, last.0) in valid then data[Renamed(rename, last.0) := last.1] else data
  }

  /** The project of a row. */
  function ProjectData(row: Row): Project
  {
    Written(row, FieldMap, ValidFields)
  }

  /** The last column of the row that is written under the name `field`. */
  predicate LastWrittenAs(row: Row, rename: map<string, string>, field: string, i: int)
  {
    0 <= i < |row| && Renamed(rename, row[i].0) == field &&
    forall j :: i < j < |row| ==> Renamed(rename, row[j].0) != field
  }

  /** The object holds exactly the kept names some header renames to, each with the text of
      the last such column. */
  lemma {:induction false} WrittenMeaning(row: Row, rename: map<string, string>, valid: set<string>)
    ensures forall f :: f in Written(row, rename, valid) <==>
      (f in valid && exists i :: 0 <= i < |row| && Renamed(rename, row[i].0) == f)
    ensures forall f, i :: f in valid && LastWrittenAs(row, rename, f, i) ==>
      f in Written(row, rename, valid) && Written(row, rename, valid)[f] == row[i].1
  {
    if row != [] {
      var init := row[..|row| - 1];
      WrittenMeaning(init, rename, valid);
      assert forall i :: 0 <= i < |init| ==> init[i] == row[i];
      forall f, i | f in valid && LastWrittenAs(row, rename, f, i)
        ensures f in Written(row, rename, valid) && Written(row, rename, valid)[f] == row[i].1
      {
        if i < |init| {
          assert LastWrittenAs(init, rename, f, i);
        }
      }
    }
  }

  /** A project holds exactly the project columns some header maps to, each with the text of
      the last such column. */
  lemma ProjectDataMeaning(row: Row)
    ensures forall f :: f in ProjectData(row) <==>
      (f in ValidFields && exists i :: 0 <= i < |row| && Renamed(FieldMap, row[i].0) == f)
    ensures forall f, i :: f in ValidFields && LastWrittenAs(row, FieldMap, f, i) ==>
      f in ProjectData(row) && ProjectData(row)[f] == row[i].1
  {
    WrittenMeaning(row, FieldMap, ValidFields);
  }

  /** Both headers of the project number are renamed to the kept column 项目编号. */
  lemma CodeColumns()
    ensures "项目编号" in ValidFields && "项目编号" !in FieldMap
    ensures "projectCode" in FieldMap && FieldMap["projectCode"] == "项目编号"
  {
  }

  lemma DesignerColumn()
    ensures "designer" in FieldMap && FieldMap["designer"] == "设计师" && "设计师" in ValidFields
  {
  }

  lemma ProductColumns()
    ensures "产品名称" !in ValidFields && "产品图号" !in ValidFields
  {
  }

  /** A row with a project number keeps its project number column, whichever of the two
      headers carried it. */
  lemma ProjectCodeIsKept(row: Row)
    requires HasProjectCode(row)
    ensures "项目编号" in ProjectData(row)
  {
    WrittenMeaning(row, FieldMap, ValidFields);
    CodeColumns();
    var i :| 0 <= i < |row| && (row[i].0 == "项目编号" || row[i].0 == "projectCode");
    assert Renamed(FieldMap, row[i].0) == "项目编号";
  }

  /** `productName` and `productDrawing` are renamed to 产品名称 and 产品图号, which are not
      project columns, so no project ever carries a product name or drawing number. */
  lemma ProductNameIsNeverKept(row: Row)
    ensures "产品名称" !in ProjectData(row) && "产品图号" !in ProjectData(row)
  {
    WrittenMeaning(row, FieldMap, ValidFields);
    ProductColumns();
  }

  /** An error line: the sheet row number (the header is row 1) and the message. */
  datatype RowError = RowError(row: nat, message: string)

  const MissingCodeMessage := "项目编号不能为空"

  /** The analysis of the first rows: the projects of the rows with a project number, and an
      error for each of the others. */
  function Analysis(rows: seq<Row>): (seq<Project>, seq<RowError>)
  {
    if rows == [] then ([], [])
    else
      var n := |rows| - 1;
      var prev := Analysis(rows[..n]);
      if HasProjectCode(rows[n]) then (prev.0 + [ProjectData(rows[n])], prev.1)
      else (prev.0, prev.1 + [RowError(n + 2, MissingCodeMessage)])
  }

  /** `analyzeExcel` after the sheet is read: the `forEach` over the rows with the column loop
      inside it. */
  method AnalyzeRows(rows: seq<Row>) returns (valid: seq<Project>, errors: seq<RowError>)
    ensures (valid, errors) == Analysis(rows)
  {
    valid, errors := [], [];
    var index := 0;
    while index < |rows|
      invariant index <= |rows|
      invariant (valid, errors) == Analysis(rows[..index])
    {
      var row := rows[index];
      assert rows[..index + 1][..index] == rows[..index];
      if !HasProjectCode(row) {
        errors := errors + [RowError(index + 2, MissingCodeMessage)];
      } else {
        var data: Project := map[];
        var k := 0;
        while k < |row|
          invariant k <= |row|
          invariant data == Written(row[..k], FieldMap, ValidFields)
        {
          assert row[..k + 1][..k] == row[..k];
          var field := Renamed(FieldMap, row[k].0);
          if field in ValidFields {
            data := data[field := row[k].1];
          }
          k := k + 1;
        }
        assert row[..k] == row;
        valid := valid + [data];
      }
      index := index + 1;
    }
    assert rows[..index] == rows;
  }

  /** Every row is counted once: as a project when it has a project number, as an error
      otherwise. */
  lemma {:induction false} AnalysisCounts(rows: seq<Row>)
    ensures |Analysis(rows).0| + |Analysis(rows).1| == |rows|
    ensures forall p :: p in Analysis(rows).0 ==>
      exists i :: 0 <= i < |rows| && HasProjectCode(rows[i]) && p == ProjectData(rows[i])
  {
    if rows != [] {
      var n := |rows| - 1;
      AnalysisCounts(rows[..n]);
      assert forall i :: 0 <= i < n ==> rows[..n][i] == rows[i];
    }
  }

  /** The errors are exactly the rows without a project number, each with its sheet row
      number, in sheet order. */
  lemma {:induction false} AnalysisErrors(rows: seq<Row>)
    ensures forall e :: e in Analysis(rows).1 <==>
      (e.message == MissingCodeMessage && 2 <= e.row < |rows| + 2 && !HasProjectCode(rows[e.row - 2]))
    ensures forall i :: 0 <= i < |Analysis(rows).1| ==> Analysis(rows).1[i].row < |rows| + 2
    ensures forall i :: 0 <= i < |Analysis(rows).1| - 1 ==> Analysis(rows).1[i].row < Analysis(rows).1[i + 1].row
  {
    if rows != [] {
      var n := |rows| - 1;
      AnalysisErrors(rows[..n]);
      assert forall i :: 0 <= i < n ==> rows[..n][i] == rows[i];
    }
  }

  /** Every project of the analysis carries a project number. */
  lemma AnalyzedProjectsHaveCodes(rows: seq<Row>)
    ensures forall p :: p in Analysis(rows).0 ==> "项目编号" in p
  {
    AnalysisCounts(rows);
    forall p | p in Analysis(rows).0
      ensures "项目编号" in p
    {
      var i :| 0 <= i < |rows| && HasProjectCode(rows[i]) && p == ProjectData(rows[i]);
      ProjectCodeIsKept(rows[i]);
    }
  }

  /** A row without a project number in sheet row 3 is reported as such, and the renamed
      English column is kept. */
  lemma AnalysisExample()
    ensures Analysis([[("projectCode", "P-1"), ("designer", "王")], [("备注", "x")]])
      == ([map["项目编号" := "P-1", "设计师" := "王"]], [RowError(3, MissingCodeMessage)])
  {
    var r0: Row := [("projectCode", "P-1"), ("designer", "王")];
    var r1: Row := [("备注", "x")];
    assert [[("projectCode", "P-1"), ("designer", "王")], [("备注", "x")]][..1] == [r0];
    assert r0[..1] == [("projectCode", "P-1")];
    assert [("projectCode", "P-1")][..0] == [];
    CodeColumns();
    DesignerColumn();
    assert Written(r0[..1], FieldMap, ValidFields) == map["项目编号" := "P-1"];
    assert ProjectData(r0) == map["项目编号" := "P-1", "设计师" := "王"];
    assert Get(r0, "projectCode") == Some("P-1");
    assert Get(r1, "项目编号") == None && Get(r1, "projectCode") == None;
    assert [r0][..0] == [];
    assert HasProjectCode(r0) && !HasProjectCode(r1);
    var one: seq<Row> := [r0];
    assert one[..0] == [];
    assert Analysis(one[..0]) == ([], []);
    assert Analysis(one).0 == [ProjectData(r0)];
    assert Analysis(one).1 == [];
    var two: seq<Row> := [r0, r1];
    assert two[..1] == one;
    assert Analysis(two).0 == [ProjectData(r0)];
    assert Analysis(two).1 == [RowError(3, MissingCodeMessage)];
  }

  // ---------------------------------------------------------------- the import

  /** The key that carries the project number in the table. */
  const CodeKey := "项目编号"

  /** The column the import never writes. */
  const TimestampKey := "SSMA_TimeStamp"

  /** The project number the queries bind: absent when the project has none (a NULL that no
      row equals). */
  function CodeOf(item: Project): Option<string>
  {
    if CodeKey in item then Some(item[CodeKey]) else None
  }

  /** `SELECT COUNT(*) … WHERE 项目编号 = @项目编号` is above zero. */
  predicate Exists(table: seq<Project>, code: Option<string>)
  {
    code.Some? && exists i :: 0 <= i < |table| && CodeKey in table[i] && table[i][CodeKey] == code.value
  }

  /** The columns an update sets: everything but the project number and the timestamp with
      a non-empty value. */
  function UpdateFields(item: Project): (u: Project)
    ensures forall k :: k in u <==> k in item && k != CodeKey && k != TimestampKey && item[k] != ""
    ensures forall k :: k in u ==> u[k] == item[k]
  {
    map k | k in item && k != CodeKey && k != TimestampKey && item[k] != "" :: item[k]
  }

  /** The columns an insert writes: the same, but the project number included. */
  function InsertFields(item: Project): (f: Project)
    ensures forall k :: k in f <==> k in item && k != TimestampKey && item[k] != ""
    ensures forall k :: k in f ==> f[k] == item[k]
  {
    map k | k in item && k != TimestampKey && item[k] != "" :: item[k]
  }

  /** `UPDATE 项目管理 SET … WHERE 项目编号 = @项目编号`: every row with that number. */
  function UpdateRows(table: seq<Project>, code: string, fields: Project): (t: seq<Project>)
    ensures |t| == |table|
    ensures forall i :: 0 <= i < |table| ==>
      t[i] == (if CodeKey in table[i] && table[i][CodeKey] == code then table[i] + fields else table[i])
  {
    seq(|table|, i requires 0 <= i < |table| =>
      if CodeKey in table[i] && table[i][CodeKey] == code then table[i] + fields else table[i])
  }

  datatype Action = Updated | Inserted
  datatype SkipReason = NoUpdateFields | NoValidFields

  /** `results`: the three lists, each entry with the item's project number. */
  datatype Results = Results(
    success: seq<(Option<string>, Action)>,
    failed: seq<Option<string>>,
    skipped: seq<(Option<string>, SkipReason)>)

  datatype ImportState = ImportState(table: seq<Project>, results: Results)

  /** One item of the loop; `fails` says whether its query throws (a database error, which
      leaves the table as it was and files the item as failed). */
  function ImportStep(st: ImportState, item: Project, fails: bool): ImportState
  {
    var code := CodeOf(item);
    var r := st.results;
    if fails then ImportState(st.table, r.(failed := r.failed + [code]))
    else if Exists(st.table, code) then
      var fields := UpdateFields(item);
      if fields != map[] then
        ImportState(UpdateRows(st.table, code.value, fields), r.(success := r.success + [(code, Updated)]))
      else ImportState(st.table, r.(skipped := r.skipped + [(code, NoUpdateFields)]))
    else
      var fields := InsertFields(item);
      if fields != map[] then
        ImportState(st.table + [fields], r.(success := r.success + [(code, Inserted)]))
      else ImportState(st.table, r.(skipped := r.skipped + [(code, NoValidFields)]))
  }

  /** The loop over the first items; `failing` holds the positions of the items whose query
      throws. */
  function ImportRun(st: ImportState, data: seq<Project>, failing: set<nat>): ImportState
  {
    if data == [] then st
    else
      var n := |data| - 1;
      ImportStep(ImportRun(st, data[..n], failing), data[n], n in failing)
  }

  /** `importToDatabase`. */
  method ImportToDatabase(table: seq<Project>, data: seq<Project>, failing: set<nat>)
    returns (newTable: seq<Project>, results: Results)
    ensures ImportState(newTable, results) == ImportRun(ImportState(table, Results([], [], [])), data, failing)
  {
    var start := ImportState(table, Results([], [], []));
    newTable, results := table, Results([], [], []);
    var i := 0;
    while i < |data|
      invariant i <= |data|
      invariant ImportState(newTable, results) == ImportRun(start, data[..i], failing)
    {
      ghost var st := ImportState(newTable, results);
      assert data[..i + 1][..i] == data[..i];
      assert ImportRun(start, data[..i + 1], failing) == ImportStep(st, data[i], i in failing);
      var item := data[i];
      var code := CodeOf(item);
      if i in failing {
        results := results.(failed := results.failed + [code]);
      } else if Exists(newTable, code) {
        var fields := UpdateFields(item);
        if fields != map[] {
          newTable := UpdateRows(newTable, code.value, fields);
          results := results.(success := results.success + [(code, Updated)]);
        } else {
          results := results.(skipped := results.skipped + [(code, NoUpdateFields)]);
        }
      } else {
        var fields := InsertFields(item);
        if fields != map[] {
          newTable := newTable + [fields];
          results := results.(success := results.success + [(code, Inserted)]);
        } else {
          results := results.(skipped := results.skipped + [(code, NoValidFields)]);
        }
      }
      i := i + 1;
    }
    assert data[..i] == data;
  }

  function Total(r: Results): nat
  {
    |r.success| + |r.failed| + |r.skipped|
  }

  /** The number of items filed as inserted. */
  function InsertCount(success: seq<(Option<string>, Action)>): nat
  {
    if success == [] then 0
    else InsertCount(success[..|success| - 1]) + (if success[|success| - 1].1 == Inserted then 1 else 0)
  }

  /** One item files exactly one result; the table only grows by an insert, keeps the project
      number of every row it had, and a failed or skipped item leaves it as it was. */
  lemma StepShape(st: ImportState, item: Project, fails: bool)
    ensures Total(ImportStep(st, item, fails).results) == Total(st.results) + 1
    ensures |ImportStep(st, item, fails).table| ==
      |st.table| + InsertCount(ImportStep(st, item, fails).results.success) - InsertCount(st.results.success)
    ensures InsertCount(st.results.success) <= InsertCount(ImportStep(st, item, fails).results.success)
    ensures forall i :: 0 <= i < |st.table| ==>
      (CodeKey in ImportStep(st, item, fails).table[i] <==> CodeKey in st.table[i]) &&
      (CodeKey in st.table[i] ==> ImportStep(st, item, fails).table[i][CodeKey] == st.table[i][CodeKey])
    ensures fails ==> ImportStep(st, item, fails).table == st.table
  {
    var r := st.results;
    assert (r.success + [(CodeOf(item), Inserted)])[..|r.success|] == r.success;
    assert (r.success + [(CodeOf(item), Updated)])[..|r.success|] == r.success;
  }

  /** Every item is counted exactly once as a success, a failure or a skip; the table grows by
      one row per insert and no row already present loses or changes its project number. */
  lemma {:induction false} ImportRunShape(table: seq<Project>, data: seq<Project>, failing: set<nat>)
    ensures var end := ImportRun(ImportState(table, Results([], [], [])), data, failing);
      Total(end.results) == |data| &&
      |end.table| == |table| + InsertCount(end.results.success) &&
      forall i :: 0 <= i < |table| ==>
        (CodeKey in end.table[i] <==> CodeKey in table[i]) &&
        (CodeKey in table[i] ==> end.table[i][CodeKey] == table[i][CodeKey])
  {
    if data != [] {
      var n := |data| - 1;
      ImportRunShape(table, data[..n], failing);
      StepShape(ImportRun(ImportState(table, Results([], [], [])), data[..n], failing), data[n], n in failing);
    }
  }

  /** A project whose number is already in the table is never inserted a second time: it is
      updated, skipped or failed, and the table keeps its length. */
  lemma ExistingProjectIsNotInserted(st: ImportState, item: Project, fails: bool)
    requires Exists(st.table, CodeOf(item))
    ensures |ImportStep(st, item, fails).table| == |st.table|
    ensures ImportStep(st, item, fails).results.success != st.results.success ==>
      ImportStep(st, item, fails).results.success == st.results.success + [(CodeOf(item), Updated)]
  {
  }

  /** An update writes the non-empty columns of the item into every row with its project
      number and leaves the other columns of those rows, and all other rows, alone. */
  lemma UpdateMeaning(table: seq<Project>, item: Project)
    requires CodeKey in item
    ensures forall i, k :: (0 <= i < |table| && CodeKey in table[i] && table[i][CodeKey] == item[CodeKey] &&
      k in item && k != CodeKey && k != TimestampKey && item[k] != "") ==>
        k in UpdateRows(table, item[CodeKey], UpdateFields(item))[i] &&
        UpdateRows(table, item[CodeKey], UpdateFields(item))[i][k] == item[k]
    ensures forall i, k :: 0 <= i < |table| && k in table[i] && !(k in item && k != CodeKey && k != TimestampKey && item[k] != "") ==>
      k in UpdateRows(table, item[CodeKey], UpdateFields(item))[i] &&
      UpdateRows(table, item[CodeKey], UpdateFields(item))[i][k] == table[i][k]
  {
    var u := UpdateFields(item);
    var t := UpdateRows(table, item[CodeKey], u);
    forall i, k | 0 <= i < |table| && CodeKey in table[i] && table[i][CodeKey] == item[CodeKey] &&
      k in item && k != CodeKey && k != TimestampKey && item[k] != ""
      ensures k in t[i] && t[i][k] == item[k]
    {
      assert t[i] == table[i] + u;
      assert k in u;
    }
    forall i, k | 0 <= i < |table| && k in table[i] && !(k in item && k != CodeKey && k != TimestampKey && item[k] != "")
      ensures k in t[i] && t[i][k] == table[i][k]
    {
      assert k !in u;
      if CodeKey in table[i] && table[i][CodeKey] == item[CodeKey] {
        assert t[i] == table[i] + u;
      } else {
        assert t[i] == table[i];
      }
    }
  }
}
