/** The one-off import of finished projects into the outbound-document table
    (`import-outbound-history-20260101.js`): candidates are read, their project code trimmed and
    their completed quantity checked to be a positive integer, and the remaining rows are
    inserted as lines of one fixed document number inside a single transaction, unless the
    document already exists, nothing is left, or the run is a dry run. */
module OutboundHistoryImport {
  import opened Common
  import opened JsNumber

  // ---------------------------------------------------------------- settings

  /** The settings, each overridable from the environment. */
  datatype Settings = Settings(
    documentNo: string, outboundDate: string, warehouse: string, operator: string,
    outboundType: string, remark: string, dryRun: bool)

  /** `process.env.X || fallback`: an unset or empty variable gives the fallback. */
  function EnvOr(env: map<string, string>, name: string, fallback: string): (r: string)
    ensures name !in env ==> r == fallback
    ensures name in env && env[name] != [] ==> r == env[name]
  {
    if name in env && env[name] != [] then env[name] else fallback
  }

  function SettingsFrom(env: map<string, string>): (s: Settings)
    ensures s.dryRun <==> "DRY_RUN" in env && env["DRY_RUN"] in {"1", "true"}
    ensures env == map[] ==> s == Settings("HIS-20260101-001", "2026-01-01", "成品仓", "admin", "历史导入", "历史导入", false)
  {
    Settings(
      EnvOr(env, "OUTBOUND_HISTORY_DOCUMENT_NO", "HIS-20260101-001"),
      EnvOr(env, "OUTBOUND_HISTORY_DATE", "2026-01-01"),
      EnvOr(env, "OUTBOUND_HISTORY_WAREHOUSE", "成品仓"),
      EnvOr(env, "OUTBOUND_HISTORY_OPERATOR", "admin"),
      EnvOr(env, "OUTBOUND_HISTORY_TYPE", "历史导入"),
      EnvOr(env, "OUTBOUND_HISTORY_REMARK", "历史导入"),
      "DRY_RUN" in env && (env["DRY_RUN"] == "1" || env["DRY_RUN"] == "true"))
  }

  // ---------------------------------------------------------------- quantities

  predicate IsIntegral(x: real)
  {
    x == x.Floor as real
  }

  /** `toPositiveIntOrNull`: null, undefined and '' give null; anything else is converted with
      `Number` and kept only when it is a finite integer above zero. */
  function ToPositiveIntOrNull(value: Value): Option<nat>
  {
    if value.Null? || value.Undefined? || value == Str("") then None
    else
      var num := ToNumber(value);
      if num.Finite? && IsIntegral(num.v) && num.v > 0.0 then Some(num.v.Floor as nat) else None
  }

  /** The result is n exactly when the value converts to the integer n >= 1; the early return
      for null, undefined and '' changes nothing, as those convert to 0 or NaN anyway. */
  lemma PositiveIntMeaning(value: Value, n: nat)
    ensures ToPositiveIntOrNull(value) == Some(n) <==> n >= 1 && ToNumber(value) == Finite(n as real)
    ensures ToPositiveIntOrNull(value).None? <==>
      !(ToNumber(value).Finite? && IsIntegral(ToNumber(value).v) && ToNumber(value).v > 0.0)
  {
    if value == Str("") {
      assert StringToNumber("") == Finite(0.0);
    }
  }

  /** Fractions, zero, negatives and NaN give null; the text of a count and `true` give numbers. */
  lemma PositiveIntCases()
    ensures ToPositiveIntOrNull(Number(Finite(2.5))) == None
    ensures ToPositiveIntOrNull(Number(Finite(0.0))) == None
    ensures ToPositiveIntOrNull(Number(Finite(-3.0))) == None
    ensures ToPositiveIntOrNull(Number(NaN)) == None
    ensures ToPositiveIntOrNull(Number(Finite(12.0))) == Some(12)
    ensures ToPositiveIntOrNull(Bool(true)) == Some(1)
    ensures ToPositiveIntOrNull(Str("12")) == Some(12)
  {
    PositiveIntOfNumbers();
    PositiveIntOfText();
  }

  /** Only a finite whole number above zero is kept. */
  lemma PositiveIntOfNumbers()
    ensures ToPositiveIntOrNull(Number(Finite(2.5))) == None
    ensures ToPositiveIntOrNull(Number(Finite(0.0))) == None
    ensures ToPositiveIntOrNull(Number(Finite(-3.0))) == None
    ensures ToPositiveIntOrNull(Number(NaN)) == None
    ensures ToPositiveIntOrNull(Number(Finite(12.0))) == Some(12)
  {
  }

  /** The text of a count converts to that count. */
  lemma PositiveIntOfText()
    ensures ToPositiveIntOrNull(Str("12")) == Some(12)
  {
    NatTextToNumber(12);
    assert NatToString(12) == "12";
  }

  // ---------------------------------------------------------------- candidates

  /** A row of the candidate query. */
  datatype Candidate = Candidate(
    projectCode: Option<string>, customerId: Option<int>, customerName: Option<string>,
    customerPartNo: Option<string>, productName: Option<string>, productDrawing: Option<string>,
    completed: Value)

  /** A row after the `map` step. */
  datatype ImportRow = ImportRow(
    projectCode: string, customerId: Option<int>, customerName: Option<string>,
    customerPartNo: Option<string>, productName: Option<string>, productDrawing: Option<string>,
    quantity: Option<nat>)

  /** `String(r.项目编号 || '').trim()`. */
  function CodeOf(code: Option<string>): string
  {
    if code.Some? then Trim(code.value) else ""
  }

  function ToRow(c: Candidate): ImportRow
  {
    ImportRow(CodeOf(c.projectCode), c.customerId, c.customerName, c.customerPartNo,
      c.productName, c.productDrawing, ToPositiveIntOrNull(c.completed))
  }

  /** The `filter`: the code and the quantity must both be truthy. */
  predicate Importable(r: ImportRow)
  {
    r.projectCode != [] && r.quantity.Some?
  }

  /** `toInsert`: the candidates mapped and filtered, in query order. */
  function ToInsert(candidates: seq<Candidate>): seq<ImportRow>
  {
    if candidates == [] then []
    else
      var r := ToRow(candidates[0]);
      (if Importable(r) then [r] else []) + ToInsert(candidates[1..])
  }

  /** A candidate is kept exactly when its trimmed project code is non-empty and its completed
      quantity is a positive integer, and a kept row carries the candidate's other fields. */
  lemma {:induction false} ToInsertMeaning(candidates: seq<Candidate>)
    ensures |ToInsert(candidates)| <= |candidates|
    ensures forall r :: r in ToInsert(candidates) <==>
      (Importable(r) && exists i :: 0 <= i < |candidates| && ToRow(candidates[i]) == r)
  {
    if candidates != [] {
      ToInsertMeaning(candidates[1..]);
      assert forall i :: 1 <= i < |candidates| ==> candidates[1..][i - 1] == candidates[i];
    }
  }

  // ---------------------------------------------------------------- the import

  /** A line of the outbound-document table. */
  datatype OutboundLine = OutboundLine(
    documentNo: string, outboundDate: string, customerId: Option<int>, customerName: Option<string>,
    projectCode: string, productName: Option<string>, productDrawing: Option<string>,
    customerPartNo: Option<string>, quantity: nat, outboundType: string, warehouse: string,
    handler: string, remark: string, creator: string, updater: string)

  function LineOf(s: Settings, r: ImportRow): OutboundLine
    requires r.quantity.Some?
  {
    OutboundLine(s.documentNo, s.outboundDate, r.customerId, r.customerName, r.projectCode,
      r.productName, r.productDrawing, r.customerPartNo, r.quantity.value, s.outboundType,
      s.warehouse, s.operator, s.remark, s.operator, s.operator)
  }

  function LinesOf(s: Settings, rows: seq<ImportRow>): (lines: seq<OutboundLine>)
    requires forall r :: r in rows ==> r.quantity.Some?
    ensures |lines| == |rows|
    ensures forall i :: 0 <= i < |rows| ==> lines[i] == LineOf(s, rows[i])
  {
    if rows == [] then [] else [LineOf(s, rows[0])] + LinesOf(s, rows[1..])
  }

  datatype Outcome =
    | AlreadyImported        // the document number exists: stop before reading candidates
    | NothingToImport        // no candidate survives the filter
    | Previewed(shown: seq<ImportRow>)  // dry run: the first 20 rows are printed
    | Committed(count: nat)  // every row inserted in one transaction
    | RolledBack             // an insert failed and the transaction was undone

  predicate HasDocument(table: seq<OutboundLine>, documentNo: string)
  {
    exists i :: 0 <= i < |table| && table[i].documentNo == documentNo
  }

  /** The insert loop inside the transaction. The database error, if any, is a parameter:
      `failAt` is the index of the insert that throws. */
  method InsertInTransaction(table: seq<OutboundLine>, lines: seq<OutboundLine>, failAt: Option<nat>)
    returns (result: seq<OutboundLine>, committed: bool)
    ensures committed <==> (failAt.None? || failAt.value >= |lines|)
    ensures committed ==> result == table + lines
    ensures !committed ==> result == table
  {
    var pending := table;
    var i := 0;
    while i < |lines|
      invariant i <= |lines|
      invariant pending == table + lines[..i]
      invariant failAt.Some? ==> failAt.value >= i
    {
      if failAt == Some(i) {
        return table, false;
      }
      assert lines[..i + 1] == lines[..i] + [lines[i]];
      pending := pending + [lines[i]];
      i := i + 1;
    }
    assert lines[..i] == lines;
    return pending, true;
  }

  /** `main`, from the existence check to the commit. */
  method Import(table: seq<OutboundLine>, candidates: seq<Candidate>, s: Settings, failAt: Option<nat>)
    returns (result: seq<OutboundLine>, outcome: Outcome)
    ensures HasDocument(table, s.documentNo) ==> outcome == AlreadyImported
    ensures !HasDocument(table, s.documentNo) && ToInsert(candidates) == [] ==> outcome == NothingToImport
    ensures !HasDocument(table, s.documentNo) && ToInsert(candidates) != [] && s.dryRun ==>
      outcome == Previewed(ToInsert(candidates)[..Min(20, |ToInsert(candidates)|)])
    ensures outcome.Committed? ==>
      (ToInsertImportable(candidates);
       result == table + LinesOf(s, ToInsert(candidates)) && outcome.count == |ToInsert(candidates)|)
    ensures !outcome.Committed? ==> result == table
    ensures !HasDocument(table, s.documentNo) && ToInsert(candidates) != [] && !s.dryRun ==>
      (outcome.Committed? <==> failAt.None? || failAt.value >= |ToInsert(candidates)|)
  {
    if HasDocument(table, s.documentNo) {
      return table, AlreadyImported;
    }
    var rows := ToInsert(candidates);
    if rows == [] {
      return table, NothingToImport;
    }
    if s.dryRun {
      return table, Previewed(rows[..Min(20, |rows|)]);
    }
    ToInsertImportable(candidates);
    var committed;
    result, committed := InsertInTransaction(table, LinesOf(s, rows), failAt);
    outcome := if committed then Committed(|rows|) else RolledBack;
  }

  lemma ToInsertImportable(candidates: seq<Candidate>)
    ensures forall r :: r in ToInsert(candidates) ==> r.quantity.Some?
  {
    ToInsertMeaning(candidates);
  }

  /** After a committed import every inserted line carries the document number, a positive
      quantity and a non-empty trimmed project code, so a second run stops at the existence
      check. */
  lemma CommittedLinesShape(s: Settings, candidates: seq<Candidate>)
    ensures (ToInsertImportable(candidates);
      forall l :: l in LinesOf(s, ToInsert(candidates)) ==>
        l.documentNo == s.documentNo && l.quantity >= 1 && l.projectCode != [])
    ensures (ToInsertImportable(candidates);
      ToInsert(candidates) != [] ==> HasDocument(LinesOf(s, ToInsert(candidates)), s.documentNo))
  {
    ToInsertMeaning(candidates);
    ToInsertImportable(candidates);
    var rows := ToInsert(candidates);
    forall l | l in LinesOf(s, rows)
      ensures l.documentNo == s.documentNo && l.quantity >= 1 && l.projectCode != []
    {
      var i :| 0 <= i < |rows| && LinesOf(s, rows)[i] == l;
      assert rows[i] in rows;
      var k :| 0 <= k < |candidates| && ToRow(candidates[k]) == rows[i];
      PositiveIntMeaning(candidates[k].completed, rows[i].quantity.value);
    }
  }

  lemma SecondRunStops(table: seq<OutboundLine>, s: Settings, candidates: seq<Candidate>)
    requires ToInsert(candidates) != []
    ensures (ToInsertImportable(candidates);
      HasDocument(table + LinesOf(s, ToInsert(candidates)), s.documentNo))
  {
    CommittedLinesShape(s, candidates);
    ToInsertImportable(candidates);
    var lines := LinesOf(s, ToInsert(candidates));
    assert (table + lines)[|table|] == lines[0];
  }
}
