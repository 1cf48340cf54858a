/** The monthly attendance routes. A month has one summary row holding head counts and
    overtime totals, and one detail row per employee; a month can be created or edited only
    while it is the current or the previous calendar month. Hours and amounts are
    JavaScript numbers; the detail table is a map from a summary's id to its rows. */
module Attendance {
  import opened Common
  import opened JsNumber

  // ---------------------------------------------------------------- numbers

  /** `toNumber`: null, undefined and the empty string read as 0, and so does whatever
      `Number` reads as NaN. */
  function ToNumber(x: Value): (r: Num)
    ensures !r.NaN?
    ensures x.Null? || x.Undefined? || x == Str("") ==> r == Finite(0.0)
    ensures x.Number? && !x.n.NaN? ==> r == x.n
    ensures x.Number? && x.n.NaN? ==> r == Finite(0.0)
  {
    if x.Null? || x.Undefined? || x == Str("") then Finite(0.0)
    else
      var n := JsNumber.ToNumber(x);
      if n.NaN? then Finite(0.0) else n
  }

  /** A count or an amount typed as decimal digits reads as its value. */
  lemma DigitsReadAsValue(s: string)
    requires s != [] && AllDigits(s) && DigitsValue(s) < OverflowBound
    ensures ToNumber(Str(s)) == Finite(DigitsValue(s) as real)
  {
    DigitsToNumber(s);
  }

  // ---------------------------------------------------------------- summary

  /** The fields of a submitted record that the summary reads. The other columns of a
      detail row are stored as given and are not modelled. */
  datatype AttendanceRecord = AttendanceRecord(
    employeeId: Value,
    overtimeHours: Value,
    doubleOvertimeHours: Value,
    tripleOvertimeHours: Value,
    fullAttendanceBonus: Value,
    lateCount: Value)

  function OvertimeHours(r: AttendanceRecord): Value { r.overtimeHours }
  function DoubleOvertimeHours(r: AttendanceRecord): Value { r.doubleOvertimeHours }
  function TripleOvertimeHours(r: AttendanceRecord): Value { r.tripleOvertimeHours }
  function LateCount(r: AttendanceRecord): Value { r.lateCount }

  /** What `toNumber` reads from one field of every record. */
  function Readings(records: seq<AttendanceRecord>, key: AttendanceRecord -> Value): (ns: seq<Num>)
    ensures |ns| == |records|
    ensures forall i :: 0 <= i < |records| ==> ns[i] == ToNumber(key(records[i]))
  {
    seq(|records|, i requires 0 <= i < |records| => ToNumber(key(records[i])))
  }

  /** `reduce((acc, n) => acc + n, 0)`. */
  function Total(ns: seq<Num>): Num
  {
    if ns == [] then Finite(0.0) else Add(Total(ns[..|ns| - 1]), ns[|ns| - 1])
  }

  /** The exact sum of the finite numbers of a sequence. */
  function RealTotal(ns: seq<Num>): real
  {
    if ns == [] then 0.0
    else RealTotal(ns[..|ns| - 1]) + (if ns[|ns| - 1].Finite? then ns[|ns| - 1].v else 0.0)
  }

  predicate AllFinite(ns: seq<Num>)
  {
    forall i :: 0 <= i < |ns| ==> ns[i].Finite?
  }

  /** Finite numbers total to their exact sum. */
  lemma {:induction false} TotalIsExact(ns: seq<Num>)
    requires AllFinite(ns)
    ensures Total(ns) == Finite(RealTotal(ns))
  {
    if ns != [] {
      var init := ns[..|ns| - 1];
      assert AllFinite(init) by {
        forall i | 0 <= i < |init| ensures init[i].Finite? {
          assert init[i] == ns[i];
        }
      }
      TotalIsExact(init);
    }
  }

  predicate HasBonus(r: AttendanceRecord)
  {
    ToNumber(r.fullAttendanceBonus) != Finite(0.0)
  }

  /** `records.filter(item => toNumber(item.fullAttendanceBonus) !== 0).length`. */
  function FullAttendanceCount(records: seq<AttendanceRecord>): (n: nat)
    ensures n <= |records|
  {
    if records == [] then 0
    else FullAttendanceCount(records[..|records| - 1]) + (if HasBonus(records[|records| - 1]) then 1 else 0)
  }

  /** Nobody counts as fully attended exactly when no record has a non-zero bonus, and
      everybody does exactly when every record has one. */
  lemma {:induction false} FullAttendanceMeaning(records: seq<AttendanceRecord>)
    ensures FullAttendanceCount(records) == 0 <==> forall i :: 0 <= i < |records| ==> !HasBonus(records[i])
    ensures FullAttendanceCount(records) == |records| <==> forall i :: 0 <= i < |records| ==> HasBonus(records[i])
  {
    if records != [] {
      var init := records[..|records| - 1];
      FullAttendanceMeaning(init);
      forall i | 0 <= i < |init| ensures init[i] == records[i] {
      }
      assert FullAttendanceCount(init) <= |init|;
    }
  }

  /** The result of `computeSummary`. */
  datatype Totals = Totals(
    employeeCount: nat,
    overtimeNormalTotal: Num,
    overtimeDoubleTotal: Num,
    overtimeTripleTotal: Num,
    overtimeSubtotalTotal: Num,
    fullAttendanceCount: nat,
    lateCountTotal: Num)

  /** `computeSummary`: the head count, the three overtime totals and their sum, the number
      of records with a full-attendance bonus, and the late count. */
  function ComputeSummary(records: seq<AttendanceRecord>): (t: Totals)
    ensures t.employeeCount == |records|
    ensures t.fullAttendanceCount <= t.employeeCount
  {
    var normal := Total(Readings(records, OvertimeHours));
    var double := Total(Readings(records, DoubleOvertimeHours));
    var triple := Total(Readings(records, TripleOvertimeHours));
    Totals(|records|, normal, double, triple, Add(Add(normal, double), triple),
      FullAttendanceCount(records), Total(Readings(records, LateCount)))
  }

  /** With finite hours, the overtime subtotal is the sum of all three kinds of hours. */
  lemma SubtotalOfFinite(records: seq<AttendanceRecord>)
    requires AllFinite(Readings(records, OvertimeHours)) && AllFinite(Readings(records, DoubleOvertimeHours))
    requires AllFinite(Readings(records, TripleOvertimeHours))
    ensures ComputeSummary(records).overtimeSubtotalTotal
      == Finite(RealTotal(Readings(records, OvertimeHours)) + RealTotal(Readings(records, DoubleOvertimeHours))
                + RealTotal(Readings(records, TripleOvertimeHours)))
  {
    TotalIsExact(Readings(records, OvertimeHours));
    TotalIsExact(Readings(records, DoubleOvertimeHours));
    TotalIsExact(Readings(records, TripleOvertimeHours));
  }

  // ---------------------------------------------------------------- editable months

  /** A calendar month: a year and a month index from 0 (January) to 11. */
  datatype CalendarMonth = CalendarMonth(year: int, index: int)

  /** The month of `new Date(year, monthIndex, 1)`: a year from 0 to 99 means 1900 plus it,
      and a month index outside 0..11 rolls over into the neighbouring years. */
  function DateMonth(year: int, monthIndex: int): (c: CalendarMonth)
    ensures 0 <= c.index < 12
    ensures (year < 0 || year > 99) && 0 <= monthIndex < 12 ==> c == CalendarMonth(year, monthIndex)
  {
    var y := if 0 <= year <= 99 then 1900 + year else year;
    CalendarMonth(y + monthIndex / 12, monthIndex % 12)
  }

  /** The month before a month. */
  function Previous(c: CalendarMonth): CalendarMonth
  {
    if c.index == 0 then CalendarMonth(c.year - 1, 11) else CalendarMonth(c.year, c.index - 1)
  }

  function Digit(c: char): int { c as int - '0' as int }

  /** The year a month text names. */
  function YearOf(month: string): (y: int)
    requires IsMonthText(month)
    ensures 0 <= y < 10000
  {
    1000 * Digit(month[0]) + 100 * Digit(month[1]) + 10 * Digit(month[2]) + Digit(month[3])
  }

  /** The month number a month text names, from 00 to 99. */
  function MonthNumberOf(month: string): (m: int)
    requires IsMonthText(month)
    ensures 0 <= m < 100
  {
    10 * Digit(month[5]) + Digit(month[6])
  }

  /** `isEditableMonthString` as written, with the clock's month passed in as `now`: the
      text must have the shape of a month, and `new Date(year, month - 1, 1)` must fall in
      the current or the previous month. The month number is not range-checked, so 13 rolls
      over into January of the next year and 00 back into December. */
  predicate IsEditableMonthString(month: string, now: CalendarMonth)
  {
    IsMonthText(month)
    && var selected := DateMonth(YearOf(month), MonthNumberOf(month) - 1);
       selected == DateMonth(now.year, now.index) || selected == DateMonth(now.year, now.index - 1)
  }

  /** `2024-13` is editable in January 2025, and names the same month as `2025-01`, which is
      editable too: two different month texts for one month both pass. */
  lemma ThirteenthMonthAccepted()
    ensures IsEditableMonthString("2024-13", CalendarMonth(2025, 0))
    ensures IsEditableMonthString("2025-01", CalendarMonth(2025, 0))
    ensures "2024-13" != "2025-01"
    ensures DateMonth(YearOf("2024-13"), MonthNumberOf("2024-13") - 1)
         == DateMonth(YearOf("2025-01"), MonthNumberOf("2025-01") - 1)
  {
    var a := "2024-13";
    var b := "2025-01";
    assert IsMonthText(a) && YearOf(a) == 2024 && MonthNumberOf(a) == 13;
    assert IsMonthText(b) && YearOf(b) == 2025 && MonthNumberOf(b) == 1;
    assert DateMonth(2024, 12) == CalendarMonth(2025, 0);
    assert DateMonth(2025, 0) == CalendarMonth(2025, 0);
  }

  /** A month text with a month number from 01 to 12. */
  predicate IsProperMonth(month: string)
  {
    IsMonthText(month) && 1 <= MonthNumberOf(month) <= 12
  }

  /** The month a proper month text names. */
  function Named(month: string): (c: CalendarMonth)
    requires IsProperMonth(month)
    ensures 0 <= c.index < 12
  {
    CalendarMonth(YearOf(month), MonthNumberOf(month) - 1)
  }

  /** The check the routes evidently intend, used by `CreateIntended` and `UpdateIntended`: the text
      names a month from 01 to 12, and that month is the current or the previous one. */
  predicate IsEditableMonth(month: string, now: CalendarMonth)
  {
    IsProperMonth(month) && (Named(month) == now || Named(month) == Previous(now))
  }

  /** The last decimal digit and the rest of a number are determined by it. */
  lemma LastDigit(x: int, d: int, y: int, e: int)
    requires 0 <= d <= 9 && 0 <= e <= 9 && 10 * x + d == 10 * y + e
    ensures x == y && d == e
  {
  }

  lemma SameDigit(c: char, d: char)
    requires Digit(c) == Digit(d)
    ensures c == d
  {
  }

  /** Two proper month texts name the same month only when they are the same text. */
  lemma NamedIsInjective(a: string, b: string)
    requires IsProperMonth(a) && IsProperMonth(b) && Named(a) == Named(b)
    ensures a == b
  {
    LastDigit(Digit(a[5]), Digit(a[6]), Digit(b[5]), Digit(b[6]));
    LastDigit(100 * Digit(a[0]) + 10 * Digit(a[1]) + Digit(a[2]), Digit(a[3]),
              100 * Digit(b[0]) + 10 * Digit(b[1]) + Digit(b[2]), Digit(b[3]));
    LastDigit(10 * Digit(a[0]) + Digit(a[1]), Digit(a[2]), 10 * Digit(b[0]) + Digit(b[1]), Digit(b[2]));
    LastDigit(Digit(a[0]), Digit(a[1]), Digit(b[0]), Digit(b[1]));
    SameDigit(a[0], b[0]);
    SameDigit(a[1], b[1]);
    SameDigit(a[2], b[2]);
    SameDigit(a[3], b[3]);
    SameDigit(a[5], b[5]);
    SameDigit(a[6], b[6]);
    assert forall i :: 0 <= i < 7 ==> a[i] == b[i];
  }

  /** For a proper month text and a clock past year 99, the check as written agrees with
      the intended one: the only texts where they differ are month numbers 00 and 13 to 99,
      and years 0000 to 0099. */
  lemma EditableAgreesOnProperMonths(month: string, now: CalendarMonth)
    requires IsProperMonth(month) && YearOf(month) >= 100
    requires now.year >= 100 && 0 <= now.index < 12
    ensures IsEditableMonthString(month, now) <==> IsEditableMonth(month, now)
  {
    assert DateMonth(YearOf(month), MonthNumberOf(month) - 1) == Named(month);
    assert DateMonth(now.year, now.index) == now;
    assert DateMonth(now.year, now.index - 1) == Previous(now);
  }

  // ---------------------------------------------------------------- tables

  /** A row of the summary table. */
  datatype Summary = Summary(
    id: int,
    month: string,
    employeeCount: nat,
    overtimeNormalTotal: Num,
    overtimeDoubleTotal: Num,
    overtimeTripleTotal: Num,
    overtimeSubtotalTotal: Num,
    fullAttendanceCount: nat)

  /** The stored columns of a summary: every total except the late count, which the list
      route recomputes from the details. */
  function Row(id: int, month: string, t: Totals): Summary
  {
    Summary(id, month, t.employeeCount, t.overtimeNormalTotal, t.overtimeDoubleTotal,
      t.overtimeTripleTotal, t.overtimeSubtotalTotal, t.fullAttendanceCount)
  }

  /** The summary table, and the detail rows of each summary in insertion order. */
  datatype Db = Db(summaries: seq<Summary>, details: map<int, seq<AttendanceRecord>>)

  predicate HasId(ss: seq<Summary>, id: int)
  {
    exists i :: 0 <= i < |ss| && ss[i].id == id
  }

  predicate HasMonth(ss: seq<Summary>, month: string)
  {
    exists i :: 0 <= i < |ss| && ss[i].month == month
  }

  /** Some summary other than `id` already holds `month`. */
  predicate HeldByOther(ss: seq<Summary>, month: string, id: int)
  {
    exists i :: 0 <= i < |ss| && ss[i].month == month && ss[i].id != id
  }

  predicate IdsUnique(ss: seq<Summary>)
  {
    forall i, j :: 0 <= i < j < |ss| ==> ss[i].id != ss[j].id
  }

  predicate MonthsUnique(ss: seq<Summary>)
  {
    forall i, j :: 0 <= i < j < |ss| ==> ss[i].month != ss[j].month
  }

  /** What the routes keep true of the tables: unique ids, one summary per month text, every
      month a proper month, and details only for existing summaries. */
  predicate Valid(db: Db)
  {
    && IdsUnique(db.summaries)
    && MonthsUnique(db.summaries)
    && (forall i :: 0 <= i < |db.summaries| ==> IsProperMonth(db.summaries[i].month))
    && (forall k :: k in db.details ==> HasId(db.summaries, k))
  }

  /** In valid tables no two summaries are for the same calendar month. */
  lemma OneSummaryPerMonth(db: Db)
    requires Valid(db)
    ensures forall i, j :: 0 <= i < j < |db.summaries| ==>
      Named(db.summaries[i].month) != Named(db.summaries[j].month)
  {
    forall i, j | 0 <= i < j < |db.summaries|
      ensures Named(db.summaries[i].month) != Named(db.summaries[j].month)
    {
      if Named(db.summaries[i].month) == Named(db.summaries[j].month) {
        NamedIsInjective(db.summaries[i].month, db.summaries[j].month);
        assert false;
      }
    }
  }

  /** The identity the table gives a new summary: above every existing one. */
  function NextId(ss: seq<Summary>): (id: int)
    ensures id >= 1 && forall i :: 0 <= i < |ss| ==> ss[i].id < id
  {
    if ss == [] then 1
    else
      var rest := NextId(ss[..|ss| - 1]);
      Max(rest, ss[|ss| - 1].id + 1)
  }

  /** `UPDATE 考勤汇总 SET 月份 = @month, ... WHERE ID = @id`. */
  function UpdateWhere(ss: seq<Summary>, id: int, month: string, t: Totals): (r: seq<Summary>)
    ensures |r| == |ss|
    ensures forall i :: 0 <= i < |ss| ==> r[i] == if ss[i].id == id then Row(id, month, t) else ss[i]
  {
    seq(|ss|, i requires 0 <= i < |ss| => if ss[i].id == id then Row(id, month, t) else ss[i])
  }

  /** The detail rows of a summary. */
  function Rows(details: map<int, seq<AttendanceRecord>>, summaryId: int): seq<AttendanceRecord>
  {
    if summaryId in details then details[summaryId] else []
  }

  /** The detail table after `records` are inserted for a summary, one after another. */
  function Appended(details: map<int, seq<AttendanceRecord>>, summaryId: int, records: seq<AttendanceRecord>)
    : (r: map<int, seq<AttendanceRecord>>)
    ensures Rows(r, summaryId) == Rows(details, summaryId) + records
    ensures summaryId in r <==> summaryId in details || records != []
    ensures forall k :: k != summaryId ==> (k in r <==> k in details)
    ensures forall k :: k != summaryId && k in details ==> r[k] == details[k]
  {
    if records == [] then details
    else details[summaryId := Rows(details, summaryId) + records]
  }

  /** The insert loop of `insertOrUpdate`: one detail row per record, in order. */
  method InsertDetails(details: map<int, seq<AttendanceRecord>>, summaryId: int, records: seq<AttendanceRecord>)
    returns (after: map<int, seq<AttendanceRecord>>)
    ensures after == Appended(details, summaryId, records)
  {
    after := details;
    var i := 0;
    while i < |records|
      invariant 0 <= i <= |records|
      invariant after == Appended(details, summaryId, records[..i])
    {
      var existing := if summaryId in after then after[summaryId] else [];
      assert records[..i + 1] == records[..i] + [records[i]];
      assert existing == Rows(details, summaryId) + records[..i];
      assert after[summaryId := existing + [records[i]]] == details[summaryId := existing + [records[i]]];
      after := after[summaryId := existing + [records[i]]];
      assert existing + [records[i]] == Rows(details, summaryId) + records[..i + 1];
      assert Appended(details, summaryId, records[..i + 1])
          == details[summaryId := Rows(details, summaryId) + records[..i + 1]];
      i := i + 1;
    }
    assert records[..|records|] == records;
  }

  /** The update branch of `insertOrUpdate` with totals `t`: the summary row `sid` is
      rewritten, its details are deleted, and the records are inserted as its details. */
  function Rewrite(db: Db, sid: int, month: string, t: Totals, records: seq<AttendanceRecord>): (after: Db)
    ensures |after.summaries| == |db.summaries|
    ensures forall i :: 0 <= i < |db.summaries| ==>
      after.summaries[i] == if db.summaries[i].id == sid then Row(sid, month, t) else db.summaries[i]
    ensures Rows(after.details, sid) == records
    ensures forall k :: k != sid ==>
      (k in after.details <==> k in db.details) && (k in db.details ==> after.details[k] == db.details[k])
  {
    Db(UpdateWhere(db.summaries, sid, month, t), Appended(db.details - {sid}, sid, records))
  }

  /** The insert branch of `insertOrUpdate` with totals `t`: a summary row with the new id
      `sid` is added, and the records are inserted as its details. */
  function Insert(db: Db, sid: int, month: string, t: Totals, records: seq<AttendanceRecord>): (after: Db)
    ensures after.summaries == db.summaries + [Row(sid, month, t)]
    ensures Rows(after.details, sid) == Rows(db.details, sid) + records
    ensures forall k :: k != sid ==>
      (k in after.details <==> k in db.details) && (k in db.details ==> after.details[k] == db.details[k])
  {
    Db(db.summaries + [Row(sid, month, t)], Appended(db.details, sid, records))
  }

  /** `insertOrUpdate`: an empty month is refused; an update needs an id and a summary row
      with it; then the summary is rewritten or inserted with the records' totals, and the
      records become its details. A refusal rolls the transaction back, so nothing changes.
      The result is the new tables and the summary's id. */
  function InsertOrUpdate(db: Db, id: Option<int>, month: string, records: seq<AttendanceRecord>, isUpdate: bool)
    : (r: Result<(Db, int), string>)
    ensures r.Err? <==> month == [] || (isUpdate && (id.None? || id.value == 0 || !HasId(db.summaries, id.value)))
    ensures r.Ok? && isUpdate ==>
      r.value == (Rewrite(db, id.value, month, ComputeSummary(records), records), id.value)
    ensures r.Ok? && !isUpdate ==>
      r.value == (Insert(db, NextId(db.summaries), month, ComputeSummary(records), records), NextId(db.summaries))
  {
    if month == [] then Err("月份不能为空")
    else if isUpdate && (id.None? || id.value == 0) then Err("ID 不能为空")
    else if isUpdate && !HasId(db.summaries, id.value) then Err("考勤记录不存在")
    else if isUpdate then Ok((Rewrite(db, id.value, month, ComputeSummary(records), records), id.value))
    else Ok((Insert(db, NextId(db.summaries), month, ComputeSummary(records), records), NextId(db.summaries)))
  }

  /** Rewriting a known summary with a proper month that no other summary has keeps the
      tables valid. */
  lemma RewriteKeepsValid(db: Db, sid: int, month: string, t: Totals, records: seq<AttendanceRecord>)
    requires Valid(db) && HasId(db.summaries, sid) && IsProperMonth(month)
    requires forall i :: 0 <= i < |db.summaries| && db.summaries[i].month == month ==> db.summaries[i].id == sid
    ensures Valid(Rewrite(db, sid, month, t, records))
  {
    var after := Rewrite(db, sid, month, t, records);
    var ss := after.summaries;
    forall k | k in after.details ensures HasId(ss, k) {
      var i :| 0 <= i < |db.summaries| && db.summaries[i].id == k;
      assert ss[i].id == k;
    }
  }

  /** Inserting a summary with a new id and a proper month that has no summary yet keeps the
      tables valid. */
  lemma InsertKeepsValid(db: Db, month: string, t: Totals, records: seq<AttendanceRecord>)
    requires Valid(db) && IsProperMonth(month) && !HasMonth(db.summaries, month)
    ensures Valid(Insert(db, NextId(db.summaries), month, t, records))
  {
    var sid := NextId(db.summaries);
    var after := Insert(db, sid, month, t, records);
    var ss := after.summaries;
    forall k | k in after.details ensures HasId(ss, k) {
      if k == sid {
        assert ss[|ss| - 1].id == sid;
      } else {
        var i :| 0 <= i < |db.summaries| && db.summaries[i].id == k;
        assert ss[i].id == k;
      }
    }
  }

  // ---------------------------------------------------------------- routes

  /** The month guard of the routes: `isEditableMonthString` as the source calls it, or, with
      `intended`, the range-checked `IsEditableMonth`. */
  predicate Editable(month: string, now: CalendarMonth, intended: bool)
  {
    if intended then IsEditableMonth(month, now) else IsEditableMonthString(month, now)
  }

  /** `POST /` with the month guard chosen by `intended`: 400 without a month, 403 unless the
      month is editable, 400 when the month already has a summary; otherwise the summary and
      its details are inserted (the route's 500 answers a failing `insertOrUpdate`, which
      these tables never make fail). */
  function CreateWith(db: Db, month: string, records: seq<AttendanceRecord>, now: CalendarMonth, intended: bool)
    : (r: (int, Db))
    ensures r.0 != 200 ==> r.1 == db
  {
    CreateGuarded(db, month, records, Editable(month, now, intended))
  }

  /** `POST /` once the month guard has given `editable`. */
  function CreateGuarded(db: Db, month: string, records: seq<AttendanceRecord>, editable: bool)
    : (r: (int, Db))
    ensures r.0 != 200 ==> r.1 == db
    ensures r.0 == 200 ==> r.1 == Insert(db, NextId(db.summaries), month, ComputeSummary(records), records)
  {
    if month == [] then (400, db)
    else if !editable then (403, db)
    else if HasMonth(db.summaries, month) then (400, db)
    else
      match InsertOrUpdate(db, None, month, records, false)
      case Err(_) => (500, db)
      case Ok(p) => (200, p.0)
  }

  /** `POST /` as written: guarded by `isEditableMonthString`. */
  function Create(db: Db, month: string, records: seq<AttendanceRecord>, now: CalendarMonth): (r: (int, Db))
    ensures r.0 != 200 ==> r.1 == db
  {
    CreateWith(db, month, records, now, false)
  }

  /** `POST /` with the range-checked month guard the route evidently intends. */
  function CreateIntended(db: Db, month: string, records: seq<AttendanceRecord>, now: CalendarMonth): (r: (int, Db))
    ensures r.0 != 200 ==> r.1 == db
  {
    CreateWith(db, month, records, now, true)
  }

  /** `PUT /` with the month guard chosen by `intended`: 400 without an id or a month, 403
      unless the month is editable, 404 for an unknown id, 400 when another summary has the
      month; otherwise the summary is rewritten and its details replaced. */
  function UpdateWith(db: Db, id: Option<int>, month: string, records: seq<AttendanceRecord>, now: CalendarMonth,
                      intended: bool)
    : (r: (int, Db))
    ensures r.0 != 200 ==> r.1 == db
  {
    UpdateGuarded(db, id, month, records, Editable(month, now, intended))
  }

  /** `PUT /` once the month guard has given `editable`. */
  function UpdateGuarded(db: Db, id: Option<int>, month: string, records: seq<AttendanceRecord>, editable: bool)
    : (r: (int, Db))
    ensures r.0 != 200 ==> r.1 == db
    ensures r.0 == 200 ==> id.Some? && r.1 == Rewrite(db, id.value, month, ComputeSummary(records), records)
  {
    if id.None? || id.value == 0 then (400, db)
    else if month == [] then (400, db)
    else if !editable then (403, db)
    else if !HasId(db.summaries, id.value) then (404, db)
    else if HeldByOther(db.summaries, month, id.value)
    then (400, db)
    else
      match InsertOrUpdate(db, id, month, records, true)
      case Err(_) => (500, db)
      case Ok(p) => (200, p.0)
  }

  /** `PUT /` as written: guarded by `isEditableMonthString`. */
  function Update(db: Db, id: Option<int>, month: string, records: seq<AttendanceRecord>, now: CalendarMonth)
    : (r: (int, Db))
    ensures r.0 != 200 ==> r.1 == db
  {
    UpdateWith(db, id, month, records, now, false)
  }

  /** `PUT /` with the range-checked month guard the route evidently intends. */
  function UpdateIntended(db: Db, id: Option<int>, month: string, records: seq<AttendanceRecord>, now: CalendarMonth)
    : (r: (int, Db))
    ensures r.0 != 200 ==> r.1 == db
  {
    UpdateWith(db, id, month, records, now, true)
  }

  /** Creating succeeds exactly for an editable month that has no summary yet, and then adds
      one summary with a new id, the month and the records' totals, whose details are the
      records; it answers 403 exactly for a non-empty month the guard refuses. */
  lemma CreateEffect(db: Db, month: string, records: seq<AttendanceRecord>, now: CalendarMonth, intended: bool)
    ensures CreateWith(db, month, records, now, intended).0 == 200 <==>
      Editable(month, now, intended) && month != [] && !HasMonth(db.summaries, month)
    ensures CreateWith(db, month, records, now, intended).0 == 403 <==> month != [] && !Editable(month, now, intended)
    ensures CreateWith(db, month, records, now, intended).0 == 200 ==>
      CreateWith(db, month, records, now, intended).1
      == Insert(db, NextId(db.summaries), month, ComputeSummary(records), records)
  {
    CreateGuardedSucceeds(db, month, records, Editable(month, now, intended));
    CreateGuardedRefuses(db, month, records, Editable(month, now, intended));
  }

  lemma CreateGuardedSucceeds(db: Db, month: string, records: seq<AttendanceRecord>, editable: bool)
    ensures CreateGuarded(db, month, records, editable).0 == 200 <==>
      editable && month != [] && !HasMonth(db.summaries, month)
  {
  }

  lemma CreateGuardedRefuses(db: Db, month: string, records: seq<AttendanceRecord>, editable: bool)
    ensures CreateGuarded(db, month, records, editable).0 == 403 <==> month != [] && !editable
    ensures CreateGuarded(db, month, records, editable).0 == 400 <==>
      month == [] || (editable && HasMonth(db.summaries, month))
  {
  }

  /** Updating succeeds exactly for a known id and an editable month that no other summary
      has, and then rewrites that summary with the records; it answers 404 exactly for an
      unknown id that passed the month checks. */
  lemma UpdateEffect(db: Db, id: int, month: string, records: seq<AttendanceRecord>, now: CalendarMonth, intended: bool)
    requires id != 0
    ensures UpdateWith(db, Some(id), month, records, now, intended).0 == 404 <==>
      month != [] && Editable(month, now, intended) && !HasId(db.summaries, id)
    ensures UpdateWith(db, Some(id), month, records, now, intended).0 == 200 <==>
      month != [] && Editable(month, now, intended) && HasId(db.summaries, id)
      && !HeldByOther(db.summaries, month, id)
    ensures UpdateWith(db, Some(id), month, records, now, intended).0 == 200 ==>
      UpdateWith(db, Some(id), month, records, now, intended).1
      == Rewrite(db, id, month, ComputeSummary(records), records)
  {
    UpdateGuardedSucceeds(db, id, month, records, Editable(month, now, intended));
    UpdateGuardedRefuses(db, id, month, records, Editable(month, now, intended));
  }

  lemma UpdateGuardedSucceeds(db: Db, id: int, month: string, records: seq<AttendanceRecord>, editable: bool)
    requires id != 0
    ensures UpdateGuarded(db, Some(id), month, records, editable).0 == 200 <==>
      month != [] && editable && HasId(db.summaries, id) && !HeldByOther(db.summaries, month, id)
  {
  }

  lemma UpdateGuardedRefuses(db: Db, id: int, month: string, records: seq<AttendanceRecord>, editable: bool)
    requires id != 0
    ensures UpdateGuarded(db, Some(id), month, records, editable).0 == 404 <==>
      month != [] && editable && !HasId(db.summaries, id)
    ensures UpdateGuarded(db, Some(id), month, records, editable).0 == 400 <==>
      month == [] || (editable && HasId(db.summaries, id) && HeldByOther(db.summaries, month, id))
  {
  }

  /** Creating with the intended guard keeps the tables valid. */
  lemma CreateKeepsValid(db: Db, month: string, records: seq<AttendanceRecord>, now: CalendarMonth)
    requires Valid(db)
    ensures Valid(CreateIntended(db, month, records, now).1)
  {
    CreateEffect(db, month, records, now, true);
    if CreateIntended(db, month, records, now).0 == 200 {
      InsertKeepsValid(db, month, ComputeSummary(records), records);
    }
  }

  /** Updating with the intended guard keeps the tables valid. */
  lemma UpdateKeepsValid(db: Db, id: Option<int>, month: string, records: seq<AttendanceRecord>, now: CalendarMonth)
    requires Valid(db)
    ensures Valid(UpdateIntended(db, id, month, records, now).1)
  {
    if UpdateIntended(db, id, month, records, now).0 == 200 {
      UpdateEffect(db, id.value, month, records, now, true);
      RewriteKeepsValid(db, id.value, month, ComputeSummary(records), records);
    }
  }

  /** As written, a month the guard accepts and no summary holds is stored: its summary is
      appended under the next id. */
  lemma CreateStoresFreshMonth(db: Db, month: string, now: CalendarMonth)
    requires month != [] && IsEditableMonthString(month, now) && !HasMonth(db.summaries, month)
    ensures Create(db, month, [], now).0 == 200
    ensures Create(db, month, [], now).1.summaries == db.summaries + [Row(NextId(db.summaries), month, ComputeSummary([]))]
  {
    CreateGuardedSucceeds(db, month, [], true);
  }

  /** As written, "2024-13" passes the guard in January 2025 and is stored on empty tables. */
  lemma ThirteenthMonthStored()
    ensures Create(Db([], map[]), "2024-13", [], CalendarMonth(2025, 0)).0 == 200
    ensures Create(Db([], map[]), "2024-13", [], CalendarMonth(2025, 0)).1.summaries
            == [Row(1, "2024-13", ComputeSummary([]))]
  {
    ThirteenthMonthAccepted();
    CreateStoresFreshMonth(Db([], map[]), "2024-13", CalendarMonth(2025, 0));
  }

  /** As written, "2025-01" is then stored as well, so two summaries name the same calendar
      month (see `ThirteenthMonthAccepted`). */
  lemma TwoSummariesForOneMonth()
    ensures Create(Create(Db([], map[]), "2024-13", [], CalendarMonth(2025, 0)).1, "2025-01", [],
                   CalendarMonth(2025, 0)).0 == 200
    ensures Create(Create(Db([], map[]), "2024-13", [], CalendarMonth(2025, 0)).1, "2025-01", [],
                   CalendarMonth(2025, 0)).1.summaries
            == [Row(1, "2024-13", ComputeSummary([])), Row(2, "2025-01", ComputeSummary([]))]
  {
    var now := CalendarMonth(2025, 0);
    ThirteenthMonthStored();
    ThirteenthMonthAccepted();
    var first := Create(Db([], map[]), "2024-13", [], now).1;
    assert first.summaries[0].month == "2024-13";
    assert !HasMonth(first.summaries, "2025-01");
    CreateStoresFreshMonth(first, "2025-01", now);
  }


}
