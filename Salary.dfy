/** The monthly payroll routes. Each month has one summary that moves from step 1 (choose
    the employees) through step 2 (enter the amounts) and step 3 (confirm) to 已完成
    (completed); step 2 stores each row's money in a normal form and recomputes the month's
    totals. The personal-income-tax declaration sheet is exported from step 2's rows, and the
    tax is read back from the sheet the tax office returns. Money is a JavaScript number;
    the two tables are sequences of records. */
module Salary {
  import opened Common
  import opened JsNumber

  const Draft: string := "草稿"
  const Step2Saved: string := "步骤2已保存"
  const Step3Saved: string := "步骤3已保存"
  const Completed: string := "已完成"

  // ---------------------------------------------------------------- money

  /** `toNumberOrNull`, which `toMoney` only repeats: null, undefined and the empty string
      are no amount, and so is whatever `Number` reads as NaN. */
  function ToNumberOrNull(x: Value): (r: Option<Num>)
    ensures r.Some? ==> !r.value.NaN?
  {
    if x.Null? || x.Undefined? || x == Str("") || ToNumber(x).NaN? then None else Some(ToNumber(x))
  }

  /** A number reads as itself, except NaN, which is no amount. */
  lemma NumberIsItsOwnAmount(n: Num)
    ensures ToNumberOrNull(Number(n)) == (if n.NaN? then None else Some(n))
  {
  }

  /** The empty string is no amount, but a string of spaces is the amount 0, because only
      the empty string is tested before `Number` trims. */
  lemma BlankIsNullSpaceIsZero()
    ensures ToNumberOrNull(Str("")) == None
    ensures ToNumberOrNull(Str(" ")) == Some(Finite(0.0))
  {
    TrimEmptyIffBlank(" ");
  }

  /** `toNumberOrNull(val) ?? 0` applied to an amount that is already a number or null
      (`safeMoney`, and the sums of step 2). */
  function SafeMoney(o: Option<Num>): (r: Num)
    ensures !r.NaN?
    ensures o.Some? && o.value.Finite? ==> r == o.value
    ensures o.None? ==> r == Finite(0.0)
  {
    if o.Some? && !o.value.NaN? then o.value else Finite(0.0)
  }

  /** `toNumberOrZero`. */
  function ToNumberOrZero(x: Value): (r: Num)
    ensures !r.NaN?
    ensures ToNumberOrNull(x).None? ==> r == Finite(0.0)
  {
    SafeMoney(ToNumberOrNull(x))
  }

  function RealAbs(x: real): (r: real)
    ensures r >= 0.0 && (r == x || r == -x)
  {
    if x < 0.0 then -x else x
  }

  /** A whole number of cents. */
  predicate WholeCents(x: real)
  {
    (x * 100.0).Floor as real == x * 100.0
  }

  /** `Math.round(num * 100) / 100`: the nearest cent, half a cent going up; NaN and the
      infinities are left as they are. */
  function Round2(n: Num): (r: Num)
    ensures r.Finite? <==> n.Finite?
    ensures n.Finite? ==> WholeCents(r.v) && n.v - 0.005 < r.v <= n.v + 0.005
    ensures !n.Finite? ==> r == n
  {
    if n.Finite? then Finite(Round(n.v * 100.0) as real / 100.0) else n
  }

  /** A whole number of cents divided out is whole cents. */
  lemma CentsAreWhole(k: int)
    ensures WholeCents(k as real / 100.0)
  {
    assert (k as real / 100.0) * 100.0 == k as real;
  }

  lemma RoundOfInteger(k: int)
    ensures Round(k as real) == k
  {
    assert (k as real + 0.5).Floor == k;
  }

  /** A deduction: no amount, zero or below. */
  predicate NonPositive(n: Num)
  {
    (n.Finite? && n.v <= 0.0) || n == Infinite(true)
  }

  /** `toNegativeMoney` after `toNumberOrNull`: an amount rounded to the cent and stored
      with a minus sign whatever sign it was entered with. (`rounded === 0 ? 0 : ...` only
      avoids a negative zero, which a real number does not have.) */
  function NegativeMoney(n: Option<Num>): (r: Option<Num>)
    requires n.None? || !n.value.NaN?
    ensures r.None? <==> n.None?
    ensures r.Some? ==> NonPositive(r.value)
    ensures n.Some? && n.value.Finite? ==>
      r.Some? && r.value.Finite?
      && -RealAbs(n.value.v) - 0.005 <= r.value.v <= -RealAbs(n.value.v) + 0.005
  {
    if n.None? then None
    else if n.value.Finite? then
      var cents := Round(n.value.v * 100.0);
      var magnitude := if cents < 0 then -cents else cents;
      Some(Finite((-magnitude) as real / 100.0))
    else Some(Infinite(true))
  }

  /** A stored deduction is a whole number of cents. */
  lemma NegativeMoneyInCents(n: Option<Num>)
    requires n.Some? && n.value.Finite?
    ensures WholeCents(NegativeMoney(n).value.v)
  {
    var cents := Round(n.value.v * 100.0);
    CentsAreWhole(-(if cents < 0 then -cents else cents));
  }

  /** `toNegativeMoney`. */
  function ToNegativeMoney(x: Value): (r: Option<Num>)
    ensures r.None? <==> ToNumberOrNull(x).None?
    ensures r.Some? ==> NonPositive(r.value)
  {
    NegativeMoney(ToNumberOrNull(x))
  }

  /** Saving a stored deduction again gives it back unchanged. */
  lemma NegativeMoneyIdempotent(x: Value)
    requires ToNegativeMoney(x).Some?
    ensures ToNegativeMoney(Number(ToNegativeMoney(x).value)) == ToNegativeMoney(x)
  {
    var r := ToNegativeMoney(x).value;
    NumberIsItsOwnAmount(r);
    if r.Finite? {
      var cents := Round(ToNumberOrNull(x).value.v * 100.0);
      var magnitude := if cents < 0 then -cents else cents;
      assert r.v == (-magnitude) as real / 100.0;
      CentsBack(-magnitude);
      RoundOfInteger(-magnitude);
    }
  }

  /** A whole number of cents, written in units and multiplied back, is that number again. */
  lemma CentsBack(m: int)
    ensures ((m as real) / 100.0) * 100.0 == m as real
  {
  }

  // ---------------------------------------------------------------- step 2 rows

  /** One row of step 2's request body: the fields the route reads. `allowances` are the
      fields stored through `toMoney` that nothing else uses (baseSalary, nightShiftSubsidy,
      mealSubsidy, fullAttendanceBonus, seniorityPay, bonus, deduction); `deductions` are
      the ones stored through `toNegativeMoney` (lateDeduction, newOrPersonalLeaveDeduction,
      sickLeaveDeduction, absenceDeduction, hygieneFee, waterFee, electricityFee). */
  datatype DraftRow = DraftRow(
    employeeId: int,
    firstPay: Value, secondPay: Value, incomeTax: Value, total: Value,
    pensionInsuranceFee: Value, medicalInsuranceFee: Value, unemploymentInsuranceFee: Value,
    overtimePay: Value, doubleOvertimePay: Value, tripleOvertimePay: Value,
    allowances: seq<Value>, deductions: seq<Value>)

  /** A detail row's money as step 2 stores it. */
  datatype Amounts = Amounts(
    firstPay: Option<Num>, secondPay: Option<Num>, incomeTax: Option<Num>,
    pensionInsuranceFee: Option<Num>, medicalInsuranceFee: Option<Num>,
    unemploymentInsuranceFee: Option<Num>,
    firstPayable: Option<Num>, secondPayable: Option<Num>, twoPayableTotal: Option<Num>,
    currentSalary: Option<Num>,
    overtimePay: Option<Num>, doubleOvertimePay: Option<Num>, tripleOvertimePay: Option<Num>,
    allowances: seq<Option<Num>>, deductions: seq<Option<Num>>)

  /** `toMoney` of a computed number: NaN is no amount (`toNumberOrNull` of a number, see
      `NumberIsItsOwnAmount`). */
  function MoneyOf(n: Num): (r: Option<Num>)
    ensures r == ToNumberOrNull(Number(n))
  {
    if n.NaN? then None else Some(n)
  }

  /** The three payables of a row from its stored pay, tax and fees, each read through
      `toNumberOrNull(...) ?? 0`: the first payable is the first pay plus the (negative)
      fees, the second payable is the second pay less the income tax, and the two-payable
      total is their sum. */
  function Payables(firstPay: Num, secondPay: Num, incomeTax: Num, pension: Num, medical: Num, unemployment: Num)
    : (r: (Option<Num>, Option<Num>, Option<Num>))
  {
    var firstPayable := MoneyOf(Add(Add(Add(firstPay, pension), medical), unemployment));
    var secondPayable := MoneyOf(Sub(secondPay, incomeTax));
    (firstPayable, secondPayable, MoneyOf(Add(SafeMoney(firstPayable), SafeMoney(secondPayable))))
  }

  /** The payable formulas: with finite amounts, the two-payable total is the gross pay
      (first and second pay) less the income tax plus the (negative) fees, and it is first
      payable plus second payable. */
  lemma PayablesOfFinite(firstPay: real, secondPay: real, incomeTax: real, pension: real, medical: real, unemployment: real)
    ensures var r := Payables(Finite(firstPay), Finite(secondPay), Finite(incomeTax),
                              Finite(pension), Finite(medical), Finite(unemployment));
      && r.0 == Some(Finite(firstPay + pension + medical + unemployment))
      && r.1 == Some(Finite(secondPay - incomeTax))
      && r.2 == Some(Finite(r.0.value.v + r.1.value.v))
      && r.2.value.v == firstPay + secondPay - incomeTax + pension + medical + unemployment
  {
    var first := Add(Add(Add(Finite(firstPay), Finite(pension)), Finite(medical)), Finite(unemployment));
    assert first == Finite(firstPay + pension + medical + unemployment);
  }

  /** The step 2 normal form of one row (the `rows.map` of `PUT /draft/:id/step2`): the
      three insurance fees and the seven deductions become non-positive cents, and the
      payables are computed from the stored amounts; current salary is the row's total. */
  function Normalize(r: DraftRow): (a: Amounts)
    ensures |a.allowances| == |r.allowances| && |a.deductions| == |r.deductions|
    ensures forall i :: 0 <= i < |a.deductions| ==>
      a.deductions[i].None? || NonPositive(a.deductions[i].value)
    ensures a.pensionInsuranceFee.None? || NonPositive(a.pensionInsuranceFee.value)
    ensures a.medicalInsuranceFee.None? || NonPositive(a.medicalInsuranceFee.value)
    ensures a.unemploymentInsuranceFee.None? || NonPositive(a.unemploymentInsuranceFee.value)
    ensures PayablesStored(a)
  {
    var firstPay := ToNumberOrNull(r.firstPay);
    var secondPay := ToNumberOrNull(r.secondPay);
    var incomeTax := ToNumberOrNull(r.incomeTax);
    var pension := ToNegativeMoney(r.pensionInsuranceFee);
    var medical := ToNegativeMoney(r.medicalInsuranceFee);
    var unemployment := ToNegativeMoney(r.unemploymentInsuranceFee);
    var (firstPayable, secondPayable, twoPayableTotal) :=
      Payables(SafeMoney(firstPay), SafeMoney(secondPay), SafeMoney(incomeTax),
               SafeMoney(pension), SafeMoney(medical), SafeMoney(unemployment));
    Amounts(
      firstPay, secondPay, incomeTax, pension, medical, unemployment,
      firstPayable, secondPayable, twoPayableTotal,
      ToNumberOrNull(r.total),
      ToNumberOrNull(r.overtimePay), ToNumberOrNull(r.doubleOvertimePay), ToNumberOrNull(r.tripleOvertimePay),
      AmountsOf(r.allowances), DeductionsOf(r.deductions))
  }

  /** `toMoney` of each field. */
  function AmountsOf(vs: seq<Value>): (r: seq<Option<Num>>)
    ensures |r| == |vs|
  {
    seq(|vs|, i requires 0 <= i < |vs| => ToNumberOrNull(vs[i]))
  }

  /** `toNegativeMoney` of each field: every stored deduction is missing or non-positive. */
  function DeductionsOf(vs: seq<Value>): (r: seq<Option<Num>>)
    ensures |r| == |vs|
    ensures forall i :: 0 <= i < |r| ==> r[i].None? || NonPositive(r[i].value)
  {
    seq(|vs|, i requires 0 <= i < |vs| => ToNegativeMoney(vs[i]))
  }

  /** The value of an amount, no amount counting as 0. */
  function RealOr0(o: Option<Num>): real
  {
    if o.Some? && o.value.Finite? then o.value.v else 0.0
  }

  predicate FiniteOrNone(o: Option<Num>)
  {
    o.None? || o.value.Finite?
  }

  /** The payables of a detail row are those of its stored pay, tax and fees. */
  predicate PayablesStored(a: Amounts)
  {
    (a.firstPayable, a.secondPayable, a.twoPayableTotal)
      == Payables(SafeMoney(a.firstPay), SafeMoney(a.secondPay), SafeMoney(a.incomeTax),
                  SafeMoney(a.pensionInsuranceFee), SafeMoney(a.medicalInsuranceFee),
                  SafeMoney(a.unemploymentInsuranceFee))
  }

  /** The stored pay, tax and fees are finite or missing. */
  predicate FiniteInputs(a: Amounts)
  {
    FiniteOrNone(a.firstPay) && FiniteOrNone(a.secondPay) && FiniteOrNone(a.incomeTax)
    && FiniteOrNone(a.pensionInsuranceFee) && FiniteOrNone(a.medicalInsuranceFee)
    && FiniteOrNone(a.unemploymentInsuranceFee)
  }

  /** Rows whose payables are finite and add up. */
  predicate PayablesAdd(a: Amounts)
  {
    a.firstPayable.Some? && a.firstPayable.value.Finite?
    && a.secondPayable.Some? && a.secondPayable.value.Finite?
    && a.twoPayableTotal == Some(Finite(a.firstPayable.value.v + a.secondPayable.value.v))
  }

  /** A stored row with finite pay, tax and fees has payables that add up. */
  lemma StoredPayablesAdd(a: Amounts)
    requires PayablesStored(a) && FiniteInputs(a)
    ensures PayablesAdd(a)
  {
    var x1, x2, x3 := SafeMoney(a.firstPay), SafeMoney(a.secondPay), SafeMoney(a.incomeTax);
    var x4, x5 := SafeMoney(a.pensionInsuranceFee), SafeMoney(a.medicalInsuranceFee);
    var x6 := SafeMoney(a.unemploymentInsuranceFee);
    assert x1 == Finite(x1.v) && x2 == Finite(x2.v) && x3 == Finite(x3.v);
    assert x4 == Finite(x4.v) && x5 == Finite(x5.v) && x6 == Finite(x6.v);
    PayablesOfFinite(x1.v, x2.v, x3.v, x4.v, x5.v, x6.v);
  }

  // ---------------------------------------------------------------- totals

  /** The seven totals a summary stores. */
  datatype Totals = Totals(
    employeeCount: nat,
    overtimePayTotal: Num, doubleOvertimePayTotal: Num, tripleOvertimePayTotal: Num,
    currentSalaryTotal: Num, firstPayableTotal: Num, secondPayableTotal: Num,
    twoPayableTotal: Num)

  function OvertimePay(a: Amounts): Option<Num> { a.overtimePay }
  function DoubleOvertimePay(a: Amounts): Option<Num> { a.doubleOvertimePay }
  function TripleOvertimePay(a: Amounts): Option<Num> { a.tripleOvertimePay }
  function CurrentSalary(a: Amounts): Option<Num> { a.currentSalary }
  function FirstPayable(a: Amounts): Option<Num> { a.firstPayable }
  function SecondPayable(a: Amounts): Option<Num> { a.secondPayable }
  function TwoPayable(a: Amounts): Option<Num> { a.twoPayableTotal }

  /** `list.reduce((acc, r) => acc + safeMoney(r.column), 0)`. */
  function ColumnSum(rows: seq<Amounts>, column: Amounts -> Option<Num>): Num
  {
    if rows == [] then Finite(0.0)
    else Add(ColumnSum(rows[..|rows| - 1], column), SafeMoney(column(rows[|rows| - 1])))
  }

  /** `computeSummaryTotals`: the head count and each column's sum rounded to the cent. */
  function SummaryTotals(rows: seq<Amounts>): (t: Totals)
    ensures t.employeeCount == |rows|
  {
    Totals(|rows|,
      Round2(ColumnSum(rows, OvertimePay)), Round2(ColumnSum(rows, DoubleOvertimePay)),
      Round2(ColumnSum(rows, TripleOvertimePay)), Round2(ColumnSum(rows, CurrentSalary)),
      Round2(ColumnSum(rows, FirstPayable)), Round2(ColumnSum(rows, SecondPayable)),
      Round2(ColumnSum(rows, TwoPayable)))
  }

  /** The exact sum of a column, no amount counting as 0. */
  function RealColumn(rows: seq<Amounts>, column: Amounts -> Option<Num>): real
  {
    if rows == [] then 0.0
    else RealColumn(rows[..|rows| - 1], column) + RealOr0(column(rows[|rows| - 1]))
  }

  predicate FiniteColumn(rows: seq<Amounts>, column: Amounts -> Option<Num>)
  {
    forall i :: 0 <= i < |rows| ==> FiniteOrNone(column(rows[i]))
  }

  /** A column of finite amounts sums to its exact sum, so its total is that sum to the
      nearest cent. */
  lemma {:induction false} ColumnSumIsExact(rows: seq<Amounts>, column: Amounts -> Option<Num>)
    requires FiniteColumn(rows, column)
    ensures ColumnSum(rows, column) == Finite(RealColumn(rows, column))
  {
    if rows != [] {
      var init := rows[..|rows| - 1];
      assert FiniteColumn(init, column) by {
        forall i | 0 <= i < |init| ensures FiniteOrNone(column(init[i])) {
          assert init[i] == rows[i];
        }
      }
      ColumnSumIsExact(init, column);
      assert FiniteOrNone(column(rows[|rows| - 1]));
    }
  }

  lemma {:induction false} TwoPayableColumnAdds(rows: seq<Amounts>)
    requires forall i :: 0 <= i < |rows| ==> PayablesAdd(rows[i])
    ensures RealColumn(rows, TwoPayable) == RealColumn(rows, FirstPayable) + RealColumn(rows, SecondPayable)
    ensures FiniteColumn(rows, FirstPayable) && FiniteColumn(rows, SecondPayable)
    ensures FiniteColumn(rows, TwoPayable)
  {
    if rows != [] {
      var init := rows[..|rows| - 1];
      assert forall i :: 0 <= i < |init| ==> init[i] == rows[i];
      TwoPayableColumnAdds(init);
      assert PayablesAdd(rows[|rows| - 1]);
    }
  }

  /** Step 2's rows in normal form. */
  function NormalizeAll(rows: seq<DraftRow>): (r: seq<Amounts>)
    ensures |r| == |rows|
    ensures forall i :: 0 <= i < |r| ==> PayablesStored(r[i])
    ensures forall i :: 0 <= i < |rows| ==> r[i] == Normalize(rows[i])
  {
    seq(|rows|, i requires 0 <= i < |rows| => Normalize(rows[i]))
  }

  /** The month's totals over stored rows (step 2 stores `NormalizeAll(rows)`, whose rows
      all satisfy `PayablesStored`): the head count is the number of rows, the first and
      second payable totals are their columns' sums to the cent, and the two-payable total
      is the sum of those two columns to the cent. */
  lemma StoredTotals(ns: seq<Amounts>)
    requires forall i :: 0 <= i < |ns| ==> PayablesStored(ns[i]) && FiniteInputs(ns[i])
    ensures var t := SummaryTotals(ns);
      && t.employeeCount == |ns|
      && t.firstPayableTotal == Round2(Finite(RealColumn(ns, FirstPayable)))
      && t.secondPayableTotal == Round2(Finite(RealColumn(ns, SecondPayable)))
      && t.twoPayableTotal
        == Round2(Finite(RealColumn(ns, FirstPayable) + RealColumn(ns, SecondPayable)))
  {
    forall i | 0 <= i < |ns| ensures PayablesAdd(ns[i]) {
      StoredPayablesAdd(ns[i]);
    }
    PayableColumns(ns);
  }

  lemma PayableColumns(ns: seq<Amounts>)
    requires forall i :: 0 <= i < |ns| ==> PayablesAdd(ns[i])
    ensures ColumnSum(ns, FirstPayable) == Finite(RealColumn(ns, FirstPayable))
    ensures ColumnSum(ns, SecondPayable) == Finite(RealColumn(ns, SecondPayable))
    ensures ColumnSum(ns, TwoPayable) == Finite(RealColumn(ns, FirstPayable) + RealColumn(ns, SecondPayable))
  {
    TwoPayableColumnAdds(ns);
    ColumnSumIsExact(ns, FirstPayable);
    ColumnSumIsExact(ns, SecondPayable);
    ColumnSumIsExact(ns, TwoPayable);
  }

  // ---------------------------------------------------------------- month

  /** `isValidMonth`: four digits, a hyphen, two digits, and nothing else. The month number
      itself is not range-checked. */
  predicate IsValidMonth(month: string)
  {
    IsMonthText(month)
  }

  lemma {:induction false} NatToStringWidth(n: nat, k: nat)
    requires k >= 1 && n < Pow10(k)
    ensures |NatToString(n)| <= k
    decreases n
  {
    if n >= 10 {
      assert Pow10(1) == 10;
      assert k >= 2;
      assert n / 10 < Pow10(k - 1);
      NatToStringWidth(n / 10, k - 1);
    }
  }

  /** A number below 10^k, zero-padded to k places, is k digits. */
  lemma PaddedDigits(n: nat, k: nat)
    requires k >= 1 && n < Pow10(k)
    ensures |PadLeft(NatToString(n), k, '0')| == k && AllDigits(PadLeft(NatToString(n), k, '0'))
  {
    NatToStringWidth(n, k);
    var t := NatToString(n);
    if |t| < k {
      var z := Repeat('0', k - |t|);
      assert AllDigits(z);
      assert AllDigits(t);
      DigitsConcat(z, t);
    }
  }

  /** Four digits, a hyphen and two digits make a month text. */
  lemma MonthTextOf(y: string, m: string)
    requires |y| == 4 && AllDigits(y) && |m| == 2 && AllDigits(m)
    ensures IsMonthText(y + "-" + m)
  {
    var t := y + "-" + m;
    assert t[0] == y[0] && t[1] == y[1] && t[2] == y[2] && t[3] == y[3];
    assert t[4] == '-' && t[5] == m[0] && t[6] == m[1];
  }

  /** A year below 10000 and a month below 100, zero-padded as the front end writes them,
      make a valid month. */
  lemma PaddedMonthIsValid(year: nat, month: nat)
    requires year < 10000 && month < 100
    ensures IsValidMonth(PadLeft(NatToString(year), 4, '0') + "-" + PadLeft(NatToString(month), 2, '0'))
  {
    assert Pow10(4) == 10000 && Pow10(2) == 100 by {
      assert Pow10(1) == 10;
      assert Pow10(2) == 100;
      assert Pow10(3) == 1000;
    }
    PaddedDigits(year, 4);
    PaddedDigits(month, 2);
    MonthTextOf(PadLeft(NatToString(year), 4, '0'), PadLeft(NatToString(month), 2, '0'));
  }

  // ---------------------------------------------------------------- the tables

  /** A row of the summary table; `totals` is unset until step 2 first runs. */
  datatype Summary = Summary(
    id: int, month: string, step: int, status: string, employeeCount: nat, totals: Option<Totals>)

  /** A row of the detail table; `amounts` is unset for the blank rows step 1 writes. */
  datatype Detail = Detail(summaryId: int, employeeId: int, amounts: Option<Amounts>)

  datatype Employee = Employee(id: int, inService: bool)

  datatype Db = Db(summaries: seq<Summary>, details: seq<Detail>, employees: seq<Employee>)

  predicate IdsUnique(ss: seq<Summary>)
  {
    forall i, j :: 0 <= i < |ss| && 0 <= j < |ss| && ss[i].id == ss[j].id ==> i == j
  }

  /** The states the routes leave a summary in: step 1 to 3, and a status that matches it. */
  predicate ValidSummary(s: Summary)
  {
    1 <= s.step <= 3
    && (s.status == Draft
        || (s.status == Step2Saved && s.step == 2)
        || (s.status == Step3Saved && s.step == 3)
        || (s.status == Completed && s.step == 3))
  }

  predicate Valid(db: Db)
  {
    IdsUnique(db.summaries) && forall s :: s in db.summaries ==> ValidSummary(s)
  }

  /** `SELECT TOP 1 ... WHERE 月份 = @month`, taken as the first such row. */
  function FirstWithMonth(ss: seq<Summary>, month: string): (k: Option<nat>)
    ensures k.Some? ==> k.value < |ss| && ss[k.value].month == month
    ensures k.None? <==> forall s :: s in ss ==> s.month != month
  {
    if ss == [] then None
    else if ss[0].month == month then Some(0)
    else
      var k := FirstWithMonth(ss[1..], month);
      if k.Some? then Some(k.value + 1) else None
  }

  /** `SELECT TOP 1 ... WHERE ID = @id`. */
  function FirstWithId(ss: seq<Summary>, id: int): (k: Option<nat>)
    ensures k.Some? ==> k.value < |ss| && ss[k.value].id == id
    ensures k.None? <==> forall s :: s in ss ==> s.id != id
  {
    if ss == [] then None
    else if ss[0].id == id then Some(0)
    else
      var k := FirstWithId(ss[1..], id);
      if k.Some? then Some(k.value + 1) else None
  }

  /** The identity the table gives a new summary: above every existing one. */
  function NextId(ss: seq<Summary>): (id: int)
    ensures id >= 1 && forall s :: s in ss ==> s.id < id
  {
    if ss == [] then 1
    else
      var rest := NextId(ss[1..]);
      if ss[0].id + 1 > rest then ss[0].id + 1 else rest
  }

  /** `UPDATE ... WHERE ID = @id`. */
  function Update(ss: seq<Summary>, id: int, f: Summary -> Summary): (r: seq<Summary>)
    ensures |r| == |ss|
    ensures forall i :: 0 <= i < |ss| ==> r[i] == (if ss[i].id == id then f(ss[i]) else ss[i])
  {
    seq(|ss|, i requires 0 <= i < |ss| => if ss[i].id == id then f(ss[i]) else ss[i])
  }

  /** The details of one summary, in table order. */
  function DetailsOf(ds: seq<Detail>, id: int): (r: seq<Detail>)
    ensures forall d :: d in r <==> d in ds && d.summaryId == id
  {
    if ds == [] then []
    else (if ds[0].summaryId == id then [ds[0]] else []) + DetailsOf(ds[1..], id)
  }

  /** `DELETE FROM detail WHERE 汇总ID = @id`. */
  function Without(ds: seq<Detail>, id: int): (r: seq<Detail>)
    ensures forall d :: d in r <==> d in ds && d.summaryId != id
  {
    if ds == [] then []
    else (if ds[0].summaryId != id then [ds[0]] else []) + Without(ds[1..], id)
  }

  lemma {:induction false} DetailsOfAppend(a: seq<Detail>, b: seq<Detail>, id: int)
    ensures DetailsOf(a + b, id) == DetailsOf(a, id) + DetailsOf(b, id)
  {
    if a != [] {
      assert (a + b)[1..] == a[1..] + b;
      DetailsOfAppend(a[1..], b, id);
    } else {
      assert a + b == b;
    }
  }

  lemma {:induction false} DetailsOfWithout(ds: seq<Detail>, id: int, other: int)
    ensures DetailsOf(Without(ds, id), other) == if other == id then [] else DetailsOf(ds, other)
  {
    if ds != [] {
      DetailsOfWithout(ds[1..], id, other);
      DetailsOfAppend(if ds[0].summaryId != id then [ds[0]] else [], Without(ds[1..], id), other);
    }
  }

  /** The details of a summary are untouched when the details of another one are replaced. */
  lemma DetailsOfReplaced(ds: seq<Detail>, id: int, news: seq<Detail>, other: int)
    requires forall d :: d in news ==> d.summaryId == id
    requires other != id
    ensures DetailsOf(Without(ds, id) + news, other) == DetailsOf(ds, other)
  {
    DetailsOfAppend(Without(ds, id), news, other);
    DetailsOfWithout(ds, id, other);
    DetailsOfNone(news, other);
  }

  lemma {:induction false} DetailsOfNone(ds: seq<Detail>, id: int)
    requires forall d :: d in ds ==> d.summaryId != id
    ensures DetailsOf(ds, id) == []
  {
    if ds != [] {
      assert ds[0] in ds;
      DetailsOfNone(ds[1..], id);
    }
  }

  /** A summary's details after its own were replaced by `news`. */
  lemma DetailsOfOwn(ds: seq<Detail>, id: int, news: seq<Detail>)
    requires forall d :: d in news ==> d.summaryId == id
    ensures DetailsOf(Without(ds, id) + news, id) == news
  {
    DetailsOfAppend(Without(ds, id), news, id);
    DetailsOfWithout(ds, id, id);
    DetailsOfAll(news, id);
  }

  lemma {:induction false} DetailsOfAll(news: seq<Detail>, id: int)
    requires forall d :: d in news ==> d.summaryId == id
    ensures DetailsOf(news, id) == news
  {
    if news != [] {
      assert news[0] in news;
      DetailsOfAll(news[1..], id);
    }
  }

  // ---------------------------------------------------------------- step 1

  /** The employees step 1 lists: those named, if any are, otherwise those in service. The
      `ORDER BY 工号` is not modelled; table order is kept. */
  function Selected(emps: seq<Employee>, ids: seq<int>): (r: seq<Employee>)
    ensures forall e :: e in r <==> e in emps && (if ids != [] then e.id in ids else e.inService)
  {
    if emps == [] then []
    else
      (if (if ids != [] then emps[0].id in ids else emps[0].inService) then [emps[0]] else [])
      + Selected(emps[1..], ids)
  }

  /** The blank detail rows step 1 writes, one per employee. */
  function BlankDetails(id: int, emps: seq<Employee>): (r: seq<Detail>)
    ensures |r| == |emps|
    ensures forall i :: 0 <= i < |emps| ==> r[i] == Detail(id, emps[i].id, None)
  {
    seq(|emps|, i requires 0 <= i < |emps| => Detail(id, emps[i].id, None))
  }

  /** The reply of step 1: the summary's id and the step it was at (1 for a new one). */
  datatype StepReply = StepReply(id: int, step: int)

  /** The month already has a summary and it is completed. */
  predicate MonthCompleted(ss: seq<Summary>, month: string)
  {
    var k := FirstWithMonth(ss, month);
    k.Some? && ss[k.value].id != 0 && ss[k.value].status == Completed
  }

  /** The step 1 update of an existing summary: back to at least step 1, and to draft. */
  function Reopen(s: Summary): Summary
  {
    s.(step := if s.step < 1 then 1 else s.step,
       status := if s.status == Completed then s.status else Draft)
  }

  /** The summary part of step 1 for a month that is not completed: a new summary at step 1
      in draft, or the existing one reopened. Gives the table, the summary's id and the step
      the reply reports (the existing step, or 1 when there is none or it is 0). */
  function OpenMonth(ss: seq<Summary>, month: string): (r: (seq<Summary>, int, int))
  {
    var k := FirstWithMonth(ss, month);
    var existing := k.Some? && ss[k.value].id != 0;
    var step := if k.Some? && ss[k.value].step != 0 then ss[k.value].step else 1;
    if existing then (Update(ss, ss[k.value].id, Reopen), ss[k.value].id, step)
    else (ss + [Summary(NextId(ss), month, 1, Draft, 0, None)], NextId(ss), step)
  }

  /** Opening a month gives it a summary in draft at least at step 1, and keeps every other
      summary. */
  lemma OpenMonthEffect(ss: seq<Summary>, month: string)
    requires IdsUnique(ss) && !MonthCompleted(ss, month)
    ensures var (after, id, _) := OpenMonth(ss, month);
      && (exists i :: 0 <= i < |after| && after[i].id == id && after[i].month == month)
      && (forall i :: 0 <= i < |after| && after[i].id == id ==>
            after[i].status == Draft && after[i].step >= 1)
      && |ss| <= |after|
      && (forall i :: 0 <= i < |ss| && ss[i].id != id ==> after[i] == ss[i])
      && (forall i :: 0 <= i < |ss| && ss[i].status == Completed ==> ss[i].id != id)
      && IdsUnique(after)
      && ((forall i :: 0 <= i < |ss| ==> ValidSummary(ss[i])) ==>
            forall i :: 0 <= i < |after| ==> ValidSummary(after[i]))
  {
    var (after, id, _) := OpenMonth(ss, month);
    var k := FirstWithMonth(ss, month);
    if k.Some? && ss[k.value].id != 0 {
      assert after[k.value].month == month;
    } else {
      assert after[|ss|].month == month;
    }
  }

  /** `upsertDraftStep1` (and `POST /draft/step1`, which answers 400 with its message):
      refuses a malformed month, a completed month, and an empty employee list; otherwise
      opens the month's summary, replaces its details by one blank row per listed employee
      and records the head count. A refusal rolls the transaction back, so nothing changes. */
  function Step1(db: Db, month: string, employeeIds: seq<int>): (r: Result<(Db, StepReply), string>)
    ensures r.Err? <==>
      !IsValidMonth(month) || MonthCompleted(db.summaries, month)
      || Selected(db.employees, employeeIds) == []
    ensures r.Ok? ==> r.value.0.employees == db.employees
  {
    if !IsValidMonth(month) then Err("月份格式无效")
    else if MonthCompleted(db.summaries, month) then Err("该月份工资已完成，不能重复新增")
    else
      var chosen := Selected(db.employees, employeeIds);
      if chosen == [] then Err("未找到员工信息")
      else
        var (base, id, step) := OpenMonth(db.summaries, month);
        Ok((Db(SetCount(base, id, |chosen|), Without(db.details, id) + BlankDetails(id, chosen), db.employees),
            StepReply(id, step)))
  }

  /** What step 1 leaves in the summary table: the month's summary, in draft and at least at
      step 1, with the head count of the selected employees; every other summary is kept,
      and ids stay unique. */
  lemma Step1Summaries(db: Db, month: string, employeeIds: seq<int>)
    requires Valid(db)
    requires Step1(db, month, employeeIds).Ok?
    ensures var (after, reply) := Step1(db, month, employeeIds).value;
      && (exists s :: s in after.summaries && s.id == reply.id && s.month == month)
      && (forall s :: s in after.summaries && s.id == reply.id ==>
            s.status == Draft && s.step >= 1
            && s.employeeCount == |Selected(db.employees, employeeIds)|)
      && (forall s :: s in db.summaries && s.id != reply.id ==> s in after.summaries)
      && (forall s :: s in db.summaries && s.status == Completed ==> s.id != reply.id)
      && Valid(after)
  {
    var (after, reply) := Step1(db, month, employeeIds).value;
    var n := |Selected(db.employees, employeeIds)|;
    var (base, id, step) := OpenMonth(db.summaries, month);
    OpenMonthEffect(db.summaries, month);
    assert after.summaries == SetCount(base, id, n);
    SetCountEffect(db.summaries, base, id, n, month);
  }

  /** `UPDATE ... SET 人数 = @employeeCount WHERE ID = @id`. */
  function SetCount(ss: seq<Summary>, id: int, n: nat): (r: seq<Summary>)
    ensures |r| == |ss|
    ensures forall i :: 0 <= i < |ss| ==>
      r[i] == if ss[i].id == id then ss[i].(employeeCount := n) else ss[i]
  {
    Update(ss, id, (s: Summary) => s.(employeeCount := n))
  }

  lemma SetCountEffect(ss: seq<Summary>, base: seq<Summary>, id: int, n: nat, month: string)
    requires exists i :: 0 <= i < |base| && base[i].id == id && base[i].month == month
    requires forall i :: 0 <= i < |base| && base[i].id == id ==> base[i].status == Draft && base[i].step >= 1
    requires |ss| <= |base| && forall i :: 0 <= i < |ss| && ss[i].id != id ==> base[i] == ss[i]
    requires forall i :: 0 <= i < |ss| && ss[i].status == Completed ==> ss[i].id != id
    requires IdsUnique(base) && forall i :: 0 <= i < |base| ==> ValidSummary(base[i])
    ensures var after := SetCount(base, id, n);
      && (exists s :: s in after && s.id == id && s.month == month)
      && (forall s :: s in after && s.id == id ==> s.status == Draft && s.step >= 1 && s.employeeCount == n)
      && (forall s :: s in ss && s.id != id ==> s in after)
      && (forall s :: s in ss && s.status == Completed ==> s.id != id)
      && IdsUnique(after) && forall s :: s in after ==> ValidSummary(s)
  {
    var after := SetCount(base, id, n);
    var i :| 0 <= i < |base| && base[i].id == id && base[i].month == month;
    assert after[i] in after;
    forall s | s in ss && s.id != id ensures s in after {
      var j :| 0 <= j < |ss| && ss[j] == s;
      assert after[j] == s;
    }
    forall s | s in ss && s.status == Completed ensures s.id != id {
      var j :| 0 <= j < |ss| && ss[j] == s;
    }
    forall s | s in after ensures ValidSummary(s) {
      var j :| 0 <= j < |after| && after[j] == s;
      assert ValidSummary(base[j]);
    }
  }

  /** What step 1 leaves in the detail table: the month's details are exactly one blank row
      per selected employee; every other summary's details are unchanged. */
  lemma Step1Details(db: Db, month: string, employeeIds: seq<int>)
    requires Step1(db, month, employeeIds).Ok?
    ensures var (after, reply) := Step1(db, month, employeeIds).value;
      && DetailsOf(after.details, reply.id) == BlankDetails(reply.id, Selected(db.employees, employeeIds))
      && (forall other :: other != reply.id ==>
            DetailsOf(after.details, other) == DetailsOf(db.details, other))
  {
    var (after, reply) := Step1(db, month, employeeIds).value;
    var news := BlankDetails(reply.id, Selected(db.employees, employeeIds));
    assert after.details == Without(db.details, reply.id) + news;
    DetailsOfOwn(db.details, reply.id, news);
    forall other | other != reply.id
      ensures DetailsOf(after.details, other) == DetailsOf(db.details, other)
    {
      DetailsOfReplaced(db.details, reply.id, news, other);
    }
  }

  // ---------------------------------------------------------------- step 2, 3, complete

  /** `PUT /draft/:id/step2`: 400 for no rows, 404 for an unknown summary, 400 for a
      completed one; otherwise the summary's details are replaced by the rows in normal form,
      its totals recomputed, and it moves to step 2 with status 步骤2已保存. */
  function Step2(db: Db, id: int, rows: seq<DraftRow>): (r: (int, Db))
    ensures r.0 == 200 || r.1 == db
  {
    if rows == [] then (400, db)
    else
      var k := FirstWithId(db.summaries, id);
      if k.None? then (404, db)
      else if db.summaries[k.value].status == Completed then (400, db)
      else
        var ns := NormalizeAll(rows);
        var news := seq(|rows|, i requires 0 <= i < |rows| => Detail(id, rows[i].employeeId, Some(ns[i])));
        var t := SummaryTotals(ns);
        (200, db.(
          summaries := Update(db.summaries, id,
            (s: Summary) => s.(employeeCount := t.employeeCount, totals := Some(t), step := 2, status := Step2Saved)),
          details := Without(db.details, id) + news))
  }

  /** Step 2 saves exactly when there are rows and the summary exists and is not completed;
      then the summary's details are the rows in normal form, in order, and its totals are
      theirs. */
  lemma Step2Effect(db: Db, id: int, rows: seq<DraftRow>)
    ensures var (code, after) := Step2(db, id, rows);
      var k := FirstWithId(db.summaries, id);
      && (code == 200 <==> rows != [] && k.Some? && db.summaries[k.value].status != Completed)
      && (code == 404 <==> rows != [] && k.None?)
      && (code == 200 ==>
            && |DetailsOf(after.details, id)| == |rows|
            && (forall i :: 0 <= i < |rows| ==>
                  DetailsOf(after.details, id)[i] == Detail(id, rows[i].employeeId, Some(Normalize(rows[i]))))
            && (forall s :: s in after.summaries && s.id == id ==>
                  s.step == 2 && s.status == Step2Saved
                  && s.totals == Some(SummaryTotals(NormalizeAll(rows))) && s.employeeCount == |rows|)
            && (forall other :: other != id ==>
                  DetailsOf(after.details, other) == DetailsOf(db.details, other)))
  {
    var (code, after) := Step2(db, id, rows);
    if code == 200 {
      var ns := NormalizeAll(rows);
      var news := seq(|rows|, i requires 0 <= i < |rows| => Detail(id, rows[i].employeeId, Some(ns[i])));
      assert after.details == Without(db.details, id) + news;
      DetailsOfOwn(db.details, id, news);
      forall other | other != id
        ensures DetailsOf(after.details, other) == DetailsOf(db.details, other)
      {
        DetailsOfReplaced(db.details, id, news, other);
      }
    }
  }

  /** `PUT /draft/:id/step3`: a summary that is not completed moves to step 3 with status
      步骤3已保存; the answer is 200 either way. */
  function Step3(db: Db, id: int): (after: Db)
    ensures after.details == db.details && after.employees == db.employees
    ensures |after.summaries| == |db.summaries|
    ensures forall i :: 0 <= i < |db.summaries| ==>
      after.summaries[i] ==
        if db.summaries[i].id == id && db.summaries[i].status != Completed
        then db.summaries[i].(step := 3, status := Step3Saved)
        else db.summaries[i]
  {
    db.(summaries := Update(db.summaries, id,
      (s: Summary) => if s.status == Completed then s else s.(step := 3, status := Step3Saved)))
  }

  /** `PUT /complete/:id`: 404 for an unknown summary; a completed one is left as it is;
      otherwise the summary becomes completed at step 3. */
  function Complete(db: Db, id: int): (r: (int, Db))
    ensures r.0 == 404 <==> FirstWithId(db.summaries, id).None?
    ensures r.0 == 404 ==> r.1 == db
    ensures |r.1.summaries| == |db.summaries|
    ensures r.0 == 200 ==> r.1.summaries[FirstWithId(db.summaries, id).value].status == Completed
    ensures r.1.details == db.details && r.1.employees == db.employees
  {
    var k := FirstWithId(db.summaries, id);
    if k.None? then (404, db)
    else if db.summaries[k.value].status == Completed then (200, db)
    else (200, db.(summaries := Update(db.summaries, id, (s: Summary) => s.(step := 3, status := Completed))))
  }

  /** Completing twice is completing once. */
  lemma CompleteIdempotent(db: Db, id: int)
    requires IdsUnique(db.summaries)
    ensures Complete(Complete(db, id).1, id) == Complete(db, id)
  {
    var (code, after) := Complete(db, id);
    if code == 200 {
      var k := FirstWithId(db.summaries, id).value;
      var k2 := FirstWithId(after.summaries, id);
      assert after.summaries[k].id == id;
      assert k2.Some?;
      assert after.summaries[k2.value] in after.summaries;
    }
  }

  /** `DELETE /:id`: the summary goes, and its details with it through the table's cascade. */
  function Delete(db: Db, id: int): (after: Db)
    ensures forall s :: s in after.summaries <==> s in db.summaries && s.id != id
    ensures DetailsOf(after.details, id) == []
    ensures after.employees == db.employees
  {
    var kept := Without(db.details, id);
    DetailsOfWithout(db.details, id, id);
    db.(summaries := KeepOthers(db.summaries, id), details := kept)
  }

  function KeepOthers(ss: seq<Summary>, id: int): (r: seq<Summary>)
    ensures forall s :: s in r <==> s in ss && s.id != id
    ensures IdsUnique(ss) ==> IdsUnique(r)
  {
    if ss == [] then []
    else if ss[0].id != id then [ss[0]] + KeepOthers(ss[1..], id)
    else KeepOthers(ss[1..], id)
  }

  // ---------------------------------------------------------------- the life of a summary

  /** Every completed summary is still there, unchanged, with its details unchanged. */
  predicate CompletedKept(db: Db, after: Db)
  {
    forall s :: s in db.summaries && s.status == Completed ==>
      s in after.summaries && DetailsOf(after.details, s.id) == DetailsOf(db.details, s.id)
  }

  lemma Step1KeepsCompleted(db: Db, month: string, employeeIds: seq<int>)
    requires Valid(db)
    ensures var r := Step1(db, month, employeeIds);
      r.Ok? ==> Valid(r.value.0) && CompletedKept(db, r.value.0)
  {
    if Step1(db, month, employeeIds).Ok? {
      Step1Summaries(db, month, employeeIds);
      Step1Details(db, month, employeeIds);
    }
  }

  lemma Step2KeepsCompleted(db: Db, id: int, rows: seq<DraftRow>)
    requires Valid(db)
    ensures Valid(Step2(db, id, rows).1) && CompletedKept(db, Step2(db, id, rows).1)
  {
    var (code, after) := Step2(db, id, rows);
    if code == 200 {
      Step2Effect(db, id, rows);
      var k := FirstWithId(db.summaries, id).value;
      forall s | s in db.summaries && s.status == Completed
        ensures s.id != id && s in after.summaries
      {
        var j :| 0 <= j < |db.summaries| && db.summaries[j] == s;
        assert j != k;
        assert after.summaries[j] == s;
      }
      forall s | s in after.summaries ensures ValidSummary(s) {
        var j :| 0 <= j < |after.summaries| && after.summaries[j] == s;
        assert ValidSummary(db.summaries[j]);
      }
      assert IdsUnique(after.summaries) by {
        assert forall j :: 0 <= j < |after.summaries| ==> after.summaries[j].id == db.summaries[j].id;
      }
    }
  }

  lemma Step3KeepsCompleted(db: Db, id: int)
    requires Valid(db)
    ensures Valid(Step3(db, id)) && CompletedKept(db, Step3(db, id))
  {
    var after := Step3(db, id);
    forall s | s in db.summaries && s.status == Completed ensures s in after.summaries {
      var j :| 0 <= j < |db.summaries| && db.summaries[j] == s;
      assert after.summaries[j] == s;
    }
    forall s | s in after.summaries ensures ValidSummary(s) {
      var j :| 0 <= j < |after.summaries| && after.summaries[j] == s;
      assert ValidSummary(db.summaries[j]);
    }
    assert IdsUnique(after.summaries) by {
      assert forall j :: 0 <= j < |after.summaries| ==> after.summaries[j].id == db.summaries[j].id;
    }
  }

  lemma CompleteKeepsCompleted(db: Db, id: int)
    requires Valid(db)
    ensures Valid(Complete(db, id).1) && CompletedKept(db, Complete(db, id).1)
  {
    var (code, after) := Complete(db, id);
    if after != db {
      forall s | s in db.summaries && s.status == Completed ensures s in after.summaries {
        var j :| 0 <= j < |db.summaries| && db.summaries[j] == s;
        assert after.summaries[j] == s;
      }
      forall s | s in after.summaries ensures ValidSummary(s) {
        var j :| 0 <= j < |after.summaries| && after.summaries[j] == s;
        assert ValidSummary(db.summaries[j]);
      }
      assert IdsUnique(after.summaries) by {
        assert forall j :: 0 <= j < |after.summaries| ==> after.summaries[j].id == db.summaries[j].id;
      }
    }
  }

  /** Deleting keeps the invariant, and every completed summary except the deleted one. */
  lemma DeleteKeepsOthers(db: Db, id: int)
    requires Valid(db)
    ensures Valid(Delete(db, id))
    ensures forall s :: s in db.summaries && s.status == Completed && s.id != id ==>
      s in Delete(db, id).summaries
      && DetailsOf(Delete(db, id).details, s.id) == DetailsOf(db.details, s.id)
  {
    forall other | other != id
      ensures DetailsOf(Delete(db, id).details, other) == DetailsOf(db.details, other)
    {
      DetailsOfWithout(db.details, id, other);
    }
  }

  // ---------------------------------------------------------------- tax declaration export

  /** One row of the export request: the two name fields and the id card as given (null or
      absent is `None`), and the amounts. */
  datatype TaxRow = TaxRow(
    employeeName: Option<string>, name: Option<string>, idCard: Option<string>,
    firstPay: Value, pensionInsuranceFee: Value, medicalInsuranceFee: Value,
    unemploymentInsuranceFee: Value)

  /** A written line of the sheet: its row number and columns B, C, D, E, G, H and I. */
  datatype TaxLine = TaxLine(
    row: nat, name: string, idType: string, idCard: string,
    pay: Num, pension: Num, medical: Num, unemployment: Num)

  const IdType: string := "居民身份证"

  /** `String(item?.employeeName ?? item?.name ?? '').trim()`. */
  function NameOf(t: TaxRow): string
  {
    Trim(if t.employeeName.Some? then t.employeeName.value else if t.name.Some? then t.name.value else "")
  }

  /** `Number(batch || 1) === 2`. */
  function IsSecondBatch(batch: Value): (r: bool)
    ensures !Truthy(batch) ==> !r
    ensures batch == Number(Finite(2.0)) ==> r
    ensures r ==> ToNumber(batch) == Finite(2.0)
  {
    (if Truthy(batch) then ToNumber(batch) else Finite(1.0)) == Finite(2.0)
  }

  /** All three insurance fees read as 0. */
  predicate NoFees(t: TaxRow)
  {
    ToNumberOrZero(t.pensionInsuranceFee) == Finite(0.0)
    && ToNumberOrZero(t.medicalInsuranceFee) == Finite(0.0)
    && ToNumberOrZero(t.unemploymentInsuranceFee) == Finite(0.0)
  }

  /** A row is written when it has a name and, in the first batch, some fee. */
  predicate Written(t: TaxRow, second: bool)
  {
    NameOf(t) != [] && (second || !NoFees(t))
  }

  /** The line a written row becomes: in the second batch the three fees are written as 0. */
  function LineOf(t: TaxRow, second: bool, row: nat): TaxLine
  {
    TaxLine(row, NameOf(t), IdType, Trim(if t.idCard.Some? then t.idCard.value else ""),
      ToNumberOrZero(t.firstPay),
      if second then Finite(0.0) else ToNumberOrZero(t.pensionInsuranceFee),
      if second then Finite(0.0) else ToNumberOrZero(t.medicalInsuranceFee),
      if second then Finite(0.0) else ToNumberOrZero(t.unemploymentInsuranceFee))
  }

  /** The rows that are written, in order. */
  function WrittenRows(rows: seq<TaxRow>, second: bool): (r: seq<TaxRow>)
    ensures |r| <= |rows|
  {
    if rows == [] then []
    else
      WrittenRows(rows[..|rows| - 1], second)
      + (if Written(rows[|rows| - 1], second) then [rows[|rows| - 1]] else [])
  }

  /** The sheet's lines: the k-th written row on sheet row k + 2, under the header row. */
  function SheetLines(ws: seq<TaxRow>, second: bool): (r: seq<TaxLine>)
    ensures |r| == |ws|
    ensures forall k :: 0 <= k < |ws| ==> r[k] == LineOf(ws[k], second, k + 2)
  {
    seq(|ws|, k requires 0 <= k < |ws| => LineOf(ws[k], second, k + 2))
  }

  /** Exactly the rows that pass the filter are written. */
  lemma {:induction false} WrittenRowsMembers(rows: seq<TaxRow>, second: bool)
    ensures forall t :: t in WrittenRows(rows, second) <==> t in rows && Written(t, second)
  {
    if rows != [] {
      var init := rows[..|rows| - 1];
      WrittenRowsMembers(init, second);
      assert rows == init + [rows[|rows| - 1]];
    }
  }

  lemma WrittenRowsStep(rows: seq<TaxRow>, i: nat, second: bool)
    requires i < |rows|
    ensures WrittenRows(rows[..i + 1], second)
      == WrittenRows(rows[..i], second) + (if Written(rows[i], second) then [rows[i]] else [])
  {
    assert rows[..i + 1][..i] == rows[..i];
  }

  lemma SheetLinesAppend(ws: seq<TaxRow>, t: TaxRow, second: bool)
    ensures SheetLines(ws + [t], second) == SheetLines(ws, second) + [LineOf(t, second, |ws| + 2)]
  {
  }

  /** One pass of the export loop: a written row adds its line on the next sheet row, any
      other row adds nothing. */
  lemma ExportStep(rows: seq<TaxRow>, i: nat, second: bool, lines: seq<TaxLine>)
    requires i < |rows| && lines == SheetLines(WrittenRows(rows[..i], second), second)
    ensures Written(rows[i], second) ==>
      lines + [LineOf(rows[i], second, |lines| + 2)] == SheetLines(WrittenRows(rows[..i + 1], second), second)
    ensures !Written(rows[i], second) ==> lines == SheetLines(WrittenRows(rows[..i + 1], second), second)
  {
    WrittenRowsStep(rows, i, second);
    SheetLinesAppend(WrittenRows(rows[..i], second), rows[i], second);
  }

  /** The lines of the written rows: each has a name and the identity document type; in
      the second batch the fees are 0, and in the first they are never all 0. */
  lemma SheetLinesMeaning(rows: seq<TaxRow>, second: bool)
    ensures var lines := SheetLines(WrittenRows(rows, second), second);
      forall k :: 0 <= k < |lines| ==>
        && lines[k].row == k + 2 && lines[k].name != [] && lines[k].idType == IdType
        && (second ==> lines[k].pension == Finite(0.0) && lines[k].medical == Finite(0.0)
                       && lines[k].unemployment == Finite(0.0))
        && (!second ==> !(lines[k].pension == Finite(0.0) && lines[k].medical == Finite(0.0)
                          && lines[k].unemployment == Finite(0.0)))
  {
    var ws := WrittenRows(rows, second);
    WrittenRowsMembers(rows, second);
    forall k | 0 <= k < |ws| ensures Written(ws[k], second) {
      assert ws[k] in ws;
    }
  }

  /** One pass of the export loop: a row without a name is skipped, and so is a row of
      the first batch without any fee; otherwise the row's line is built for `rowIndex`. */
  method ExportRow(item: TaxRow, second: bool, rowIndex: nat) returns (written: bool, line: TaxLine)
    ensures written == Written(item, second)
    ensures written ==> line == LineOf(item, second, rowIndex)
  {
    line := TaxLine(rowIndex, [], IdType, [], Finite(0.0), Finite(0.0), Finite(0.0), Finite(0.0));
    var employeeName := NameOf(item);
    if employeeName == [] {
      return false, line;
    }
    var pension := ToNumberOrZero(item.pensionInsuranceFee);
    var medical := ToNumberOrZero(item.medicalInsuranceFee);
    var unemployment := ToNumberOrZero(item.unemploymentInsuranceFee);
    if !second && pension == Finite(0.0) && medical == Finite(0.0) && unemployment == Finite(0.0) {
      return false, line;
    }
    var idCard := Trim(if item.idCard.Some? then item.idCard.value else "");
    line := TaxLine(rowIndex, employeeName, IdType, idCard, ToNumberOrZero(item.firstPay),
      if second then Finite(0.0) else pension,
      if second then Finite(0.0) else medical,
      if second then Finite(0.0) else unemployment);
    written := true;
  }

  /** `POST /tax-import/export`: 400 without rows; otherwise one line per row with a name,
      on consecutive rows from row 2, skipping in the first batch the rows without any fee
      and writing the fees as 0 in the second batch (`SheetLinesMeaning`). */
  method ExportTaxSheet(rows: seq<TaxRow>, batch: Value) returns (status: int, lines: seq<TaxLine>)
    ensures status == (if rows == [] then 400 else 200)
    ensures status == 400 ==> lines == []
    ensures status == 200 ==>
      lines == SheetLines(WrittenRows(rows, IsSecondBatch(batch)), IsSecondBatch(batch))
  {
    if rows == [] {
      return 400, [];
    }
    var second := IsSecondBatch(batch);
    lines := [];
    var rowIndex := 2;
    var i := 0;
    while i < |rows|
      invariant 0 <= i <= |rows|
      invariant rowIndex == |lines| + 2
      invariant lines == SheetLines(WrittenRows(rows[..i], second), second)
    {
      var item := rows[i];
      ExportStep(rows, i, second, lines);
      var written, line := ExportRow(item, second, rowIndex);
      if !written {
        i := i + 1;
        continue;
      }
      lines := lines + [line];
      rowIndex := rowIndex + 1;
      i := i + 1;
    }
    assert rows[..|rows|] == rows;
    status := 200;
  }

  /** The name of the downloaded file: the batch, then 个税导入, then the trimmed month or
      模板 when there is none. */
  function TaxFileName(month: string, second: bool): (r: string)
    ensures EndsWith(r, ".xlsx")
    ensures StartsWith(r, if second then "第二批工资" else "第一批工资")
    ensures Trim(month) == [] ==> r == (if second then "第二批工资" else "第一批工资") + "_个税导入_模板.xlsx"
  {
    var prefix := if second then "第二批工资" else "第一批工资";
    var rest := "_个税导入_" + (if Trim(month) == [] then "模板" else Trim(month)) + ".xlsx";
    assert (prefix + rest)[..|prefix|] == prefix;
    prefix + rest
  }

  // ---------------------------------------------------------------- tax declaration import

  /** One row of the returned sheet as the reader sees it: the text of columns B (name) and
      D (id card), and the value of column AO (tax), an absent cell being the empty string. */
  datatype SheetRow = SheetRow(name: string, idCard: string, tax: Value)

  datatype TaxItem = TaxItem(employeeName: string, idCard: string, incomeTax: Option<Num>)

  /** The uploaded file: its original name and its worksheet names. */
  datatype Upload = Upload(originalName: string, sheetNames: seq<string>)

  const TaxSheetName: string := "个人所得税扣缴申报表"

  /** The first data row of the returned sheet is row 9, index 8. */
  const FirstDataRow: nat := 8

  /** The text `parseMoney` hands to `Number`: trimmed, with its commas removed. */
  function MoneyText(s: string): string
  {
    ReplaceAll(Trim(s), ",", "")
  }

  /** `parseMoney` of the read route: a number must be finite; text is trimmed and read
      with its commas removed; a boolean reads as the text `true`/`false`, which is no
      number. */
  function ParseMoney(x: Value): (r: Option<Num>)
    ensures r.Some? ==> !r.value.NaN?
    ensures x.Number? ==> (r.Some? <==> x.n.Finite?)
  {
    match x
    case Null => None
    case Undefined => None
    case Bool(_) => None
    case Number(n) => if n.Finite? then Some(n) else None
    case Str(s) =>
      if Trim(s) == [] then None
      else
        var n := StringToNumber(MoneyText(s));
        if n.NaN? then None else Some(n)
  }

  lemma {:induction false} CommaFreeUnchanged(s: string)
    requires ',' !in s
    ensures ReplaceAll(s, ",", "") == s
  {
    if |s| >= 1 {
      assert s[0] in s;
      assert s[..1] != ",";
      CommaFreeUnchanged(s[1..]);
      assert s == [s[0]] + s[1..];
    }
  }

  lemma {:induction false} CommaFreePrefix(a: string, rest: string)
    requires ',' !in a
    ensures ReplaceAll(a + rest, ",", "") == a + ReplaceAll(rest, ",", "")
  {
    if a != [] {
      assert (a + rest)[..1] == [a[0]];
      assert (a + rest)[1..] == a[1..] + rest;
      CommaFreePrefix(a[1..], rest);
      assert a == [a[0]] + a[1..];
    } else {
      assert a + rest == rest;
    }
  }

  /** A thousands separator is ignored: `12,345` reads as `12345`. */
  lemma CommaIgnored(a: string, b: string)
    requires a != [] && b != [] && AllDigits(a) && AllDigits(b)
    ensures ParseMoney(Str(a + "," + b)) == ParseMoney(Str(a + b))
  {
    CommaIgnoredText(a, b);
  }

  lemma CommaIgnoredText(a: string, b: string)
    requires a != [] && b != [] && AllDigits(a) && AllDigits(b)
    ensures Trim(a + "," + b) != [] && Trim(a + b) != []
    ensures MoneyText(a + "," + b) == MoneyText(a + b)
  {
    var s := a + "," + b;
    assert s[0] == a[0] && s[|s| - 1] == b[|b| - 1];
    TrimOfTrimmed(s);
    assert (a + b)[0] == a[0] && (a + b)[|a + b| - 1] == b[|b| - 1];
    TrimOfTrimmed(a + b);
    assert s == a + ("," + b);
    CommaFreePrefix(a, "," + b);
    assert ("," + b)[..1] == "," && ("," + b)[1..] == b;
    assert ReplaceAll("," + b, ",", "") == ReplaceAll(b, ",", "");
    assert ',' !in b;
    CommaFreeUnchanged(b);
    assert ',' !in a + b;
    CommaFreeUnchanged(a + b);
  }

  /** A plain decimal integer reads as its value. */
  lemma DigitsParse(s: string)
    requires s != [] && AllDigits(s) && DigitsValue(s) < OverflowBound
    ensures ParseMoney(Str(s)) == Some(Finite(DigitsValue(s) as real))
  {
    TrimOfUnspaced(s);
    CommaFreeUnchanged(s);
    DigitsToNumber(s);
  }

  /** A row is read when both its name and its id card are present. */
  predicate Read(row: SheetRow)
  {
    Trim(row.name) != [] && Trim(row.idCard) != []
  }

  /** The items read from consecutive sheet rows, in order. */
  function TaxItems(rows: seq<SheetRow>): (r: seq<TaxItem>)
    ensures |r| <= |rows|
    ensures forall k :: 0 <= k < |r| ==> r[k].employeeName != [] && r[k].idCard != []
  {
    if rows == [] then []
    else
      var last := rows[|rows| - 1];
      TaxItems(rows[..|rows| - 1])
      + (if Read(last) then [ItemOf(last)] else [])
  }

  /** The item a read row becomes. */
  function ItemOf(row: SheetRow): TaxItem
  {
    TaxItem(Trim(row.name), Trim(row.idCard), ParseMoney(row.tax))
  }

  /** One pass of the read loop; the source checks "both blank" before "either blank",
      which skips the same rows. */
  method ReadRow(row: SheetRow) returns (read: bool, item: TaxItem)
    ensures read == Read(row)
    ensures read ==> item == ItemOf(row)
  {
    var employeeName := Trim(row.name);
    var idCard := Trim(row.idCard);
    var incomeTax := ParseMoney(row.tax);
    item := TaxItem(employeeName, idCard, incomeTax);
    if employeeName == [] && idCard == [] {
      return false, item;
    }
    if employeeName == [] || idCard == [] {
      return false, item;
    }
    read := true;
  }

  lemma TaxItemsStep(sheet: seq<SheetRow>, start: nat, r: nat)
    requires start <= r < |sheet|
    ensures TaxItems(sheet[start..r + 1]) == TaxItems(sheet[start..r])
      + (if Read(sheet[r]) then [ItemOf(sheet[r])] else [])
  {
    assert sheet[start..r + 1][..r - start] == sheet[start..r];
  }

  /** The reader accepts an `.xls` or `.xlsx` name, in any letter case. */
  predicate AcceptedName(name: string)
  {
    EndsWith(ToLower(name), ".xls") || EndsWith(ToLower(name), ".xlsx")
  }

  predicate HasTaxSheet(u: Upload)
  {
    exists n :: n in u.sheetNames && Trim(n) == TaxSheetName
  }

  /** `POST /tax-import/read`: 400 without a file, for another extension, without the
      declaration worksheet, or when that worksheet is empty; otherwise the items of the rows
      from row 9 (or the worksheet's first row, if later) to its last that have both a name
      and an id card. `sheet` holds the worksheet's rows by index up to its last row, and
      `firstRow` is the index of its first; `sheet == []` is a worksheet without a range. */
  method ReadTaxSheet(upload: Option<Upload>, firstRow: nat, sheet: seq<SheetRow>)
    returns (status: int, items: seq<TaxItem>)
    ensures status == 400 <==>
      upload.None? || !AcceptedName(upload.value.originalName) || !HasTaxSheet(upload.value) || sheet == []
    ensures status != 400 ==> status == 200
    ensures status == 400 ==> items == []
    ensures status == 200 ==>
      var start := if firstRow > FirstDataRow then firstRow else FirstDataRow;
      items == TaxItems(if start <= |sheet| then sheet[start..] else [])
    ensures forall k :: 0 <= k < |items| ==> items[k].employeeName != [] && items[k].idCard != []
  {
    if upload.None? {
      return 400, [];
    }
    var name := ToLower(upload.value.originalName);
    if !EndsWith(name, ".xls") && !EndsWith(name, ".xlsx") {
      return 400, [];
    }
    if !HasTaxSheet(upload.value) || sheet == [] {
      return 400, [];
    }
    var start := if firstRow > FirstDataRow then firstRow else FirstDataRow;
    if start > |sheet| {
      return 200, [];
    }
    items := ReadRows(sheet, start);
    status := 200;
  }

  /** The read loop, from row `start` to the worksheet's last row. */
  method ReadRows(sheet: seq<SheetRow>, start: nat) returns (items: seq<TaxItem>)
    requires start <= |sheet|
    ensures items == TaxItems(sheet[start..])
  {
    items := [];
    var r := start;
    while r < |sheet|
      invariant start <= r <= |sheet|
      invariant items == TaxItems(sheet[start..r])
    {
      TaxItemsStep(sheet, start, r);
      var read, item := ReadRow(sheet[r]);
      if read {
        items := items + [item];
      }
      r := r + 1;
    }
    assert sheet[start..r] == sheet[start..];
  }
}
