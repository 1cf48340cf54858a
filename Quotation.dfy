/** The quotation routes of the back end: the daily `BJ-YYYYMMDD-NNN` number, the
    tax-included price, the list paging, creating and updating a quotation with their checks,
    and the Excel export that fills a template sheet. The quotation table is a sequence of
    stored quotations; the clock, the template file and the JSON columns are inputs. */
module Quotation {
  import opened Common
  import opened JsNumber
  import DocNumber

  // ---------------------------------------------------------------- the number

  /** What the latest-number query gave: the number in the first row (the query sorts the
      `BJ-` numbers descending), no row, or an error such as a missing table. */
  datatype Latest = Found(no: string) | NoRow | QueryFailed

  /** The `/generate-no` route: `today` is the UTC+8 date as eight digits. The serial starts
      at 1 and follows a well-formed latest number of the same day; a failed query is logged
      and the serial stays 1. */
  method GenerateNo(today: string, latest: Latest) returns (no: string)
    ensures no == DocNumber.NextNumber("BJ", today, if latest.Found? then Some(latest.no) else None)
    ensures !latest.Found? ==> no == DocNumber.Format("BJ", today, 1)
  {
    var prev := if latest.Found? then Some(latest.no) else None;
    var serial: nat := 1;
    if latest.Found? && latest.no != "" {
      var m := DocNumber.Parse("BJ", latest.no);
      if m.Some? {
        if m.value.0 == today {
          serial := m.value.1 + 1;
        } else {
          serial := 1;
        }
      }
    } else if latest.Found? {
      DocNumber.ParseEmpty("BJ");
    }
    assert serial == DocNumber.NextSerial("BJ", today, prev);
    no := DocNumber.Format("BJ", today, serial);
  }

  /** The generated number is `BJ-<today>-<serial>`: one past the serial of a well-formed
      latest number of the same day, and 001 after a failed query or on an empty table; a
      serial above 1 always continues a same-day number. */
  lemma GeneratedNumber(today: string, latest: Latest)
    requires |today| == 8 && AllDigits(today)
    ensures var n := DocNumber.NextSerial("BJ", today, if latest.Found? then Some(latest.no) else None);
      var no := DocNumber.NextNumber("BJ", today, if latest.Found? then Some(latest.no) else None);
      (latest.Found? && DocNumber.Parse("BJ", latest.no).Some? && DocNumber.Parse("BJ", latest.no).value.0 == today
       ==> n == DocNumber.Parse("BJ", latest.no).value.1 + 1)
      && (!latest.Found? ==> n == 1)
      && (n > 1 ==> latest.Found? && DocNumber.Parse("BJ", latest.no) == Some((today, n - 1)))
      && (n < 1000 ==> DocNumber.Parse("BJ", no) == Some((today, n)))
  {
    DocNumber.NextNumberContinues("BJ", today, if latest.Found? then Some(latest.no) else None);
  }

  // ---------------------------------------------------------------- the price

  /** A material or process line as the client sends it; `amount` is the material's
      `quantity` or the process's `hours`. */
  datatype Item = Item(name: Value, unitPrice: Value, amount: Value)

  const Zero: Value := Number(Finite(0.0))

  /** `v || fallback`. */
  function Or(v: Value, fallback: Value): Value
  {
    if Truthy(v) then v else fallback
  }

  /** `(v || 0)` as a number, the way `*` and `+` on numbers read it. */
  function Read0(v: Value): Num
  {
    ToNumber(Or(v, Zero))
  }

  /** `(item.unitPrice || 0) * (item.quantity || 0)`. */
  function LineFee(it: Item): Num
  {
    Mul(Read0(it.unitPrice), Read0(it.amount))
  }

  /** `items.reduce((sum, item) => sum + LineFee(item), 0)`. */
  function ItemsTotal(items: seq<Item>): Num
  {
    if items == [] then Finite(0.0) else Add(ItemsTotal(items[..|items| - 1]), LineFee(items[|items| - 1]))
  }

  /** The stored price: a number, or text when a fee given as text turned `+` into
      concatenation. */
  datatype Price = Amount(n: Num) | Concatenated

  /** `price + (fee || 0)`. */
  function PlusFee(p: Price, fee: Value): Price
  {
    var f := Or(fee, Zero);
    if p.Concatenated? || f.Str? then Concatenated else Amount(Add(p.n, ToNumber(f)))
  }

  /** The body of a create or update request; a list that is absent or null is `None`. */
  datatype Request = Request(
    quotationNo: Value, quotationDate: Value, customerName: Value, processingDate: Value,
    changeOrderNo: Value, partName: Value, moldNo: Value, department: Value, applicant: Value,
    materials: Option<seq<Item>>, processes: Option<seq<Item>>,
    otherFee: Value, transportFee: Value, quantity: Value)

  /** `list || []`. */
  function ItemsOf(list: Option<seq<Item>>): seq<Item>
  {
    if list.Some? then list.value else []
  }

  /** `materialsTotal + processingTotal + (otherFee || 0) + (transportFee || 0)`. */
  function TaxIncludedPrice(req: Request): Price
  {
    var m := ItemsTotal(ItemsOf(req.materials));
    var p := ItemsTotal(ItemsOf(req.processes));
    PlusFee(PlusFee(Amount(Add(m, p)), req.otherFee), req.transportFee)
  }

  /** A line whose fee is a finite number. */
  predicate FiniteLine(it: Item)
  {
    LineFee(it).Finite?
  }

  /** A line's fee is finite exactly when its unit price and amount both read as finite
      numbers, and it is then their product. */
  lemma LineFeeExact(it: Item)
    ensures FiniteLine(it) <==> Read0(it.unitPrice).Finite? && Read0(it.amount).Finite?
    ensures FiniteLine(it) ==> LineFee(it).v == Read0(it.unitPrice).v * Read0(it.amount).v
  {
  }

  /** A fee that adds as a finite number: not text, and finite once read as a number. */
  predicate NumericFee(fee: Value)
  {
    !Or(fee, Zero).Str? && Read0(fee).Finite?
  }

  /** The fees of the lines, in order. */
  function Fees(items: seq<Item>): (fees: seq<Num>)
    ensures |fees| == |items|
  {
    if items == [] then [] else Fees(items[..|items| - 1]) + [LineFee(items[|items| - 1])]
  }

  /** The fees added up from 0, left to right. */
  function Sum(fees: seq<Num>): Num
  {
    if fees == [] then Finite(0.0) else Add(Sum(fees[..|fees| - 1]), fees[|fees| - 1])
  }

  /** The sum of the finite fees in exact arithmetic. */
  function ExactSum(fees: seq<Num>): real
  {
    if fees == [] then 0.0
    else ExactSum(fees[..|fees| - 1]) + (if fees[|fees| - 1].Finite? then fees[|fees| - 1].v else 0.0)
  }

  /** Every fee is a finite number. */
  predicate AllFinite(fees: seq<Num>)
  {
    fees == [] || (AllFinite(fees[..|fees| - 1]) && fees[|fees| - 1].Finite?)
  }

  /** The sum of the line fees in exact arithmetic. */
  function ExactTotal(items: seq<Item>): real
  {
    ExactSum(Fees(items))
  }

  /** Every line's fee is a finite number. */
  predicate FiniteLines(items: seq<Item>)
  {
    AllFinite(Fees(items))
  }

  /** Over lines with finite fees, the reduce computes the exact sum of the fees. */
  lemma ItemsTotalExact(items: seq<Item>)
    requires FiniteLines(items)
    ensures ItemsTotal(items) == Finite(ExactTotal(items))
  {
    TotalOfFees(items);
    SumExact(Fees(items));
  }

  /** Reducing over the lines adds up their fees. */
  lemma {:induction false} TotalOfFees(items: seq<Item>)
    ensures ItemsTotal(items) == Sum(Fees(items))
    decreases |items|
  {
    if items != [] {
      var init := items[..|items| - 1];
      TotalOfFees(init);
      assert Fees(items)[..|items| - 1] == Fees(init);
    }
  }

  /** Finite fees add up to their exact sum. */
  lemma {:induction false} SumExact(fees: seq<Num>)
    requires AllFinite(fees)
    ensures Sum(fees) == Finite(ExactSum(fees))
    decreases |fees|
  {
    if fees != [] {
      var init := fees[..|fees| - 1];
      SumExact(init);
      SumStep(Sum(init), fees[|fees| - 1], ExactSum(init));
    }
  }

  /** Adding a finite fee to a finite total adds their values. */
  lemma SumStep(total: Num, fee: Num, x: real)
    requires total == Finite(x) && fee.Finite?
    ensures Add(total, fee) == Finite(x + fee.v)
  {
  }

  /** When both lists total finite numbers `xm` and `xp` (`ItemsTotalExact` gives these
      totals as the exact sums of the line fees) and both fees are numeric, the price is the
      sum of the two totals and the two fees. */
  lemma PriceOfNumbers(req: Request, xm: real, xp: real)
    requires ItemsTotal(ItemsOf(req.materials)) == Finite(xm)
    requires ItemsTotal(ItemsOf(req.processes)) == Finite(xp)
    requires NumericFee(req.otherFee) && NumericFee(req.transportFee)
    ensures TaxIncludedPrice(req) == Amount(Finite(xm + xp + Read0(req.otherFee).v + Read0(req.transportFee).v))
  {
    var m, p := ItemsOf(req.materials), ItemsOf(req.processes);
    assert TaxIncludedPrice(req) == PlusFee(PlusFee(Amount(Add(ItemsTotal(m), ItemsTotal(p))), req.otherFee), req.transportFee);
    PlusNumericFees(Add(ItemsTotal(m), ItemsTotal(p)), xm + xp, req.otherFee, req.transportFee);
  }

  /** Two numeric fees add their values to a numeric price. */
  lemma PlusNumericFees(total: Num, x: real, other: Value, transport: Value)
    requires total == Finite(x) && NumericFee(other) && NumericFee(transport)
    ensures PlusFee(PlusFee(Amount(total), other), transport)
      == Amount(Finite(x + Read0(other).v + Read0(transport).v))
  {
    PlusNumericFee(x, other);
    PlusNumericFee(x + Read0(other).v, transport);
  }

  /** A numeric fee adds its value to a numeric price. */
  lemma PlusNumericFee(x: real, fee: Value)
    requires NumericFee(fee)
    ensures PlusFee(Amount(Finite(x)), fee) == Amount(Finite(x + Read0(fee).v))
  {
  }

  /** A truthy fee given as text makes the price text, whatever the lines hold. */
  lemma TextFeeConcatenates(req: Request)
    requires (Truthy(req.otherFee) && req.otherFee.Str?) || (Truthy(req.transportFee) && req.transportFee.Str?)
    ensures TaxIncludedPrice(req).Concatenated?
  {
  }

  // ---------------------------------------------------------------- the list paging

  /** `parseInt(v, 10) || fallback`. */
  function IntOr(v: Value, fallback: int): (r: int)
    ensures r != 0 || fallback == 0
  {
    var n := ParseInt(v);
    if n.Some? && n.value != 0 then n.value else fallback
  }

  /** The list route's page number, page size and row offset. */
  function Paging(page: Value, pageSize: Value): (int, int, int)
  {
    var p := IntOr(page, 1);
    var size := IntOr(pageSize, 20);
    (p, size, (p - 1) * size)
  }

  /** An absent page is page 1 and an absent size is 20; neither is ever 0, and the offset
      skips the earlier pages. */
  lemma PagingDefaults(page: Value, pageSize: Value)
    ensures var (p, size, offset) := Paging(page, pageSize);
      p != 0 && size != 0 && offset == (p - 1) * size
      && (page == Undefined ==> p == 1)
      && (pageSize == Undefined ==> size == 20)
  {
  }

  /** A page and size given as the decimal text of positive numbers are those numbers. */
  lemma PagingOfText(n: nat, m: nat)
    requires n > 0 && m > 0
    ensures Paging(Str(NatToString(n)), Str(NatToString(m))) == (n, m, (n - 1) * m)
  {
    IntOrOfText(n, 1);
    IntOrOfText(m, 20);
  }

  lemma IntOrOfText(n: nat, fallback: int)
    requires n > 0
    ensures IntOr(Str(NatToString(n)), fallback) == n
  {
    ParseIntOfNat(n);
  }


  /** Page "0" is falsy after parsing and falls back to page 1. */
  lemma PageZeroIsFirst(pageSize: Value)
    ensures Paging(Str("0"), pageSize).0 == 1
  {
    ParseIntOfNat(0);
    assert NatToString(0) == "0";
  }

  // ---------------------------------------------------------------- the table

  /** The columns a create or update writes. */
  datatype Stored = Stored(
    no: Value, quotationDate: Value, customerName: Value, processingDate: Value,
    changeOrderNo: Value, partName: Value, moldNo: Value, department: Value, applicant: Value,
    materials: seq<Item>, processes: seq<Item>,
    otherFee: Value, transportFee: Value, quantity: Value, price: Price)

  datatype Quote = Quote(id: int, data: Stored)

  /** The quotation table and the next identity value. */
  datatype Db = Db(quotes: seq<Quote>, nextId: int)

  const One: Value := Number(Finite(1.0))

  /** The values bound to the INSERT or UPDATE: `changeOrderNo || null`, the lists (or []),
      the fees `|| 0`, the quantity `|| 1`, and the computed price. */
  function StoredOf(req: Request): Stored
  {
    Stored(req.quotationNo, req.quotationDate, req.customerName, req.processingDate,
      Or(req.changeOrderNo, Null), req.partName, req.moldNo, req.department, req.applicant,
      ItemsOf(req.materials), ItemsOf(req.processes),
      Or(req.otherFee, Zero), Or(req.transportFee, Zero), Or(req.quantity, One),
      TaxIncludedPrice(req))
  }

  /** Ids below the next identity value, and no two quotations sharing an id or a number. */
  predicate Valid(db: Db)
  {
    (forall i :: 0 <= i < |db.quotes| ==> db.quotes[i].id < db.nextId)
    && (forall i, j :: 0 <= i < j < |db.quotes| ==> db.quotes[i].id != db.quotes[j].id)
    && (forall i, j :: 0 <= i < j < |db.quotes| ==> db.quotes[i].data.no != db.quotes[j].data.no)
  }

  predicate HasNo(db: Db, no: Value)
  {
    exists i :: 0 <= i < |db.quotes| && db.quotes[i].data.no == no
  }

  predicate HasId(db: Db, id: int)
  {
    exists i :: 0 <= i < |db.quotes| && db.quotes[i].id == id
  }

  /** Some quotation other than `id` holds the number. */
  predicate NoTakenByOther(db: Db, no: Value, id: int)
  {
    exists i :: 0 <= i < |db.quotes| && db.quotes[i].data.no == no && db.quotes[i].id != id
  }

  /** A reply: success, 400 naming the first missing required field (an index into
      `Required`), 400 for a number already in use, or 404. */
  datatype Reply = Saved | MissingField(field: nat) | DuplicateNo | NotFound

  datatype Outcome = Outcome(reply: Reply, db: Db)

  /** The fields create demands, in the order it checks them: quotationNo, quotationDate,
      customerName, processingDate, partName, moldNo, department, applicant. */
  function Required(req: Request): seq<Value>
  {
    [req.quotationNo, req.quotationDate, req.customerName, req.processingDate,
     req.partName, req.moldNo, req.department, req.applicant]
  }

  /** The index of the first falsy value at or after `from`. */
  function FirstFalsy(vs: seq<Value>, from: nat): (k: Option<nat>)
    requires from <= |vs|
    ensures k.Some? ==> from <= k.value < |vs| && !Truthy(vs[k.value])
    ensures forall j :: from <= j < |vs| && (k.None? || j < k.value) ==> Truthy(vs[j])
    decreases |vs| - from
  {
    if from == |vs| then None
    else if !Truthy(vs[from]) then Some(from)
    else FirstFalsy(vs, from + 1)
  }

  /** The `/create` route. */
  function CreateSpec(db: Db, req: Request): Outcome
  {
    var missing := FirstFalsy(Required(req), 0);
    if missing.Some? then Outcome(MissingField(missing.value), db)
    else if HasNo(db, req.quotationNo) then Outcome(DuplicateNo, db)
    else Outcome(Saved, Db(db.quotes + [Quote(db.nextId, StoredOf(req))], db.nextId + 1))
  }

  /** Create answers 400 for the first falsy required field, then 400 for a number already
      stored, and otherwise succeeds; a rejection leaves the table as it was. */
  lemma CreateOutcomes(db: Db, req: Request)
    ensures var out := CreateSpec(db, req);
      (forall k: nat :: out.reply == MissingField(k) <==>
        k < 8 && !Truthy(Required(req)[k]) && forall j :: 0 <= j < k ==> Truthy(Required(req)[j]))
      && (out.reply == DuplicateNo <==> (forall j :: 0 <= j < 8 ==> Truthy(Required(req)[j])) && HasNo(db, req.quotationNo))
      && (out.reply == Saved <==> (forall j :: 0 <= j < 8 ==> Truthy(Required(req)[j])) && !HasNo(db, req.quotationNo))
      && out.reply != NotFound
      && (out.reply != Saved ==> out.db == db)
  {
  }

  /** A successful create appends one quotation under the next id, holding the request's
      number and fields, null for a falsy change-order number, 0 for falsy fees, 1 for a falsy
      quantity, and the tax-included price. */
  lemma CreateAppends(db: Db, req: Request)
    requires CreateSpec(db, req).reply == Saved
    ensures var after := CreateSpec(db, req).db;
      after.nextId == db.nextId + 1
      && |after.quotes| == |db.quotes| + 1
      && after.quotes[..|db.quotes|] == db.quotes
      && var q := after.quotes[|db.quotes|];
      q.id == db.nextId
      && q.data.no == req.quotationNo && Truthy(q.data.no)
      && q.data.customerName == req.customerName && q.data.applicant == req.applicant
      && (Truthy(req.changeOrderNo) ==> q.data.changeOrderNo == req.changeOrderNo)
      && (!Truthy(req.changeOrderNo) ==> q.data.changeOrderNo == Null)
      && Truthy(q.data.quantity) && Truthy(q.data.otherFee) == Truthy(req.otherFee)
      && q.data.materials == ItemsOf(req.materials)
      && q.data.price == TaxIncludedPrice(req)
  {
    var after := CreateSpec(db, req).db;
    assert after.quotes == db.quotes + [Quote(db.nextId, StoredOf(req))];
  }

  /** Create keeps ids below the next id and ids and numbers distinct. */
  lemma CreateKeepsValid(db: Db, req: Request)
    requires Valid(db)
    ensures Valid(CreateSpec(db, req).db)
  {
    var out := CreateSpec(db, req);
    if out.reply == Saved {
      var q := Quote(db.nextId, StoredOf(req));
      assert out.db == Db(db.quotes + [q], db.nextId + 1);
      assert !HasNo(db, req.quotationNo) && q.data.no == req.quotationNo;
      AppendKeepsValid(db, q);
    }
  }

  /** Appending a quotation under the next id with a number no stored quotation has keeps
      the table valid. */
  lemma AppendKeepsValid(db: Db, q: Quote)
    requires Valid(db) && q.id == db.nextId && !HasNo(db, q.data.no)
    ensures Valid(Db(db.quotes + [q], db.nextId + 1))
  {
    var qs := db.quotes + [q];
    forall i, j | 0 <= i < j < |qs|
      ensures qs[i].data.no != qs[j].data.no
    {
      if j == |db.quotes| {
        assert qs[i] == db.quotes[i];
      }
    }
  }

  /** `quotes` with the one carrying `id` holding `s`. */
  function Replaced(qs: seq<Quote>, id: int, s: Stored): seq<Quote>
  {
    seq(|qs|, i requires 0 <= i < |qs| => if qs[i].id == id then Quote(id, s) else qs[i])
  }

  /** The `PUT /:id` route, `id` being the path's `parseInt`: only the number is checked for
      presence; then 404 for an unknown id and 400 for a number held by another quotation;
      otherwise every column is replaced with the request's values. */
  function UpdateSpec(db: Db, id: int, req: Request): Outcome
  {
    if !Truthy(req.quotationNo) then Outcome(MissingField(0), db)
    else if !HasId(db, id) then Outcome(NotFound, db)
    else if NoTakenByOther(db, req.quotationNo, id) then Outcome(DuplicateNo, db)
    else Outcome(Saved, db.(quotes := Replaced(db.quotes, id, StoredOf(req))))
  }

  /** Update answers 400 for a falsy number, 404 for an unknown id, 400 for a number held by
      another quotation, and otherwise succeeds whatever the other fields hold; a rejection
      leaves the table as it was. */
  lemma UpdateOutcomes(db: Db, id: int, req: Request)
    ensures var out := UpdateSpec(db, id, req);
      (out.reply.MissingField? <==> !Truthy(req.quotationNo))
      && (out.reply.MissingField? ==> out.reply.field == 0)
      && (out.reply == NotFound <==> Truthy(req.quotationNo) && !HasId(db, id))
      && (out.reply == DuplicateNo <==> Truthy(req.quotationNo) && HasId(db, id) && NoTakenByOther(db, req.quotationNo, id))
      && (out.reply == Saved <==> Truthy(req.quotationNo) && HasId(db, id) && !NoTakenByOther(db, req.quotationNo, id))
      && (out.reply != Saved ==> out.db == db)
  {
  }

  /** A successful update rewrites the quotation with that id and nothing else: ids, their
      order and the next id stay, every other quotation is unchanged. */
  lemma UpdateRewrites(db: Db, id: int, req: Request)
    requires UpdateSpec(db, id, req).reply == Saved
    ensures var after := UpdateSpec(db, id, req).db;
      after.nextId == db.nextId && |after.quotes| == |db.quotes|
      && (forall i :: 0 <= i < |db.quotes| ==> after.quotes[i].id == db.quotes[i].id)
      && (forall i :: 0 <= i < |db.quotes| && db.quotes[i].id != id ==> after.quotes[i] == db.quotes[i])
      && (forall i :: 0 <= i < |db.quotes| && db.quotes[i].id == id ==>
            after.quotes[i].data.no == req.quotationNo && after.quotes[i].data.price == TaxIncludedPrice(req)
            && after.quotes[i].data.customerName == req.customerName)
  {
  }

  /** Update keeps ids below the next id and ids and numbers distinct. */
  lemma UpdateKeepsValid(db: Db, id: int, req: Request)
    requires Valid(db)
    ensures Valid(UpdateSpec(db, id, req).db)
  {
    var out := UpdateSpec(db, id, req);
    if out.reply == Saved {
      var qs := out.db.quotes;
      forall i, j | 0 <= i < j < |qs|
        ensures qs[i].data.no != qs[j].data.no
      {
      }
    }
  }

  // ---------------------------------------------------------------- the export

  /** A cell address: column letter and 1-based row. */
  datatype Addr = Addr(col: char, row: nat)

  datatype Day = Day(year: int, month: int, day: int)

  datatype CellValue = Blank | NumberCell(n: Num) | DateCell(d: Day) | TextCell(s: string)

  type Sheet = map<Addr, CellValue>

  function Lookup(sheet: Sheet, a: Addr): Option<CellValue>
  {
    if a in sheet then Some(sheet[a]) else None
  }

  /** `setCell(addr, value)`: null, undefined and '' blank the cell, a number is kept, and
      anything else is written as its text. */
  function CellOf(v: Value): (c: CellValue)
    ensures c == Blank <==> v == Undefined || v == Null || v == Str([])
    ensures c.NumberCell? <==> v.Number?
  {
    match v
    case Undefined => Blank
    case Null => Blank
    case Number(n) => NumberCell(n)
    case Str(s) => if s == [] then Blank else TextCell(s)
    case Bool(b) => TextCell(if b then "true" else "false")
  }

  /** `setCell(addr, parseDate(value))`: a date, or a blank cell when there is none. */
  function DateCellOf(d: Option<Day>): CellValue
  {
    if d.Some? then DateCell(d.value) else Blank
  }

  /** The stored quotation as the export reads it back: the processing date as the driver's
      date (or none), and the item lists parsed from their JSON columns. */
  datatype ExportRow = ExportRow(
    processingDate: Option<Day>, changeOrderNo: Value, partName: Value, moldNo: Value,
    department: Value, applicant: Value, materials: seq<Item>, processes: seq<Item>,
    otherFee: Value, transportFee: Value, quantity: Value)

  const Empty: Value := Str([])

  /** `Number(v) || 0`. */
  function NumberOr0(v: Value): (r: Num)
    ensures !r.NaN?
  {
    var n := ToNumber(v);
    if n.NaN? || n == Finite(0.0) then Finite(0.0) else n
  }

  /** `unitPrice * qty` of the export, both read by `Number(x) || 0`. */
  function ExportFee(it: Item): Num
  {
    Mul(NumberOr0(it.unitPrice), NumberOr0(it.amount))
  }

  /** `materials[i] || {}`. */
  function MaterialAt(ms: seq<Item>, i: nat): Item
  {
    if i < |ms| then ms[i] else Item(Undefined, Undefined, Undefined)
  }

  /** `Number(row.quantity || 0) || 1`. */
  function ExportQuantity(q: Value): (r: Num)
    ensures !r.NaN? && r != Finite(0.0)
  {
    var n := Read0(q);
    if n.NaN? || n == Finite(0.0) then Finite(1.0) else n
  }

  /** The cell after the six header writes (C3, G3, C4, G4, C5, G5). */
  function HeaderCell(t: Sheet, r: ExportRow, a: Addr): Option<CellValue>
  {
    if a == Addr('C', 3) then Some(DateCellOf(r.processingDate))
    else if a == Addr('G', 3) then Some(CellOf(Or(r.changeOrderNo, Empty)))
    else if a == Addr('C', 4) then Some(CellOf(Or(r.partName, Empty)))
    else if a == Addr('G', 4) then Some(CellOf(Or(r.moldNo, Empty)))
    else if a == Addr('C', 5) then Some(CellOf(Or(r.department, Empty)))
    else if a == Addr('G', 5) then Some(CellOf(Or(r.applicant, Empty)))
    else Lookup(t, a)
  }

  /** The columns of a material row: name, unit price, quantity, fee. */
  predicate MaterialColumn(c: char)
  {
    c == 'C' || c == 'E' || c == 'F' || c == 'G'
  }

  /** The columns of a process row: hours, fee. */
  predicate ProcessColumn(c: char)
  {
    c == 'F' || c == 'G'
  }

  /** What a material row holds in column `c`: name in C, unit price in E, quantity in F and
      fee in G. */
  function MaterialValue(it: Item, c: char): CellValue
  {
    if c == 'C' then CellOf(Or(it.name, Empty))
    else if c == 'E' then NumberCell(NumberOr0(it.unitPrice))
    else if c == 'F' then NumberCell(NumberOr0(it.amount))
    else NumberCell(ExportFee(it))
  }

  /** What a process row holds in column `c`: hours in F and fee in G. */
  function ProcessValue(it: Item, c: char): CellValue
  {
    if c == 'F' then NumberCell(NumberOr0(it.amount)) else NumberCell(ExportFee(it))
  }

  /** The cell after the first `k` material rows (row 8 + i for material i). */
  function MaterialCell(t: Sheet, r: ExportRow, k: nat, a: Addr): Option<CellValue>
  {
    if 8 <= a.row < 8 + k && MaterialColumn(a.col) then Some(MaterialValue(MaterialAt(r.materials, a.row - 8), a.col))
    else HeaderCell(t, r, a)
  }

  /** The cell after the first `k` process rows (row 14 + i for process i). */
  function ProcessCell(t: Sheet, r: ExportRow, k: nat, a: Addr): Option<CellValue>
    requires k <= |r.processes|
  {
    if 14 <= a.row < 14 + k && ProcessColumn(a.col) then Some(ProcessValue(r.processes[a.row - 14], a.col))
    else MaterialCell(t, r, 2, a)
  }

  /** The cell the export leaves at `a`: the totals written last (other fee in G24, transport
      fee in G25, quantity in C26) over the process rows, the material rows and the header,
      over the template. */
  function ExportedCell(t: Sheet, r: ExportRow, a: Addr): Option<CellValue>
  {
    if a == Addr('G', 24) then Some(NumberCell(Read0(r.otherFee)))
    else if a == Addr('G', 25) then Some(NumberCell(Read0(r.transportFee)))
    else if a == Addr('C', 26) then Some(NumberCell(ExportQuantity(r.quantity)))
    else ProcessCell(t, r, |r.processes|, a)
  }

  /** The writes for one material row, in the order C, E, F, G. */
  function PutMaterialRow(s: Sheet, it: Item, row: nat): Sheet
  {
    s[Addr('C', row) := MaterialValue(it, 'C')]
     [Addr('E', row) := MaterialValue(it, 'E')]
     [Addr('F', row) := MaterialValue(it, 'F')]
     [Addr('G', row) := MaterialValue(it, 'G')]
  }

  /** The writes for one process row, in the order F, G. */
  function PutProcessRow(s: Sheet, it: Item, row: nat): Sheet
  {
    s[Addr('F', row) := ProcessValue(it, 'F')][Addr('G', row) := ProcessValue(it, 'G')]
  }

  lemma PutMaterialRowAt(s: Sheet, it: Item, row: nat, a: Addr)
    ensures Lookup(PutMaterialRow(s, it, row), a)
      == if a.row == row && MaterialColumn(a.col) then Some(MaterialValue(it, a.col)) else Lookup(s, a)
  {
  }

  lemma PutProcessRowAt(s: Sheet, it: Item, row: nat, a: Addr)
    ensures Lookup(PutProcessRow(s, it, row), a)
      == if a.row == row && ProcessColumn(a.col) then Some(ProcessValue(it, a.col)) else Lookup(s, a)
  {
  }

  lemma MaterialCellStep(t: Sheet, r: ExportRow, i: nat, j: nat, a: Addr)
    requires j == i + 1
    ensures MaterialCell(t, r, j, a)
      == if a.row == 8 + i && MaterialColumn(a.col) then Some(MaterialValue(MaterialAt(r.materials, i), a.col))
         else MaterialCell(t, r, i, a)
  {
  }

  lemma ProcessCellStep(t: Sheet, r: ExportRow, i: nat, j: nat, a: Addr)
    requires i < |r.processes| && j == i + 1
    ensures ProcessCell(t, r, j, a)
      == if a.row == 14 + i && ProcessColumn(a.col) then Some(ProcessValue(r.processes[i], a.col))
         else ProcessCell(t, r, i, a)
  {
  }

  lemma MaterialRowStep(t: Sheet, r: ExportRow, i: nat, j: nat, s: Sheet, s': Sheet)
    requires i < 2 && j == i + 1
    requires forall a :: Lookup(s, a) == MaterialCell(t, r, i, a)
    requires s' == PutMaterialRow(s, MaterialAt(r.materials, i), 8 + i)
    ensures forall a :: Lookup(s', a) == MaterialCell(t, r, j, a)
  {
    forall a
      ensures Lookup(s', a) == MaterialCell(t, r, j, a)
    {
      PutMaterialRowAt(s, MaterialAt(r.materials, i), 8 + i, a);
      MaterialCellStep(t, r, i, j, a);
    }
  }

  lemma ProcessRowStep(t: Sheet, r: ExportRow, i: nat, j: nat, s: Sheet, s': Sheet)
    requires i < |r.processes| && j == i + 1
    requires forall a :: Lookup(s, a) == ProcessCell(t, r, i, a)
    requires s' == PutProcessRow(s, r.processes[i], 14 + i)
    ensures forall a :: Lookup(s', a) == ProcessCell(t, r, j, a)
  {
    forall a
      ensures Lookup(s', a) == ProcessCell(t, r, j, a)
    {
      PutProcessRowAt(s, r.processes[i], 14 + i, a);
      ProcessCellStep(t, r, i, j, a);
    }
  }

  /** The `/:id/export-excel` route once the quotation is found and the template read: the
      header, the two material rows, one row per process, then the totals. */
  method Export(template: Sheet, r: ExportRow) returns (sheet: Sheet)
    ensures forall a :: Lookup(sheet, a) == ExportedCell(template, r, a)
  {
    sheet := template;
    sheet := sheet[Addr('C', 3) := DateCellOf(r.processingDate)];
    sheet := sheet[Addr('G', 3) := CellOf(Or(r.changeOrderNo, Empty))];
    sheet := sheet[Addr('C', 4) := CellOf(Or(r.partName, Empty))];
    sheet := sheet[Addr('G', 4) := CellOf(Or(r.moldNo, Empty))];
    sheet := sheet[Addr('C', 5) := CellOf(Or(r.department, Empty))];
    sheet := sheet[Addr('G', 5) := CellOf(Or(r.applicant, Empty))];
    for i := 0 to 2
      invariant forall a :: Lookup(sheet, a) == MaterialCell(template, r, i, a)
    {
      var next := PutMaterialRow(sheet, MaterialAt(r.materials, i), 8 + i);
      MaterialRowStep(template, r, i, i + 1, sheet, next);
      sheet := next;
    }
    for i := 0 to |r.processes|
      invariant forall a :: Lookup(sheet, a) == ProcessCell(template, r, i, a)
    {
      var next := PutProcessRow(sheet, r.processes[i], 14 + i);
      ProcessRowStep(template, r, i, i + 1, sheet, next);
      sheet := next;
    }
    sheet := sheet[Addr('G', 24) := NumberCell(Read0(r.otherFee))];
    sheet := sheet[Addr('G', 25) := NumberCell(Read0(r.transportFee))];
    sheet := sheet[Addr('C', 26) := NumberCell(ExportQuantity(r.quantity))];
  }

  /** The cells the export writes. */
  predicate Written(r: ExportRow, a: Addr)
  {
    (3 <= a.row <= 5 && (a.col == 'C' || a.col == 'G'))
    || ((a.row == 8 || a.row == 9) && MaterialColumn(a.col))
    || (14 <= a.row < 14 + |r.processes| && ProcessColumn(a.col))
    || a in {Addr('G', 24), Addr('G', 25), Addr('C', 26)}
  }

  /** With at most ten processes (the template's rows 14 to 23) every process keeps its hours
      and fee in its own row. */
  lemma ProcessRowsShown(t: Sheet, r: ExportRow, i: nat)
    requires i < |r.processes| <= 10
    ensures ExportedCell(t, r, Addr('F', 14 + i)) == Some(NumberCell(NumberOr0(r.processes[i].amount)))
    ensures ExportedCell(t, r, Addr('G', 14 + i)) == Some(NumberCell(ExportFee(r.processes[i])))
  {
    ProcessCellShown(t, r, i, 'F');
    ProcessCellShown(t, r, i, 'G');
  }

  lemma ProcessCellShown(t: Sheet, r: ExportRow, i: nat, c: char)
    requires i < |r.processes| <= 10 && ProcessColumn(c)
    ensures ExportedCell(t, r, Addr(c, 14 + i)) == Some(ProcessValue(r.processes[i], c))
  {
    var a := Addr(c, 14 + i);
    assert ExportedCell(t, r, a) == ProcessCell(t, r, |r.processes|, a) by {
      assert a.row < 24;
    }
  }

  /** The first two materials fill rows 8 and 9 (an absent one leaves an empty name and
      zeros), and the totals sit in G24, G25 and C26. */
  lemma MaterialsAndTotalsShown(t: Sheet, r: ExportRow, i: nat)
    requires i < 2
    ensures ExportedCell(t, r, Addr('C', 8 + i)) == Some(CellOf(Or(MaterialAt(r.materials, i).name, Empty)))
    ensures ExportedCell(t, r, Addr('G', 8 + i)) == Some(NumberCell(ExportFee(MaterialAt(r.materials, i))))
    ensures i >= |r.materials| ==> ExportedCell(t, r, Addr('G', 8 + i)) == Some(NumberCell(Finite(0.0)))
    ensures ExportedCell(t, r, Addr('G', 24)) == Some(NumberCell(Read0(r.otherFee)))
    ensures ExportedCell(t, r, Addr('G', 25)) == Some(NumberCell(Read0(r.transportFee)))
    ensures ExportedCell(t, r, Addr('C', 26)) == Some(NumberCell(ExportQuantity(r.quantity)))
  {
  }

  /** Every cell the export does not write keeps the template's value. */
  lemma UnwrittenCellsKept(t: Sheet, r: ExportRow, a: Addr)
    requires !Written(r, a)
    ensures ExportedCell(t, r, a) == Lookup(t, a)
  {
  }

  /** Past ten processes the rows run into the totals: the eleventh process's hours land in
      F24, beside the other fee, and its fee in G24 is overwritten by the other fee. */
  lemma ProcessesOverflowIntoTotals(t: Sheet, r: ExportRow)
    requires |r.processes| > 10
    ensures ExportedCell(t, r, Addr('F', 24)) == Some(NumberCell(NumberOr0(r.processes[10].amount)))
    ensures ExportedCell(t, r, Addr('G', 24)) == Some(NumberCell(Read0(r.otherFee)))
  {
  }
}
