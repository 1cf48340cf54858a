/** The create, update and delete routes of backend/routes/sales-orders.js. The table
    `销售订单` holds one row per order line; a row has its own id (订单ID), the order number it
    belongs to (订单编号) and its other columns. Requests are JSON objects: a field that is
    absent reads as `undefined`. The list and the order-number rule of this file are in
    `OrderList` and `DocNumber`. */
module LegacySalesOrders {
  import opened Common
  import opened JsNumber

  // ---------------------------------------------------------------- rows and requests

  /** The columns the routes write, besides 订单编号. */
  datatype Column =
    | OrderDate | SignDate | ContractNo | CustomerId
    | ItemCode | DeliveryDate | TotalAmount | UnitPrice | Quantity | Remark | CostSource
    | Handler | IsInStock | IsShipped | ShippingDate

  /** The order-level fields, in the order the update route tests them. */
  const HeaderColumns: seq<Column> := [OrderDate, SignDate, ContractNo, CustomerId]

  /** The line-level fields, in the order both routes read them. */
  const DetailColumns: seq<Column> :=
    [ItemCode, DeliveryDate, TotalAmount, UnitPrice, Quantity, Remark, CostSource, Handler,
     IsInStock, IsShipped, ShippingDate]

  /** A stored cell; a column missing from a row reads as SQL NULL. */
  function Cell(cells: map<Column, Value>, c: Column): Value
  {
    if c in cells then cells[c] else Null
  }

  /** A field of a request object: `undefined` when absent. */
  function Field(fields: map<Column, Value>, c: Column): Value
  {
    if c in fields then fields[c] else Undefined
  }

  datatype Row = Row(id: int, orderNo: string, cells: map<Column, Value>)

  /** An entry of `details`: its `id` and its other fields. */
  datatype Detail = Detail(id: Value, fields: map<Column, Value>)

  /** The body of a create or update request: `orderNo` ("" when falsy), the order-level
      fields, and `details` (None when it is not a non-null array). */
  datatype Request = Request(orderNo: string, header: map<Column, Value>, details: Option<seq<Detail>>)

  /** A row of `货物信息` as the create route sees it. */
  datatype Goods = Goods(code: string, isNew: int)

  /** `nextId` is the next identity value of 订单ID. */
  datatype Db = Db(rows: seq<Row>, nextId: int, goods: seq<Goods>)

  /** The reply code (0 for success) and the tables afterwards. */
  datatype Outcome = Outcome(code: int, db: Db)

  /** Every row id was handed out before `nextId`. */
  predicate IdsBelow(db: Db)
  {
    forall k :: 0 <= k < |db.rows| ==> db.rows[k].id < db.nextId
  }

  // ---------------------------------------------------------------- create

  function Flag(v: Value): (r: Value)
    ensures r == Number(Finite(1.0)) <==> Truthy(v)
    ensures r == Number(Finite(0.0)) <==> !Truthy(v)
  {
    Number(Finite(if Truthy(v) then 1.0 else 0.0))
  }

  /** The value the INSERT stores for a field: `|| 0` for the amounts, `? 1 : 0` for the
      flags, the customer id as given, `|| null` for every other column. */
  function InsertValue(c: Column, v: Value): (r: Value)
    ensures c == CustomerId ==> r == v
    ensures c in [TotalAmount, UnitPrice, Quantity] ==> r == (if Truthy(v) then v else Number(Finite(0.0)))
    ensures c in [IsInStock, IsShipped] ==> r == Flag(v)
    ensures c !in [CustomerId, TotalAmount, UnitPrice, Quantity, IsInStock, IsShipped] ==>
      r == (if Truthy(v) then v else Null)
  {
    match c
    case CustomerId => v
    case TotalAmount => if Truthy(v) then v else Number(Finite(0.0))
    case UnitPrice => if Truthy(v) then v else Number(Finite(0.0))
    case Quantity => if Truthy(v) then v else Number(Finite(0.0))
    case IsInStock => Flag(v)
    case IsShipped => Flag(v)
    case _ => if Truthy(v) then v else Null
  }

  /** The request field a column of an inserted line comes from. */
  function Given(req: Request, d: Detail, c: Column): Value
  {
    if c in HeaderColumns then Field(req.header, c) else Field(d.fields, c)
  }

  /** The row the INSERT of one detail adds. */
  function NewRow(id: int, req: Request, d: Detail): Row
  {
    var cols := set c | c in HeaderColumns + DetailColumns;
    Row(id, req.orderNo, map c | c in cols :: InsertValue(c, Given(req, d, c)))
  }

  /** An inserted row stores every order-level field of the request and every line field of
      its detail, each as `InsertValue` converts it. */
  lemma NewRowCells(id: int, req: Request, d: Detail)
    ensures var row := NewRow(id, req, d);
      row.id == id && row.orderNo == req.orderNo
      && (forall c :: c in HeaderColumns ==> c in row.cells && row.cells[c] == InsertValue(c, Field(req.header, c)))
      && (forall c :: c in DetailColumns ==> c in row.cells && row.cells[c] == InsertValue(c, Field(d.fields, c)))
  {
    assert forall c :: c in DetailColumns ==> c !in HeaderColumns;
  }

  /** The INSERTs of the details, with ids from `firstId` on. */
  function Inserted(req: Request, ds: seq<Detail>, firstId: int): (r: seq<Row>)
    ensures |r| == |ds|
    ensures forall k :: 0 <= k < |ds| ==> r[k].orderNo == req.orderNo && r[k].id == firstId + k
  {
    if ds == [] then []
    else Inserted(req, ds[..|ds| - 1], firstId) + [NewRow(firstId + |ds| - 1, req, ds[|ds| - 1])]
  }

  /** `itemCodes`: the truthy item codes of the details, in order. */
  function ItemCodes(ds: seq<Detail>): (r: seq<Value>)
    ensures forall k :: 0 <= k < |r| ==> Truthy(r[k])
  {
    if ds == [] then []
    else
      var rest := ItemCodes(ds[..|ds| - 1]);
      var code := Field(ds[|ds| - 1].fields, ItemCode);
      if Truthy(code) then rest + [code] else rest
  }

  /** `UPDATE 货物信息 SET IsNew = 0 WHERE 项目编号 IN (…)`. */
  function ClearNew(goods: seq<Goods>, codes: seq<Value>): (r: seq<Goods>)
    ensures |r| == |goods|
    ensures forall k :: 0 <= k < |goods| ==>
      r[k] == (if Str(goods[k].code) in codes then goods[k].(isNew := 0) else goods[k])
  {
    if goods == [] then []
    else [if Str(goods[0].code) in codes then goods[0].(isNew := 0) else goods[0]] + ClearNew(goods[1..], codes)
  }

  /** The rows of one order. */
  function LinesOf(rows: seq<Row>, no: string): (r: seq<Row>)
    ensures |r| <= |rows|
    ensures forall k :: 0 <= k < |r| ==> r[k].orderNo == no
  {
    if rows == [] then []
    else
      var rest := LinesOf(rows[..|rows| - 1], no);
      if rows[|rows| - 1].orderNo == no then rest + [rows[|rows| - 1]] else rest
  }

  predicate HasOrder(rows: seq<Row>, no: string)
  {
    exists k :: 0 <= k < |rows| && rows[k].orderNo == no
  }

  /** `POST /create`; `goodsFails` says whether the IsNew UPDATE fails, which the route
      ignores. */
  function CreateSpec(db: Db, req: Request, goodsFails: bool): (r: Outcome)
    ensures r.code == 0 || r.code == 400
    ensures r.code == 400 ==> r.db == db
  {
    if req.orderNo == [] then Outcome(400, db)
    else if !Truthy(Field(req.header, CustomerId)) then Outcome(400, db)
    else if req.details.None? || req.details.value == [] then Outcome(400, db)
    else if HasOrder(db.rows, req.orderNo) then Outcome(400, db)
    else
      var ds := req.details.value;
      var codes := ItemCodes(ds);
      var goods := if codes != [] && !goodsFails then ClearNew(db.goods, codes) else db.goods;
      Outcome(0, Db(db.rows + Inserted(req, ds, db.nextId), db.nextId + |ds|, goods))
  }

  /** The route: the guards, the existence check, the INSERT loop and the IsNew UPDATE. */
  method Create(db: Db, req: Request, goodsFails: bool) returns (r: Outcome)
    ensures r == CreateSpec(db, req, goodsFails)
  {
    if req.orderNo == [] || !Truthy(Field(req.header, CustomerId))
       || req.details.None? || req.details.value == [] {
      return Outcome(400, db);
    }
    var exists_ := FindOrder(db.rows, req.orderNo);
    if exists_ {
      return Outcome(400, db);
    }
    var ds := req.details.value;
    var added, codes := InsertDetails(req, ds, db.nextId);
    var rows, nextId := db.rows + added, db.nextId + |ds|;
    var goods := db.goods;
    if |codes| > 0 && !goodsFails {
      goods := ClearNew(goods, codes);
    }
    r := Outcome(0, Db(rows, nextId, goods));
  }

  /** The INSERT loop, which also collects the truthy item codes. */
  method InsertDetails(req: Request, ds: seq<Detail>, firstId: int) returns (added: seq<Row>, codes: seq<Value>)
    ensures added == Inserted(req, ds, firstId)
    ensures codes == ItemCodes(ds)
  {
    added, codes := [], [];
    for i := 0 to |ds|
      invariant added == Inserted(req, ds[..i], firstId)
      invariant codes == ItemCodes(ds[..i])
    {
      InsertStep(req, ds, firstId, i);
      added := added + [NewRow(firstId + i, req, ds[i])];
      if Truthy(Field(ds[i].fields, ItemCode)) {
        codes := codes + [Field(ds[i].fields, ItemCode)];
      }
    }
    assert ds[..|ds|] == ds;
  }

  lemma InsertStep(req: Request, ds: seq<Detail>, firstId: int, i: nat)
    requires i < |ds|
    ensures Inserted(req, ds[..i + 1], firstId) == Inserted(req, ds[..i], firstId) + [NewRow(firstId + i, req, ds[i])]
    ensures ItemCodes(ds[..i + 1]) ==
      if Truthy(Field(ds[i].fields, ItemCode)) then ItemCodes(ds[..i]) + [Field(ds[i].fields, ItemCode)] else ItemCodes(ds[..i])
  {
    assert ds[..i + 1][..i] == ds[..i];
  }

  /** `SELECT COUNT(*) … WHERE 订单编号 = @orderNo` compared with 0. */
  method FindOrder(rows: seq<Row>, no: string) returns (found: bool)
    ensures found <==> HasOrder(rows, no)
  {
    found := false;
    var k := 0;
    while k < |rows| && !found
      invariant k <= |rows|
      invariant found <==> HasOrder(rows[..k], no)
    {
      assert rows[..k + 1][..k] == rows[..k];
      found := rows[k].orderNo == no;
      k := k + 1;
    }
    if !found {
      assert rows[..k] == rows;
    } else {
      var j :| 0 <= j < k && rows[..k][j].orderNo == no;
      assert rows[j].orderNo == no;
    }
  }

  /** When the create route rejects a request: a falsy order number or customer, no details,
      or an order number already in use. Otherwise it succeeds even when the IsNew update
      fails. */
  lemma CreateOutcomes(db: Db, req: Request, goodsFails: bool)
    ensures CreateSpec(db, req, goodsFails).code == 400 <==>
      req.orderNo == [] || !Truthy(Field(req.header, CustomerId)) || req.details.None?
      || req.details.value == [] || HasOrder(db.rows, req.orderNo)
  {
  }

  /** A created order has exactly one new row per detail, after the rows already there,
      which are kept as they were; the new rows are all of the order's rows, and their ids are
      fresh. */
  lemma CreateAddsOrder(db: Db, req: Request, goodsFails: bool)
    requires IdsBelow(db)
    requires CreateSpec(db, req, goodsFails).code == 0
    ensures var after := CreateSpec(db, req, goodsFails).db;
      IdsBelow(after)
      && after.rows == db.rows + Inserted(req, req.details.value, db.nextId)
      && LinesOf(after.rows, req.orderNo) == Inserted(req, req.details.value, db.nextId)
      && |LinesOf(after.rows, req.orderNo)| == |req.details.value|
      && forall m, j :: 0 <= m < |db.rows| <= j < |after.rows| ==> db.rows[m].id < after.rows[j].id
  {
    var added := Inserted(req, req.details.value, db.nextId);
    NoLinesBefore(db.rows, req.orderNo);
    LinesOfAppend(db.rows, added, req.orderNo);
  }

  /** Line `k` of a created order carries the order number, the next id, the request's
      order-level fields and the fields of detail `k`. */
  lemma CreatedLine(req: Request, ds: seq<Detail>, firstId: int, k: nat)
    requires k < |ds|
    ensures var row := Inserted(req, ds, firstId)[k];
      row.orderNo == req.orderNo && row.id == firstId + k
      && (forall c :: c in HeaderColumns ==> Cell(row.cells, c) == InsertValue(c, Field(req.header, c)))
      && (forall c :: c in DetailColumns ==> Cell(row.cells, c) == InsertValue(c, Field(ds[k].fields, c)))
  {
    InsertedAt(req, ds, firstId, k);
    NewRowCells(firstId + k, req, ds[k]);
  }

  lemma {:induction false} NoLinesBefore(rows: seq<Row>, no: string)
    requires forall k :: 0 <= k < |rows| ==> rows[k].orderNo != no
    ensures LinesOf(rows, no) == []
  {
    if rows != [] {
      NoLinesBefore(rows[..|rows| - 1], no);
    }
  }

  lemma {:induction false} InsertedAt(req: Request, ds: seq<Detail>, firstId: int, k: nat)
    requires k < |ds|
    ensures Inserted(req, ds, firstId)[k] == NewRow(firstId + k, req, ds[k])
  {
    if k < |ds| - 1 {
      InsertedAt(req, ds[..|ds| - 1], firstId, k);
    }
  }

  /** The lines of an order in `rows + more` are its lines in `rows` then in `more`; rows
      that all carry the order number are all its lines. */
  lemma {:induction false} LinesOfAppend(rows: seq<Row>, more: seq<Row>, no: string)
    requires forall k :: 0 <= k < |more| ==> more[k].orderNo == no
    ensures LinesOf(rows + more, no) == LinesOf(rows, no) + more
  {
    if more == [] {
      assert rows + more == rows;
    } else {
      var init := more[..|more| - 1];
      LinesOfAppend(rows, init, no);
      assert (rows + more)[..|rows + more| - 1] == rows + init;
      assert init + [more[|more| - 1]] == more;
    }
  }

  /** The IsNew flag is cleared on exactly the goods whose code is among the truthy item
      codes of the details; nothing changes when the update fails. */
  lemma CreateClearsNew(db: Db, req: Request, goodsFails: bool, k: nat)
    requires CreateSpec(db, req, goodsFails).code == 0
    requires k < |db.goods|
    ensures var after := CreateSpec(db, req, goodsFails).db;
      |after.goods| == |db.goods|
      && after.goods[k] ==
         (if !goodsFails && Str(db.goods[k].code) in ItemCodes(req.details.value)
          then db.goods[k].(isNew := 0) else db.goods[k])
  {
  }

  // ---------------------------------------------------------------- update

  /** The value the UPDATE stores for a field that is present: `|| null` for the dates, the
      remark, the cost source and the handler, `? 1 : 0` for the flags, the value as given
      otherwise. */
  function UpdateValue(c: Column, v: Value): (r: Value)
    ensures c in [IsInStock, IsShipped] ==> r == Flag(v)
    ensures c in [DeliveryDate, Remark, CostSource, Handler, ShippingDate] ==> r == (if Truthy(v) then v else Null)
    ensures c !in [IsInStock, IsShipped, DeliveryDate, Remark, CostSource, Handler, ShippingDate] ==> r == v
  {
    match c
    case IsInStock => Flag(v)
    case IsShipped => Flag(v)
    case DeliveryDate => if Truthy(v) then v else Null
    case Remark => if Truthy(v) then v else Null
    case CostSource => if Truthy(v) then v else Null
    case Handler => if Truthy(v) then v else Null
    case ShippingDate => if Truthy(v) then v else Null
    case _ => v
  }

  /** The `SET` list built from the fields that are not `undefined`. */
  function SetsFor(fields: map<Column, Value>, cols: seq<Column>): seq<(Column, Value)>
  {
    if cols == [] then []
    else
      var rest := SetsFor(fields, cols[1..]);
      if Field(fields, cols[0]).Undefined? then rest
      else [(cols[0], UpdateValue(cols[0], Field(fields, cols[0])))] + rest
  }

  function ApplySets(cells: map<Column, Value>, sets: seq<(Column, Value)>): map<Column, Value>
    decreases |sets|
  {
    if sets == [] then cells else ApplySets(cells[sets[0].0 := sets[0].1], sets[1..])
  }

  /** A `SET` list writes exactly the listed fields that are present. */
  lemma {:induction false} SetsForEffect(cells: map<Column, Value>, fields: map<Column, Value>, cols: seq<Column>, c: Column)
    ensures Cell(ApplySets(cells, SetsFor(fields, cols)), c) ==
      if c in cols && !Field(fields, c).Undefined? then UpdateValue(c, Field(fields, c)) else Cell(cells, c)
    decreases |cols|
  {
    if cols != [] {
      var c0 := cols[0];
      if Field(fields, c0).Undefined? {
        SetsForEffect(cells, fields, cols[1..], c);
      } else {
        var s := [(c0, UpdateValue(c0, Field(fields, c0)))];
        assert (s + SetsFor(fields, cols[1..]))[1..] == SetsFor(fields, cols[1..]);
        SetsForEffect(cells[c0 := UpdateValue(c0, Field(fields, c0))], fields, cols[1..], c);
      }
    }
  }

  /** `WHERE 订单ID = @id`: the detail's id, converted to a number, is the row's id. */
  predicate IdMatches(id: Value, rowId: int)
  {
    ToNumber(id) == Finite(rowId as real)
  }

  /** The UPDATE of the order-level fields, on every row of the order. */
  function HeaderApplied(row: Row, no: string, header: map<Column, Value>): Row
  {
    if row.orderNo == no then row.(cells := ApplySets(row.cells, SetsFor(header, HeaderColumns))) else row
  }

  /** The UPDATE of one detail, on the row whose id it names. */
  function DetailApplied(row: Row, d: Detail): Row
  {
    if IdMatches(d.id, row.id) then row.(cells := ApplySets(row.cells, SetsFor(d.fields, DetailColumns))) else row
  }

  /** A row after the header UPDATE and the UPDATEs of the details `ds`. */
  function RowAfter(row: Row, no: string, header: map<Column, Value>, ds: seq<Detail>): Row
  {
    if ds == [] then HeaderApplied(row, no, header)
    else DetailApplied(RowAfter(row, no, header, ds[..|ds| - 1]), ds[|ds| - 1])
  }

  function RowsAfter(rows: seq<Row>, no: string, header: map<Column, Value>, ds: seq<Detail>): (r: seq<Row>)
    ensures |r| == |rows|
    ensures forall k :: 0 <= k < |rows| ==> r[k] == RowAfter(rows[k], no, header, ds)
  {
    if rows == [] then [] else [RowAfter(rows[0], no, header, ds)] + RowsAfter(rows[1..], no, header, ds)
  }

  function HeaderUpdate(rows: seq<Row>, no: string, header: map<Column, Value>): (r: seq<Row>)
    ensures |r| == |rows|
    ensures forall k :: 0 <= k < |rows| ==> r[k] == HeaderApplied(rows[k], no, header)
  {
    if rows == [] then [] else [HeaderApplied(rows[0], no, header)] + HeaderUpdate(rows[1..], no, header)
  }

  function DetailUpdate(rows: seq<Row>, d: Detail): (r: seq<Row>)
    ensures |r| == |rows|
    ensures forall k :: 0 <= k < |rows| ==> r[k] == DetailApplied(rows[k], d)
  {
    if rows == [] then [] else [DetailApplied(rows[0], d)] + DetailUpdate(rows[1..], d)
  }

  /** The last detail among `ds` that names the row and gives the column, if any. */
  function LastGiven(ds: seq<Detail>, rowId: int, c: Column): Option<Value>
  {
    if ds == [] then None
    else
      var d := ds[|ds| - 1];
      if IdMatches(d.id, rowId) && c in DetailColumns && !Field(d.fields, c).Undefined? then Some(Field(d.fields, c))
      else LastGiven(ds[..|ds| - 1], rowId, c)
  }

  /** What a row holds after an update: a column the last detail naming the row gives takes
      that detail's value; otherwise an order-level column the request gives takes the
      request's value when the row belongs to the order; every other column keeps its value.
      The id and the order number never change. The detail UPDATEs look at the id only, so a
      detail can reach a row of another order. */
  lemma {:induction false} RowAfterMeaning(row: Row, no: string, header: map<Column, Value>, ds: seq<Detail>, c: Column)
    ensures var after := RowAfter(row, no, header, ds);
      after.id == row.id && after.orderNo == row.orderNo
      && Cell(after.cells, c) ==
         match LastGiven(ds, row.id, c)
         case Some(v) => UpdateValue(c, v)
         case None =>
           if row.orderNo == no && c in HeaderColumns && !Field(header, c).Undefined? then Field(header, c)
           else Cell(row.cells, c)
  {
    if ds == [] {
      SetsForEffect(row.cells, header, HeaderColumns, c);
    } else {
      var prev := RowAfter(row, no, header, ds[..|ds| - 1]);
      RowAfterMeaning(row, no, header, ds[..|ds| - 1], c);
      SetsForEffect(prev.cells, ds[|ds| - 1].fields, DetailColumns, c);
    }
  }

  /** The index of the first detail whose id is falsy. */
  function FirstMissingId(ds: seq<Detail>): (r: Option<nat>)
    ensures r.Some? ==> r.value < |ds| && !Truthy(ds[r.value].id)
    ensures r.Some? ==> forall k :: 0 <= k < r.value ==> Truthy(ds[k].id)
    ensures r.None? ==> forall k :: 0 <= k < |ds| ==> Truthy(ds[k].id)
  {
    if ds == [] then None
    else if !Truthy(ds[0].id) then Some(0)
    else
      var r := FirstMissingId(ds[1..]);
      if r.Some? then Some(r.value + 1) else None
  }

  /** `PUT /update` as written: the header UPDATE and the detail UPDATEs run one by one with
      no transaction, and a detail without an id stops the loop with 400 after the writes
      before it have been made. */
  function UpdateAsWritten(db: Db, req: Request): (r: Outcome)
    ensures r.code == 0 || r.code == 400
  {
    if req.orderNo == [] || req.details.None? || req.details.value == [] then Outcome(400, db)
    else
      var ds := req.details.value;
      var missing := FirstMissingId(ds);
      if missing.Some? then Outcome(400, db.(rows := RowsAfter(db.rows, req.orderNo, req.header, ds[..missing.value])))
      else Outcome(0, db.(rows := RowsAfter(db.rows, req.orderNo, req.header, ds)))
  }

  /** `PUT /update` with the detail ids checked before anything is written. */
  function UpdateSpec(db: Db, req: Request): (r: Outcome)
    ensures r.code == 0 || r.code == 400
    ensures r.code == 400 ==> r.db == db
    ensures r.db.nextId == db.nextId && r.db.goods == db.goods && |r.db.rows| == |db.rows|
  {
    if req.orderNo == [] || req.details.None? || req.details.value == [] then Outcome(400, db)
    else if FirstMissingId(req.details.value).Some? then Outcome(400, db)
    else Outcome(0, db.(rows := RowsAfter(db.rows, req.orderNo, req.header, req.details.value)))
  }

  lemma DetailUpdateStep(rows: seq<Row>, no: string, header: map<Column, Value>, ds: seq<Detail>, i: nat)
    requires i < |ds|
    ensures DetailUpdate(RowsAfter(rows, no, header, ds[..i]), ds[i]) == RowsAfter(rows, no, header, ds[..i + 1])
  {
    assert ds[..i + 1][..i] == ds[..i];
  }

  /** The first falsy id is the one a scan finds after all those before it were truthy. */
  lemma FirstMissingAt(ds: seq<Detail>, i: nat)
    requires i < |ds| && !Truthy(ds[i].id)
    requires forall k :: 0 <= k < i ==> Truthy(ds[k].id)
    ensures FirstMissingId(ds) == Some(i)
  {
  }

  /** The route as written: the guards, the header UPDATE, then one UPDATE per detail, each
      detail's id checked only when the loop reaches it. */
  method Update(db: Db, req: Request) returns (r: Outcome)
    ensures r == UpdateAsWritten(db, req)
  {
    if req.orderNo == [] || req.details.None? || req.details.value == [] {
      return Outcome(400, db);
    }
    var ds := req.details.value;
    var rows := HeaderUpdate(db.rows, req.orderNo, req.header);
    assert rows == RowsAfter(db.rows, req.orderNo, req.header, ds[..0]);
    for i := 0 to |ds|
      invariant rows == RowsAfter(db.rows, req.orderNo, req.header, ds[..i])
      invariant forall k :: 0 <= k < i ==> Truthy(ds[k].id)
    {
      if !Truthy(ds[i].id) {
        FirstMissingAt(ds, i);
        return Outcome(400, db.(rows := rows));
      }
      DetailUpdateStep(db.rows, req.orderNo, req.header, ds, i);
      rows := DetailUpdate(rows, ds[i]);
    }
    assert ds[..|ds|] == ds;
    r := Outcome(0, db.(rows := rows));
  }

  /** The route's outcomes: it rejects a falsy order number, missing details, or a detail with
      a falsy id; in the last case the header and the details before the first falsy id are
      already written. Otherwise it succeeds, and every row ends as `RowAfterMeaning` says. */
  lemma UpdateOutcomes(db: Db, req: Request, k: nat)
    ensures var r := UpdateAsWritten(db, req);
      (r.code == 400 <==> req.orderNo == [] || req.details.None? || req.details.value == []
                          || exists j :: 0 <= j < |req.details.value| && !Truthy(req.details.value[j].id))
      && (r.code == 400 && req.orderNo != [] && req.details.Some? && req.details.value != [] ==>
            exists j :: 0 <= j < |req.details.value| && !Truthy(req.details.value[j].id)
              && r.db.rows == RowsAfter(db.rows, req.orderNo, req.header, req.details.value[..j]))
      && (r.code == 0 && k < |db.rows| ==>
            r.db.rows[k] == RowAfter(db.rows[k], req.orderNo, req.header, req.details.value))
  {
  }

  /** The intended route is all or nothing: it rejects the same requests and then writes
      nothing; otherwise it agrees with the route as written. */
  lemma UpdateIntendedOutcomes(db: Db, req: Request)
    ensures var r := UpdateSpec(db, req);
      (r.code == 400 <==> UpdateAsWritten(db, req).code == 400)
      && (r.code == 400 ==> r.db == db)
      && (r.code == 0 ==> r == UpdateAsWritten(db, req))
  {
  }

  /** As written, the update can answer 400 and still have changed the order: with a detail
      lacking its id, the order-level fields are already written. */
  lemma PartialUpdateOnMissingId(db: Db, req: Request, k: nat, c: Column)
    requires req.orderNo != [] && req.details.Some? && req.details.value != []
    requires !Truthy(req.details.value[0].id)
    requires k < |db.rows| && db.rows[k].orderNo == req.orderNo
    requires c in HeaderColumns && !Field(req.header, c).Undefined?
    ensures var r := UpdateAsWritten(db, req);
      r.code == 400 && UpdateSpec(db, req) == Outcome(400, db)
      && Cell(r.db.rows[k].cells, c) == Field(req.header, c)
  {
    var ds := req.details.value;
    assert ds[..0] == [];
    RowAfterMeaning(db.rows[k], req.orderNo, req.header, [], c);
  }

  // ---------------------------------------------------------------- delete

  function Without(rows: seq<Row>, no: string): (r: seq<Row>)
    ensures forall k :: 0 <= k < |r| ==> r[k].orderNo != no
  {
    if rows == [] then []
    else
      var rest := Without(rows[..|rows| - 1], no);
      if rows[|rows| - 1].orderNo == no then rest else rest + [rows[|rows| - 1]]
  }

  /** `DELETE /delete/:orderNo`: 400 for a falsy number, 404 when no row has it, otherwise
      every row of the order is removed. */
  function DeleteSpec(db: Db, no: string): (r: Outcome)
    ensures r.code == 0 || r.code == 400 || r.code == 404
    ensures r.code != 0 ==> r.db == db
  {
    if no == [] then Outcome(400, db)
    else if !HasOrder(db.rows, no) then Outcome(404, db)
    else Outcome(0, db.(rows := Without(db.rows, no)))
  }

  /** A row survives the delete exactly when it belongs to another order, and the rows
      of other orders keep their order: the table is the rows of the deleted order plus
      the survivors. */
  lemma {:induction false} WithoutKeepsOthers(rows: seq<Row>, no: string)
    ensures forall x :: x in Without(rows, no) <==> x in rows && x.orderNo != no
    ensures |Without(rows, no)| + |LinesOf(rows, no)| == |rows|
  {
    if rows != [] {
      var init := rows[..|rows| - 1];
      WithoutKeepsOthers(init, no);
      assert rows == init + [rows[|rows| - 1]];
    }
  }

  lemma DeleteOutcomes(db: Db, no: string)
    ensures var r := DeleteSpec(db, no);
      (r.code == 404 <==> no != [] && forall k :: 0 <= k < |db.rows| ==> db.rows[k].orderNo != no)
      && (r.code == 0 ==> (forall x :: x in r.db.rows <==> x in db.rows && x.orderNo != no)
                          && |r.db.rows| == |db.rows| - |LinesOf(db.rows, no)|
                          && |LinesOf(db.rows, no)| >= 1)
  {
    WithoutKeepsOthers(db.rows, no);
    if no != [] && HasOrder(db.rows, no) {
      var k :| 0 <= k < |db.rows| && db.rows[k].orderNo == no;
      LinesOfHas(db.rows, no, k);
    }
  }

  lemma {:induction false} LinesOfHas(rows: seq<Row>, no: string, k: nat)
    requires k < |rows| && rows[k].orderNo == no
    ensures |LinesOf(rows, no)| >= 1
  {
    if k < |rows| - 1 {
      LinesOfHas(rows[..|rows| - 1], no, k);
    }
  }
}
