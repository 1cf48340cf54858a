/** The outbound-document routes of the back end. An outbound document is stored as lines of
    the table `出库单明细` that share a document number; the header fields are repeated on
    every line. The model covers the list's paging and ordering, the type chosen for each
    bound parameter, creating a document line by line inside a transaction, updating the
    header fields of all its lines, deleting it, reading it, and the statistics. */
module OutboundDocument {
  import opened Common
  import opened JsNumber
  import SortClause

  // ---------------------------------------------------------------- paging

  /** `Math.max(parseInt(v, 10) || fallback, 1)`. */
  function Clamped(v: Value, fallback: nat): (r: int)
    requires fallback >= 1
    ensures r >= 1
    ensures var p := ParseInt(v);
      (p.Some? && p.value >= 1 ==> r == p.value)
      && (p.None? || p.value == 0 ==> r == fallback)
      && (p.Some? && p.value < 0 ==> r == 1)
  {
    var p := ParseInt(v);
    if p.None? || p.value == 0 then fallback else Max(p.value, 1)
  }

  /** The page number, the page size and the number of rows skipped; the query's page and
      pageSize default to 1 and 20 when absent. */
  datatype Paging = Paging(page: int, size: int, offset: int)

  function PagingOf(page: Value, pageSize: Value): (r: Paging)
    ensures r.page >= 1 && r.size >= 1
    ensures r.offset == (r.page - 1) * r.size
  {
    var p := Clamped(page, 1);
    var s := Clamped(pageSize, 20);
    Paging(p, s, (p - 1) * s)
  }

  /** Without page and pageSize the list shows the first twenty lines, and a page size of
      0 falls back to twenty as well. */
  lemma PagingDefaults()
    ensures PagingOf(Undefined, Undefined) == Paging(1, 20, 0)
    ensures PagingOf(Str("3"), Str("0")) == Paging(3, 20, 40)
  {
    ParseOneDigit('0');
    ParseOneDigit('3');
    assert Clamped(Undefined, 1) == 1 && Clamped(Undefined, 20) == 20;
    assert Clamped(Str("3"), 1) == 3 && Clamped(Str("0"), 20) == 20;
  }

  lemma ParseOneDigit(c: char)
    requires IsDigit(c)
    ensures ParseIntText([c]) == Some(c as int - '0' as int)
  {
    ParseIntOfDigits("", [c], "");
    assert "" + [c] + "" == [c];
    assert [c][..0] == [];
  }

  /** A negative page or page size is raised to 1, unlike 0. */
  lemma PagingNegative()
    ensures PagingOf(Str("-2"), Str("-5")) == Paging(1, 1, 0)
  {
    assert TrimStart("-2") == "-2" && TrimStart("-5") == "-5";
    assert DigitPrefix("2") == "2" by { DigitPrefixOfDigits("2"); }
    assert DigitPrefix("5") == "5" by { DigitPrefixOfDigits("5"); }
    assert ParseIntText("-2") == Some(-2);
    assert ParseIntText("-5") == Some(-5);
  }

  // ---------------------------------------------------------------- ORDER BY

  const SortColumns: map<string, string> := map[
    "出库单号" := "出库单号", "出库日期" := "出库日期", "创建时间" := "创建时间", "更新时间" := "更新时间"]

  const DefaultSort: string := "创建时间"

  /** `sortMap[String(sortField)] || '创建时间'`; `inherited` reads the whitelist as written,
      finding inherited members too, the own-key reading is the intended one. */
  function SortFieldWith(sortField: Option<string>, inherited: bool): string
  {
    var mapped := SortClause.PropertyText(SortColumns, if sortField.Some? then sortField.value else "", inherited);
    if mapped.Some? && mapped.value != "" then mapped.value else DefaultSort
  }

  function SortField(sortField: Option<string>): string
  {
    SortFieldWith(sortField, false)
  }

  /** ASC exactly when the order lowers to `asc`; anything else, missing included, is DESC. */
  function SortDirection(sortOrder: Option<string>): (r: string)
    ensures r == "ASC" <==> SortClause.Direction(sortOrder) == "asc"
    ensures r == "ASC" || r == "DESC"
  {
    if SortClause.Direction(sortOrder) == "asc" then "ASC" else "DESC"
  }

  /** The list sorts by the whitelisted column of the field, and by the creation time for
      any other field; the direction is ascending for asc in any letter case and descending
      otherwise, so a missing order sorts newest first. */
  lemma SortWhitelisted(sortField: Option<string>, sortOrder: Option<string>)
    ensures var f := if sortField.Some? then sortField.value else "";
      (f in SortColumns ==> SortField(sortField) == SortColumns[f])
      && (f !in SortColumns ==> SortField(sortField) == DefaultSort)
      && DefaultSort in SortColumns
    ensures SortDirection(None) == "DESC" && SortDirection(Some("ASC")) == "ASC"
      && SortDirection(Some("asc")) == "ASC" && SortDirection(Some("desc")) == "DESC"
  {
    SortClause.AscSpellings();
    SortClause.DescSpellings();
    var f := if sortField.Some? then sortField.value else "";
    if f in SortColumns {
      assert SortColumns[f] != "";
    }
  }

  /** The sort column as written is the whitelisted one for every field but the inherited
      member names. */
  lemma SortFieldAsWrittenAgrees(sortField: Option<string>)
    requires sortField.None? || sortField.value !in SortClause.ObjectMembers
    ensures SortFieldWith(sortField, true) == SortField(sortField)
  {
    SortClause.ReadingsAgree(SortColumns, if sortField.Some? then sortField.value else "");
  }

  /** As written, `sortField=constructor` passes the lookup and orders by a text that is no
      column. */
  lemma SortFieldAsWrittenAcceptsInherited()
    ensures var c := SortFieldWith(Some("constructor"), true);
      c != DefaultSort && forall f :: f in SortColumns ==> c != SortColumns[f]
  {
    assert "constructor" !in SortColumns;
    SortClause.ConstructorText(SortColumns);
    assert "出库单号"[0] == '出' && "出库日期"[0] == '出' && "创建时间"[0] == '创' && "更新时间"[0] == '更';
  }

  // ---------------------------------------------------------------- bindParams

  /** A parameter value: a JSON value or a date. */
  datatype Param = Plain(v: Value) | Date(ms: int)

  datatype SqlType = NVarChar | Int | Float | Bit | DateTime2

  /** A bound parameter: its name, its SQL type and its value (`None` for SQL NULL). */
  datatype Binding = Binding(name: string, kind: SqlType, value: Option<Param>)

  predicate IsInteger(n: Num)
  {
    n.Finite? && n.v == n.v.Floor as real
  }

  /** The binding `bindParams` makes for one key. */
  function BindingOf(name: string, p: Param): (b: Binding)
    ensures b.name == name
    ensures b.value.None? <==> p == Plain(Null) || p == Plain(Undefined)
    ensures b.value.Some? ==> b.value.value == p
  {
    match p
    case Date(_) => Binding(name, DateTime2, Some(p))
    case Plain(v) =>
      match v
      case Null => Binding(name, NVarChar, None)
      case Undefined => Binding(name, NVarChar, None)
      case Number(n) => Binding(name, if IsInteger(n) then Int else Float, Some(p))
      case Bool(_) => Binding(name, Bit, Some(p))
      case Str(_) => Binding(name, NVarChar, Some(p))
  }

  /** The type follows the value's runtime type: null and undefined bind a NULL text, an
      integral number Int, any other number (NaN and the infinities too) Float, a boolean
      Bit, a date DateTime2 and text NVarChar. */
  lemma BindingKinds(name: string, p: Param)
    ensures var k := BindingOf(name, p).kind;
      (k == Int <==> p.Plain? && p.v.Number? && IsInteger(p.v.n))
      && (k == Float <==> p.Plain? && p.v.Number? && !IsInteger(p.v.n))
      && (k == Bit <==> p.Plain? && p.v.Bool?)
      && (k == DateTime2 <==> p.Date?)
      && (k == NVarChar <==> p.Plain? && (p.v.Null? || p.v.Undefined? || p.v.Str?))
  {
  }

  /** `bindParams`: every key of the parameter object, in order, gets the binding its value
      calls for. */
  method BindParams(params: seq<(string, Param)>) returns (bound: seq<Binding>)
    ensures |bound| == |params|
    ensures forall i :: 0 <= i < |params| ==> bound[i] == BindingOf(params[i].0, params[i].1)
  {
    bound := [];
    var i := 0;
    while i < |params|
      invariant 0 <= i <= |params|
      invariant |bound| == i
      invariant forall j :: 0 <= j < i ==> bound[j] == BindingOf(params[j].0, params[j].1)
    {
      bound := bound + [BindingOf(params[i].0, params[i].1)];
      i := i + 1;
    }
  }

  // ---------------------------------------------------------------- lines

  /** The columns of `出库单明细` besides the identity, the number and the two timestamps. */
  datatype Column =
    | OutDate | CustomerId | CustomerName | ProjectCode | ProductName | DrawingNo | ModelNo
    | Quantity | Unit | Price | Amount | OutboundType | Warehouse | Handler | Reviewer
    | ReviewStatus | Remarks | Creator | Updater

  const AllColumns: set<Column> := {
    OutDate, CustomerId, CustomerName, ProjectCode, ProductName, DrawingNo, ModelNo, Quantity, Unit,
    Price, Amount, OutboundType, Warehouse, Handler, Reviewer, ReviewStatus, Remarks, Creator, Updater}

  lemma EveryColumn(c: Column)
    ensures c in AllColumns
  {
  }

  function Name(c: Column): string
  {
    match c
    case OutDate => "出库日期"  case CustomerId => "客户ID"  case CustomerName => "客户名称"
    case ProjectCode => "项目编号"  case ProductName => "产品名称"  case DrawingNo => "产品图号"
    case ModelNo => "客户模号"  case Quantity => "出库数量"  case Unit => "单位"  case Price => "单价"
    case Amount => "金额"  case OutboundType => "出库类型"  case Warehouse => "仓库"
    case Handler => "经办人"  case Reviewer => "审核人"  case ReviewStatus => "审核状态"
    case Remarks => "备注"  case Creator => "创建人"  case Updater => "更新人"
  }

  /** How `create` fills a column: from the detail, then the header, with `||` (a line
      field) or `??` (the quantity); or from the header alone with `||` or `??`. */
  datatype Fill = LineField | LineQuantity | HeaderTruthy | HeaderNullish

  function FillOf(c: Column): Fill
  {
    match c
    case ProjectCode => LineField  case ProductName => LineField  case DrawingNo => LineField
    case ModelNo => LineField  case Remarks => LineField
    case Quantity => LineQuantity
    case Price => HeaderNullish  case Amount => HeaderNullish
    case _ => HeaderTruthy
  }

  predicate IsHeader(c: Column)
  {
    FillOf(c) == HeaderTruthy || FillOf(c) == HeaderNullish
  }

  /** A property read from a JSON object. */
  function Get(m: map<string, Value>, key: string): Value
  {
    if key in m then m[key] else Undefined
  }

  predicate Nullish(v: Value) { v == Null || v == Undefined }

  /** The value `create` binds for a column, from the header (the body) and one detail. */
  function Cell(header: map<string, Value>, d: map<string, Value>, c: Column): (r: Value)
    ensures r != Undefined
    ensures var v := Get(d, Name(c)); var h := Get(header, Name(c));
      (FillOf(c) == LineField ==>
         (Truthy(v) ==> r == v) && (!Truthy(v) && Truthy(h) ==> r == h) && (!Truthy(v) && !Truthy(h) ==> r == Null))
      && (FillOf(c) == LineQuantity ==>
         (!Nullish(v) ==> r == v) && (Nullish(v) && !Nullish(h) ==> r == h) && (Nullish(v) && Nullish(h) ==> r == Null))
      && (FillOf(c) == HeaderTruthy ==> r == (if Truthy(h) then h else Null))
      && (FillOf(c) == HeaderNullish ==> r == (if Nullish(h) then Null else h))
  {
    var h := Get(header, Name(c));
    var v := Get(d, Name(c));
    match FillOf(c)
    case LineField => if Truthy(v) then v else if Truthy(h) then h else Null
    case LineQuantity => if !Nullish(v) then v else if !Nullish(h) then h else Null
    case HeaderNullish => if Nullish(h) then Null else h
    case HeaderTruthy => if Truthy(h) then h else Null
  }

  /** A stored line: its identity, its document number and its other columns (the two
      timestamps are not modelled). */
  datatype Line = Line(id: int, no: string, cells: map<Column, Value>)

  datatype Table = Table(lines: seq<Line>, nextId: int)

  /** A column of a line, NULL when it has none. */
  function At(l: Line, c: Column): Value
  {
    if c in l.cells then l.cells[c] else Null
  }

  /** The line inserted for one detail. */
  function NewLine(no: string, header: map<string, Value>, d: map<string, Value>, id: int): (l: Line)
    ensures l.id == id && l.no == no
    ensures forall c :: c in l.cells && At(l, c) == Cell(header, d, c)
  {
    assert forall c: Column :: c in AllColumns by {
      forall c: Column ensures c in AllColumns { EveryColumn(c); }
    }
    Line(id, no, map c | c in AllColumns :: Cell(header, d, c))
  }

  /** The lines inserted for the details, with consecutive identities. */
  function NewLines(no: string, header: map<string, Value>, ds: seq<map<string, Value>>, firstId: int): (r: seq<Line>)
    ensures |r| == |ds|
    ensures forall i :: 0 <= i < |ds| ==> r[i] == NewLine(no, header, ds[i], firstId + i)
    ensures forall i :: 0 <= i < |ds| ==> r[i].id == firstId + i && r[i].no == no
  {
    seq(|ds|, i requires 0 <= i < |ds| => NewLine(no, header, ds[i], firstId + i))
  }

  /** Every line has all columns, identities below the next one and increasing along the
      table, which is therefore the order by id. */
  predicate Valid(t: Table)
  {
    (forall i :: 0 <= i < |t.lines| ==> t.lines[i].id < t.nextId) && Increasing(t.lines)
  }

  predicate Increasing(lines: seq<Line>)
  {
    forall i, j :: 0 <= i < j < |lines| ==> lines[i].id < lines[j].id
  }

  predicate SameHeader(a: Line, b: Line)
  {
    forall c :: IsHeader(c) ==> At(a, c) == At(b, c)
  }

  /** The lines of one document agree on every header field. */
  predicate Consistent(lines: seq<Line>)
  {
    forall i, j :: 0 <= i < |lines| && 0 <= j < |lines| && lines[i].no == lines[j].no ==>
      SameHeader(lines[i], lines[j])
  }

  predicate HasNo(lines: seq<Line>, no: string)
  {
    exists i :: 0 <= i < |lines| && lines[i].no == no
  }

  /** The document number of a request, `String(x || '').trim()`: the caller passes the text
      of a truthy value and `None` for a falsy one. */
  function DocNo(text: Option<string>): (r: string)
    ensures text.None? ==> r == ""
  {
    if text.Some? then Trim(text.value) else ""
  }

  // ---------------------------------------------------------------- create

  /** One element of `details`: an object's fields, or null or undefined, whose property
      read throws. A number or text element reads every field as undefined and is passed as
      an object without fields. */
  datatype Item = Fields(m: map<string, Value>) | Nothing

  /** The body of a create request: the text of its document number, its fields, and its
      `details` when that is an array. */
  datatype CreateBody = CreateBody(no: Option<string>, fields: map<string, Value>, details: Option<seq<Item>>)

  /** `Array.isArray(body.details) ? body.details : [body]`. */
  function Items(body: CreateBody): (r: seq<Item>)
    ensures body.details.None? ==> r == [Fields(body.fields)]
  {
    if body.details.Some? then body.details.value else [Fields(body.fields)]
  }

  function Objects(items: seq<Item>): (r: seq<map<string, Value>>)
    requires forall i :: 0 <= i < |items| ==> items[i].Fields?
    ensures |r| == |items| && forall i :: 0 <= i < |items| ==> r[i] == items[i].m
  {
    seq(|items|, i requires 0 <= i < |items| => items[i].m)
  }

  /** Created (200), a missing number or no details (400), a number in use (409), a
      failed statement inside the transaction (500), or done. */
  datatype Reply = Created(no: string) | MissingNo | NoDetails | Exists | Failed | Done

  /** `POST /`: the lines are inserted one by one inside a transaction; a number already in
      use and a failing line roll everything back. */
  method Create(table: Table, body: CreateBody) returns (reply: Reply, t: Table)
    ensures var no := DocNo(body.no); var items := Items(body);
      (reply == MissingNo <==> no == "")
      && (reply == NoDetails <==> no != "" && items == [])
      && (reply == Exists <==> no != "" && items != [] && HasNo(table.lines, no))
      && (reply == Failed <==> no != "" && items != [] && !HasNo(table.lines, no)
                               && exists k :: 0 <= k < |items| && items[k].Nothing?)
      && (reply.Created? ==> reply.no == no && no != "" && !HasNo(table.lines, no)
                             && (forall k :: 0 <= k < |items| ==> items[k].Fields?)
                             && t == Table(table.lines + NewLines(no, body.fields, Objects(items), table.nextId),
                                           table.nextId + |items|))
      && (!reply.Created? ==> t == table)
      && reply != Done
  {
    var no := DocNo(body.no);
    if no == "" {
      return MissingNo, table;
    }
    var items := Items(body);
    if |items| == 0 {
      return NoDetails, table;
    }
    if exists k :: 0 <= k < |table.lines| && table.lines[k].no == no {
      return Exists, table;
    }
    var failed, lines := InsertLines(table, no, body.fields, items);
    if failed {
      // the transaction is rolled back
      return Failed, table;
    }
    return Created(no), Table(lines, table.nextId + |items|);
  }

  /** The insertion loop of `create`: one line per detail, until a detail that is not an
      object makes the insert fail. */
  method InsertLines(table: Table, no: string, fields: map<string, Value>, items: seq<Item>)
    returns (failed: bool, lines: seq<Line>)
    ensures failed <==> exists k :: 0 <= k < |items| && items[k].Nothing?
    ensures !failed ==> (forall k :: 0 <= k < |items| ==> items[k].Fields?)
                        && lines == table.lines + NewLines(no, fields, Objects(items), table.nextId)
  {
    lines := table.lines;
    var i := 0;
    while i < |items|
      invariant 0 <= i <= |items|
      invariant forall k :: 0 <= k < i ==> items[k].Fields?
      invariant lines == table.lines + NewLines(no, fields, Objects(items[..i]), table.nextId)
    {
      if items[i].Nothing? {
        return true, [];
      }
      InsertStep(no, fields, items, i, table.nextId);
      lines := lines + [NewLine(no, fields, items[i].m, table.nextId + i)];
      i := i + 1;
    }
    assert items[..i] == items;
    failed := false;
  }

  /** One more detail adds one more line, with the next identity. */
  lemma InsertStep(no: string, fields: map<string, Value>, items: seq<Item>, i: nat, firstId: int)
    requires i < |items| && forall k :: 0 <= k <= i ==> items[k].Fields?
    ensures NewLines(no, fields, Objects(items[..i + 1]), firstId)
            == NewLines(no, fields, Objects(items[..i]), firstId) + [NewLine(no, fields, items[i].m, firstId + i)]
  {
    var a := Objects(items[..i]);
    var b := Objects(items[..i + 1]);
    var x := NewLines(no, fields, a, firstId);
    var y := NewLines(no, fields, b, firstId);
    var z := x + [NewLine(no, fields, items[i].m, firstId + i)];
    assert |y| == |z|;
    forall k | 0 <= k < |y|
      ensures y[k] == z[k]
    {
      if k < i {
        assert b[k] == a[k] && z[k] == x[k];
      } else {
        assert b[k] == items[i].m;
      }
    }
  }

  /** Without a `details` array the body is the only line, and its line fields are the
      body's own values or NULL. */
  lemma SingleLineFromBody(no: string, fields: map<string, Value>, id: int)
    ensures var ls := NewLines(no, fields, Objects(Items(CreateBody(Some(no), fields, None))), id);
      |ls| == 1 && ls[0].id == id && ls[0].no == no
      && forall c :: FillOf(c) == LineField ==>
           At(ls[0], c) == (if Truthy(Get(fields, Name(c))) then Get(fields, Name(c)) else Null)
  {
  }

  /** Appending the lines of a number not yet in use keeps the table valid and the lines of
      every document in agreement on the header fields: all new lines take their header
      fields from the body alone. */
  lemma CreatedLinesKeepInvariants(t: Table, no: string, header: map<string, Value>, ds: seq<map<string, Value>>)
    requires Valid(t) && Consistent(t.lines) && !HasNo(t.lines, no)
    ensures Valid(Table(t.lines + NewLines(no, header, ds, t.nextId), t.nextId + |ds|))
    ensures Consistent(t.lines + NewLines(no, header, ds, t.nextId))
  {
    CreatedLinesIncrease(t, no, header, ds);
    CreatedLinesAgree(t, no, header, ds);
  }

  /** New lines take the next ids, above every id already in the table. */
  lemma CreatedLinesIncrease(t: Table, no: string, header: map<string, Value>, ds: seq<map<string, Value>>)
    requires Valid(t)
    ensures Valid(Table(t.lines + NewLines(no, header, ds, t.nextId), t.nextId + |ds|))
  {
    var added := NewLines(no, header, ds, t.nextId);
    var lines := t.lines + added;
    forall i, j | 0 <= i < j < |lines| ensures lines[i].id < lines[j].id {
      if j >= |t.lines| {
        assert lines[j].id == added[j - |t.lines|].id;
        if i >= |t.lines| { assert lines[i].id == added[i - |t.lines|].id; }
      }
    }
    forall i | 0 <= i < |lines| ensures lines[i].id < t.nextId + |ds| {
      if i >= |t.lines| { assert lines[i].id == added[i - |t.lines|].id; }
    }
  }

  /** Old and new lines never share a number, and the new lines share their header. */
  lemma CreatedLinesAgree(t: Table, no: string, header: map<string, Value>, ds: seq<map<string, Value>>)
    requires Consistent(t.lines) && !HasNo(t.lines, no)
    ensures Consistent(t.lines + NewLines(no, header, ds, t.nextId))
  {
    var added := NewLines(no, header, ds, t.nextId);
    var lines := t.lines + added;
    forall i, j | 0 <= i < |lines| && 0 <= j < |lines| && lines[i].no == lines[j].no
      ensures SameHeader(lines[i], lines[j])
    {
      if i < |t.lines| && j < |t.lines| {
        assert lines[i] == t.lines[i] && lines[j] == t.lines[j];
      } else if i >= |t.lines| && j >= |t.lines| {
        assert lines[i] == added[i - |t.lines|] && lines[j] == added[j - |t.lines|];
        NewLinesShareHeader(no, header, ds, t.nextId, i - |t.lines|, j - |t.lines|);
      } else {
        assert false;
      }
    }
  }

  /** Any two lines inserted for the same body agree on the header fields. */
  lemma NewLinesShareHeader(no: string, header: map<string, Value>, ds: seq<map<string, Value>>, firstId: int,
                            i: nat, j: nat)
    requires i < |ds| && j < |ds|
    ensures SameHeader(NewLines(no, header, ds, firstId)[i], NewLines(no, header, ds, firstId)[j])
  {
    var a := NewLine(no, header, ds[i], firstId + i);
    var b := NewLine(no, header, ds[j], firstId + j);
    forall c | IsHeader(c) ensures At(a, c) == At(b, c) {
      assert At(a, c) == Cell(header, ds[i], c);
      assert At(b, c) == Cell(header, ds[j], c);
    }
  }

  // ---------------------------------------------------------------- update

  /** The columns `update` may change: the header fields but the creator, and `备注`. */
  predicate Updatable(c: Column)
  {
    (IsHeader(c) && c != Creator) || c == Remarks
  }

  /** `COALESCE(@c, c)` with `@c` bound to `data.c ?? null`. */
  function Edited(l: Line, data: map<string, Value>): (r: Line)
    ensures r.id == l.id && r.no == l.no
    ensures forall c :: At(r, c) == Coalesce(Get(data, Name(c)), c, At(l, c))
  {
    assert forall c: Column :: c in AllColumns by {
      forall c: Column ensures c in AllColumns { EveryColumn(c); }
    }
    l.(cells := map c | c in AllColumns :: Coalesce(Get(data, Name(c)), c, At(l, c)))
  }

  /** The new value of column `c` of an edited line. */
  function Coalesce(given: Value, c: Column, prior: Value): Value
  {
    if Updatable(c) && !Nullish(given) then given else prior
  }

  /** Editing two lines that agree on the header fields keeps them in agreement. */
  lemma EditedSameHeader(a: Line, b: Line, data: map<string, Value>)
    requires SameHeader(a, b)
    ensures SameHeader(Edited(a, data), Edited(b, data))
  {
    forall c | IsHeader(c) ensures At(Edited(a, data), c) == At(Edited(b, data), c) {
      assert At(a, c) == At(b, c);
    }
  }

  /** `PUT /update`: the number is `body.documentNo`; every line with it is edited, and no
      line having it is no error. */
  function Update(t: Table, no: Option<string>, data: map<string, Value>): (r: (Reply, Table))
  {
    var n := DocNo(no);
    if n == "" then (MissingNo, t)
    else (Done, t.(lines := EditLines(t.lines, n, data)))
  }

  /** Every line of number `n` edited. */
  function EditLines(lines: seq<Line>, n: string, data: map<string, Value>): (r: seq<Line>)
    ensures |r| == |lines|
    ensures forall i :: 0 <= i < |lines| ==> r[i] == if lines[i].no == n then Edited(lines[i], data) else lines[i]
  {
    seq(|lines|, i requires 0 <= i < |lines| => if lines[i].no == n then Edited(lines[i], data) else lines[i])
  }

  /** 400 without change exactly for a blank number; otherwise done, with no 404 for an
      unknown number. On the document's lines a column `update` may change takes a given
      value that is neither null nor undefined, every other column keeps its value, and
      the lines of other documents stay as they were. */
  lemma UpdateOutcomes(t: Table, no: Option<string>, data: map<string, Value>)
    ensures var (reply, t') := Update(t, no, data); var n := DocNo(no);
      (reply == MissingNo <==> n == "")
      && (reply == MissingNo ==> t' == t)
      && (reply != MissingNo ==>
            reply == Done && t'.nextId == t.nextId && |t'.lines| == |t.lines|
            && forall i :: 0 <= i < |t.lines| ==>
                 (t'.lines[i].id == t.lines[i].id && t'.lines[i].no == t.lines[i].no)
                 && (t.lines[i].no != n ==> t'.lines[i] == t.lines[i])
                 && (t.lines[i].no == n ==> forall c ::
                       At(t'.lines[i], c) ==
                         (if Updatable(c) && !Nullish(Get(data, Name(c))) then Get(data, Name(c)) else At(t.lines[i], c))))
  {
  }

  /** Update keeps the table valid and the lines of every document in agreement. */
  lemma UpdateKeepsInvariants(t: Table, no: Option<string>, data: map<string, Value>)
    requires Valid(t) && Consistent(t.lines)
    ensures Valid(Update(t, no, data).1) && Consistent(Update(t, no, data).1.lines)
  {
    var n := DocNo(no);
    if n != "" {
      var ls := EditLines(t.lines, n, data);
      assert Increasing(ls) by {
        forall i, j | 0 <= i < j < |ls| ensures ls[i].id < ls[j].id {
          assert ls[i].id == t.lines[i].id && ls[j].id == t.lines[j].id;
        }
      }
      forall i, j | 0 <= i < |ls| && 0 <= j < |ls| && ls[i].no == ls[j].no
        ensures SameHeader(ls[i], ls[j])
      {
        assert SameHeader(t.lines[i], t.lines[j]);
        if t.lines[i].no == n {
          EditedSameHeader(t.lines[i], t.lines[j], data);
        }
      }
    }
  }

  // ---------------------------------------------------------------- delete and detail

  /** The lines whose number is `no` (`keep`) or is not (`!keep`), in table order. */
  function Filter(lines: seq<Line>, no: string, keep: bool): (r: seq<Line>)
    ensures forall l :: l in r <==> l in lines && (l.no == no) == keep
  {
    if lines == [] then []
    else if (lines[0].no == no) == keep then [lines[0]] + Filter(lines[1..], no, keep)
    else Filter(lines[1..], no, keep)
  }

  /** `DELETE /delete`. */
  function Delete(t: Table, no: Option<string>): (r: (Reply, Table))
  {
    var n := DocNo(no);
    if n == "" then (MissingNo, t) else (Done, t.(lines := Filter(t.lines, n, false)))
  }

  /** 400 without change exactly for a blank number; otherwise no line of the document is
      left and every other line stays. */
  lemma DeleteOutcomes(t: Table, no: Option<string>)
    ensures var (reply, t') := Delete(t, no); var n := DocNo(no);
      (reply == MissingNo <==> n == "")
      && (reply == MissingNo ==> t' == t)
      && (reply != MissingNo ==>
            reply == Done && t'.nextId == t.nextId && !HasNo(t'.lines, n)
            && forall l :: l in t.lines && l.no != n ==> l in t'.lines)
  {
    var (reply, t') := Delete(t, no);
    if reply != MissingNo {
      var n := DocNo(no);
      forall i | 0 <= i < |t'.lines| ensures t'.lines[i].no != n {
        assert t'.lines[i] in t'.lines;
      }
    }
  }

  /** Delete keeps the table valid and the lines of every document in agreement. */
  lemma DeleteKeepsInvariants(t: Table, no: Option<string>)
    requires Valid(t) && Consistent(t.lines)
    ensures Valid(Delete(t, no).1) && Consistent(Delete(t, no).1.lines)
  {
    var n := DocNo(no);
    if n != "" {
      FilterKeeps(t, n, false);
    }
  }

  /** Filtering keeps the order of the kept lines, so a valid, consistent table stays so. */
  lemma FilterKeeps(t: Table, no: string, keep: bool)
    requires Valid(t) && Consistent(t.lines)
    ensures Valid(t.(lines := Filter(t.lines, no, keep))) && Consistent(Filter(t.lines, no, keep))
  {
    var r := Filter(t.lines, no, keep);
    FilterIncreasing(t.lines, no, keep);
    forall i | 0 <= i < |r| ensures r[i].id < t.nextId {
      assert r[i] in r;
    }
    forall i, j | 0 <= i < |r| && 0 <= j < |r| && r[i].no == r[j].no ensures SameHeader(r[i], r[j]) {
      assert r[i] in r && r[j] in r;
      var a :| 0 <= a < |t.lines| && t.lines[a] == r[i];
      var b :| 0 <= b < |t.lines| && t.lines[b] == r[j];
      assert SameHeader(t.lines[a], t.lines[b]);
    }
  }

  /** The reply of `GET /detail`: a blank number, no document (`data: null`), or the first
      line as the header with all lines of the document. */
  datatype Detail = NoNumber | NoDocument | Document(header: Line, details: seq<Line>)

  function DetailOf(t: Table, no: Option<string>): (r: Detail)
    ensures r.Document? ==> r.details != [] && r.header == r.details[0]
  {
    var n := DocNo(no);
    if n == "" then NoNumber
    else
      var ls := Filter(t.lines, n, true);
      if ls == [] then NoDocument else Document(ls[0], ls)
  }

  /** The detail holds exactly the document's lines, in increasing id order, and there is
      no document exactly when no line has the number. */
  lemma DetailOutcomes(t: Table, no: Option<string>)
    requires Valid(t)
    ensures var r := DetailOf(t, no); var n := DocNo(no);
      (r == NoNumber <==> n == "")
      && (r == NoDocument <==> n != "" && !HasNo(t.lines, n))
      && (r.Document? ==> (forall l :: l in r.details <==> l in t.lines && l.no == n) && Increasing(r.details))
  {
    var n := DocNo(no);
    if n != "" {
      var ls := Filter(t.lines, n, true);
      if ls != [] {
        assert ls[0] in t.lines;
        var k :| 0 <= k < |t.lines| && t.lines[k] == ls[0];
        assert t.lines[k].no == n;
      }
      if HasNo(t.lines, n) {
        var k :| 0 <= k < |t.lines| && t.lines[k].no == n;
        assert t.lines[k] in ls;
      }
      FilterIncreasing(t.lines, n, true);
      var r := DetailOf(t, no);
      if r.Document? {
        assert r.details == ls;
      }
    }
  }

  lemma {:induction false} FilterIncreasing(lines: seq<Line>, no: string, keep: bool)
    requires Increasing(lines)
    ensures Increasing(Filter(lines, no, keep))
  {
    if lines != [] {
      var t := lines[1..];
      assert Increasing(t) by {
        forall i, j | 0 <= i < j < |t| ensures t[i].id < t[j].id {
          assert t[i] == lines[i + 1] && t[j] == lines[j + 1];
        }
      }
      FilterIncreasing(t, no, keep);
      var w := Filter(t, no, keep);
      if (lines[0].no == no) == keep {
        forall l | l in w ensures lines[0].id < l.id {
          var k :| 0 <= k < |t| && t[k] == l;
          assert lines[k + 1] == l;
        }
        ConsIncreasing(lines[0], w);
        assert Filter(lines, no, keep) == [lines[0]] + w;
      } else {
        assert Filter(lines, no, keep) == w;
      }
    }
  }

  lemma ConsIncreasing(x: Line, w: seq<Line>)
    requires Increasing(w) && forall l :: l in w ==> x.id < l.id
    ensures Increasing([x] + w)
  {
    var r := [x] + w;
    forall i, j | 0 <= i < j < |r| ensures r[i].id < r[j].id {
      assert r[j] == w[j - 1] && w[j - 1] in w;
      if i > 0 { assert r[i] == w[i - 1]; }
    }
  }

  // ---------------------------------------------------------------- statistics

  /** The number of lines whose status is `s`. */
  function LinesWithStatus(lines: seq<Line>, s: string): (n: nat)
    ensures n <= |lines|
  {
    if lines == [] then 0
    else (if At(lines[0], ReviewStatus) == Str(s) then 1 else 0) + LinesWithStatus(lines[1..], s)
  }

  function Numbers(lines: seq<Line>): set<string>
  {
    set i | 0 <= i < |lines| :: lines[i].no
  }

  function NumbersWithStatus(lines: seq<Line>, s: string): set<string>
  {
    set i | 0 <= i < |lines| && At(lines[i], ReviewStatus) == Str(s) :: lines[i].no
  }

  datatype Statistics = Statistics(total: nat, pending: nat, approved: nat, rejected: nat)

  /** `GET /statistics` as written: the total counts distinct numbers, the three status
      counts count lines. */
  function StatisticsAsWritten(lines: seq<Line>): (r: Statistics)
    ensures r.pending <= |lines| && r.approved <= |lines| && r.rejected <= |lines|
  {
    Statistics(|Numbers(lines)|, LinesWithStatus(lines, "待审核"), LinesWithStatus(lines, "已审核"),
               LinesWithStatus(lines, "已驳回"))
  }

  /** The statistics counting documents throughout. */
  function StatisticsOf(lines: seq<Line>): (r: Statistics)
  {
    Statistics(|Numbers(lines)|, |NumbersWithStatus(lines, "待审核")|, |NumbersWithStatus(lines, "已审核")|,
               |NumbersWithStatus(lines, "已驳回")|)
  }

  /** As written, a single document of two pending lines counts one document, two of them
      pending. */
  lemma StatisticsAsWrittenCountsLines()
    ensures var l := Line(1, "CK1", map[ReviewStatus := Str("待审核")]);
      var s := StatisticsAsWritten([l, l.(id := 2)]);
      s.total == 1 && s.pending == 2
  {
    var l := Line(1, "CK1", map[ReviewStatus := Str("待审核")]);
    var lines := [l, l.(id := 2)];
    assert Numbers(lines) == {"CK1"} by {
      assert lines[0].no == "CK1" && lines[1].no == "CK1";
    }
    assert LinesWithStatus(lines[1..], "待审核") == 1 by {
      assert lines[1..][1..] == [];
    }
  }

  /** Counting documents, no status count exceeds the number of documents, and in a
      consistent table the three counts never add up to more than the documents. */
  lemma StatisticsBounded(lines: seq<Line>)
    ensures var s := StatisticsOf(lines);
      s.pending <= s.total && s.approved <= s.total && s.rejected <= s.total
    ensures Consistent(lines) ==> var s := StatisticsOf(lines);
      s.pending + s.approved + s.rejected <= s.total
  {
    var p := NumbersWithStatus(lines, "待审核");
    var a := NumbersWithStatus(lines, "已审核");
    var j := NumbersWithStatus(lines, "已驳回");
    var all := Numbers(lines);
    assert p <= all && a <= all && j <= all;
    SubsetSize(p, all);
    SubsetSize(a, all);
    SubsetSize(j, all);
    if Consistent(lines) {
      assert "待审核"[0] != "已审核"[0] && "待审核"[0] != "已驳回"[0] && "已审核"[2] != "已驳回"[2];
      assert IsHeader(ReviewStatus);
      forall x | x in p ensures x !in a && x !in j {
        var i :| 0 <= i < |lines| && At(lines[i], ReviewStatus) == Str("待审核") && lines[i].no == x;
        forall k | 0 <= k < |lines| && lines[k].no == x ensures At(lines[k], ReviewStatus) == Str("待审核") {
          assert SameHeader(lines[i], lines[k]);
        }
      }
      forall x | x in a ensures x !in j {
        var i :| 0 <= i < |lines| && At(lines[i], ReviewStatus) == Str("已审核") && lines[i].no == x;
        forall k | 0 <= k < |lines| && lines[k].no == x ensures At(lines[k], ReviewStatus) == Str("已审核") {
          assert SameHeader(lines[i], lines[k]);
        }
      }
      assert p * a == {} && p * j == {} && a * j == {};
      assert |p + a| == |p| + |a|;
      assert |p + a + j| == |p + a| + |j|;
      SubsetSize(p + a + j, all);
    }
  }

  lemma {:induction false} SubsetSize<T>(a: set<T>, b: set<T>)
    requires a <= b
    ensures |a| <= |b|
    decreases |b|
  {
    if b != {} {
      var x :| x in b;
      SubsetSize(a - {x}, b - {x});
    }
  }
}
