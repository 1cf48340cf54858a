/** The goods routes of the back end: the list's ORDER BY clause, creating a goods row (with
    the project and production-task rows it needs), deleting one row or a batch, the routing
    of the two delete routes, and the largest serial of a category's project codes. Tables
    are sequences of rows. */
module Goods {
  import opened Common
  import opened JsNumber
  import SortClause
  import DocNumber

  // ---------------------------------------------------------------- ORDER BY

  const SortColumns: map<string, string> := map[
    "projectCode" := "g.项目编号", "productName" := "g.产品名称", "productDrawing" := "g.产品图号",
    "customerModelNo" := "p.客户模号", "customerName" := "c.客户名称"]

  /** A whitelisted column and its direction, or none: the goods id then orders alone. */
  datatype Order = ByColumn(column: string, direction: string) | ById

  /** The list's ordering; `inherited` reads the whitelist as written, finding inherited
      members too; the own-key reading is the intended one. */
  function OrderWith(sortField: Option<string>, sortOrder: Option<string>, inherited: bool): Order
  {
    var mapped :=
      if sortField.None? || sortField.value == "" then None
      else SortClause.PropertyText(SortColumns, sortField.value, inherited);
    var dir := SortClause.Direction(sortOrder);
    if mapped.Some? && (dir == "asc" || dir == "desc") then ByColumn(mapped.value, ToUpper(dir)) else ById
  }

  function OrderBy(sortField: Option<string>, sortOrder: Option<string>): Order
  {
    OrderWith(sortField, sortOrder, false)
  }

  const IdDescending: string := "g.货物ID DESC"

  /** The ORDER BY text: the chosen column first, the goods id descending always last. */
  function ClauseText(o: Order): (t: string)
    ensures EndsWith(t, IdDescending)
  {
    if o.ByColumn? then "ORDER BY " + o.column + " " + o.direction + ", " + IdDescending
    else "ORDER BY " + IdDescending
  }

  /** The list orders by a column exactly when the field is one of the five sortable
      fields and the direction is asc or desc in any letter case, and then by that field's
      column. */
  lemma OrderByWhitelisted(sortField: Option<string>, sortOrder: Option<string>)
    ensures var o := OrderBy(sortField, sortOrder);
      var dir := SortClause.Direction(sortOrder);
      o.ByColumn? <==> sortField.Some? && sortField.value in SortColumns && (dir == "asc" || dir == "desc")
    ensures var o := OrderBy(sortField, sortOrder);
      o.ByColumn? ==> sortField.Some? && sortField.value in SortColumns && o.column == SortColumns[sortField.value]
  {
    assert "" !in SortColumns;
  }

  /** The chosen column comes first with ASC or DESC, and the goods id descending always
      breaks ties. */
  lemma OrderByClauseText(sortField: Option<string>, sortOrder: Option<string>)
    ensures var o := OrderBy(sortField, sortOrder);
      var dir := SortClause.Direction(sortOrder);
      o.ByColumn? ==> ClauseText(o) == "ORDER BY " + o.column + " " + (if dir == "asc" then "ASC" else "DESC") + ", " + IdDescending
    ensures var o := OrderBy(sortField, sortOrder);
      !o.ByColumn? ==> ClauseText(o) == "ORDER BY g.货物ID DESC"
  {
    SortClause.UpperDirections();
  }

  /** The ordering as written is the whitelisted one for every field but the inherited
      member names. */
  lemma OrderByAsWrittenAgrees(sortField: Option<string>, sortOrder: Option<string>)
    requires sortField.None? || sortField.value !in SortClause.ObjectMembers
    ensures OrderWith(sortField, sortOrder, true) == OrderBy(sortField, sortOrder)
  {
    if sortField.Some? {
      SortClause.ReadingsAgree(SortColumns, sortField.value);
    }
  }

  /** As written, `sortField=constructor&sortOrder=desc` passes the lookup and puts a text
      that is no column into the clause. */
  lemma OrderByAsWrittenAcceptsInherited()
    ensures var o := OrderWith(Some("constructor"), Some("desc"), true);
      o.ByColumn? && forall f :: f in SortColumns ==> o.column != SortColumns[f]
  {
    SortClause.DescSpellings();
    assert "constructor" !in SortColumns;
    SortClause.ConstructorText(SortColumns);
    assert "g.项目编号"[0] == 'g' && "g.产品名称"[0] == 'g' && "g.产品图号"[0] == 'g';
    assert "p.客户模号"[0] == 'p' && "c.客户名称"[0] == 'c';
  }

  // ---------------------------------------------------------------- tables

  /** A row of `货物信息`; `code` is the nullable project code, `isNew` the nullable
      `IsNew` bit. */
  datatype GoodsRow = GoodsRow(
    id: int, code: Option<string>, drawing: Value, name: Value, category: Value, remarks: Value,
    isNew: Option<bool>)

  /** A row of `项目管理`: code, customer id, customer mould number. */
  datatype Project = Project(code: string, customer: Option<int>, modelNo: Value)

  datatype CustomerRow = CustomerRow(id: int, name: string)

  /** The goods table with its next identity value, the projects, the project codes of the
      production tasks, and the customers. */
  datatype Db = Db(goods: seq<GoodsRow>, nextId: int, projects: seq<Project>, tasks: seq<string>,
                   customers: seq<CustomerRow>)

  datatype Reply = Created(id: int) | BlankCode | DuplicateCode | Removed | NoGoods | BadIds | Failed
  datatype Outcome = Outcome(reply: Reply, db: Db)

  function OrNull(v: Value): Value
  {
    if Truthy(v) then v else Null
  }

  predicate HasCode(goods: seq<GoodsRow>, code: string)
  {
    exists k :: 0 <= k < |goods| && goods[k].code == Some(code)
  }

  predicate HasProject(projects: seq<Project>, code: string)
  {
    exists k :: 0 <= k < |projects| && projects[k].code == code
  }

  /** Ids are distinct and below the next identity value, and no project code is shared
      by two goods rows. */
  predicate Valid(db: Db)
  {
    (forall k :: 0 <= k < |db.goods| ==> db.goods[k].id < db.nextId)
    && (forall i, j :: 0 <= i < j < |db.goods| ==> db.goods[i].id != db.goods[j].id)
    && (forall i, j :: 0 <= i < j < |db.goods| && db.goods[i].code.Some? ==> db.goods[i].code != db.goods[j].code)
  }

  // ---------------------------------------------------------------- create

  datatype GoodsForm = GoodsForm(
    projectCode: Value, drawing: Value, name: Value, category: Value, remarks: Value,
    customerName: Value, modelNo: Value)

  /** `SELECT 客户ID FROM 客户信息 WHERE 客户名称 = @customerName`, first row. */
  function FindCustomer(customers: seq<CustomerRow>, name: Value): (r: Option<int>)
    ensures r.Some? ==> exists k :: 0 <= k < |customers| && Str(customers[k].name) == name && customers[k].id == r.value
    ensures r.None? ==> forall k :: 0 <= k < |customers| ==> Str(customers[k].name) != name
  {
    if |customers| == 0 then None
    else if Str(customers[0].name) == name then Some(customers[0].id)
    else
      var r := FindCustomer(customers[1..], name);
      assert forall k :: 1 <= k < |customers| ==> customers[k] == customers[1..][k - 1];
      r
  }

  /** Sets the customer and mould number of the projects with the code. */
  function SetProjectCustomer(projects: seq<Project>, code: string, customer: int, modelNo: Value): (r: seq<Project>)
    ensures |r| == |projects|
    ensures forall k :: 0 <= k < |projects| ==>
      r[k] == if projects[k].code == code then Project(code, Some(customer), modelNo) else projects[k]
  {
    seq(|projects|, k requires 0 <= k < |projects| =>
      if projects[k].code == code then Project(code, Some(customer), modelNo) else projects[k])
  }

  /** The `POST /` route, step by step: validate the code, reject a code already used, look
      up the customer, insert or update the project, insert the goods row and set its
      `IsNew`, then add a production task when the code has none. A code that is not text
      makes `trim` throw, which answers 500. */
  function Create(db: Db, f: GoodsForm): (out: Outcome)
  {
    if !Truthy(f.projectCode) then Outcome(BlankCode, db)
    else if !f.projectCode.Str? then Outcome(Failed, db)
    else if Trim(f.projectCode.s) == "" then Outcome(BlankCode, db)
    else
      var code := f.projectCode.s;
      if HasCode(db.goods, code) then Outcome(DuplicateCode, db)
      else
        var customer := if Truthy(f.customerName) then FindCustomer(db.customers, f.customerName) else None;
        var projects :=
          if !HasProject(db.projects, code) then
            db.projects + [if customer.Some? && customer.value != 0 then Project(code, customer, OrNull(f.modelNo))
                           else Project(code, None, Null)]
          else if customer.Some? then SetProjectCustomer(db.projects, code, customer.value, OrNull(f.modelNo))
          else db.projects;
        var row := GoodsRow(db.nextId, Some(code), OrNull(f.drawing), OrNull(f.name), OrNull(f.category),
                            OrNull(f.remarks), None);
        var goods := db.goods + [row.(isNew := Some(true))];
        var tasks := if code in db.tasks then db.tasks else db.tasks + [code];
        Outcome(Created(db.nextId), Db(goods, db.nextId + 1, projects, tasks, db.customers))
  }

  /** Create answers 400 for a missing or blank code and for a code some goods row already
      has, 500 for a code that is not text, each without change; otherwise it appends one
      row with the next id, the code and `IsNew` set, keeps every other goods row, and
      leaves a project and a production task for the code. */
  lemma CreateOutcomes(db: Db, f: GoodsForm)
    ensures var out := Create(db, f);
      (out.reply == BlankCode <==> !Truthy(f.projectCode) || (f.projectCode.Str? && Trim(f.projectCode.s) == ""))
      && (out.reply == Failed <==> Truthy(f.projectCode) && !f.projectCode.Str?)
      && (out.reply == DuplicateCode <==>
            f.projectCode.Str? && Trim(f.projectCode.s) != "" && HasCode(db.goods, f.projectCode.s))
      && (!out.reply.Created? ==> out.db == db)
      && (out.reply.Created? ==>
        var code := f.projectCode.s;
        var g := out.db.goods;
        out.reply.id == db.nextId && out.db.nextId == db.nextId + 1
        && g[..|db.goods|] == db.goods && |g| == |db.goods| + 1
        && g[|db.goods|].id == db.nextId && g[|db.goods|].code == Some(code) && g[|db.goods|].isNew == Some(true)
        && HasProject(out.db.projects, code)
        && code in out.db.tasks && (forall t :: t in db.tasks ==> t in out.db.tasks))
  {
    var out := Create(db, f);
    if out.reply.Created? {
      var code := f.projectCode.s;
      var g := out.db.goods;
      assert g[..|db.goods|] == db.goods;
      if HasProject(db.projects, code) {
        var k :| 0 <= k < |db.projects| && db.projects[k].code == code;
        assert out.db.projects[k].code == code;
      } else {
        assert out.db.projects[|db.projects|].code == code;
      }
    }
  }

  /** Create keeps ids distinct and fresh and project codes unique among goods rows. */
  lemma CreateKeepsValid(db: Db, f: GoodsForm)
    requires Valid(db)
    ensures Valid(Create(db, f).db)
  {
    var out := Create(db, f);
    if out.reply.Created? {
      var g := out.db.goods;
      var n := |db.goods|;
      forall i, j | 0 <= i < j < |g| && g[i].code.Some?
        ensures g[i].code != g[j].code
      {
        if j == n {
          assert g[i] == db.goods[i];
          assert !HasCode(db.goods, f.projectCode.s);
        }
      }
    }
  }

  // ---------------------------------------------------------------- delete

  function RemoveGoods(goods: seq<GoodsRow>, gone: int -> bool): (r: seq<GoodsRow>)
    ensures forall x :: x in r <==> x in goods && !gone(x.id)
  {
    if |goods| == 0 then []
    else
      var rest := RemoveGoods(goods[1..], gone);
      assert forall x :: x in goods <==> x == goods[0] || x in goods[1..];
      if gone(goods[0].id) then rest else [goods[0]] + rest
  }

  function RemoveTasks(tasks: seq<string>, gone: string -> bool): (r: seq<string>)
    ensures forall t :: t in r <==> t in tasks && !gone(t)
  {
    if |tasks| == 0 then []
    else
      var rest := RemoveTasks(tasks[1..], gone);
      assert forall t :: t in tasks <==> t == tasks[0] || t in tasks[1..];
      if gone(tasks[0]) then rest else [tasks[0]] + rest
  }

  /** The first goods row with the id. */
  function FindGoods(goods: seq<GoodsRow>, id: int): (r: Option<GoodsRow>)
    ensures r.Some? ==> r.value in goods && r.value.id == id
    ensures r.None? ==> forall x :: x in goods ==> x.id != id
  {
    if |goods| == 0 then None
    else if goods[0].id == id then Some(goods[0])
    else
      var r := FindGoods(goods[1..], id);
      assert forall x :: x in goods <==> x == goods[0] || x in goods[1..];
      r
  }

  /** The `DELETE /:id` route: the id text goes through `parseInt` into an INT parameter,
      which refuses NaN (500); 404 when no goods row has the id; otherwise the production
      tasks of the row's non-empty code go first, then the row. */
  function DeleteOne(db: Db, idText: string): (out: Outcome)
  {
    var id := ParseInt(Str(idText));
    if id.None? then Outcome(Failed, db)
    else
      var row := FindGoods(db.goods, id.value);
      if row.None? then Outcome(NoGoods, db)
      else
        var code := row.value.code;
        var tasks := if code.Some? && code.value != "" then RemoveTasks(db.tasks, t => Some(t) == code) else db.tasks;
        Outcome(Removed, db.(goods := RemoveGoods(db.goods, i => i == id.value), tasks := tasks))
  }

  /** The body's `ids`: missing, not an array, or an array of values. */
  datatype IdList = NoIds | NotArray(v: Value) | Items(xs: seq<Value>)

  /** `parseInt` of every item; `None` when one of them is NaN. */
  function ParseIds(xs: seq<Value>): (r: Option<seq<int>>)
    ensures r.Some? ==> |r.value| == |xs| && forall k :: 0 <= k < |xs| ==> ParseInt(xs[k]) == Some(r.value[k])
    ensures r.None? ==> exists k :: 0 <= k < |xs| && ParseInt(xs[k]).None?
  {
    if |xs| == 0 then Some([])
    else
      var head := ParseInt(xs[0]);
      var rest := ParseIds(xs[1..]);
      assert forall k :: 1 <= k < |xs| ==> xs[k] == xs[1..][k - 1];
      if head.None? then None
      else if rest.None? then None
      else Some([head.value] + rest.value)
  }

  /** The non-empty codes of the goods rows with the listed ids. */
  predicate CodeOfListed(goods: seq<GoodsRow>, ids: seq<int>, t: string)
  {
    t != "" && exists k :: 0 <= k < |goods| && goods[k].id in ids && goods[k].code == Some(t)
  }

  /** The `DELETE /batch` handler: 400 unless `ids` is a non-empty array (a non-array
      truthy value included); 500 when an id parses to NaN; otherwise the production tasks
      of the listed rows' non-empty codes and then the listed rows are deleted. */
  function DeleteBatch(db: Db, ids: IdList): (out: Outcome)
  {
    if !ids.Items? || |ids.xs| == 0 then Outcome(BadIds, db)
    else
      var parsed := ParseIds(ids.xs);
      if parsed.None? then Outcome(Failed, db)
      else
        var listed := parsed.value;
        Outcome(Removed, db.(
          goods := RemoveGoods(db.goods, i => i in listed),
          tasks := RemoveTasks(db.tasks, t => CodeOfListed(db.goods, listed, t))))
  }

  /** Batch delete answers 400 without change exactly for a missing, non-array or empty id
      list; otherwise, when every id parses, no listed row is left, every other row stays,
      and exactly the production tasks whose code belongs to a listed row are gone. */
  lemma BatchDeleteOutcomes(db: Db, ids: IdList)
    ensures var out := DeleteBatch(db, ids);
      (out.reply == BadIds <==> !ids.Items? || |ids.xs| == 0)
      && (out.reply != Removed ==> out.db == db)
      && (out.reply == Removed ==>
        var listed := ParseIds(ids.xs).value;
        (forall x :: x in out.db.goods <==> x in db.goods && x.id !in listed)
        && (forall t :: t in out.db.tasks <==> t in db.tasks && !CodeOfListed(db.goods, listed, t))
        && (forall k :: 0 <= k < |ids.xs| ==> ParseInt(ids.xs[k]).Some?))
  {
  }

  /** Deleting one row removes every row with the id and, when the row has a code, the
      production tasks of that code; nothing else. */
  lemma DeleteOneOutcomes(db: Db, idText: string)
    ensures var out := DeleteOne(db, idText); var id := ParseInt(Str(idText));
      (out.reply == Failed <==> id.None?)
      && (out.reply == NoGoods <==> id.Some? && forall x :: x in db.goods ==> x.id != id.value)
      && (out.reply != Removed ==> out.db == db)
      && (out.reply == Removed ==>
        (forall x :: x in out.db.goods <==> x in db.goods && x.id != id.value)
        && var row := FindGoods(db.goods, id.value).value;
        row in db.goods && row.id == id.value
        && forall t :: t in out.db.tasks <==> t in db.tasks && (row.code == Some("") || Some(t) != row.code))
  {
  }

  // ---------------------------------------------------------------- routing

  /** Which handler a `DELETE /goods/<segment>` request reaches. Express tries the routes
      in the order they are registered and `/:id` matches every segment; as written
      (`batchFirst` false) `/:id` is registered before `/batch`. */
  function DeleteRoute(db: Db, segment: string, ids: IdList, batchFirst: bool): Outcome
  {
    if batchFirst && segment == "batch" then DeleteBatch(db, ids) else DeleteOne(db, segment)
  }

  /** As written, `DELETE /goods/batch` reaches the single-row handler, which fails on the
      id `batch`: the batch guard and the batch delete are never reached, whatever the body. */
  lemma BatchRouteShadowed(db: Db, ids: IdList)
    ensures DeleteRoute(db, "batch", ids, false) == Outcome(Failed, db)
    ensures DeleteRoute(db, "batch", NoIds, true).reply == BadIds
  {
    assert ParseIntText("batch") == None by {
      assert TrimStart("batch") == "batch";
      assert DigitPrefix("batch") == "";
    }
  }

  /** With `/batch` registered first the batch handler answers `/goods/batch` and every
      other segment still reaches the single-row handler. */
  lemma DeleteRouteDispatch(db: Db, segment: string, ids: IdList)
    ensures segment == "batch" ==> DeleteRoute(db, segment, ids, true) == DeleteBatch(db, ids)
    ensures segment != "batch" ==> DeleteRoute(db, segment, ids, true) == DeleteOne(db, segment)
  {
  }

  // ---------------------------------------------------------------- max serial

  /** `项目编号 LIKE 'JH<category>-%-%'`, with the category taken literally. */
  predicate MatchesCategory(code: string, category: string)
  {
    var prefix := "JH" + category + "-";
    StartsWith(code, prefix) && '-' in code[|prefix|..]
  }

  /** `SUBSTRING(项目编号, 9, 3)` cast to INT, when the code has at least 11 characters and
      those three are numeric. */
  function SerialAt(code: string): (r: Option<nat>)
  {
    if |code| >= 11 && AllDigits(code[8..11]) then Some(DigitsValue(code[8..11])) else None
  }

  predicate CountsFor(code: string, category: string)
  {
    MatchesCategory(code, category) && SerialAt(code).Some?
  }

  /** `ISNULL(MAX(serial), 0)` over the matching codes. */
  function MaxSerial(codes: seq<string>, category: string): (m: nat)
    ensures forall k :: 0 <= k < |codes| && CountsFor(codes[k], category) ==> SerialAt(codes[k]).value <= m
    ensures m > 0 ==> exists k :: 0 <= k < |codes| && CountsFor(codes[k], category) && SerialAt(codes[k]).value == m
  {
    if |codes| == 0 then 0
    else
      var rest := MaxSerial(codes[1..], category);
      assert forall k :: 1 <= k < |codes| ==> codes[k] == codes[1..][k - 1];
      if CountsFor(codes[0], category) then Max(SerialAt(codes[0]).value, rest) else rest
  }

  /** The goods codes the query sees. */
  function Codes(goods: seq<GoodsRow>): (r: seq<string>)
    ensures forall t :: t in r <==> exists k :: 0 <= k < |goods| && goods[k].code == Some(t)
  {
    if |goods| == 0 then []
    else
      var rest := Codes(goods[1..]);
      assert forall k :: 1 <= k < |goods| ==> goods[k] == goods[1..][k - 1];
      assert forall t :: (exists k :: 1 <= k < |goods| && goods[k].code == Some(t)) ==>
        exists j :: 0 <= j < |goods[1..]| && goods[1..][j].code == Some(t);
      if goods[0].code.Some? then [goods[0].code.value] + rest else rest
  }

  /** `/max-serial/:category` answers the largest serial and one past it. */
  function NextSerial(db: Db, category: string): (n: nat)
    ensures n >= 1
  {
    MaxSerial(Codes(db.goods), category) + 1
  }

  /** A code `JH<category>-<yy>-<nnn>` with a two-character category and a two-character
      year keeps its serial at characters 9 to 11. */
  lemma SerialOfCode(category: string, year: string, serial: string)
    requires |category| == 2 && |year| == 2 && |serial| == 3 && AllDigits(serial)
    ensures var code := "JH" + category + "-" + year + "-" + serial;
      MatchesCategory(code, category) && SerialAt(code) == Some(DigitsValue(serial))
  {
    var code := "JH" + category + "-" + year + "-" + serial;
    assert code[8..11] == serial;
    assert code[5..][2] == '-';
  }

  /** The next serial is above every serial the category's codes hold, so a code built from
      it with a two-character category and year is not yet taken. */
  lemma NextSerialIsFree(db: Db, category: string, year: string)
    requires |category| == 2 && |year| == 2
    requires NextSerial(db, category) < 1000
    ensures var code := "JH" + category + "-" + year + "-" + DocNumber.Serial3(NextSerial(db, category));
      !HasCode(db.goods, code)
  {
    var n := NextSerial(db, category);
    var s := DocNumber.Serial3(n);
    DocNumber.Serial3Value(n);
    var code := "JH" + category + "-" + year + "-" + s;
    SerialOfCode(category, year, s);
    SerialAboveCodes(Codes(db.goods), category, code);
    CodesCover(db.goods, code);
  }

  /** A counted code whose serial is above the maximum is not among the codes. */
  lemma SerialAboveCodes(codes: seq<string>, category: string, code: string)
    requires CountsFor(code, category) && SerialAt(code).value > MaxSerial(codes, category)
    ensures code !in codes
  {
    forall k | 0 <= k < |codes| ensures codes[k] != code {
      if CountsFor(codes[k], category) {
        assert SerialAt(codes[k]).value <= MaxSerial(codes, category);
      }
    }
  }

  /** A code held by some goods row is among the codes the query sees. */
  lemma CodesCover(goods: seq<GoodsRow>, code: string)
    requires code !in Codes(goods)
    ensures !HasCode(goods, code)
  {
  }
}
