/** The project routes of the back end (`项目管理`): the insert and update statements are built
    from whatever keys the request body has, one loop over the keys collecting column names,
    value placeholders and parameters. A request body is the sequence of its own keys with
    their values, in key order; a row maps column names to values. */
module ProjectInfo {
  import opened Common
  import opened JsNumber

  const CodeColumn: string := "项目编号"

  /** The name of the route parameter, which a body key of the same name overwrites. */
  const CodeParam: string := "projectCode"

  type Body = seq<(string, Value)>
  type Row = map<string, Value>

  /** The keys of an object are distinct. */
  predicate DistinctKeys(data: Body)
  {
    forall i, j :: 0 <= i < j < |data| ==> data[i].0 != data[j].0
  }

  function Get(row: Row, key: string): Value
  {
    if key in row then row[key] else Null
  }

  /** Insert takes a value unless it is undefined, null or the empty text; 0 and false are
      taken. */
  predicate InsertTakes(key: string, v: Value)
  {
    v != Undefined && v != Null && v != Str("")
  }

  /** Update takes every key but the project code whose value is not undefined or null; the
      empty text is taken. */
  predicate UpdateTakes(key: string, v: Value)
  {
    key != CodeColumn && v != Undefined && v != Null
  }

  /** The pairs a loop over the keys keeps, in key order. */
  function Taken(data: Body, forUpdate: bool): (r: Body)
    ensures |r| <= |data|
  {
    if data == [] then []
    else
      var last := data[|data| - 1];
      var takes := if forUpdate then UpdateTakes(last.0, last.1) else InsertTakes(last.0, last.1);
      Taken(data[..|data| - 1], forUpdate) + (if takes then [last] else [])
  }

  /** The kept pairs are exactly the pairs the loop's test accepts. */
  lemma {:induction false} TakenMembers(data: Body, forUpdate: bool)
    ensures forall p :: p in Taken(data, forUpdate) <==>
      p in data && (if forUpdate then UpdateTakes(p.0, p.1) else InsertTakes(p.0, p.1))
    decreases |data|
  {
    if data != [] {
      var front := data[..|data| - 1];
      TakenMembers(front, forUpdate);
      assert data == front + [data[|data| - 1]];
    }
  }

  /** The parameters of the taken pairs, as an object. */
  function ParamsOf(pairs: Body): (m: map<string, Value>)
  {
    if pairs == [] then map[]
    else ParamsOf(pairs[..|pairs| - 1])[pairs[|pairs| - 1].0 := pairs[|pairs| - 1].1]
  }

  /** The parameter names are the keys of the pairs. */
  lemma {:induction false} ParamsOfKeys(pairs: Body)
    ensures forall k :: k in ParamsOf(pairs) <==> exists i :: 0 <= i < |pairs| && pairs[i].0 == k
    decreases |pairs|
  {
    if pairs != [] {
      var front := pairs[..|pairs| - 1];
      ParamsOfKeys(front);
      assert ParamsOf(pairs) == ParamsOf(front)[pairs[|pairs| - 1].0 := pairs[|pairs| - 1].1];
      forall k | k in ParamsOf(pairs) ensures exists i :: 0 <= i < |pairs| && pairs[i].0 == k {
        if k != pairs[|pairs| - 1].0 {
          var i :| 0 <= i < |front| && front[i].0 == k;
          assert pairs[i].0 == k;
        }
      }
      forall k | exists i :: 0 <= i < |pairs| && pairs[i].0 == k ensures k in ParamsOf(pairs) {
        var i :| 0 <= i < |pairs| && pairs[i].0 == k;
        if i < |pairs| - 1 {
          assert front[i].0 == k;
        }
      }
    }
  }

  /** One more key: the loop keeps its pair or not. */
  lemma TakenStep(data: Body, i: nat, forUpdate: bool)
    requires i < |data|
    ensures Taken(data[..i + 1], forUpdate) == Taken(data[..i], forUpdate)
      + (if (if forUpdate then UpdateTakes(data[i].0, data[i].1) else InsertTakes(data[i].0, data[i].1)) then [data[i]] else [])
  {
    assert data[..i + 1][..i] == data[..i];
  }

  /** One more pair sets its key. */
  lemma ParamsOfSnoc(pairs: Body, p: (string, Value))
    ensures ParamsOf(pairs + [p]) == ParamsOf(pairs)[p.0 := p.1]
  {
    assert (pairs + [p])[..|pairs|] == pairs;
  }

  // ---------------------------------------------------------------- insert

  /** The column list, placeholder list and parameters of `POST /`. */
  method InsertFields(data: Body) returns (fields: seq<string>, values: seq<string>, params: map<string, Value>)
    ensures var taken := Taken(data, false);
      |fields| == |taken| && |values| == |taken|
      && (forall i :: 0 <= i < |taken| ==> fields[i] == "[" + taken[i].0 + "]" && values[i] == "@" + taken[i].0)
      && params == ParamsOf(taken)
  {
    fields, values, params := [], [], map[];
    ghost var taken: Body := [];
    var i := 0;
    while i < |data|
      invariant 0 <= i <= |data|
      invariant taken == Taken(data[..i], false)
      invariant |fields| == |taken| && |values| == |taken|
      invariant forall j :: 0 <= j < |taken| ==> fields[j] == "[" + taken[j].0 + "]" && values[j] == "@" + taken[j].0
      invariant params == ParamsOf(taken)
    {
      var (key, v) := data[i];
      TakenStep(data, i, false);
      if v != Undefined && v != Null && v != Str("") {
        ParamsOfSnoc(taken, data[i]);
        fields := fields + ["[" + key + "]"];
        values := values + ["@" + key];
        params := params[key := v];
        taken := taken + [data[i]];
      }
      i := i + 1;
    }
    assert data[..i] == data;
  }

  /** The reply of a route: no fields (400), a failed statement (500), no project (404), or
      done. */
  datatype Reply = NoFields | Failed | NotFound | Done | Found(row: Row)

  /** `POST /`: a row of the taken values is added; a key that is no column of the table
      makes the statement fail. */
  function Insert(table: seq<Row>, columns: set<string>, data: Body): (r: (Reply, seq<Row>))
  {
    var taken := Taken(data, false);
    if taken == [] then (NoFields, table)
    else if exists i :: 0 <= i < |taken| && taken[i].0 !in columns then (Failed, table)
    else (Done, table + [ParamsOf(taken)])
  }

  /** 400 without change exactly when no value is given other than undefined, null or the
      empty text; 500 without change when such a key is no column; otherwise one row is
      added holding exactly the given keys with their values. */
  lemma InsertOutcomes(table: seq<Row>, columns: set<string>, data: Body)
    requires DistinctKeys(data)
    ensures var (reply, t) := Insert(table, columns, data);
      (reply == NoFields <==> forall i :: 0 <= i < |data| ==> !InsertTakes(data[i].0, data[i].1))
      && (reply == Failed <==>
            (reply != NoFields && exists i :: 0 <= i < |data| && InsertTakes(data[i].0, data[i].1) && data[i].0 !in columns))
      && (reply != Done ==> t == table)
      && (reply == Done ==>
            |t| == |table| + 1 && t[..|table|] == table
            && forall i :: 0 <= i < |data| ==>
                 (InsertTakes(data[i].0, data[i].1) <==> data[i].0 in t[|table|])
                 && (InsertTakes(data[i].0, data[i].1) ==> t[|table|][data[i].0] == data[i].1))
  {
    var taken := Taken(data, false);
    TakenMembers(data, false);
    var (reply, t) := Insert(table, columns, data);
    if taken == [] {
      forall i | 0 <= i < |data| ensures !InsertTakes(data[i].0, data[i].1) {
        assert data[i] in data;
      }
    } else {
      assert taken[0] in taken;
    }
    forall i | 0 <= i < |data| && InsertTakes(data[i].0, data[i].1) && data[i].0 !in columns
      ensures exists k :: 0 <= k < |taken| && taken[k].0 !in columns
    {
      assert data[i] in data;
      assert data[i] in taken;
    }
    forall k | 0 <= k < |taken| && taken[k].0 !in columns
      ensures exists i :: 0 <= i < |data| && InsertTakes(data[i].0, data[i].1) && data[i].0 !in columns
    {
      assert taken[k] in taken;
    }
    if reply == Done {
      assert t[..|table|] == table;
      TakenParams(data, false);
    }
  }

  /** Every taken key has its own value among the parameters, and only taken keys are there. */
  lemma TakenParams(data: Body, forUpdate: bool)
    requires DistinctKeys(data)
    ensures var m := ParamsOf(Taken(data, forUpdate));
      forall i :: 0 <= i < |data| ==>
        ((if forUpdate then UpdateTakes(data[i].0, data[i].1) else InsertTakes(data[i].0, data[i].1)) <==> data[i].0 in m)
        && (data[i].0 in m ==> m[data[i].0] == data[i].1)
  {
    var taken := Taken(data, forUpdate);
    TakenDistinct(data, forUpdate);
    TakenMembers(data, forUpdate);
    ParamsOfKeys(taken);
    forall i | 0 <= i < |data|
      ensures var m := ParamsOf(taken);
        ((if forUpdate then UpdateTakes(data[i].0, data[i].1) else InsertTakes(data[i].0, data[i].1)) <==> data[i].0 in m)
        && (data[i].0 in m ==> m[data[i].0] == data[i].1)
    {
      var m := ParamsOf(taken);
      if data[i].0 in m {
        var k :| 0 <= k < |taken| && taken[k].0 == data[i].0;
        assert taken[k] in taken;
        var j :| 0 <= j < |data| && data[j] == taken[k];
        assert j == i;
        ParamsOfDistinct(taken, k);
      }
      if (if forUpdate then UpdateTakes(data[i].0, data[i].1) else InsertTakes(data[i].0, data[i].1)) {
        assert data[i] in taken;
        var k :| 0 <= k < |taken| && taken[k] == data[i];
        assert taken[k].0 == data[i].0;
      }
    }
  }

  /** Keeping some pairs of an object keeps its keys distinct. */
  lemma {:induction false} TakenDistinct(data: Body, forUpdate: bool)
    requires DistinctKeys(data)
    ensures DistinctKeys(Taken(data, forUpdate))
    decreases |data|
  {
    if data != [] {
      var front := data[..|data| - 1];
      assert DistinctKeys(front);
      TakenDistinct(front, forUpdate);
      TakenMembers(front, forUpdate);
      var t := Taken(front, forUpdate);
      var last := data[|data| - 1];
      forall j | 0 <= j < |t| ensures t[j].0 != last.0 {
        assert t[j] in t;
        var k :| 0 <= k < |front| && front[k] == t[j];
        assert data[k] == t[j];
      }
    }
  }

  /** With distinct keys, each pair's value is the parameter of its key. */
  lemma {:induction false} ParamsOfDistinct(pairs: Body, k: nat)
    requires DistinctKeys(pairs) && k < |pairs|
    ensures pairs[k].0 in ParamsOf(pairs) && ParamsOf(pairs)[pairs[k].0] == pairs[k].1
    decreases |pairs|
  {
    var front := pairs[..|pairs| - 1];
    if k < |pairs| - 1 {
      assert DistinctKeys(front);
      assert front[k] == pairs[k];
      ParamsOfDistinct(front, k);
    }
  }

  // ---------------------------------------------------------------- update

  /** The SET list and parameters of `PUT /:projectCode`; the parameters start with the
      route's project code. */
  method UpdateFields(code: string, data: Body) returns (updates: seq<string>, params: map<string, Value>)
    ensures var taken := Taken(data, true);
      |updates| == |taken|
      && (forall i :: 0 <= i < |taken| ==> updates[i] == "[" + taken[i].0 + "] = @" + taken[i].0)
      && params == map[CodeParam := Str(code)] + ParamsOf(taken)
  {
    updates, params := [], map[CodeParam := Str(code)];
    ghost var taken: Body := [];
    var i := 0;
    while i < |data|
      invariant 0 <= i <= |data|
      invariant taken == Taken(data[..i], true)
      invariant |updates| == |taken|
      invariant forall j :: 0 <= j < |taken| ==> updates[j] == "[" + taken[j].0 + "] = @" + taken[j].0
      invariant params == map[CodeParam := Str(code)] + ParamsOf(taken)
    {
      var (key, v) := data[i];
      TakenStep(data, i, true);
      if key != CodeColumn && v != Undefined && v != Null {
        ParamsOfSnoc(taken, data[i]);
        updates := updates + ["[" + key + "] = @" + key];
        params := params[key := v];
        taken := taken + [data[i]];
      }
      i := i + 1;
    }
    assert data[..i] == data;
  }

  /** `PUT /:projectCode`: every row whose code equals the `projectCode` parameter takes the
      taken values. A body key `projectCode` overwrites that parameter. Updating no row is
      no error. */
  function Update(table: seq<Row>, columns: set<string>, code: string, data: Body): (r: (Reply, seq<Row>))
  {
    var taken := Taken(data, true);
    var params := map[CodeParam := Str(code)] + ParamsOf(taken);
    if taken == [] then (NoFields, table)
    else if exists i :: 0 <= i < |taken| && taken[i].0 !in columns then (Failed, table)
    else (Done, seq(|table|, i requires 0 <= i < |table| =>
                  if Get(table[i], CodeColumn) == params[CodeParam] then table[i] + ParamsOf(taken) else table[i]))
  }

  /** 400 without change exactly when every key is the project code or has an undefined or
      null value; 500 without change when a taken key is no column; otherwise the rows of
      the project take the given values, the empty text included, the others stay, and no
      row's project code changes. */
  lemma UpdateOutcomes(table: seq<Row>, columns: set<string>, code: string, data: Body)
    requires DistinctKeys(data) && CodeParam !in columns
    ensures var (reply, t) := Update(table, columns, code, data);
      (reply == NoFields <==> forall i :: 0 <= i < |data| ==> !UpdateTakes(data[i].0, data[i].1))
      && (reply == Failed <==>
            (reply != NoFields && exists i :: 0 <= i < |data| && UpdateTakes(data[i].0, data[i].1) && data[i].0 !in columns))
      && (reply != Done ==> t == table)
      && (reply == Done ==>
            |t| == |table|
            && forall r :: 0 <= r < |table| ==>
                 Get(t[r], CodeColumn) == Get(table[r], CodeColumn)
                 && (Get(table[r], CodeColumn) != Str(code) ==> t[r] == table[r])
                 && (Get(table[r], CodeColumn) == Str(code) ==>
                       forall i :: 0 <= i < |data| ==>
                         Get(t[r], data[i].0) == (if UpdateTakes(data[i].0, data[i].1) then data[i].1 else Get(table[r], data[i].0))))
  {
    var taken := Taken(data, true);
    TakenMembers(data, true);
    var (reply, t) := Update(table, columns, code, data);
    if taken == [] {
      forall i | 0 <= i < |data| ensures !UpdateTakes(data[i].0, data[i].1) {
        assert data[i] in data;
      }
    } else {
      assert taken[0] in taken;
    }
    forall i | 0 <= i < |data| && UpdateTakes(data[i].0, data[i].1) && data[i].0 !in columns
      ensures exists k :: 0 <= k < |taken| && taken[k].0 !in columns
    {
      assert data[i] in data;
      assert data[i] in taken;
    }
    forall k | 0 <= k < |taken| && taken[k].0 !in columns
      ensures exists i :: 0 <= i < |data| && UpdateTakes(data[i].0, data[i].1) && data[i].0 !in columns
    {
      assert taken[k] in taken;
    }
    if reply == Done {
      TakenParams(data, true);
      var m := ParamsOf(taken);
      forall k | 0 <= k < |taken| ensures taken[k].0 != CodeParam && taken[k].0 != CodeColumn {
        assert taken[k].0 in columns;
        assert taken[k] in taken;
      }
      ParamsOfKeys(taken);
      assert CodeParam !in m && CodeColumn !in m;
    }
  }

  /** As written, a body key `projectCode` replaces the route's code in the WHERE clause;
      the statement then fails, since `[projectCode]` is no column either. */
  lemma UpdateCodeFromBody(table: seq<Row>, columns: set<string>, code: string, other: string)
    requires CodeParam !in columns
    ensures Update(table, columns, code, [(CodeParam, Str(other))]).0 == Failed
  {
    var data := [(CodeParam, Str(other))];
    assert "projectCode"[0] != "项目编号"[0];
    assert Taken(data, true) == data by {
      assert data[..0] == [];
    }
  }

  // ---------------------------------------------------------------- detail and delete

  /** `GET /:projectCode`: the first row with the code, or 404. */
  function Detail(table: seq<Row>, code: string): (r: Reply)
    ensures r.NotFound? <==> forall i :: 0 <= i < |table| ==> Get(table[i], CodeColumn) != Str(code)
    ensures r.Found? ==> r.row in table && Get(r.row, CodeColumn) == Str(code)
    ensures r.NotFound? || r.Found?
  {
    if table == [] then NotFound
    else if Get(table[0], CodeColumn) == Str(code) then Found(table[0])
    else
      var r := Detail(table[1..], code);
      assert forall i :: 1 <= i < |table| ==> table[i] == table[1..][i - 1];
      r
  }

  /** `DELETE /:projectCode`: every row with the code is removed; removing none is no
      error. */
  function Delete(table: seq<Row>, code: string): (r: seq<Row>)
    ensures forall row :: row in r <==> row in table && Get(row, CodeColumn) != Str(code)
  {
    if table == [] then []
    else if Get(table[0], CodeColumn) == Str(code) then Delete(table[1..], code)
    else [table[0]] + Delete(table[1..], code)
  }
}
