/** The production-task routes of the back end: the ORDER BY clause built from the sort
    parameters, the status condition of the list, the statistics, and the detail, update and
    delete routes over the task table. A task row is its project code and a map from column
    names to values. */
module ProductionTask {
  import opened Common
  import opened JsNumber
  import SortClause

  // ---------------------------------------------------------------- ORDER BY

  /** The sortable fields and the columns they map to. */
  const SortColumns: map<string, string> :=
    map["项目编号" := "pt.项目编号", "计划首样日期" := "p.计划首样日期", "生产状态" := "pt.生产状态"]

  /** The ordering the list query uses: a whitelisted column with a direction, or the
      default ordering (samples due within seven days first, then project code descending). */
  datatype Order = ByColumn(column: string, direction: string) | DefaultOrder

  /** `buildOrderByClause`. As written (`inherited` true) the field is looked up with
      `sortableFields[sortField]`, which also finds the members every object inherits;
      the intended lookup finds only the three own keys. The list query is not modelled
      beyond this clause. */
  function OrderWith(sortField: Option<string>, sortOrder: Option<string>, inherited: bool): Order
  {
    var mapped :=
      if sortField.None? || sortField.value == "" then None
      else SortClause.PropertyText(SortColumns, sortField.value, inherited);
    var dir := SortClause.Direction(sortOrder);
    if mapped.Some? && (dir == "asc" || dir == "desc") then ByColumn(mapped.value, ToUpper(dir))
    else DefaultOrder
  }

  function OrderByAsWritten(sortField: Option<string>, sortOrder: Option<string>): Order
  {
    OrderWith(sortField, sortOrder, true)
  }

  function OrderBy(sortField: Option<string>, sortOrder: Option<string>): Order
  {
    OrderWith(sortField, sortOrder, false)
  }

  /** The list orders by a column exactly when the field is one of the three sortable
      fields and the direction is `asc` or `desc` in any letter case; the column is then the
      field's own column and the direction `ASC` or `DESC`. Anything else gives the default
      ordering. */
  lemma OrderByWhitelisted(sortField: Option<string>, sortOrder: Option<string>)
    ensures var o := OrderBy(sortField, sortOrder);
      (o.ByColumn? <==> sortField.Some? && sortField.value in SortColumns
                         && (SortClause.Direction(sortOrder) == "asc" || SortClause.Direction(sortOrder) == "desc"))
      && (o.ByColumn? ==> o.column == SortColumns[sortField.value] && o.column in SortColumns.Values)
      && (o.ByColumn? && SortClause.Direction(sortOrder) == "asc" ==> o.direction == "ASC")
      && (o.ByColumn? && SortClause.Direction(sortOrder) == "desc" ==> o.direction == "DESC")
  {
    SortClause.UpperDirections();
    assert "" !in SortColumns;
  }

  /** A direction sent in capitals sorts like the lower-case one. */
  lemma DirectionIgnoresCase(sortField: Option<string>)
    ensures OrderBy(sortField, Some("DESC")) == OrderBy(sortField, Some("desc"))
    ensures OrderBy(sortField, Some("Asc")) == OrderBy(sortField, Some("asc"))
  {
    SortClause.AscSpellings();
    SortClause.DescSpellings();
  }

  /** The clause as written is the whitelisted one for every field but the inherited
      member names. */
  lemma OrderByAsWrittenAgrees(sortField: Option<string>, sortOrder: Option<string>)
    requires sortField.None? || sortField.value !in SortClause.ObjectMembers
    ensures OrderByAsWritten(sortField, sortOrder) == OrderBy(sortField, sortOrder)
  {
    if sortField.Some? {
      SortClause.ReadingsAgree(SortColumns, sortField.value);
    }
  }

  /** As written, `sortField=constructor&sortOrder=asc` passes the whitelist check and puts
      the source text of `Object` where the column belongs. */
  lemma OrderByAsWrittenAcceptsInherited()
    ensures var o := OrderByAsWritten(Some("constructor"), Some("asc"));
      o.ByColumn? && forall f :: f in SortColumns ==> o.column != SortColumns[f]
  {
    SortClause.AscSpellings();
    assert "constructor" !in SortColumns;
    SortClause.ConstructorText(SortColumns);
    assert "pt.项目编号"[0] == 'p' && "p.计划首样日期"[0] == 'p' && "pt.生产状态"[0] == 'p';
  }

  // ---------------------------------------------------------------- the list condition

  /** A row of `生产任务`: the project code and the other columns by name. */
  datatype Task = Task(code: string, fields: map<string, Value>)

  const StatusColumn: string := "生产状态"
  const Completed: string := "已完成"

  /** The task's status, `None` when the column is NULL. */
  function StatusOf(t: Task): Option<string>
  {
    if StatusColumn in t.fields && t.fields[StatusColumn].Str? then Some(t.fields[StatusColumn].s) else None
  }

  datatype StatusCondition = StatusIs(s: string) | NotCompleted

  /** A non-empty `status` selects that status; without one, completed tasks are left out. */
  function ConditionOf(status: Option<string>): StatusCondition
  {
    if status.Some? && status.value != "" then StatusIs(status.value) else NotCompleted
  }

  /** `pt.生产状态 = @status`, or `pt.生产状态 IS NULL OR pt.生产状态 <> '已完成'`. */
  predicate Selects(c: StatusCondition, t: Task)
  {
    match c
    case StatusIs(s) => StatusOf(t) == Some(s)
    case NotCompleted => StatusOf(t).None? || StatusOf(t).value != Completed
  }

  function ListedTasks(tasks: seq<Task>, status: Option<string>): (r: seq<Task>)
    ensures forall t :: t in r <==> t in tasks && Selects(ConditionOf(status), t)
  {
    if |tasks| == 0 then []
    else
      var rest := ListedTasks(tasks[1..], status);
      assert forall t :: t in tasks <==> t == tasks[0] || t in tasks[1..];
      if Selects(ConditionOf(status), tasks[0]) then [tasks[0]] + rest else rest
  }

  /** Without a status the list shows every task that is not completed, those with no
      status included; with a status it shows exactly the tasks in that status. */
  lemma DefaultHidesCompleted(tasks: seq<Task>, status: Option<string>)
    ensures status.None? || status == Some("") ==>
      forall t :: t in ListedTasks(tasks, status) <==> t in tasks && StatusOf(t) != Some(Completed)
    ensures status.Some? && status.value != "" ==>
      forall t :: t in ListedTasks(tasks, status) <==> t in tasks && StatusOf(t) == status
  {
  }

  // ---------------------------------------------------------------- statistics

  function CountStatus(tasks: seq<Task>, s: string): (n: nat)
    ensures n <= |tasks|
  {
    if |tasks| == 0 then 0
    else (if StatusOf(tasks[0]) == Some(s) then 1 else 0) + CountStatus(tasks[1..], s)
  }

  /** The `/statistics` counts: all tasks, in progress, completed, pending. */
  datatype Statistics = Statistics(total: nat, inProgress: nat, completed: nat, pending: nat)

  function StatisticsOf(tasks: seq<Task>): Statistics
  {
    Statistics(|tasks|, CountStatus(tasks, "进行中"), CountStatus(tasks, Completed), CountStatus(tasks, "待开始"))
  }

  /** A task has one status, so the three counts never add up to more than the total. */
  lemma {:induction false} StatisticsBounded(tasks: seq<Task>)
    ensures var st := StatisticsOf(tasks); st.inProgress + st.completed + st.pending <= st.total
  {
    if |tasks| > 0 {
      StatisticsBounded(tasks[1..]);
      assert "进行中"[0] != Completed[0] && "待开始"[0] != Completed[0] && "进行中"[0] != "待开始"[0];
    }
  }

  // ---------------------------------------------------------------- detail, update, delete

  datatype Reply = Done | MissingCode | NothingToUpdate | NoTask | Found(task: Task)
  datatype Outcome = Outcome(reply: Reply, tasks: seq<Task>)

  predicate HasCode(tasks: seq<Task>, code: Value)
  {
    exists k :: 0 <= k < |tasks| && Str(tasks[k].code) == code
  }

  /** The `/detail` route: 400 without a project code, 404 when no task has it, else the
      first matching task. */
  function Detail(tasks: seq<Task>, code: Value): (r: Reply)
    ensures r == MissingCode <==> !Truthy(code)
    ensures r == NoTask <==> Truthy(code) && !HasCode(tasks, code)
    ensures r.Found? ==> r.task in tasks && Str(r.task.code) == code
  {
    if !Truthy(code) then MissingCode
    else if |tasks| == 0 then NoTask
    else if Str(tasks[0].code) == code then Found(tasks[0])
    else
      var rest := Detail(tasks[1..], code);
      assert HasCode(tasks, code) ==> HasCode(tasks[1..], code) by {
        if HasCode(tasks, code) {
          var k :| 0 <= k < |tasks| && Str(tasks[k].code) == code;
          assert tasks[1..][k - 1] == tasks[k];
        }
      }
      assert HasCode(tasks[1..], code) ==> HasCode(tasks, code) by {
        if HasCode(tasks[1..], code) {
          var k :| 0 <= k < |tasks[1..]| && Str(tasks[1..][k].code) == code;
          assert tasks[k + 1] == tasks[1..][k];
        }
      }
      rest
  }

  /** The columns the update may set; the project code is not among them. */
  const Editable: set<string> := {
    "负责人", "开始日期", "结束日期", "生产状态", "优先级", "投产数量", "已完成数量",
    "批次完成数量", "批次完成时间", "下达日期", "放电工时", "检验工时", "编程工时", "试模工时",
    "抛光工时", "机加工时", "装配工时", "加工中心工时", "线切割工时"}

  /** The `SET` list: the editable keys of the body that are not `undefined`; an explicit
      `null` stays and clears the column. */
  function Updates(body: map<string, Value>): (u: map<string, Value>)
  {
    map k | k in body && k in Editable && body[k] != Undefined :: body[k]
  }

  function CodeOf(body: map<string, Value>): Value
  {
    if "projectCode" in body then body["projectCode"] else Undefined
  }

  /** The `/update` route: 400 without a project code or without any editable field; else
      every task with the code gets the fields. A code no task has is not an error. */
  function Update(tasks: seq<Task>, body: map<string, Value>): Outcome
  {
    var code := CodeOf(body);
    var u := Updates(body);
    if !Truthy(code) then Outcome(MissingCode, tasks)
    else if |u| == 0 then Outcome(NothingToUpdate, tasks)
    else Outcome(Done, seq(|tasks|, k requires 0 <= k < |tasks| =>
      if Str(tasks[k].code) == code then tasks[k].(fields := tasks[k].fields + u) else tasks[k]))
  }

  /** The update fails without change exactly when the code is empty or no editable field
      is given; otherwise a task with the code takes every given editable field and keeps
      every other column, its code included, and the other tasks stay as they were. */
  lemma UpdateOutcomes(tasks: seq<Task>, body: map<string, Value>)
    ensures var out := Update(tasks, body);
      (out.reply == MissingCode <==> !Truthy(CodeOf(body)))
      && (out.reply == NothingToUpdate <==>
            Truthy(CodeOf(body)) && forall k :: k in body && k in Editable ==> body[k] == Undefined)
      && (out.reply != Done ==> out.tasks == tasks)
      && (out.reply == Done ==>
        |out.tasks| == |tasks|
        && forall i :: 0 <= i < |tasks| ==>
          out.tasks[i].code == tasks[i].code
          && (Str(tasks[i].code) != CodeOf(body) ==> out.tasks[i] == tasks[i])
          && (Str(tasks[i].code) == CodeOf(body) ==>
                (forall c :: c in Editable && c in body && body[c] != Undefined ==>
                   c in out.tasks[i].fields && out.tasks[i].fields[c] == body[c])
                && (forall c :: c in tasks[i].fields && (c !in Editable || c !in body || body[c] == Undefined) ==>
                   c in out.tasks[i].fields && out.tasks[i].fields[c] == tasks[i].fields[c])))
  {
    var u := Updates(body);
    if Truthy(CodeOf(body)) && |u| == 0 {
      assert u.Keys == {};
      forall k | k in body && k in Editable
        ensures body[k] == Undefined
      {
        assert k !in u.Keys;
      }
    }
    if Truthy(CodeOf(body)) && |u| != 0 {
      var k :| k in u;
      assert k in body && k in Editable && body[k] != Undefined;
    }
  }

  /** The `/delete` route: 400 without a project code, else every task with the code is
      removed. */
  function Delete(tasks: seq<Task>, code: Value): (out: Outcome)
  {
    if !Truthy(code) then Outcome(MissingCode, tasks)
    else Outcome(Done, RemoveCode(tasks, code))
  }

  function RemoveCode(tasks: seq<Task>, code: Value): (r: seq<Task>)
    ensures forall t :: t in r <==> t in tasks && Str(t.code) != code
  {
    if |tasks| == 0 then []
    else
      var rest := RemoveCode(tasks[1..], code);
      assert forall t :: t in tasks <==> t == tasks[0] || t in tasks[1..];
      if Str(tasks[0].code) == code then rest else [tasks[0]] + rest
  }

  /** Delete changes nothing without a code; with one, exactly the tasks with other codes
      remain. */
  lemma DeleteOutcomes(tasks: seq<Task>, code: Value)
    ensures var out := Delete(tasks, code);
      (out.reply == MissingCode <==> !Truthy(code))
      && (!Truthy(code) ==> out.tasks == tasks)
      && (Truthy(code) ==> forall t :: t in out.tasks <==> t in tasks && Str(t.code) != code)
  {
  }
}
