/** The sales-order list shared by both versions of the sales-order routes. The query returns
    one row per order line; the route groups the rows by order number in a `Map` (so groups
    keep the order in which their numbers first appear), adds each line's quantity and
    amount to its group, sorts the groups and cuts out the requested page. */
module OrderList {
  import opened Common

  /** The order-level columns a group copies from the first line of its order. A missing
      customer name is "". */
  datatype Header = Header(customerId: int, signDate: Option<int>, contractNo: string, customerName: string)

  /** One row of the list query. The order date is an instant in milliseconds (`None` for
      SQL NULL); quantity and amount are `None` for NULL. */
  datatype Line = Line(id: int, orderNo: string, orderDate: Option<int>, header: Header,
                       quantity: Option<real>, totalAmount: Option<real>)

  /** One entry of the list: an order with its lines and their totals. */
  datatype Group = Group(orderNo: string, orderDate: Option<int>, header: Header,
                         details: seq<Line>, totalQuantity: real, totalAmount: real)

  // ---------------------------------------------------------------- lines and sums

  /** `row.quantity || 0` */
  function QuantityOf(l: Line): real
  {
    if l.quantity.Some? then l.quantity.value else 0.0
  }

  /** `row.totalAmount || 0` */
  function AmountOf(l: Line): real
  {
    if l.totalAmount.Some? then l.totalAmount.value else 0.0
  }

  function QuantitySum(ls: seq<Line>): real
  {
    if ls == [] then 0.0 else QuantitySum(ls[..|ls| - 1]) + QuantityOf(ls[|ls| - 1])
  }

  function AmountSum(ls: seq<Line>): real
  {
    if ls == [] then 0.0 else AmountSum(ls[..|ls| - 1]) + AmountOf(ls[|ls| - 1])
  }

  /** The lines of one order, in query order. */
  function LinesWith(lines: seq<Line>, no: string): (r: seq<Line>)
    ensures |r| <= |lines|
    ensures forall i :: 0 <= i < |r| ==> r[i].orderNo == no
  {
    if lines == [] then []
    else
      var rest := LinesWith(lines[..|lines| - 1], no);
      if lines[|lines| - 1].orderNo == no then rest + [lines[|lines| - 1]] else rest
  }

  /** The order numbers that occur in the lines. */
  function Nos(lines: seq<Line>): set<string>
  {
    if lines == [] then {} else Nos(lines[..|lines| - 1]) + {lines[|lines| - 1].orderNo}
  }

  lemma {:induction false} LinesWithEmpty(lines: seq<Line>, no: string)
    ensures no in Nos(lines) <==> LinesWith(lines, no) != []
  {
    if lines != [] {
      LinesWithEmpty(lines[..|lines| - 1], no);
    }
  }

  // ---------------------------------------------------------------- grouping

  /** Index of the group with this order number, if there is one. */
  function IndexOfNo(gs: seq<Group>, no: string): (r: Option<nat>)
    ensures r.Some? ==> r.value < |gs| && gs[r.value].orderNo == no
    ensures r.Some? ==> forall j :: 0 <= j < r.value ==> gs[j].orderNo != no
    ensures r.None? ==> forall j :: 0 <= j < |gs| ==> gs[j].orderNo != no
  {
    if gs == [] then None
    else if gs[0].orderNo == no then Some(0)
    else
      var r := IndexOfNo(gs[1..], no);
      if r.Some? then Some(r.value + 1) else None
  }

  /** The group a line opens when its order number is new. */
  function Opened(l: Line): Group
  {
    Group(l.orderNo, l.orderDate, l.header, [l], 0.0 + QuantityOf(l), 0.0 + AmountOf(l))
  }

  /** A group with one more line pushed to its details and added to its totals. */
  function Extended(g: Group, l: Line): Group
  {
    g.(details := g.details + [l], totalQuantity := g.totalQuantity + QuantityOf(l),
       totalAmount := g.totalAmount + AmountOf(l))
  }

  /** One step of the `forEach`: extend the line's group, or open one at the end. */
  function AddLine(gs: seq<Group>, l: Line): seq<Group>
  {
    var k := IndexOfNo(gs, l.orderNo);
    if k.Some? then gs[k.value := Extended(gs[k.value], l)] else gs + [Opened(l)]
  }

  /** The groups after the `forEach` over all lines (`Array.from(orderMap.values())`). */
  function GroupsOf(lines: seq<Line>): seq<Group>
  {
    if lines == [] then [] else AddLine(GroupsOf(lines[..|lines| - 1]), lines[|lines| - 1])
  }

  /** What a group holds: exactly the lines of its order, in query order, the header of the
      first of them, and the sums of their quantities and amounts. */
  predicate GroupOk(lines: seq<Line>, g: Group)
  {
    g.details == LinesWith(lines, g.orderNo) && g.details != []
    && g.orderDate == g.details[0].orderDate && g.header == g.details[0].header
    && g.totalQuantity == QuantitySum(g.details) && g.totalAmount == AmountSum(g.details)
  }

  predicate DistinctNos(gs: seq<Group>)
  {
    forall i, j :: 0 <= i < j < |gs| ==> gs[i].orderNo != gs[j].orderNo
  }

  predicate AllOk(lines: seq<Line>, gs: seq<Group>)
  {
    forall i :: 0 <= i < |gs| ==> GroupOk(lines, gs[i])
  }

  /** Every line has a group. */
  predicate Covers(lines: seq<Line>, gs: seq<Group>)
  {
    forall j :: 0 <= j < |lines| ==> IndexOfNo(gs, lines[j].orderNo).Some?
  }

  /** Everything the list promises about the groups of some lines. */
  predicate GroupedWell(lines: seq<Line>, gs: seq<Group>)
  {
    DistinctNos(gs) && |gs| == |Nos(lines)| && AllOk(lines, gs) && Covers(lines, gs)
  }

  lemma {:induction false} NosIndex(lines: seq<Line>, no: string) returns (j: nat)
    requires no in Nos(lines)
    ensures j < |lines| && lines[j].orderNo == no
  {
    var prefix := lines[..|lines| - 1];
    if no in Nos(prefix) {
      j := NosIndex(prefix, no);
    } else {
      j := |lines| - 1;
    }
  }

  lemma GroupStaysOk(prefix: seq<Line>, l: Line, g: Group)
    requires GroupOk(prefix, g) && g.orderNo != l.orderNo
    ensures GroupOk(prefix + [l], g)
  {
    assert (prefix + [l])[..|prefix|] == prefix;
  }

  lemma ExtendedIsOk(prefix: seq<Line>, l: Line, g: Group)
    requires GroupOk(prefix, g) && g.orderNo == l.orderNo
    ensures GroupOk(prefix + [l], Extended(g, l))
  {
    assert (prefix + [l])[..|prefix|] == prefix;
    var ds := g.details + [l];
    assert ds[..|ds| - 1] == g.details;
  }

  lemma OpenedIsOk(prefix: seq<Line>, l: Line)
    requires l.orderNo !in Nos(prefix)
    ensures GroupOk(prefix + [l], Opened(l))
  {
    assert (prefix + [l])[..|prefix|] == prefix;
    LinesWithEmpty(prefix, l.orderNo);
    assert [l][..0] == [];
  }

  lemma NosStep(prefix: seq<Line>, l: Line)
    ensures Nos(prefix + [l]) == Nos(prefix) + {l.orderNo}
  {
    assert (prefix + [l])[..|prefix|] == prefix;
  }

  /** A group's order number occurs in the lines. */
  lemma OkGroupIsSeen(lines: seq<Line>, g: Group)
    requires GroupOk(lines, g)
    ensures g.orderNo in Nos(lines)
  {
    LinesWithEmpty(lines, g.orderNo);
  }

  lemma {:induction false} OthersStayOk(prefix: seq<Line>, gs: seq<Group>, l: Line, k: int)
    requires AllOk(prefix, gs)
    requires forall i :: 0 <= i < |gs| && i != k ==> gs[i].orderNo != l.orderNo
    ensures forall i :: 0 <= i < |gs| && i != k ==> GroupOk(prefix + [l], gs[i])
  {
    forall i | 0 <= i < |gs| && i != k
      ensures GroupOk(prefix + [l], gs[i])
    {
      GroupStaysOk(prefix, l, gs[i]);
    }
  }

  lemma {:induction false} CoversStep(prefix: seq<Line>, gs: seq<Group>, l: Line, after: seq<Group>)
    requires Covers(prefix, gs)
    requires forall no :: IndexOfNo(gs, no).Some? ==> IndexOfNo(after, no).Some?
    requires IndexOfNo(after, l.orderNo).Some?
    ensures Covers(prefix + [l], after)
  {
    var lines := prefix + [l];
    forall j | 0 <= j < |lines|
      ensures IndexOfNo(after, lines[j].orderNo).Some?
    {
      if j < |prefix| {
        assert lines[j] == prefix[j];
        assert IndexOfNo(gs, prefix[j].orderNo).Some?;
      }
    }
  }

  lemma ExistingCovers(prefix: seq<Line>, gs: seq<Group>, l: Line, k: nat)
    requires Covers(prefix, gs)
    requires IndexOfNo(gs, l.orderNo) == Some(k)
    ensures Covers(prefix + [l], gs[k := Extended(gs[k], l)])
  {
    var after := gs[k := Extended(gs[k], l)];
    forall no
      ensures IndexOfNo(after, no) == IndexOfNo(gs, no)
    {
      SameNosSameIndex(gs, after, no);
    }
    CoversStep(prefix, gs, l, after);
  }

  lemma ExistingAllOk(prefix: seq<Line>, gs: seq<Group>, l: Line, k: nat)
    requires AllOk(prefix, gs) && DistinctNos(gs)
    requires IndexOfNo(gs, l.orderNo) == Some(k)
    ensures AllOk(prefix + [l], gs[k := Extended(gs[k], l)])
  {
    ExtendedIsOk(prefix, l, gs[k]);
    OthersStayOk(prefix, gs, l, k);
  }

  /** A line of an order that already has a group extends that group. */
  lemma {:induction false} AddToExisting(prefix: seq<Line>, gs: seq<Group>, l: Line, k: nat)
    requires GroupedWell(prefix, gs)
    requires IndexOfNo(gs, l.orderNo) == Some(k)
    ensures GroupedWell(prefix + [l], gs[k := Extended(gs[k], l)])
  {
    ExistingNos(prefix, gs, l, k);
    ExistingAllOk(prefix, gs, l, k);
    ExistingCovers(prefix, gs, l, k);
    SameNosDistinct(gs, gs[k := Extended(gs[k], l)]);
  }

  lemma ExistingNos(prefix: seq<Line>, gs: seq<Group>, l: Line, k: nat)
    requires AllOk(prefix, gs)
    requires IndexOfNo(gs, l.orderNo) == Some(k)
    ensures Nos(prefix + [l]) == Nos(prefix)
  {
    NosStep(prefix, l);
    OkGroupIsSeen(prefix, gs[k]);
  }

  lemma SameNosDistinct(gs: seq<Group>, hs: seq<Group>)
    requires DistinctNos(gs)
    requires |gs| == |hs| && forall i :: 0 <= i < |gs| ==> gs[i].orderNo == hs[i].orderNo
    ensures DistinctNos(hs)
  {
  }

  lemma NewCovers(prefix: seq<Line>, gs: seq<Group>, l: Line)
    requires Covers(prefix, gs)
    ensures Covers(prefix + [l], gs + [Opened(l)])
  {
    var after := gs + [Opened(l)];
    forall no
      ensures IndexOfNo(gs, no).Some? ==> IndexOfNo(after, no).Some?
      ensures IndexOfNo(after, l.orderNo).Some?
    {
      AppendedIndex(gs, Opened(l), no);
      AppendedIndex(gs, Opened(l), l.orderNo);
    }
    CoversStep(prefix, gs, l, after);
  }

  lemma NewAllOk(prefix: seq<Line>, gs: seq<Group>, l: Line)
    requires AllOk(prefix, gs)
    requires l.orderNo !in Nos(prefix)
    ensures AllOk(prefix + [l], gs + [Opened(l)])
  {
    forall i | 0 <= i < |gs|
      ensures gs[i].orderNo != l.orderNo
    {
      OkGroupIsSeen(prefix, gs[i]);
    }
    OpenedIsOk(prefix, l);
    OthersStayOk(prefix, gs, l, -1);
  }

  /** A line of a new order opens a group at the end. */
  lemma {:induction false} AddAsNew(prefix: seq<Line>, gs: seq<Group>, l: Line)
    requires GroupedWell(prefix, gs)
    requires IndexOfNo(gs, l.orderNo).None?
    ensures GroupedWell(prefix + [l], gs + [Opened(l)])
  {
    NosStep(prefix, l);
    if l.orderNo in Nos(prefix) {
      var j := NosIndex(prefix, l.orderNo);
      assert false;
    }
    NewAllOk(prefix, gs, l);
    NewCovers(prefix, gs, l);
  }

  lemma {:induction false} SameNosSameIndex(gs: seq<Group>, hs: seq<Group>, no: string)
    requires |gs| == |hs| && forall i :: 0 <= i < |gs| ==> gs[i].orderNo == hs[i].orderNo
    ensures IndexOfNo(gs, no) == IndexOfNo(hs, no)
  {
    if gs != [] {
      SameNosSameIndex(gs[1..], hs[1..], no);
    }
  }

  lemma AppendedIndex(gs: seq<Group>, g: Group, no: string)
    ensures IndexOfNo(gs + [g], no).Some? <==> IndexOfNo(gs, no).Some? || g.orderNo == no
  {
    var r := IndexOfNo(gs + [g], no);
    if IndexOfNo(gs, no).Some? {
      assert (gs + [g])[IndexOfNo(gs, no).value].orderNo == no;
    } else if g.orderNo == no {
      assert (gs + [g])[|gs|].orderNo == no;
    }
  }

  lemma LastSplit<T>(xs: seq<T>)
    requires xs != []
    ensures xs[..|xs| - 1] + [xs[|xs| - 1]] == xs
  {
  }

  /** The groups hold every order number once, each with exactly its own lines, their
      header and their totals; their count is the number of distinct order numbers. */
  lemma {:induction false} GroupsOfMeaning(lines: seq<Line>)
    ensures GroupedWell(lines, GroupsOf(lines))
  {
    if lines != [] {
      var prefix := lines[..|lines| - 1];
      GroupsOfMeaning(prefix);
      var gs, l := GroupsOf(prefix), lines[|lines| - 1];
      var k := IndexOfNo(gs, l.orderNo);
      if k.Some? {
        AddToExisting(prefix, gs, l, k.value);
      } else {
        AddAsNew(prefix, gs, l);
      }
      LastSplit(lines);
    }
  }

  /** The group of an order number, found by a scan (`orderMap.has` / `orderMap.get`). */
  method FindGroup(groups: seq<Group>, no: string) returns (k: Option<nat>)
    ensures k == IndexOfNo(groups, no)
  {
    var i := 0;
    while i < |groups|
      invariant i <= |groups|
      invariant forall j :: 0 <= j < i ==> groups[j].orderNo != no
    {
      if groups[i].orderNo == no {
        return Some(i);
      }
      i := i + 1;
    }
    return None;
  }

  /** The `forEach` that fills the order map. */
  method GroupLines(lines: seq<Line>) returns (groups: seq<Group>)
    ensures groups == GroupsOf(lines)
  {
    groups := [];
    var i := 0;
    while i < |lines|
      invariant i <= |lines|
      invariant groups == GroupsOf(lines[..i])
    {
      var k := FindGroup(groups, lines[i].orderNo);
      if k.Some? {
        groups := groups[k.value := Extended(groups[k.value], lines[i])];
      } else {
        groups := groups + [Opened(lines[i])];
      }
      assert lines[..i + 1][..i] == lines[..i];
      i := i + 1;
    }
    assert lines[..|lines|] == lines;
  }

  // ---------------------------------------------------------------- ordering

  /** The two comparators: `Legacy` (backend/routes) compares two dated orders only by date;
      `Current` (packages/backend/routes) breaks a date tie by order number, descending. */
  datatype Rule = Legacy | Current

  /** The `sort` comparator: negative when `a` goes first. */
  function Compare(rule: Rule, a: Group, b: Group): int
  {
    if a.orderDate.Some? && b.orderDate.Some? then
      var diff := b.orderDate.value - a.orderDate.value;
      if rule == Legacy || diff != 0 then diff else CompareText(b.orderNo, a.orderNo)
    else if a.orderDate.Some? then -1
    else if b.orderDate.Some? then 1
    else CompareText(b.orderNo, a.orderNo)
  }

  predicate Precedes(rule: Rule, a: Group, b: Group)
  {
    Compare(rule, a, b) <= 0
  }

  lemma CompareFlips(rule: Rule, a: Group, b: Group)
    ensures Compare(rule, b, a) == -Compare(rule, a, b)
  {
    CompareTextFlips(a.orderNo, b.orderNo);
  }

  lemma PrecedesChains(rule: Rule, a: Group, b: Group, c: Group)
    requires Precedes(rule, a, b) && Precedes(rule, b, c)
    ensures Precedes(rule, a, c)
  {
    if CompareText(b.orderNo, a.orderNo) <= 0 && CompareText(c.orderNo, b.orderNo) <= 0 {
      CompareTextChains(c.orderNo, b.orderNo, a.orderNo);
    }
  }

  /** Puts `x` before the first group it may precede. */
  function Insert(rule: Rule, x: Group, sorted: seq<Group>): (r: seq<Group>)
    ensures multiset(r) == multiset(sorted) + multiset{x}
    ensures |r| == |sorted| + 1
  {
    if sorted == [] || Precedes(rule, x, sorted[0]) then [x] + sorted
    else
      assert sorted == [sorted[0]] + sorted[1..];
      [sorted[0]] + Insert(rule, x, sorted[1..])
  }

  /** `Array.prototype.sort` with the comparator. The comparator is consistent and the sort
      is stable, so the result is the stable sorted order that this insertion sort builds. */
  function Sort(rule: Rule, xs: seq<Group>): (r: seq<Group>)
    ensures multiset(r) == multiset(xs)
    ensures |r| == |xs|
  {
    if xs == [] then []
    else
      assert xs == [xs[0]] + xs[1..];
      Insert(rule, xs[0], Sort(rule, xs[1..]))
  }

  predicate Ordered(rule: Rule, xs: seq<Group>)
  {
    forall i, j :: 0 <= i < j < |xs| ==> Precedes(rule, xs[i], xs[j])
  }

  lemma {:induction false} InsertKeepsOrdered(rule: Rule, x: Group, sorted: seq<Group>)
    requires Ordered(rule, sorted)
    ensures Ordered(rule, Insert(rule, x, sorted))
  {
    var r := Insert(rule, x, sorted);
    if sorted == [] {
    } else if Precedes(rule, x, sorted[0]) {
      forall j | 1 <= j < |r|
        ensures Precedes(rule, x, r[j])
      {
        if j > 1 {
          PrecedesChains(rule, x, sorted[0], sorted[j - 1]);
        }
      }
    } else {
      CompareFlips(rule, x, sorted[0]);
      InsertKeepsOrdered(rule, x, sorted[1..]);
      var rest := Insert(rule, x, sorted[1..]);
      forall j | 0 <= j < |rest|
        ensures Precedes(rule, sorted[0], rest[j])
      {
        assert rest[j] in multiset(rest);
        if rest[j] != x {
          assert rest[j] in multiset(sorted[1..]);
          var k :| 0 <= k < |sorted[1..]| && sorted[1..][k] == rest[j];
          assert sorted[k + 1] == rest[j];
        }
      }
    }
  }

  lemma {:induction false} SortIsOrdered(rule: Rule, xs: seq<Group>)
    ensures Ordered(rule, Sort(rule, xs))
  {
    if xs != [] {
      SortIsOrdered(rule, xs[1..]);
      InsertKeepsOrdered(rule, xs[0], Sort(rule, xs[1..]));
    }
  }

  /** What the order of the list means: dated orders come before undated ones, dated
      orders are newest first, and the order number (descending) decides among undated
      orders and, in the current rule, among orders of the same date. */
  lemma SortedListOrder(rule: Rule, groups: seq<Group>, i: nat, j: nat)
    requires i < j < |groups|
    ensures var xs := Sort(rule, groups);
      var a, b := xs[i], xs[j];
      (b.orderDate.Some? ==> a.orderDate.Some?)
      && (a.orderDate.Some? && b.orderDate.Some? ==> a.orderDate.value >= b.orderDate.value)
      && (a.orderDate.None? && b.orderDate.None? ==> CompareText(a.orderNo, b.orderNo) >= 0)
      && (rule == Current && a.orderDate.Some? && b.orderDate == a.orderDate
          ==> CompareText(a.orderNo, b.orderNo) >= 0)
  {
    SortIsOrdered(rule, groups);
    var xs := Sort(rule, groups);
    CompareTextFlips(xs[i].orderNo, xs[j].orderNo);
  }

  // ---------------------------------------------------------------- the page

  /** The list route after its query: group, sort, count, and
      `slice(offset, offset + pageSize)` with `offset = (page - 1) * pageSize`. */
  method ListPage(rule: Rule, lines: seq<Line>, page: int, pageSize: int)
    returns (list: seq<Group>, total: nat, offset: int)
    ensures offset == (page - 1) * pageSize
    ensures total == |Nos(lines)|
    ensures list == JsSlice(Sort(rule, GroupsOf(lines)), offset, offset + pageSize)
  {
    var groups := GroupLines(lines);
    GroupsOfMeaning(lines);
    var sorted := Sort(rule, groups);
    total := |sorted|;
    offset := (page - 1) * pageSize;
    list := JsSlice(sorted, offset, offset + pageSize);
  }

  /** The page at a non-negative offset holds at most `pageSize` orders, is the stretch of the
      sorted list that starts at the offset, and every entry is a complete order of the lines. */
  lemma PageMeaning(rule: Rule, lines: seq<Line>, offset: int, pageSize: int)
    requires offset >= 0 && pageSize >= 0
    ensures var sorted := Sort(rule, GroupsOf(lines));
      var list := JsSlice(sorted, offset, offset + pageSize);
      |list| <= pageSize
      && (offset + pageSize <= |sorted| ==> list == sorted[offset..offset + pageSize])
      && forall g :: g in list ==> g.orderNo in Nos(lines) && GroupOk(lines, g)
  {
    PageMembers(rule, lines, offset, pageSize);
  }

  /** Every entry of a page is a complete order of the lines. */
  lemma PageMembers(rule: Rule, lines: seq<Line>, offset: int, pageSize: int)
    ensures forall g :: g in JsSlice(Sort(rule, GroupsOf(lines)), offset, offset + pageSize) ==>
      g.orderNo in Nos(lines) && GroupOk(lines, g)
  {
    var gs := GroupsOf(lines);
    var sorted := Sort(rule, gs);
    GroupsOfMeaning(lines);
    var list := JsSlice(sorted, offset, offset + pageSize);
    forall g | g in list
      ensures g.orderNo in Nos(lines) && GroupOk(lines, g)
    {
      SlicedMember(sorted, offset, offset + pageSize, g);
      SortedMember(rule, gs, g);
      MemberOk(lines, gs, g);
      OkGroupIsSeen(lines, g);
    }
  }

  lemma SortedMember(rule: Rule, xs: seq<Group>, g: Group)
    requires g in Sort(rule, xs)
    ensures g in xs
  {
    assert g in multiset(Sort(rule, xs));
  }

  lemma MemberOk(lines: seq<Line>, gs: seq<Group>, g: Group)
    requires AllOk(lines, gs) && g in gs
    ensures GroupOk(lines, g)
  {
    var k :| 0 <= k < |gs| && gs[k] == g;
  }

  lemma SlicedMember<T>(xs: seq<T>, start: int, end: int, x: T)
    requires x in JsSlice(xs, start, end)
    ensures x in xs
  {
  }
}
