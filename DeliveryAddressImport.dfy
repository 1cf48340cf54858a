/** The batch import of one customer's delivery addresses
    (`batch-import-delivery-addresses.js`): blank and already-present addresses are skipped,
    each inserted address takes the next sort number after the customer's current largest,
    only the first address of the list may become the default, and the city is guessed from a
    fixed keyword list. The whole batch runs in one transaction. */
module DeliveryAddressImport {
  import opened Common

  // ---------------------------------------------------------------- city

  /** The keywords in the order the if-chain tests them, each with the city it gives. */
  const CityKeywords: seq<(string, string)> := [
    ("江阴", "江阴市"), ("合肥", "合肥市"), ("景德镇", "景德镇市"), ("宁国", "宁国市"),
    ("芜湖", "芜湖市"), ("无锡", "无锡市"), ("常州", "常州市"), ("苏州", "苏州市"),
    ("南京", "南京市"), ("佛山", "佛山市"), ("巢湖", "巢湖市"), ("潜山", "潜山市"),
    ("宣城", "宣城市")]

  /** The city of the first keyword, from position `from` on, that the address contains. */
  function FirstCity(address: string, from: nat): (r: Option<string>)
    requires from <= |CityKeywords|
    decreases |CityKeywords| - from
    ensures r.Some? <==> exists k :: from <= k < |CityKeywords| && Contains(address, CityKeywords[k].0)
    ensures r.Some? ==> exists k :: (from <= k < |CityKeywords| && Contains(address, CityKeywords[k].0)
      && r.value == CityKeywords[k].1 && forall j :: from <= j < k ==> !Contains(address, CityKeywords[j].0))
  {
    if from == |CityKeywords| then None
    else if Contains(address, CityKeywords[from].0) then Some(CityKeywords[from].1)
    else FirstCity(address, from + 1)
  }

  /** The city written with the address: the first keyword hit, except for the test address. */
  function CityOf(address: string): Option<string>
  {
    if ToLower(address) == "test" then None else FirstCity(address, 0)
  }

  /** A city is written exactly when the address contains one of the keywords, and then it is
      the city of the earliest keyword in the list; the test address contains none of them,
      so its special case changes nothing. */
  lemma CityMeaning(address: string)
    ensures CityOf(address).Some? <==>
      ToLower(address) != "test" && exists k :: 0 <= k < |CityKeywords| && Contains(address, CityKeywords[k].0)
    ensures CityOf(address).Some? ==>
      exists k :: 0 <= k < |CityKeywords| && Contains(address, CityKeywords[k].0)
        && CityOf(address).value == CityKeywords[k].1
        && forall j :: 0 <= j < k ==> !Contains(address, CityKeywords[j].0)
  {
  }

  /** Jiangyin is checked before Wuxi, so an address naming both gets 江阴市. */
  lemma JiangyinBeforeWuxi(address: string)
    requires Contains(address, "江阴")
    ensures CityOf(address) == Some("江阴市")
  {
    var i :| 0 <= i <= |address| && ContainsAt(address, "江阴", i);
    assert forall c :: c in "江阴" ==> c in address;
    assert ToLower(address) != "test" by {
      assert address[i] == '江';
      assert ToLower(address)[i] == '江';
    }
  }

  // ---------------------------------------------------------------- rows

  /** An entry of the address list. */
  datatype Address = Address(receiver: string, contact: string, phone: string, address: string)

  /** A row of the delivery-address table. */
  datatype AddressRow = AddressRow(
    customerId: int, receiver: string, address: string, contact: Option<string>,
    phone: Option<string>, purpose: string, isDefault: bool, sortOrder: int, country: string,
    city: Option<string>)

  /** `value || null`. */
  function OrNull(s: string): Option<string>
  {
    if s == [] then None else Some(s)
  }

  /** The row inserted for the address at `index` with sort number `sort`. */
  function RowOf(customerId: int, a: Address, index: nat, sort: int): AddressRow
  {
    AddressRow(customerId, a.receiver, a.address, OrNull(a.contact), OrNull(a.phone), "SHIP_TO",
      index == 0, sort, "中国", CityOf(a.address))
  }

  /** The duplicate query: a row of this customer with the same receiver and address. */
  predicate HasSame(table: seq<AddressRow>, customerId: int, a: Address)
  {
    exists r :: r in table && r.customerId == customerId && r.receiver == a.receiver && r.address == a.address
  }

  /** `MAX(排序号)` over the customer's rows; None when the customer has none. */
  function CustomerMax(table: seq<AddressRow>, customerId: int): (m: Option<int>)
    ensures m.None? <==> forall r :: r in table ==> r.customerId != customerId
    ensures m.Some? ==> forall r :: r in table && r.customerId == customerId ==> r.sortOrder <= m.value
    ensures m.Some? ==> exists r :: r in table && r.customerId == customerId && r.sortOrder == m.value
  {
    if table == [] then None
    else
      var rest := CustomerMax(table[1..], customerId);
      var r := table[0];
      assert table == [r] + table[1..];
      if r.customerId != customerId then rest
      else if rest.None? then Some(r.sortOrder)
      else Some(Max(r.sortOrder, rest.value))
  }

  /** `ISNULL(MAX(排序号), 0)`, then `|| 0`. */
  function MaxSort(table: seq<AddressRow>, customerId: int): int
  {
    var m := CustomerMax(table, customerId);
    if m.Some? then m.value else 0
  }

  // ---------------------------------------------------------------- the loop

  /** The loop state: the table as the transaction sees it, the last sort number used and the
      counters. */
  datatype State = State(table: seq<AddressRow>, sort: int, success: nat, skipped: nat)

  predicate IsBlank(s: string)
  {
    Trim(s) == []
  }

  /** One turn of the loop. */
  function Step(st: State, customerId: int, a: Address, index: nat): State
  {
    if IsBlank(a.address) then st.(skipped := st.skipped + 1)
    else if HasSame(st.table, customerId, a) then st.(skipped := st.skipped + 1)
    else State(st.table + [RowOf(customerId, a, index, st.sort + 1)], st.sort + 1, st.success + 1, st.skipped)
  }

  /** The state after the loop has handled `addrs`. */
  function Run(start: State, customerId: int, addrs: seq<Address>): State
  {
    if addrs == [] then start
    else Step(Run(start, customerId, addrs[..|addrs| - 1]), customerId, addrs[|addrs| - 1], |addrs| - 1)
  }

  datatype Outcome = NoCustomer | Committed(success: nat, skipped: nat) | RolledBack

  /** `main` from the customer lookup on. The failing insert, if any, is a parameter: `failAt`
      is the index of the address whose insert throws. */
  method ImportAddresses(table: seq<AddressRow>, customerId: Option<int>, addrs: seq<Address>, failAt: Option<nat>)
    returns (result: seq<AddressRow>, outcome: Outcome)
    ensures customerId.None? ==> outcome == NoCustomer && result == table
    ensures outcome.RolledBack? ==> result == table
    ensures outcome.Committed? ==>
      customerId.Some? &&
      var st := Run(State(table, MaxSort(table, customerId.value), 0, 0), customerId.value, addrs);
      result == st.table && outcome == Committed(st.success, st.skipped)
  {
    if customerId.None? {
      return table, NoCustomer;
    }
    var cid := customerId.value;
    var sort := MaxSort(table, cid);
    ghost var start := State(table, sort, 0, 0);
    var pending := table;
    var success := 0;
    var skipped := 0;
    var i := 0;
    while i < |addrs|
      invariant i <= |addrs|
      invariant Run(start, cid, addrs[..i]) == State(pending, sort, success, skipped)
    {
      var a := addrs[i];
      assert addrs[..i + 1][..i] == addrs[..i];
      var next, rolledBack := ImportOne(State(pending, sort, success, skipped), cid, a, i, failAt == Some(i));
      if rolledBack {
        return table, RolledBack;
      }
      pending, sort, success, skipped := next.table, next.sort, next.success, next.skipped;
      i := i + 1;
    }
    assert addrs[..i] == addrs;
    return pending, Committed(success, skipped);
  }

  /** The body of the loop: skip a blank or duplicate address, else take the next sort
      number and insert the row, unless that insert throws (`fail`). */
  method ImportOne(st: State, cid: int, a: Address, i: nat, fail: bool) returns (next: State, rolledBack: bool)
    ensures rolledBack ==> fail
    ensures !rolledBack ==> next == Step(st, cid, a, i)
  {
    if IsBlank(a.address) {
      return st.(skipped := st.skipped + 1), false;
    } else if HasSame(st.table, cid, a) {
      return st.(skipped := st.skipped + 1), false;
    }
    var sort := st.sort + 1;
    if fail {
      return st, true;
    }
    next := State(st.table + [RowOf(cid, a, i, sort)], sort, st.success + 1, st.skipped);
    rolledBack := false;
  }

  // ---------------------------------------------------------------- what a run does

  /** One turn either inserts one row or counts one skip. */
  lemma StepCounts(st: State, customerId: int, a: Address, index: nat)
    ensures Step(st, customerId, a, index).success + Step(st, customerId, a, index).skipped
      == st.success + st.skipped + 1
    ensures Step(st, customerId, a, index).sort == st.sort + Step(st, customerId, a, index).success - st.success
    ensures |Step(st, customerId, a, index).table| == |st.table| + Step(st, customerId, a, index).success - st.success
    ensures Step(st, customerId, a, index).table[..|st.table|] == st.table
  {
  }

  /** Every address is either inserted or skipped; the sort number moves on once per insert;
      the table only grows, by one row per insert. */
  lemma {:induction false} RunCounts(start: State, customerId: int, addrs: seq<Address>)
    ensures Run(start, customerId, addrs).success + Run(start, customerId, addrs).skipped
      == start.success + start.skipped + |addrs|
    ensures Run(start, customerId, addrs).sort == start.sort + Run(start, customerId, addrs).success - start.success
    ensures |Run(start, customerId, addrs).table| == |start.table| + Run(start, customerId, addrs).success - start.success
    ensures |start.table| <= |Run(start, customerId, addrs).table|
      && Run(start, customerId, addrs).table[..|start.table|] == start.table
  {
    if addrs != [] {
      var n := |addrs| - 1;
      var prev := Run(start, customerId, addrs[..n]);
      RunCounts(start, customerId, addrs[..n]);
      StepCounts(prev, customerId, addrs[n], n);
      var next := Step(prev, customerId, addrs[n], n);
      assert next.table[..|start.table|] == next.table[..|prev.table|][..|start.table|];
    }
  }

  /** The rows a run adds carry the customer and the sort numbers after the starting one,
      one by one, in insertion order. */
  lemma {:induction false} RunSortOrders(start: State, customerId: int, addrs: seq<Address>)
    ensures forall k :: |start.table| <= k < |Run(start, customerId, addrs).table| ==>
      Run(start, customerId, addrs).table[k].sortOrder == start.sort + (k - |start.table|) + 1
        && Run(start, customerId, addrs).table[k].customerId == customerId
  {
    RunCounts(start, customerId, addrs);
    if addrs != [] {
      var n := |addrs| - 1;
      RunSortOrders(start, customerId, addrs[..n]);
      RunCounts(start, customerId, addrs[..n]);
    }
  }

  /** A longer prefix of the list never leaves a shorter table. */
  lemma {:induction false} RunGrows(start: State, customerId: int, addrs: seq<Address>, m: nat)
    requires m <= |addrs|
    ensures |Run(start, customerId, addrs[..m]).table| <= |Run(start, customerId, addrs).table|
  {
    if m < |addrs| {
      var n := |addrs| - 1;
      assert addrs[..n][..m] == addrs[..m];
      RunGrows(start, customerId, addrs[..n], m);
      StepCounts(Run(start, customerId, addrs[..n]), customerId, addrs[n], n);
    } else {
      assert addrs[..m] == addrs;
    }
  }

  /** The first address of the list is neither blank nor already present. */
  predicate FirstInserted(table: seq<AddressRow>, customerId: int, addrs: seq<Address>)
  {
    addrs != [] && !IsBlank(addrs[0].address) && !HasSame(table, customerId, addrs[0])
  }

  /** Only the row of the first address is marked default: a run adds a default row exactly
      when the first address is inserted, and then it is the first row added. */
  lemma {:induction false} RunDefaults(start: State, customerId: int, addrs: seq<Address>)
    ensures forall k :: |start.table| <= k < |Run(start, customerId, addrs).table| ==>
      (Run(start, customerId, addrs).table[k].isDefault <==>
        (k == |start.table| && FirstInserted(start.table, customerId, addrs)))
  {
    RunCounts(start, customerId, addrs);
    if addrs != [] {
      var n := |addrs| - 1;
      var prev := Run(start, customerId, addrs[..n]);
      RunDefaults(start, customerId, addrs[..n]);
      RunCounts(start, customerId, addrs[..n]);
      if n == 0 {
        assert addrs[..n] == [];
      } else {
        assert addrs[..n][0] == addrs[0];
        if FirstInserted(start.table, customerId, addrs) {
          assert addrs[..n][..1] == addrs[..1];
          assert addrs[..1][..0] == [];
          RunGrows(start, customerId, addrs[..n], 1);
        }
      }
    }
  }

  predicate UniqueKeys(table: seq<AddressRow>)
  {
    forall i, j :: 0 <= i < j < |table| ==>
      !(table[i].customerId == table[j].customerId && table[i].receiver == table[j].receiver
        && table[i].address == table[j].address)
  }

  /** The duplicate check keeps the (customer, receiver, address) triples unique: a table
      without repeated triples has none after the run either, repeats inside the list
      included. */
  lemma {:induction false} RunKeepsKeysUnique(start: State, customerId: int, addrs: seq<Address>)
    requires UniqueKeys(start.table)
    ensures UniqueKeys(Run(start, customerId, addrs).table)
  {
    if addrs != [] {
      var n := |addrs| - 1;
      var prev := Run(start, customerId, addrs[..n]);
      RunKeepsKeysUnique(start, customerId, addrs[..n]);
      var a := addrs[n];
      if !IsBlank(a.address) && !HasSame(prev.table, customerId, a) {
        var t := prev.table + [RowOf(customerId, a, n, prev.sort + 1)];
        forall i, j | 0 <= i < j < |t|
          ensures !(t[i].customerId == t[j].customerId && t[i].receiver == t[j].receiver
            && t[i].address == t[j].address)
        {
          if j == |t| - 1 {
            assert t[i] in prev.table;
          }
        }
      }
    }
  }
}
