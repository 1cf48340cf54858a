/** The customer routes of the back end: the status filter of the customer list and the
    delivery-address routes (create, update, delete, set default) over the delivery-address
    table. The tables are sequences of rows; every route runs its SQL statements in order,
    and each statement is a function from table to table. */
module Customer {
  import opened Common
  import opened JsNumber

  // ---------------------------------------------------------------- the list status

  /** A row of the customer table as the list sees it: `disabled` is the nullable
      `是否停用` bit. */
  datatype CustomerRow = CustomerRow(id: int, disabled: Option<bool>)

  datatype StatusFilter = AnyStatus | ActiveOnly | InactiveOnly

  /** The `status` query parameter: `active` and `inactive` add a condition, any other value
      (absent, empty or unknown) adds none. */
  function FilterOf(status: Value): (f: StatusFilter)
    ensures f == ActiveOnly <==> status == Str("active")
    ensures f == InactiveOnly <==> status == Str("inactive")
  {
    if !Truthy(status) then AnyStatus
    else if status == Str("active") then ActiveOnly
    else if status == Str("inactive") then InactiveOnly
    else AnyStatus
  }

  /** The SQL condition: active is `是否停用 = 0 OR 是否停用 IS NULL`, inactive is
      `是否停用 = 1`. */
  predicate Selects(f: StatusFilter, disabled: Option<bool>)
  {
    match f
    case AnyStatus => true
    case ActiveOnly => disabled == Some(false) || disabled == None
    case InactiveOnly => disabled == Some(true)
  }

  /** The `status` column of each listed row: `inactive` when the bit is 1, else `active`. */
  function StatusText(disabled: Option<bool>): string
  {
    if disabled == Some(true) then "inactive" else "active"
  }

  /** The rows the list query returns, in table order. */
  function Listed(rows: seq<CustomerRow>, status: Value): (r: seq<CustomerRow>)
    ensures forall x :: x in r ==> x in rows && Selects(FilterOf(status), x.disabled)
    ensures forall x :: x in rows && Selects(FilterOf(status), x.disabled) ==> x in r
  {
    if |rows| == 0 then []
    else
      var rest := Listed(rows[1..], status);
      assert forall x :: x in rows[1..] ==> x in rows;
      if Selects(FilterOf(status), rows[0].disabled) then [rows[0]] + rest else rest
  }

  /** The filter and the shown status agree: `status=active` lists exactly the customers
      shown as active, `status=inactive` exactly those shown as inactive, and any other
      value lists every customer. */
  lemma ListedStatus(rows: seq<CustomerRow>, status: Value)
    ensures status == Str("active") ==>
      forall x :: x in Listed(rows, status) <==> x in rows && StatusText(x.disabled) == "active"
    ensures status == Str("inactive") ==>
      forall x :: x in Listed(rows, status) <==> x in rows && StatusText(x.disabled) == "inactive"
    ensures status != Str("active") && status != Str("inactive") ==>
      forall x :: x in Listed(rows, status) <==> x in rows
  {
    forall x | x in rows
      ensures Selects(ActiveOnly, x.disabled) <==> StatusText(x.disabled) == "active"
      ensures Selects(InactiveOnly, x.disabled) <==> StatusText(x.disabled) == "inactive"
    {
      if x.disabled == Some(true) {
        assert StatusText(x.disabled) == "inactive";
        assert "inactive"[0] != "active"[0];
      } else if x.disabled.Some? {
        assert !x.disabled.value;
      }
    }
  }

  // ---------------------------------------------------------------- the address table

  /** A row of `客户收货地址`. `details` holds the nine optional text columns stored as
      `x || null` (short name, postcode, district, city, contact, phone, mobile, e-mail,
      remark); `usage` is the NOT NULL `地址用途` column. */
  datatype Address = Address(
    id: int, customer: int, receiver: Value, address: Value, province: Value, country: Value,
    usage: string, isDefault: bool, sortOrder: int, enabled: bool, details: seq<Value>)

  /** The table, the next identity value, and the address ids referenced by the lines of
      `出库单明细` (outbound documents). */
  datatype Db = Db(addresses: seq<Address>, nextId: int, outboundLines: seq<int>)

  /** How the body gives `地址用途`: left out, `null`, or a text. */
  datatype Given = Absent | NullGiven | Text(s: string)

  /** The body of a create or update request. Every `Value` field may be `Undefined`;
      `sortOrder` is `None` when `排序号` is left out. */
  datatype AddressForm = AddressForm(
    receiver: Value, address: Value, details: seq<Value>, province: Value, country: Value,
    usage: Given, isDefault: Value, sortOrder: Option<int>)

  datatype Reply =
    | Created(id: int)
    | Updated
    | DefaultSet
    | SoftDeleted(usageCount: nat)
    | Deleted
    | MissingField    // 400: receiver or address empty
    | NoAddress       // 404
    | Rejected        // 500: a NOT NULL column would be null; the transaction rolls back
  datatype Outcome = Outcome(reply: Reply, db: Db)

  const ShipTo: string := "SHIP_TO"
  const China: Value := Str("中国")

  function OrNull(v: Value): (r: Value)
    ensures Truthy(r) || r == Null
  {
    if Truthy(v) then v else Null
  }

  function OrNulls(vs: seq<Value>): (r: seq<Value>)
    ensures |r| == |vs| && forall i :: 0 <= i < |vs| ==> r[i] == OrNull(vs[i])
  {
    seq(|vs|, i requires 0 <= i < |vs| => OrNull(vs[i]))
  }

  /** `x || '中国'`. */
  function OrChina(v: Value): (r: Value)
    ensures Truthy(r)
  {
    if Truthy(v) then v else China
  }

  /** The stored usage on create, `地址用途 || 'SHIP_TO'` after the `'SHIP_TO'` default for a
      missing field. */
  function StoredUsage(u: Given): (s: string)
    ensures s != ""
    ensures u.Text? && u.s != "" ==> s == u.s
  {
    if u.Text? && u.s != "" then u.s else ShipTo
  }

  /** The `@addressUsage` parameter bound by create: the field itself, so `null` binds NULL. */
  function RawUsage(u: Given): Option<string>
  {
    match u
    case Absent => Some(ShipTo)
    case NullGiven => None
    case Text(s) => Some(s)
  }

  predicate HasId(rows: seq<Address>, id: int)
  {
    exists k :: 0 <= k < |rows| && rows[k].id == id
  }

  /** Ids are distinct and below the next identity value. */
  predicate Valid(db: Db)
  {
    (forall k :: 0 <= k < |db.addresses| ==> db.addresses[k].id < db.nextId)
    && forall i, j :: 0 <= i < j < |db.addresses| ==> db.addresses[i].id != db.addresses[j].id
  }

  /** At most one default address per customer and usage. */
  predicate OneDefault(rows: seq<Address>)
  {
    forall i, j :: 0 <= i < j < |rows| && rows[i].isDefault && rows[j].isDefault && rows[i].customer == rows[j].customer
      ==> rows[i].usage != rows[j].usage
  }

  // ---------------------------------------------------------------- the statements

  /** Whether `UPDATE ... SET 是否默认 = 0 WHERE 客户ID = @customer AND 地址用途 = @usage
      [AND 收货地址ID != @except]` touches a row; a NULL `@usage` matches nothing. */
  predicate ClearedBy(a: Address, customer: int, usage: Option<string>, except: Option<int>)
  {
    a.customer == customer && usage == Some(a.usage) && (except.None? || a.id != except.value)
  }

  function ClearDefaults(rows: seq<Address>, customer: int, usage: Option<string>, except: Option<int>): (r: seq<Address>)
    ensures |r| == |rows|
    ensures forall k :: 0 <= k < |rows| ==>
      r[k] == if ClearedBy(rows[k], customer, usage, except) then rows[k].(isDefault := false) else rows[k]
  {
    seq(|rows|, k requires 0 <= k < |rows| =>
      if ClearedBy(rows[k], customer, usage, except) then rows[k].(isDefault := false) else rows[k])
  }

  /** `UPDATE ... WHERE 收货地址ID = @id`, applying `edit` to the matching rows. */
  function SetWhereId(rows: seq<Address>, id: int, edit: Address -> Address): (r: seq<Address>)
    ensures |r| == |rows|
    ensures forall k :: 0 <= k < |rows| ==> r[k] == if rows[k].id == id then edit(rows[k]) else rows[k]
  {
    seq(|rows|, k requires 0 <= k < |rows| => if rows[k].id == id then edit(rows[k]) else rows[k])
  }

  /** `DELETE ... WHERE 收货地址ID = @id`. */
  function DeleteWhereId(rows: seq<Address>, id: int): (r: seq<Address>)
    ensures forall a :: a in r <==> a in rows && a.id != id
    ensures |r| <= |rows|
  {
    if |rows| == 0 then []
    else
      var rest := DeleteWhereId(rows[1..], id);
      assert forall a :: a in rows <==> a == rows[0] || a in rows[1..];
      if rows[0].id == id then rest else [rows[0]] + rest
  }

  predicate HasCustomer(rows: seq<Address>, customer: int)
  {
    exists k :: 0 <= k < |rows| && rows[k].customer == customer
  }

  /** `SELECT ISNULL(MAX(排序号), 0) ... WHERE 客户ID = @customer`. */
  function MaxSort(rows: seq<Address>, customer: int): (m: int)
    ensures forall k :: 0 <= k < |rows| && rows[k].customer == customer ==> rows[k].sortOrder <= m
    ensures HasCustomer(rows, customer) ==>
      exists k :: 0 <= k < |rows| && rows[k].customer == customer && rows[k].sortOrder == m
    ensures !HasCustomer(rows, customer) ==> m == 0
  {
    if |rows| == 0 then 0
    else
      var rest := MaxSort(rows[1..], customer);
      assert forall k :: 1 <= k < |rows| ==> rows[k] == rows[1..][k - 1];
      assert HasCustomer(rows[1..], customer) ==> HasCustomer(rows, customer);
      if rows[0].customer != customer then rest
      else if HasCustomer(rows[1..], customer) then Max(rows[0].sortOrder, rest)
      else rows[0].sortOrder
  }

  // ---------------------------------------------------------------- create

  /** The `POST /:customerId/delivery-addresses` route. As written (`intended` false) the
      default-clearing statement binds the raw `地址用途`; `intended` binds the usage that is
      stored, which is the version the rest of the model uses. */
  function CreateWith(db: Db, customer: int, f: AddressForm, intended: bool): (out: Outcome)
  {
    if !Truthy(f.receiver) || !Truthy(f.address) then Outcome(MissingField, db)
    else
      var makeDefault := Truthy(f.isDefault);
      var cancel := if intended then Some(StoredUsage(f.usage)) else RawUsage(f.usage);
      var rows := if makeDefault then ClearDefaults(db.addresses, customer, cancel, None) else db.addresses;
      var given := if f.sortOrder.Some? then f.sortOrder.value else 0;
      var sort := if given != 0 then given else MaxSort(rows, customer) + 1;
      var row := Address(db.nextId, customer, f.receiver, f.address, OrNull(f.province),
        OrChina(f.country), StoredUsage(f.usage), makeDefault, sort, true, OrNulls(f.details));
      Outcome(Created(db.nextId), Db(rows + [row], db.nextId + 1, db.outboundLines))
  }

  function CreateAsWritten(db: Db, customer: int, f: AddressForm): (out: Outcome)
  {
    CreateWith(db, customer, f, false)
  }

  function Create(db: Db, customer: int, f: AddressForm): Outcome
  {
    CreateWith(db, customer, f, true)
  }

  /** A create either fails with 400 when the receiver or the address is empty, leaving the
      table alone, or appends one enabled row with the next id: the stored usage is the
      given one or `SHIP_TO`, the country the given one or `中国`, the optional columns the
      given text or NULL, and the sort order the given non-zero number or one past the
      customer's largest. Rows already there keep everything but, when the new row is
      default, their default flag. */
  lemma CreateOutcomes(db: Db, customer: int, f: AddressForm)
    ensures var out := Create(db, customer, f);
      (out.reply == MissingField <==> !Truthy(f.receiver) || !Truthy(f.address))
      && (out.reply == MissingField ==> out.db == db)
      && (out.reply != MissingField ==>
        var rows := out.db.addresses;
        var row := rows[|rows| - 1];
        out.reply == Created(db.nextId) && out.db.nextId == db.nextId + 1
        && |rows| == |db.addresses| + 1
        && row.id == db.nextId && row.customer == customer && row.enabled
        && row.receiver == f.receiver && row.address == f.address
        && row.usage == StoredUsage(f.usage) && Truthy(row.country)
        && (Truthy(f.country) ==> row.country == f.country)
        && row.details == OrNulls(f.details)
        && row.isDefault == Truthy(f.isDefault)
        && (f.sortOrder.Some? && f.sortOrder.value != 0 ==> row.sortOrder == f.sortOrder.value)
        && (forall k :: 0 <= k < |db.addresses| ==>
              rows[k] == db.addresses[k].(isDefault := rows[k].isDefault)
              && (rows[k].isDefault ==> db.addresses[k].isDefault)))
  {
  }

  /** Without a non-zero `排序号` the new address sorts after every address of its customer,
      one past the largest order (or first, with order 1, when the customer has none). */
  lemma CreateSortsLast(db: Db, customer: int, f: AddressForm)
    requires Truthy(f.receiver) && Truthy(f.address)
    requires f.sortOrder.None? || f.sortOrder.value == 0
    ensures var rows := Create(db, customer, f).db.addresses;
      var row := rows[|rows| - 1];
      (forall k :: 0 <= k < |db.addresses| && db.addresses[k].customer == customer ==>
         db.addresses[k].sortOrder < row.sortOrder)
      && (HasCustomer(db.addresses, customer) ==>
         exists k :: 0 <= k < |db.addresses| && db.addresses[k].customer == customer
           && row.sortOrder == db.addresses[k].sortOrder + 1)
      && (!HasCustomer(db.addresses, customer) ==> row.sortOrder == 1)
  {
    var cancel := Some(StoredUsage(f.usage));
    var rows := if Truthy(f.isDefault) then ClearDefaults(db.addresses, customer, cancel, None) else db.addresses;
    assert forall k :: 0 <= k < |rows| ==>
      rows[k].customer == db.addresses[k].customer && rows[k].sortOrder == db.addresses[k].sortOrder;
    assert HasCustomer(rows, customer) <==> HasCustomer(db.addresses, customer);
  }

  lemma CreateKeepsValid(db: Db, customer: int, f: AddressForm)
    requires Valid(db)
    ensures Valid(Create(db, customer, f).db)
  {
  }

  /** A created default address is the only default of its customer and usage, and the
      table keeps at most one default per customer and usage. */
  lemma CreateKeepsOneDefault(db: Db, customer: int, f: AddressForm)
    requires OneDefault(db.addresses)
    ensures OneDefault(Create(db, customer, f).db.addresses)
    ensures var rows := Create(db, customer, f).db.addresses;
      Create(db, customer, f).reply.Created? && Truthy(f.isDefault) ==>
        forall k :: 0 <= k < |rows| - 1 && rows[k].customer == customer && rows[k].usage == StoredUsage(f.usage)
          ==> !rows[k].isDefault
  {
  }

  /** As written, a default address sent with `地址用途: ""` clears the defaults of usage ""
      (none) while it is stored as `SHIP_TO`: with a `SHIP_TO` default already there, the
      customer ends up with two `SHIP_TO` defaults. */
  lemma CreateAsWrittenKeepsOldDefault()
    ensures var prior := Address(1, 7, Str("A"), Str("X"), Null, China, ShipTo, true, 1, true, []);
      var db := Db([prior], 2, []);
      var f := AddressForm(Str("B"), Str("Y"), [], Undefined, Undefined, Text(""), Bool(true), None);
      OneDefault(db.addresses) && !OneDefault(CreateAsWritten(db, 7, f).db.addresses)
  {
    var prior := Address(1, 7, Str("A"), Str("X"), Null, China, ShipTo, true, 1, true, []);
    var db := Db([prior], 2, []);
    var f := AddressForm(Str("B"), Str("Y"), [], Undefined, Undefined, Text(""), Bool(true), None);
    var rows := CreateAsWritten(db, 7, f).db.addresses;
    assert rows[0] == prior;
    assert rows[1].isDefault && rows[1].customer == 7 && rows[1].usage == ShipTo;
  }

  // ---------------------------------------------------------------- update

  /** The first row with the id, the `current` row the update reads. */
  function FirstWithId(rows: seq<Address>, id: int): (k: nat)
    requires HasId(rows, id)
    ensures k < |rows| && rows[k].id == id
    ensures forall j :: 0 <= j < k ==> rows[j].id != id
  {
    if rows[0].id == id then 0
    else
      assert HasId(rows[1..], id) by {
        var k :| 0 <= k < |rows| && rows[k].id == id;
        assert rows[1..][k - 1] == rows[k];
      }
      1 + FirstWithId(rows[1..], id)
  }

  /** The `SET` list of the update: receiver, address and the optional columns always;
      province, country, usage, default flag and sort order only when given. */
  function Edited(a: Address, f: AddressForm): (e: Address)
    ensures e.id == a.id && e.customer == a.customer && e.enabled == a.enabled
  {
    a.(receiver := f.receiver, address := f.address, details := OrNulls(f.details),
       province := if f.province == Undefined then a.province else OrNull(f.province),
       country := if f.country == Undefined then a.country else OrChina(f.country),
       usage := if f.usage.Text? then f.usage.s else a.usage,
       isDefault := if f.isDefault == Undefined then a.isDefault else Truthy(f.isDefault),
       sortOrder := if f.sortOrder.Some? then f.sortOrder.value else a.sortOrder)
  }

  /** The `PUT /delivery-addresses/:addressId` route. As written (`intended` false) the
      other defaults are cleared only when `是否默认` is truthy, for the usage
      `地址用途 || current.地址用途`; `intended` clears them whenever the edited row is
      default, for the usage it ends up with. A `null` usage breaks the NOT NULL column and
      the transaction rolls back. */
  function UpdateWith(db: Db, id: int, f: AddressForm, intended: bool): (out: Outcome)
  {
    if !Truthy(f.receiver) || !Truthy(f.address) then Outcome(MissingField, db)
    else if !HasId(db.addresses, id) then Outcome(NoAddress, db)
    else if f.usage.NullGiven? then Outcome(Rejected, db)
    else
      var current := db.addresses[FirstWithId(db.addresses, id)];
      var edited := Edited(current, f);
      var rows :=
        if intended then
          (if edited.isDefault then ClearDefaults(db.addresses, current.customer, Some(edited.usage), Some(id))
           else db.addresses)
        else
          (if Truthy(f.isDefault)
           then ClearDefaults(db.addresses, current.customer,
                  Some(if f.usage.Text? && f.usage.s != "" then f.usage.s else current.usage), Some(id))
           else db.addresses);
      Outcome(Updated, db.(addresses := SetWhereId(rows, id, (a: Address) => Edited(a, f))))
  }

  function UpdateAsWritten(db: Db, id: int, f: AddressForm): (out: Outcome)
  {
    UpdateWith(db, id, f, false)
  }

  function Update(db: Db, id: int, f: AddressForm): Outcome
  {
    UpdateWith(db, id, f, true)
  }

  /** An update answers 400 for an empty receiver or address, 404 for an unknown id, 500
      for a `null` usage, each leaving the table alone; otherwise every row with the id gets
      the edited columns and the other rows keep everything but their default flag, which
      can only be cleared. */
  lemma UpdateOutcomes(db: Db, id: int, f: AddressForm)
    ensures var out := Update(db, id, f);
      (out.reply == MissingField <==> !Truthy(f.receiver) || !Truthy(f.address))
      && (out.reply == NoAddress <==> Truthy(f.receiver) && Truthy(f.address) && !HasId(db.addresses, id))
      && (out.reply == Rejected <==> Truthy(f.receiver) && Truthy(f.address) && HasId(db.addresses, id) && f.usage.NullGiven?)
      && (out.reply != Updated ==> out.db == db)
      && (out.reply == Updated ==>
        out.db.nextId == db.nextId && out.db.outboundLines == db.outboundLines
        && |out.db.addresses| == |db.addresses|
        && forall k :: 0 <= k < |db.addresses| ==>
          var a, b := db.addresses[k], out.db.addresses[k];
          (a.id == id ==> b == Edited(a, f))
          && (a.id != id ==> b == a.(isDefault := b.isDefault) && (b.isDefault ==> a.isDefault)))
  {
  }

  /** An address that is default after an update is the only default of its customer and
      the usage it ends up with. */
  lemma UpdateDefaultIsSole(db: Db, id: int, f: AddressForm)
    requires Update(db, id, f).reply == Updated
    ensures var rows := Update(db, id, f).db.addresses;
      var e := Edited(db.addresses[FirstWithId(db.addresses, id)], f);
      e.isDefault ==>
        forall k :: 0 <= k < |rows| && rows[k].id != id && rows[k].customer == e.customer && rows[k].usage == e.usage
          ==> !rows[k].isDefault
  {
  }

  lemma UpdateKeepsValid(db: Db, id: int, f: AddressForm)
    requires Valid(db)
    ensures Valid(Update(db, id, f).db)
  {
    UpdateOutcomes(db, id, f);
  }

  /** With distinct ids, an update keeps at most one default per customer and usage. */
  lemma UpdateKeepsOneDefault(db: Db, id: int, f: AddressForm)
    requires Valid(db) && OneDefault(db.addresses)
    ensures OneDefault(Update(db, id, f).db.addresses)
  {
    var out := Update(db, id, f);
    if out.reply == Updated {
      UpdateOutcomes(db, id, f);
      UpdateDefaultIsSole(db, id, f);
      var rows := out.db.addresses;
      var k0 := FirstWithId(db.addresses, id);
      forall i, j | 0 <= i < j < |rows| && rows[i].isDefault && rows[j].isDefault && rows[i].customer == rows[j].customer
        ensures rows[i].usage != rows[j].usage
      {
        if db.addresses[i].id == id {
          assert i == k0;
        } else if db.addresses[j].id == id {
          assert j == k0;
        }
      }
    }
  }

  /** As written, moving a default address to another usage without sending `是否默认`
      keeps it default next to that usage's own default. */
  lemma UpdateAsWrittenKeepsTwoDefaults()
    ensures var a := Address(1, 7, Str("A"), Str("X"), Null, China, ShipTo, true, 1, true, []);
      var b := Address(2, 7, Str("B"), Str("Y"), Null, China, "BILL_TO", true, 2, true, []);
      var db := Db([a, b], 3, []);
      var f := AddressForm(Str("A"), Str("X"), [], Undefined, Undefined, Text("BILL_TO"), Undefined, None);
      Valid(db) && OneDefault(db.addresses) && !OneDefault(UpdateAsWritten(db, 1, f).db.addresses)
  {
    var a := Address(1, 7, Str("A"), Str("X"), Null, China, ShipTo, true, 1, true, []);
    var b := Address(2, 7, Str("B"), Str("Y"), Null, China, "BILL_TO", true, 2, true, []);
    var db := Db([a, b], 3, []);
    var f := AddressForm(Str("A"), Str("X"), [], Undefined, Undefined, Text("BILL_TO"), Undefined, None);
    assert HasId(db.addresses, 1);
    var rows := UpdateAsWritten(db, 1, f).db.addresses;
    assert rows[1] == b;
    assert rows[0] == Edited(a, f);
    assert rows[0].isDefault && rows[0].usage == "BILL_TO";
  }

  // ---------------------------------------------------------------- delete

  /** `SELECT COUNT(*) FROM 出库单明细 WHERE 收货地址ID = @id`. */
  function UsageCount(db: Db, id: int): nat
  {
    multiset(db.outboundLines)[id]
  }

  /** The `DELETE /delivery-addresses/:addressId` route: an address that outbound lines use
      is disabled, any other is removed; an unknown id is not an error. */
  function Delete(db: Db, id: int): (out: Outcome)
  {
    var n := UsageCount(db, id);
    if n > 0 then Outcome(SoftDeleted(n), db.(addresses := SetWhereId(db.addresses, id, (a: Address) => a.(enabled := false))))
    else Outcome(Deleted, db.(addresses := DeleteWhereId(db.addresses, id)))
  }

  /** Delete is soft exactly when some outbound line uses the address: the row stays with
      only its enabled flag cleared. Otherwise no row with the id is left and every other
      row stays. Neither touches another row, the id counter or the outbound lines. */
  lemma DeleteOutcomes(db: Db, id: int)
    ensures var out := Delete(db, id);
      (out.reply.SoftDeleted? <==> id in db.outboundLines)
      && (out.reply.SoftDeleted? ==> out.reply.usageCount == multiset(db.outboundLines)[id])
      && out.db.nextId == db.nextId && out.db.outboundLines == db.outboundLines
      && (id in db.outboundLines ==>
        |out.db.addresses| == |db.addresses|
        && forall k :: 0 <= k < |db.addresses| ==>
          out.db.addresses[k] == if db.addresses[k].id == id then db.addresses[k].(enabled := false) else db.addresses[k])
      && (id !in db.outboundLines ==>
        forall a :: a in out.db.addresses <==> a in db.addresses && a.id != id)
  {
  }

  lemma DeleteKeepsInvariants(db: Db, id: int)
    requires Valid(db) && OneDefault(db.addresses)
    ensures Valid(Delete(db, id).db) && OneDefault(Delete(db, id).db.addresses)
  {
    if UsageCount(db, id) == 0 {
      var rows := db.addresses;
      var r := DeleteWhereId(rows, id);
      assert AllCompatible(rows);
      DeleteWhereIdKeeps(rows, id);
      forall k | 0 <= k < |r|
        ensures r[k].id < db.nextId
      {
        assert r[k] in rows;
      }
    }
  }

  /** Two rows that may sit in one table: distinct ids, and not both defaults of one
      customer and usage. */
  predicate Compatible(a: Address, b: Address)
  {
    a.id != b.id && (a.isDefault && b.isDefault && a.customer == b.customer ==> a.usage != b.usage)
  }

  predicate AllCompatible(rows: seq<Address>)
  {
    forall i, j :: 0 <= i < j < |rows| ==> Compatible(rows[i], rows[j])
  }

  /** Removing rows keeps every pair of the remaining rows compatible. */
  lemma {:induction false} DeleteWhereIdKeeps(rows: seq<Address>, id: int)
    requires AllCompatible(rows)
    ensures AllCompatible(DeleteWhereId(rows, id))
  {
    if |rows| > 0 {
      var tail := rows[1..];
      assert AllCompatible(tail) by {
        forall i, j | 0 <= i < j < |tail|
          ensures Compatible(tail[i], tail[j])
        {
          assert tail[i] == rows[i + 1] && tail[j] == rows[j + 1];
        }
      }
      DeleteWhereIdKeeps(tail, id);
      var rest := DeleteWhereId(tail, id);
      if rows[0].id != id {
        var r := [rows[0]] + rest;
        forall i, j | 0 <= i < j < |r|
          ensures Compatible(r[i], r[j])
        {
          assert r[j] == rest[j - 1];
          if i == 0 {
            assert r[j] in tail;
            var m :| 0 <= m < |tail| && tail[m] == r[j];
            assert rows[m + 1] == r[j];
          } else {
            assert r[i] == rest[i - 1];
          }
        }
      }
    }
  }

  // ---------------------------------------------------------------- set default

  predicate EnabledWithId(rows: seq<Address>, id: int)
  {
    exists k :: 0 <= k < |rows| && rows[k].id == id && rows[k].enabled
  }

  function FirstEnabledWithId(rows: seq<Address>, id: int): (k: nat)
    requires EnabledWithId(rows, id)
    ensures k < |rows| && rows[k].id == id && rows[k].enabled
  {
    if rows[0].id == id && rows[0].enabled then 0
    else
      assert EnabledWithId(rows[1..], id) by {
        var k :| 0 <= k < |rows| && rows[k].id == id && rows[k].enabled;
        assert rows[1..][k - 1] == rows[k];
      }
      1 + FirstEnabledWithId(rows[1..], id)
  }

  /** The `PUT /delivery-addresses/:addressId/set-default` route: 404 unless an enabled row
      has the id; otherwise clear the default of every other address of the same customer
      and usage (whether default or not) and set this one. */
  function SetDefault(db: Db, id: int): (out: Outcome)
  {
    if !EnabledWithId(db.addresses, id) then Outcome(NoAddress, db)
    else
      var current := db.addresses[FirstEnabledWithId(db.addresses, id)];
      var rows := ClearDefaults(db.addresses, current.customer, Some(current.usage), Some(id));
      Outcome(DefaultSet, db.(addresses := SetWhereId(rows, id, (a: Address) => a.(isDefault := true))))
  }

  /** Set-default answers 404, changing nothing, exactly when no enabled address has the id.
      Otherwise the address becomes the only default of its customer and usage, and only
      default flags change. */
  lemma SetDefaultOutcomes(db: Db, id: int)
    ensures var out := SetDefault(db, id);
      (out.reply == NoAddress <==> !EnabledWithId(db.addresses, id))
      && (out.reply == NoAddress ==> out.db == db)
      && (out.reply == DefaultSet ==>
        var rows := out.db.addresses;
        var c := db.addresses[FirstEnabledWithId(db.addresses, id)];
        out.db.nextId == db.nextId && out.db.outboundLines == db.outboundLines
        && |rows| == |db.addresses|
        && (forall k :: 0 <= k < |rows| ==> rows[k] == db.addresses[k].(isDefault := rows[k].isDefault))
        && (forall k :: 0 <= k < |rows| && rows[k].id == id ==> rows[k].isDefault)
        && (forall k :: 0 <= k < |rows| && rows[k].id != id && rows[k].customer == c.customer && rows[k].usage == c.usage
              ==> !rows[k].isDefault))
  {
  }

  lemma SetDefaultKeepsOneDefault(db: Db, id: int)
    requires Valid(db) && OneDefault(db.addresses)
    ensures Valid(SetDefault(db, id).db) && OneDefault(SetDefault(db, id).db.addresses)
  {
    var out := SetDefault(db, id);
    if out.reply == DefaultSet {
      var rows := out.db.addresses;
      var k0 := FirstEnabledWithId(db.addresses, id);
      forall i, j | 0 <= i < j < |rows| && rows[i].isDefault && rows[j].isDefault && rows[i].customer == rows[j].customer
        ensures rows[i].usage != rows[j].usage
      {
        if rows[i].id == id {
          assert i == k0;
        } else if rows[j].id == id {
          assert j == k0;
        }
      }
    }
  }
}
