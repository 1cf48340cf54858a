/** The inventory store of the web front end (src/store/modules/inventory.ts): a list of stock
    items and four lists of movement records (inbound, outbound, transfer, stocktake), each
    with its own id seed. Every operation checks its error conditions before it changes
    anything; new items and records are put at the front of their lists. */
module Inventory {
  import opened Common

  // ---------------------------------------------------------------- entities

  datatype Level = Healthy | Low | Over

  /** A stock item. An empty `warehouse`/`location` string is the value JavaScript treats as
      missing. */
  datatype Item = Item(
    id: int,
    materialCode: string,
    materialName: string,
    category: string,
    warehouse: string,
    location: string,
    quantity: int,
    safetyStock: int,
    maxStock: int,
    level: Level,
    remark: string)

  datatype InboundStatus = Waiting | Received
  datatype OutboundStatus = Allocated | Shipped
  datatype TransferStatus = InTransit | TransferCompleted
  datatype StocktakeStatus = OnGoing | StocktakeCompleted

  datatype InboundRecord = InboundRecord(
    id: int, documentNo: string, supplier: string, materialCode: string, materialName: string,
    category: string, warehouse: string, quantity: int, arrivalDate: string, status: InboundStatus)

  datatype OutboundRecord = OutboundRecord(
    id: int, documentNo: string, target: string, materialCode: string, materialName: string,
    category: string, warehouse: string, quantity: int, deliveryDate: string, status: OutboundStatus)

  datatype TransferRecord = TransferRecord(
    id: int, documentNo: string, fromWarehouse: string, toWarehouse: string, materialCode: string,
    materialName: string, category: string, quantity: int, transferDate: string,
    status: TransferStatus)

  datatype StocktakeRecord = StocktakeRecord(
    id: int, planName: string, range: string, executor: string, materialCode: string,
    materialName: string, warehouse: string, countedQuantity: int, difference: int,
    status: StocktakeStatus, scheduledDate: string)

  /** What the callers pass in: a record without its id, with an optional status. */
  datatype InboundInput = InboundInput(
    documentNo: string, supplier: string, materialCode: string, materialName: string,
    category: string, warehouse: string, quantity: int, arrivalDate: string,
    status: Option<InboundStatus>)

  datatype OutboundInput = OutboundInput(
    documentNo: string, target: string, materialCode: string, materialName: string,
    category: string, warehouse: string, quantity: int, deliveryDate: string, status: OutboundStatus)

  datatype TransferInput = TransferInput(
    documentNo: string, fromWarehouse: string, toWarehouse: string, materialCode: string,
    materialName: string, category: string, quantity: int, transferDate: string,
    status: Option<TransferStatus>)

  datatype StocktakeInput = StocktakeInput(
    planName: string, range: string, executor: string, materialCode: string,
    materialName: string, warehouse: string, countedQuantity: int, scheduledDate: string,
    status: Option<StocktakeStatus>)

  datatype UpsertPayload = UpsertPayload(
    materialCode: string, materialName: string, category: string, warehouse: string,
    location: string, quantity: int)

  /** The messages thrown: `inventory.notFound`, `inventory.notEnough`,
      `inventory.transferSameWarehouse`, `inventory.transferFromNotFound`. */
  datatype InventoryError = NotFound | NotEnough | TransferSameWarehouse | TransferFromNotFound

  datatype Totals = Totals(totalSku: int, totalQty: int, lowStock: int, overStock: int)

  const DefaultWarehouse: string := "一号仓"
  const NewLocation: string := "新建库位"
  const PendingLocation: string := "待分配"
  const NewSafetyStock: int := 100
  const NewMaxStock: int := 800

  // ---------------------------------------------------------------- levels

  /** `resolveLevel`: below the safety stock is low, above the maximum is over. */
  function ResolveLevel(item: Item): (l: Level)
    ensures l == Low <==> item.quantity < item.safetyStock
    ensures l == Over <==> item.safetyStock <= item.quantity && item.quantity > item.maxStock
    ensures l == Healthy <==> item.safetyStock <= item.quantity <= item.maxStock
  {
    if item.quantity < item.safetyStock then Low
    else if item.quantity > item.maxStock then Over
    else Healthy
  }

  /** `level` is kept equal to `resolveLevel` of the item. */
  predicate Resolved(item: Item)
  {
    item.level == ResolveLevel(item)
  }

  // ---------------------------------------------------------------- lookup and stock

  /** `findInventoryItem`: same material, and the same warehouse unless none is given. */
  predicate Matches(item: Item, code: string, warehouse: string)
  {
    item.materialCode == code && (warehouse == "" || item.warehouse == warehouse)
  }

  /** The position of the first matching item. */
  function Find(inv: seq<Item>, code: string, warehouse: string): (r: Option<nat>)
    ensures r.Some? ==> r.value < |inv| && Matches(inv[r.value], code, warehouse)
    ensures r.Some? ==> forall j :: 0 <= j < r.value ==> !Matches(inv[j], code, warehouse)
    ensures r.None? ==> forall j :: 0 <= j < |inv| ==> !Matches(inv[j], code, warehouse)
  {
    if inv == [] then None
    else if Matches(inv[0], code, warehouse) then Some(0)
    else
      var r := Find(inv[1..], code, warehouse);
      if r.None? then None else Some(r.value + 1)
  }

  /** The quantity held of a material in a warehouse (in every warehouse when it is ""). */
  function Stock(inv: seq<Item>, code: string, warehouse: string): int
  {
    if inv == [] then 0
    else (if Matches(inv[0], code, warehouse) then inv[0].quantity else 0) + Stock(inv[1..], code, warehouse)
  }

  function Share(item: Item, code: string, warehouse: string): int
  {
    if Matches(item, code, warehouse) then item.quantity else 0
  }

  lemma {:induction false} StockPrepend(item: Item, inv: seq<Item>, code: string, warehouse: string)
    ensures Stock([item] + inv, code, warehouse) == Share(item, code, warehouse) + Stock(inv, code, warehouse)
  {
    assert ([item] + inv)[1..] == inv;
  }

  /** Replacing one item changes the stock by the difference of the two items' shares. */
  lemma {:induction false} StockUpdate(inv: seq<Item>, i: nat, item: Item, code: string, warehouse: string)
    requires i < |inv|
    ensures Stock(inv[i := item], code, warehouse)
            == Stock(inv, code, warehouse) - Share(inv[i], code, warehouse) + Share(item, code, warehouse)
  {
    if i > 0 {
      StockUpdate(inv[1..], i - 1, item, code, warehouse);
      assert inv[i := item][1..] == inv[1..][i - 1 := item];
    } else {
      assert inv[i := item][1..] == inv[1..];
    }
  }

  // ---------------------------------------------------------------- upsert

  /** The item `upsertInventory` leaves behind: a new item (fresh id, safety 100, maximum 800,
      default warehouse and location) or the found one with the payload's quantity and its
      non-empty fields; in both cases with its level resolved. */
  function UpsertedItem(inv: seq<Item>, seed: int, p: UpsertPayload): Item
  {
    var found := Find(inv, p.materialCode, p.warehouse);
    var t :=
      if found.None? then
        Item(seed, p.materialCode, p.materialName, p.category,
             if p.warehouse != "" then p.warehouse else DefaultWarehouse,
             if p.location != "" then p.location else NewLocation,
             p.quantity, NewSafetyStock, NewMaxStock, Healthy, "")
      else
        var cur := inv[found.value];
        cur.(quantity := p.quantity,
             warehouse := if p.warehouse != "" then p.warehouse else cur.warehouse,
             location := if p.location != "" then p.location else cur.location,
             materialName := if p.materialName != "" then p.materialName else cur.materialName,
             category := if p.category != "" then p.category else cur.category);
    t.(level := ResolveLevel(t))
  }

  function Upserted(inv: seq<Item>, seed: int, p: UpsertPayload): seq<Item>
  {
    var found := Find(inv, p.materialCode, p.warehouse);
    if found.None? then [UpsertedItem(inv, seed, p)] + inv
    else inv[found.value := UpsertedItem(inv, seed, p)]
  }

  /** A missing item is created at the front with a fresh id, safety stock 100, maximum 800
      and warehouse 一号仓 when none is given; an existing one keeps its position, id, safety
      and maximum, and gets the payload's quantity. Either way the touched item is resolved. */
  lemma UpsertShape(inv: seq<Item>, seed: int, p: UpsertPayload)
    ensures var r := Upserted(inv, seed, p);
      match Find(inv, p.materialCode, p.warehouse)
      case None =>
        |r| == |inv| + 1 && r[1..] == inv && r[0].id == seed
        && r[0].safetyStock == NewSafetyStock && r[0].maxStock == NewMaxStock
        && r[0].warehouse == (if p.warehouse == "" then DefaultWarehouse else p.warehouse)
        && r[0].quantity == p.quantity && r[0].materialCode == p.materialCode && Resolved(r[0])
      case Some(i) =>
        |r| == |inv| && r[i].id == inv[i].id && r[i].quantity == p.quantity
        && r[i].materialCode == inv[i].materialCode
        && r[i].safetyStock == inv[i].safetyStock && r[i].maxStock == inv[i].maxStock
        && Resolved(r[i]) && forall j :: 0 <= j < |inv| && j != i ==> r[j] == inv[j]
  {
    var r := Upserted(inv, seed, p);
    if Find(inv, p.materialCode, p.warehouse).None? {
      assert r[1..] == inv;
    }
  }

  /** The stock of the payload's material where the item is put ends up raised by the payload
      quantity minus what the item held; every other material is untouched. */
  lemma UpsertStock(inv: seq<Item>, seed: int, p: UpsertPayload, code: string)
    ensures var found := Find(inv, p.materialCode, p.warehouse);
      var before := if found.None? then 0 else inv[found.value].quantity;
      Stock(Upserted(inv, seed, p), code, "")
        == Stock(inv, code, "") + (if code == p.materialCode then p.quantity - before else 0)
  {
    var found := Find(inv, p.materialCode, p.warehouse);
    var t := UpsertedItem(inv, seed, p);
    if found.None? {
      StockPrepend(t, inv, code, "");
    } else {
      StockUpdate(inv, found.value, t, code, "");
    }
  }

  // ---------------------------------------------------------------- the store's invariant

  /** Every item's level is resolved and it has a warehouse. */
  predicate Consistent(inv: seq<Item>)
  {
    forall i :: 0 <= i < |inv| ==> Resolved(inv[i]) && inv[i].warehouse != ""
  }

  lemma UpsertConsistent(inv: seq<Item>, seed: int, p: UpsertPayload)
    requires Consistent(inv)
    ensures Consistent(Upserted(inv, seed, p))
  {
    UpsertShape(inv, seed, p);
    var r := Upserted(inv, seed, p);
    if Find(inv, p.materialCode, p.warehouse).None? {
      forall i | 0 < i < |r| ensures Resolved(r[i]) && r[i].warehouse != "" {
        assert r[i] == inv[i - 1];
      }
    }
  }

  lemma ConsistentUpdate(inv: seq<Item>, i: nat, item: Item)
    requires Consistent(inv) && i < |inv| && Resolved(item) && item.warehouse != ""
    ensures Consistent(inv[i := item])
  {
  }

  // ---------------------------------------------------------------- the four movements

  /** The warehouse an inbound record is booked into: its own, else the found item's, else
      the default. */
  function InboundWarehouse(inv: seq<Item>, r: InboundInput): string
  {
    var existing := Find(inv, r.materialCode, r.warehouse);
    if r.warehouse != "" then r.warehouse
    else if existing.Some? && inv[existing.value].warehouse != "" then inv[existing.value].warehouse
    else DefaultWarehouse
  }

  /** The upsert that `addInboundRecord` performs: the found item's quantity plus the record's. */
  function InboundPayload(inv: seq<Item>, r: InboundInput): UpsertPayload
  {
    var existing := Find(inv, r.materialCode, r.warehouse);
    var held := if existing.Some? then inv[existing.value].quantity else 0;
    var location := if existing.Some? then inv[existing.value].location else "";
    UpsertPayload(r.materialCode, r.materialName, r.category, InboundWarehouse(inv, r), location,
                  held + r.quantity)
  }

  /** Booking an inbound record adds exactly its quantity to the material's stock. */
  lemma {:induction false} InboundAddsQuantity(inv: seq<Item>, seed: int, r: InboundInput, code: string)
    requires Consistent(inv)
    ensures Stock(Upserted(inv, seed, InboundPayload(inv, r)), code, "")
            == Stock(inv, code, "") + (if code == r.materialCode then r.quantity else 0)
  {
    var p := InboundPayload(inv, r);
    var existing := Find(inv, r.materialCode, r.warehouse);
    UpsertStock(inv, seed, p, code);
    var found := Find(inv, p.materialCode, p.warehouse);
    if existing.Some? {
      var e := existing.value;
      assert Matches(inv[e], p.materialCode, p.warehouse);
      assert found.Some? && found.value <= e;
      if found.value < e {
        assert Matches(inv[found.value], r.materialCode, r.warehouse);
      }
    } else {
      assert r.warehouse != "" ==> p.warehouse == r.warehouse;
      if found.Some? {
        assert Matches(inv[found.value], r.materialCode, r.warehouse);
      }
    }
  }

  /** The error `addOutboundRecord` throws, if any, before it changes anything. */
  function OutboundCheck(inv: seq<Item>, r: OutboundInput, allowNegative: bool): Option<InventoryError>
  {
    var source := Find(inv, r.materialCode, r.warehouse);
    if source.None? then Some(NotFound)
    else if !allowNegative && inv[source.value].quantity < r.quantity then Some(NotEnough)
    else None
  }

  /** An item with `q` more (or, negative, fewer) and its level resolved again. */
  function Adjusted(item: Item, q: int): (r: Item)
    ensures r.quantity == item.quantity + q && Resolved(r)
    ensures r.id == item.id && r.materialCode == item.materialCode && r.warehouse == item.warehouse
  {
    var t := item.(quantity := item.quantity + q);
    t.(level := ResolveLevel(t))
  }

  /** A successful outbound lowers the found item, and the stock of its material in its
      warehouse and overall, by exactly the requested quantity; without `allowNegative` no
      quantity goes below zero that was not already. */
  lemma OutboundEffect(inv: seq<Item>, r: OutboundInput, allowNegative: bool, code: string, warehouse: string)
    requires OutboundCheck(inv, r, allowNegative).None?
    ensures var i := Find(inv, r.materialCode, r.warehouse).value;
      var after := inv[i := Adjusted(inv[i], -r.quantity)];
      && Stock(after, code, warehouse)
           == Stock(inv, code, warehouse) - (if Matches(inv[i], code, warehouse) then r.quantity else 0)
      && (!allowNegative ==> after[i].quantity >= 0)
      && forall j :: 0 <= j < |inv| && j != i ==> after[j] == inv[j]
  {
    var i := Find(inv, r.materialCode, r.warehouse).value;
    StockUpdate(inv, i, Adjusted(inv[i], -r.quantity), code, warehouse);
  }

  /** The errors of `addTransferRecord`, in the order it checks them. */
  function TransferCheck(inv: seq<Item>, r: TransferInput): Option<InventoryError>
  {
    if r.fromWarehouse == r.toWarehouse then Some(TransferSameWarehouse)
    else
      var source := Find(inv, r.materialCode, r.fromWarehouse);
      if source.None? then Some(TransferFromNotFound)
      else if inv[source.value].quantity < r.quantity then Some(NotEnough)
      else None
  }

  /** The inventory after the source has given up the quantity. */
  function TransferDrawn(inv: seq<Item>, r: TransferInput): seq<Item>
    requires TransferCheck(inv, r).None?
  {
    var s := Find(inv, r.materialCode, r.fromWarehouse).value;
    inv[s := Adjusted(inv[s], -r.quantity)]
  }

  /** The upsert of the destination: what it held plus the quantity. */
  function TransferPayload(drawn: seq<Item>, r: TransferInput): UpsertPayload
  {
    var target := Find(drawn, r.materialCode, r.toWarehouse);
    var held := if target.Some? then drawn[target.value].quantity else 0;
    var location := if target.Some? && drawn[target.value].location != "" then drawn[target.value].location
                    else PendingLocation;
    UpsertPayload(r.materialCode, r.materialName, r.category, r.toWarehouse, location, held + r.quantity)
  }

  function Transferred(inv: seq<Item>, seed: int, r: TransferInput): seq<Item>
    requires TransferCheck(inv, r).None?
  {
    var drawn := TransferDrawn(inv, r);
    Upserted(drawn, seed, TransferPayload(drawn, r))
  }

  /** A transfer conserves every material's total quantity. */
  lemma {:induction false} TransferConserves(inv: seq<Item>, seed: int, r: TransferInput, code: string)
    requires TransferCheck(inv, r).None?
    ensures Stock(Transferred(inv, seed, r), code, "") == Stock(inv, code, "")
  {
    var s := Find(inv, r.materialCode, r.fromWarehouse).value;
    var drawn := TransferDrawn(inv, r);
    StockUpdate(inv, s, Adjusted(inv[s], -r.quantity), code, "");
    var p := TransferPayload(drawn, r);
    UpsertStock(drawn, seed, p, code);
    var found := Find(drawn, p.materialCode, p.warehouse);
    assert found == Find(drawn, r.materialCode, r.toWarehouse);
  }

  /** Between two named warehouses the source's stock falls, and the destination's rises, by
      the quantity moved. */
  lemma {:induction false} TransferMoves(inv: seq<Item>, seed: int, r: TransferInput)
    requires TransferCheck(inv, r).None? && r.fromWarehouse != "" && r.toWarehouse != ""
    ensures Stock(Transferred(inv, seed, r), r.materialCode, r.fromWarehouse)
            == Stock(inv, r.materialCode, r.fromWarehouse) - r.quantity
    ensures Stock(Transferred(inv, seed, r), r.materialCode, r.toWarehouse)
            == Stock(inv, r.materialCode, r.toWarehouse) + r.quantity
  {
    var code := r.materialCode;
    var s := Find(inv, code, r.fromWarehouse).value;
    var drawn := TransferDrawn(inv, r);
    var p := TransferPayload(drawn, r);
    var t := UpsertedItem(drawn, seed, p);
    var found := Find(drawn, code, r.toWarehouse);
    assert found == Find(drawn, p.materialCode, p.warehouse);
    StockUpdate(inv, s, Adjusted(inv[s], -r.quantity), code, r.fromWarehouse);
    StockUpdate(inv, s, Adjusted(inv[s], -r.quantity), code, r.toWarehouse);
    assert t.materialCode == code && t.warehouse == r.toWarehouse;
    if found.None? {
      StockPrepend(t, drawn, code, r.fromWarehouse);
      StockPrepend(t, drawn, code, r.toWarehouse);
    } else {
      StockUpdate(drawn, found.value, t, code, r.fromWarehouse);
      StockUpdate(drawn, found.value, t, code, r.toWarehouse);
    }
  }

  /** The stocktake of the found item: the counted quantity, resolved, and the record's name
      when one is given. */
  function Counted(item: Item, r: StocktakeInput): (c: Item)
    ensures c.quantity == r.countedQuantity && Resolved(c)
    ensures c.id == item.id && c.materialCode == item.materialCode && c.warehouse == item.warehouse
  {
    var t := item.(quantity := r.countedQuantity);
    var t := t.(level := ResolveLevel(t));
    if r.materialName != "" then t.(materialName := r.materialName) else t
  }

  // ---------------------------------------------------------------- totals

  function QtySum(items: seq<Item>): int
  {
    if items == [] then 0 else QtySum(items[..|items| - 1]) + items[|items| - 1].quantity
  }

  function LevelCount(items: seq<Item>, l: Level): (n: nat)
    ensures n <= |items|
  {
    if items == [] then 0
    else LevelCount(items[..|items| - 1], l) + (if items[|items| - 1].level == l then 1 else 0)
  }

  /** `totals`: the number of items, their summed quantity, and how many are low and over. */
  function TotalsOf(items: seq<Item>): Totals
  {
    Totals(|items|, QtySum(items), LevelCount(items, Low), LevelCount(items, Over))
  }

  function BelowSafety(items: seq<Item>): nat
  {
    if items == [] then 0
    else
      var x := items[|items| - 1];
      BelowSafety(items[..|items| - 1]) + (if x.quantity < x.safetyStock then 1 else 0)
  }

  function AboveMax(items: seq<Item>): nat
  {
    if items == [] then 0
    else
      var x := items[|items| - 1];
      AboveMax(items[..|items| - 1]) + (if x.safetyStock <= x.quantity && x.quantity > x.maxStock then 1 else 0)
  }

  /** With resolved levels, `lowStock` counts the items under their safety stock, `overStock`
      those over their maximum (and not low), and together they never exceed the item count. */
  lemma {:induction false} TotalsMeaning(items: seq<Item>)
    requires Consistent(items)
    ensures TotalsOf(items).lowStock == BelowSafety(items)
    ensures TotalsOf(items).overStock == AboveMax(items)
    ensures TotalsOf(items).lowStock + TotalsOf(items).overStock <= TotalsOf(items).totalSku
  {
    if items != [] {
      var init := items[..|items| - 1];
      assert Consistent(init) by {
        forall i | 0 <= i < |init| ensures Resolved(init[i]) && init[i].warehouse != "" {
          assert init[i] == items[i];
        }
      }
      TotalsMeaning(init);
      assert Resolved(items[|items| - 1]);
    }
  }

  lemma {:induction false} QtySumIsStock(items: seq<Item>)
    ensures QtySum(items) == AllStock(items)
  {
    if items != [] {
      var init := items[..|items| - 1];
      QtySumIsStock(init);
      AllStockSnoc(init, items[|items| - 1]);
      assert init + [items[|items| - 1]] == items;
    }
  }

  /** Every item's quantity, whatever its material. */
  function AllStock(items: seq<Item>): int
  {
    if items == [] then 0 else items[0].quantity + AllStock(items[1..])
  }

  lemma {:induction false} AllStockSnoc(items: seq<Item>, x: Item)
    ensures AllStock(items + [x]) == AllStock(items) + x.quantity
  {
    if items != [] {
      assert (items + [x])[1..] == items[1..] + [x];
      AllStockSnoc(items[1..], x);
    }
  }

  // ---------------------------------------------------------------- the store

  // ---------------------------------------------------------------- the records filed

  function InboundOf(r: InboundInput, warehouse: string, id: int): InboundRecord
  {
    InboundRecord(id, r.documentNo, r.supplier, r.materialCode, r.materialName, r.category, warehouse,
                  r.quantity, r.arrivalDate, if r.status.Some? then r.status.value else Received)
  }

  function OutboundOf(r: OutboundInput, id: int): OutboundRecord
  {
    OutboundRecord(id, r.documentNo, r.target, r.materialCode, r.materialName, r.category, r.warehouse,
                   r.quantity, r.deliveryDate, r.status)
  }

  function TransferOf(r: TransferInput, id: int): TransferRecord
  {
    TransferRecord(id, r.documentNo, r.fromWarehouse, r.toWarehouse, r.materialCode, r.materialName,
                   r.category, r.quantity, r.transferDate,
                   if r.status.Some? then r.status.value else TransferCompleted)
  }

  /** The stocktake record takes code, name and warehouse from the counted item. */
  function StocktakeOf(r: StocktakeInput, item: Item, difference: int, id: int): StocktakeRecord
  {
    StocktakeRecord(id, r.planName, r.range, r.executor, item.materialCode, item.materialName,
                    item.warehouse, r.countedQuantity, difference,
                    if r.status.Some? then r.status.value else StocktakeCompleted, r.scheduledDate)
  }

  class Store {
    var inventory: seq<Item>
    var inboundRecords: seq<InboundRecord>
    var outboundRecords: seq<OutboundRecord>
    var transferRecords: seq<TransferRecord>
    var stocktakeRecords: seq<StocktakeRecord>
    var inboundIdSeed: int
    var outboundIdSeed: int
    var transferIdSeed: int
    var stocktakeIdSeed: int
    var inventoryIdSeed: int

    ghost predicate Valid()
      reads this
    {
      && Consistent(inventory)
      && (forall k :: 0 <= k < |inventory| ==> inventory[k].id < inventoryIdSeed)
      && (forall k :: 0 <= k < |inboundRecords| ==> inboundRecords[k].id < inboundIdSeed)
      && (forall k :: 0 <= k < |outboundRecords| ==> outboundRecords[k].id < outboundIdSeed)
      && (forall k :: 0 <= k < |transferRecords| ==> transferRecords[k].id < transferIdSeed)
      && (forall k :: 0 <= k < |stocktakeRecords| ==> stocktakeRecords[k].id < stocktakeIdSeed)
    }

    /** The store as `useInventoryStore` first builds it. */
    constructor ()
      ensures Valid() && |inventory| == 4 && inventoryIdSeed == 5 && inboundIdSeed == 3
    {
      inventory := [
        Item(1, "RM-001", "铝合金板材", "raw", "一号仓", "A1-03", 620, 400, 1000, Healthy, "用于结构件加工"),
        Item(2, "PT-310", "高压接头组件", "parts", "二号仓", "B2-11", 120, 200, 600, Low, "需求增长，需要跟进补货"),
        Item(3, "FG-9001", "电控成套箱", "finished", "成品仓", "C3-05", 80, 60, 120, Healthy, "等待发运至客户"),
        Item(4, "PT-256", "密封垫片", "parts", "备件仓", "D1-09", 950, 400, 800, Over, "采购量偏大，需要暂停补货")];
      inboundIdSeed, outboundIdSeed, transferIdSeed, stocktakeIdSeed := 3, 3, 3, 3;
      inventoryIdSeed := 4 + 1;
      inboundRecords := [
        InboundRecord(1, "GRN-202403-001", "苏州精工版材", "RM-001", "铝合金板材", "raw", "一号仓", 280, "2024-03-26", Waiting),
        InboundRecord(2, "GRN-202403-012", "华东塑胶件", "PT-310", "高压接头组件", "parts", "二号仓", 120, "2024-03-20", Received)];
      outboundRecords := [
        OutboundRecord(1, "OD-202403-020", "装配线 A01", "PT-310", "高压接头组件", "parts", "二号仓", 64, "2024-03-21", Allocated),
        OutboundRecord(2, "SO-202403-015", "客户-远航国际", "FG-9001", "电控成套箱", "finished", "成品仓", 18, "2024-03-22", Shipped)];
      transferRecords := [
        TransferRecord(1, "TR-202403-006", "一号仓", "备件仓", "PT-256", "密封垫片", "parts", 200, "2024-03-23", InTransit),
        TransferRecord(2, "TR-202403-004", "二号仓", "成品仓", "FG-9001", "电控成套箱", "finished", 12, "2024-03-18", TransferCompleted)];
      stocktakeRecords := [
        StocktakeRecord(1, "一季度原材料盘点", "一号仓 (A区-B区)", "李倩", "RM-001", "铝合金板材", "一号仓", 622, 2, OnGoing, "2024-03-28"),
        StocktakeRecord(2, "备件仓抽盘", "备件仓 (D区)", "孙晨", "PT-256", "密封垫片", "备件仓", 949, -1, StocktakeCompleted, "2024-03-12")];
    }

    /** `findInventoryItem`, walking the list. */
    method FindInventoryItem(code: string, warehouse: string) returns (r: Option<nat>)
      ensures r == Find(inventory, code, warehouse)
    {
      var i := 0;
      while i < |inventory|
        invariant 0 <= i <= |inventory|
        invariant forall j :: 0 <= j < i ==> !Matches(inventory[j], code, warehouse)
      {
        if inventory[i].materialCode == code && (warehouse == "" || inventory[i].warehouse == warehouse) {
          FindIsFirst(inventory, code, warehouse, i);
          return Some(i);
        }
        i := i + 1;
      }
      FindNone(inventory, code, warehouse);
      r := None;
    }

    /** `totals`, accumulated over the items. */
    method ComputeTotals() returns (t: Totals)
      ensures t == TotalsOf(inventory)
    {
      t := Totals(|inventory|, 0, 0, 0);
      var i := 0;
      while i < |inventory|
        invariant 0 <= i <= |inventory|
        invariant t == Totals(|inventory|, QtySum(inventory[..i]), LevelCount(inventory[..i], Low),
                              LevelCount(inventory[..i], Over))
      {
        var item := inventory[i];
        assert inventory[..i + 1][..i] == inventory[..i];
        assert inventory[..i + 1][i] == item;
        t := t.(totalQty := t.totalQty + item.quantity);
        if item.level == Low {
          t := t.(lowStock := t.lowStock + 1);
        }
        if item.level == Over {
          t := t.(overStock := t.overStock + 1);
        }
        i := i + 1;
      }
      assert inventory[..i] == inventory;
    }

    /** `id = seed++` and `records.unshift(...)`, for each of the four lists. */
    method FileInbound(rec: InboundRecord) returns (id: int)
      requires Valid()
      modifies this`inboundRecords, this`inboundIdSeed
      ensures Valid()
      ensures id == old(inboundIdSeed) && inboundIdSeed == id + 1
      ensures inboundRecords == [rec.(id := id)] + old(inboundRecords)
      ensures forall k :: 0 <= k < |old(inboundRecords)| ==> old(inboundRecords)[k].id != id
    {
      id := inboundIdSeed;
      inboundIdSeed := inboundIdSeed + 1;
      inboundRecords := [rec.(id := id)] + inboundRecords;
    }

    method FileOutbound(rec: OutboundRecord) returns (id: int)
      requires Valid()
      modifies this`outboundRecords, this`outboundIdSeed
      ensures Valid()
      ensures id == old(outboundIdSeed) && outboundIdSeed == id + 1
      ensures outboundRecords == [rec.(id := id)] + old(outboundRecords)
      ensures forall k :: 0 <= k < |old(outboundRecords)| ==> old(outboundRecords)[k].id != id
    {
      id := outboundIdSeed;
      outboundIdSeed := outboundIdSeed + 1;
      outboundRecords := [rec.(id := id)] + outboundRecords;
    }

    method FileTransfer(rec: TransferRecord) returns (id: int)
      requires Valid()
      modifies this`transferRecords, this`transferIdSeed
      ensures Valid()
      ensures id == old(transferIdSeed) && transferIdSeed == id + 1
      ensures transferRecords == [rec.(id := id)] + old(transferRecords)
      ensures forall k :: 0 <= k < |old(transferRecords)| ==> old(transferRecords)[k].id != id
    {
      id := transferIdSeed;
      transferIdSeed := transferIdSeed + 1;
      transferRecords := [rec.(id := id)] + transferRecords;
    }

    method FileStocktake(rec: StocktakeRecord) returns (id: int)
      requires Valid()
      modifies this`stocktakeRecords, this`stocktakeIdSeed
      ensures Valid()
      ensures id == old(stocktakeIdSeed) && stocktakeIdSeed == id + 1
      ensures stocktakeRecords == [rec.(id := id)] + old(stocktakeRecords)
      ensures forall k :: 0 <= k < |old(stocktakeRecords)| ==> old(stocktakeRecords)[k].id != id
    {
      id := stocktakeIdSeed;
      stocktakeIdSeed := stocktakeIdSeed + 1;
      stocktakeRecords := [rec.(id := id)] + stocktakeRecords;
    }

    /** Changes the quantity of one item by `q` and resolves its level again. */
    method AdjustItem(i: nat, q: int)
      requires Valid() && i < |inventory|
      modifies this`inventory
      ensures Valid()
      ensures inventory == old(inventory)[i := Adjusted(old(inventory)[i], q)]
    {
      var item := inventory[i].(quantity := inventory[i].quantity + q);
      item := item.(level := ResolveLevel(item));
      ConsistentUpdate(inventory, i, item);
      inventory := inventory[i := item];
    }

    /** `upsertInventory`. */
    method Upsert(p: UpsertPayload)
      requires Valid()
      modifies this`inventory, this`inventoryIdSeed
      ensures Valid()
      ensures inventory == Upserted(old(inventory), old(inventoryIdSeed), p)
      ensures inventoryIdSeed
              == old(inventoryIdSeed) + (if Find(old(inventory), p.materialCode, p.warehouse).None? then 1 else 0)
    {
      UpsertConsistent(inventory, inventoryIdSeed, p);
      UpsertShape(inventory, inventoryIdSeed, p);
      var found := FindInventoryItem(p.materialCode, p.warehouse);
      var target: Item;
      if found.None? {
        target := Item(inventoryIdSeed, p.materialCode, p.materialName, p.category,
                       if p.warehouse != "" then p.warehouse else DefaultWarehouse,
                       if p.location != "" then p.location else NewLocation,
                       p.quantity, NewSafetyStock, NewMaxStock, Healthy, "");
        inventoryIdSeed := inventoryIdSeed + 1;
      } else {
        target := inventory[found.value].(quantity := p.quantity);
        if p.warehouse != "" { target := target.(warehouse := p.warehouse); }
        if p.location != "" { target := target.(location := p.location); }
        if p.materialName != "" { target := target.(materialName := p.materialName); }
        if p.category != "" { target := target.(category := p.category); }
      }
      target := target.(level := ResolveLevel(target));
      if found.None? {
        inventory := [target] + inventory;
      } else {
        inventory := inventory[found.value := target];
      }
    }

    /** `addInboundRecord`: books the quantity onto the item and files the record. */
    method AddInboundRecord(r: InboundInput) returns (id: int)
      requires Valid()
      modifies this
      ensures Valid()
      ensures inventory == Upserted(old(inventory), old(inventoryIdSeed), InboundPayload(old(inventory), r))
      ensures id == old(inboundIdSeed) && inboundIdSeed == id + 1
      ensures forall k :: 0 <= k < |old(inboundRecords)| ==> old(inboundRecords)[k].id != id
      ensures inboundRecords == [InboundOf(r, InboundWarehouse(old(inventory), r), id)] + old(inboundRecords)
      ensures outboundRecords == old(outboundRecords) && transferRecords == old(transferRecords)
      ensures stocktakeRecords == old(stocktakeRecords)
    {
      var status := if r.status.Some? then r.status.value else Received;
      var existing := FindInventoryItem(r.materialCode, r.warehouse);
      var targetWarehouse :=
        if r.warehouse != "" then r.warehouse
        else if existing.Some? && inventory[existing.value].warehouse != "" then inventory[existing.value].warehouse
        else DefaultWarehouse;
      var targetLocation := if existing.Some? then inventory[existing.value].location else "";
      var newQty := (if existing.Some? then inventory[existing.value].quantity else 0) + r.quantity;
      var payload := UpsertPayload(r.materialCode, r.materialName, r.category, targetWarehouse, targetLocation, newQty);
      assert targetWarehouse == InboundWarehouse(inventory, r);
      assert payload == InboundPayload(inventory, r);
      Upsert(payload);
      id := FileInbound(InboundRecord(0, r.documentNo, r.supplier, r.materialCode, r.materialName,
                                      r.category, targetWarehouse, r.quantity, r.arrivalDate, status));
    }

    /** `addOutboundRecord`: fails, changing nothing, when the item is missing or (unless
        negative stock is allowed) holds too little; else lowers it and files the record. */
    method AddOutboundRecord(r: OutboundInput, allowNegative: bool) returns (res: Result<int, InventoryError>)
      requires Valid()
      modifies this
      ensures Valid()
      ensures res.Err? <==> OutboundCheck(old(inventory), r, allowNegative).Some?
      ensures res.Err? ==> res.error == OutboundCheck(old(inventory), r, allowNegative).value
                           && unchanged(this)
      ensures res.Ok? ==>
        var i := Find(old(inventory), r.materialCode, r.warehouse).value;
        && inventory == old(inventory)[i := Adjusted(old(inventory)[i], -r.quantity)]
        && res.value == old(outboundIdSeed) && outboundIdSeed == res.value + 1
        && outboundRecords == [OutboundOf(r, res.value)] + old(outboundRecords)
        && (forall k :: 0 <= k < |old(outboundRecords)| ==> old(outboundRecords)[k].id != res.value)
        && inventoryIdSeed == old(inventoryIdSeed)
      ensures inboundRecords == old(inboundRecords) && transferRecords == old(transferRecords)
      ensures stocktakeRecords == old(stocktakeRecords)
    {
      var source := FindInventoryItem(r.materialCode, r.warehouse);
      if source.None? {
        return Err(NotFound);
      }
      var i := source.value;
      if !allowNegative && inventory[i].quantity < r.quantity {
        return Err(NotEnough);
      }
      AdjustItem(i, -r.quantity);
      var id := FileOutbound(OutboundOf(r, 0));
      res := Ok(id);
    }

    /** The stock movement of a transfer that passed its checks: the source gives up the
        quantity, then the destination is upserted with what it held plus the quantity. */
    method MoveStock(r: TransferInput, s: nat)
      requires Valid() && TransferCheck(inventory, r).None?
      requires Find(inventory, r.materialCode, r.fromWarehouse) == Some(s)
      modifies this`inventory, this`inventoryIdSeed
      ensures Valid()
      ensures inventory == Transferred(old(inventory), old(inventoryIdSeed), r)
    {
      AdjustItem(s, -r.quantity);
      assert inventory == TransferDrawn(old(inventory), r);
      var target := FindInventoryItem(r.materialCode, r.toWarehouse);
      var destinationQuantity := (if target.Some? then inventory[target.value].quantity else 0) + r.quantity;
      var location := if target.Some? && inventory[target.value].location != "" then inventory[target.value].location
                      else PendingLocation;
      var payload := UpsertPayload(r.materialCode, r.materialName, r.category, r.toWarehouse, location,
                                   destinationQuantity);
      assert payload == TransferPayload(inventory, r);
      Upsert(payload);
    }

    /** `addTransferRecord`: fails, changing nothing, on equal warehouses, a missing source or
        too little stock; else moves the quantity and files the record. */
    method AddTransferRecord(r: TransferInput) returns (res: Result<int, InventoryError>)
      requires Valid()
      modifies this
      ensures Valid()
      ensures res.Err? <==> TransferCheck(old(inventory), r).Some?
      ensures res.Err? ==> res.error == TransferCheck(old(inventory), r).value && unchanged(this)
      ensures res.Ok? ==>
        && TransferCheck(old(inventory), r).None?
        && inventory == Transferred(old(inventory), old(inventoryIdSeed), r)
        && res.value == old(transferIdSeed) && transferIdSeed == res.value + 1
        && transferRecords == [TransferOf(r, res.value)] + old(transferRecords)
        && (forall k :: 0 <= k < |old(transferRecords)| ==> old(transferRecords)[k].id != res.value)
      ensures inboundRecords == old(inboundRecords) && outboundRecords == old(outboundRecords)
      ensures stocktakeRecords == old(stocktakeRecords)
    {
      if r.fromWarehouse == r.toWarehouse {
        return Err(TransferSameWarehouse);
      }
      var source := FindInventoryItem(r.materialCode, r.fromWarehouse);
      if source.None? {
        return Err(TransferFromNotFound);
      }
      if inventory[source.value].quantity < r.quantity {
        return Err(NotEnough);
      }
      MoveStock(r, source.value);
      var id := FileTransfer(TransferRecord(0, r.documentNo, r.fromWarehouse, r.toWarehouse, r.materialCode,
                                            r.materialName, r.category, r.quantity, r.transferDate,
                                            if r.status.Some? then r.status.value else TransferCompleted));
      res := Ok(id);
    }

    /** `addStocktakeRecord`: fails, changing nothing, when the item is missing; else sets the
        counted quantity and files the record with the difference. */
    method AddStocktakeRecord(r: StocktakeInput) returns (res: Result<int, InventoryError>)
      requires Valid()
      modifies this
      ensures Valid()
      ensures res.Err? <==> Find(old(inventory), r.materialCode, r.warehouse).None?
      ensures res.Err? ==> res.error == NotFound && unchanged(this)
      ensures res.Ok? ==>
        var i := Find(old(inventory), r.materialCode, r.warehouse).value;
        var item := Counted(old(inventory)[i], r);
        && inventory == old(inventory)[i := item]
        && res.value == old(stocktakeIdSeed) && stocktakeIdSeed == res.value + 1
        && stocktakeRecords
           == [StocktakeOf(r, item, r.countedQuantity - old(inventory)[i].quantity, res.value)]
              + old(stocktakeRecords)
        && (forall k :: 0 <= k < |old(stocktakeRecords)| ==> old(stocktakeRecords)[k].id != res.value)
      ensures inboundRecords == old(inboundRecords) && outboundRecords == old(outboundRecords)
      ensures transferRecords == old(transferRecords)
    {
      var found := FindInventoryItem(r.materialCode, r.warehouse);
      if found.None? {
        return Err(NotFound);
      }
      var i := found.value;
      var difference := r.countedQuantity - inventory[i].quantity;
      var target := inventory[i].(quantity := r.countedQuantity);
      target := target.(level := ResolveLevel(target));
      if r.materialName != "" {
        target := target.(materialName := r.materialName);
      }
      ConsistentUpdate(inventory, i, target);
      inventory := inventory[i := target];
      var id := FileStocktake(StocktakeRecord(0, r.planName, r.range, r.executor, target.materialCode,
                                              target.materialName, target.warehouse, r.countedQuantity,
                                              difference, if r.status.Some? then r.status.value else StocktakeCompleted,
                                              r.scheduledDate));
      res := Ok(id);
    }
  }

  lemma FindIsFirst(inv: seq<Item>, code: string, warehouse: string, i: nat)
    requires i < |inv| && Matches(inv[i], code, warehouse)
    requires forall j :: 0 <= j < i ==> !Matches(inv[j], code, warehouse)
    ensures Find(inv, code, warehouse) == Some(i)
  {
  }

  lemma FindNone(inv: seq<Item>, code: string, warehouse: string)
    requires forall j :: 0 <= j < |inv| ==> !Matches(inv[j], code, warehouse)
    ensures Find(inv, code, warehouse).None?
  {
  }
}
