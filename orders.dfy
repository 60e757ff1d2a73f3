/** Orders: creation with its stock check and deduction, the status machine
    with stock restoration and the COD wallet credit, cancellation, the
    failed/returned markers, and the filtered listing. */
module Orders {
  import opened Common
  import opened Domain

  // ---------------------------------------------------------------------
  // The stock ledger

  /** The products a list of line items refers to. */
  function ProductIds(items: seq<Item>): set<Id>
    decreases |items|
  {
    if |items| == 0 then {}
    else ProductIds(items[..|items| - 1]) + {items[|items| - 1].productId}
  }

  /** The total quantity the line items ask of product `k`. */
  function QtyOf(items: seq<Item>, k: Id): int
    decreases |items|
  {
    if |items| == 0 then 0
    else
      var it := items[|items| - 1];
      QtyOf(items[..|items| - 1], k) + (if it.productId == k then it.quantity else 0)
  }

  /** The item loop of creation (`sign` -1) and of every stock restoration
      (`sign` +1): line by line, the product the line names, if it still
      exists, has its stock moved by `sign * quantity` and its `updatedAt`
      stamped; a line whose product is gone is skipped. */
  function AdjustStock(products: map<Id, Product>, items: seq<Item>, sign: int, now: int): (r: map<Id, Product>)
    ensures r.Keys == products.Keys
    decreases |items|
  {
    if |items| == 0 then products
    else
      var p := AdjustStock(products, items[..|items| - 1], sign, now);
      var it := items[|items| - 1];
      if it.productId in p then
        p[it.productId := p[it.productId].(stockLevel := p[it.productId].stockLevel + sign * it.quantity, updatedAt := now)]
      else p
  }

  /** The net effect on one product: its stock moves by `sign` times the
      quantity all lines together ask of it, and nothing else changes but
      `updatedAt`, which is stamped when some line names the product. */
  lemma {:induction false} AdjustStockAt(products: map<Id, Product>, items: seq<Item>, sign: int, now: int, k: Id)
    requires k in products
    ensures AdjustStock(products, items, sign, now)[k] ==
      products[k].(stockLevel := products[k].stockLevel + sign * QtyOf(items, k),
                   updatedAt := if k in ProductIds(items) then now else products[k].updatedAt)
    decreases |items|
  {
    if |items| > 0 {
      var init := items[..|items| - 1];
      var it := items[|items| - 1];
      AdjustStockAt(products, init, sign, now, k);
      if it.productId == k {
        assert sign * QtyOf(items, k) == sign * QtyOf(init, k) + sign * it.quantity;
      }
    }
  }

  /** The check one line must pass before the order is placed, against the
      stock as it stood before the order. */
  function LineCheck(products: map<Id, Product>): Item -> Option<Error> {
    (it: Item) =>
      if it.productId !in products then Some(ProductNotFound(it.productId))
      else if products[it.productId].stockLevel < it.quantity then
        Some(InsufficientStock(it.productId, products[it.productId].stockLevel, it.quantity))
      else None
  }

  /** The error of the first line that fails the check, if any. */
  function StockShortfall(products: map<Id, Product>, items: seq<Item>): Option<Error> {
    FirstError(items, LineCheck(products))
  }

  /** The check passes exactly when every line names an existing product
      whose stock, on its own, covers the line. */
  lemma StockShortfallNone(products: map<Id, Product>, items: seq<Item>)
    ensures StockShortfall(products, items) == None <==>
      forall i :: 0 <= i < |items| ==>
        items[i].productId in products && products[items[i].productId].stockLevel >= items[i].quantity
  {
    FirstErrorNone(items, LineCheck(products));
  }

  /** The availability loop of `create`: stops at the first line that fails. */
  method CheckStock(products: map<Id, Product>, items: seq<Item>) returns (e: Option<Error>)
    ensures e == StockShortfall(products, items)
  {
    var i := 0;
    while i < |items|
      invariant 0 <= i <= |items|
      invariant FirstError(items[..i], LineCheck(products)) == None
    {
      assert items[..i + 1][..i] == items[..i];
      var line := LineCheck(products)(items[i]);
      if line.Some? {
        FirstErrorPrefix(items, LineCheck(products), i + 1);
        return line;
      }
      i := i + 1;
    }
    assert items[..i] == items;
    e := None;
  }

  /** The patch loop shared by deduction and restoration. */
  method ApplyStock(products: map<Id, Product>, items: seq<Item>, sign: int, now: int) returns (r: map<Id, Product>)
    ensures r == AdjustStock(products, items, sign, now)
  {
    r := products;
    for i := 0 to |items|
      invariant r == AdjustStock(products, items[..i], sign, now)
    {
      assert items[..i + 1][..i] == items[..i];
      var it := items[i];
      if it.productId in r {
        r := r[it.productId := r[it.productId].(stockLevel := r[it.productId].stockLevel + it.quantity * sign, updatedAt := now)];
      }
    }
    assert items[..|items|] == items;
  }

  /** The check judges each line against the stock before the order while
      the deduction is cumulative: two lines for the same product, each
      covered on its own but not together, pass and leave the stock below
      zero. */
  lemma DuplicateLinesOversell(products: map<Id, Product>, it: Item, now: int)
    requires it.productId in products
    requires 0 <= it.quantity <= products[it.productId].stockLevel < 2 * it.quantity
    ensures StockShortfall(products, [it, it]) == None
    ensures AdjustStock(products, [it, it], -1, now)[it.productId].stockLevel < 0
  {
    StockShortfallNone(products, [it, it]);
    AdjustStockAt(products, [it, it], -1, now, it.productId);
    assert [it, it][..1] == [it];
    assert [it][..0] == [];
    assert QtyOf([it], it.productId) == it.quantity;
    assert QtyOf([it, it], it.productId) == 2 * it.quantity;
  }

  /** When no two lines share a product, a passed check leaves no product
      that started at or above zero below zero. */
  lemma {:induction false} DistinctLinesKeepStock(products: map<Id, Product>, items: seq<Item>, now: int, k: Id)
    requires forall i, j :: 0 <= i < j < |items| ==> items[i].productId != items[j].productId
    requires StockShortfall(products, items) == None
    requires k in products
    ensures AdjustStock(products, items, -1, now)[k].stockLevel >= 0 || products[k].stockLevel < 0
  {
    StockShortfallNone(products, items);
    AdjustStockAt(products, items, -1, now, k);
    QtyOfDistinct(items, k);
  }

  /** With distinct products per line, the quantity asked of `k` is that of
      its one line, or zero. */
  lemma {:induction false} QtyOfDistinct(items: seq<Item>, k: Id)
    requires forall i, j :: 0 <= i < j < |items| ==> items[i].productId != items[j].productId
    ensures QtyOf(items, k) == 0 || exists i :: 0 <= i < |items| && items[i].productId == k && QtyOf(items, k) == items[i].quantity
    ensures QtyOf(items, k) != 0 ==> k in ProductIds(items)
    decreases |items|
  {
    if |items| > 0 {
      var init := items[..|items| - 1];
      var it := items[|items| - 1];
      QtyOfDistinct(init, k);
      if it.productId == k {
        QtyOfAbsent(init, k);
        assert items[|items| - 1].productId == k;
      } else if QtyOf(init, k) != 0 {
        var i :| 0 <= i < |init| && init[i].productId == k && QtyOf(init, k) == init[i].quantity;
        assert items[i] == init[i];
      }
    }
  }

  /** A product no earlier line names has nothing asked of it. */
  lemma {:induction false} QtyOfAbsent(items: seq<Item>, k: Id)
    requires forall i :: 0 <= i < |items| ==> items[i].productId != k
    ensures QtyOf(items, k) == 0
    decreases |items|
  {
    if |items| > 0 {
      QtyOfAbsent(items[..|items| - 1], k);
    }
  }

  /** Restoring after deducting gives every product its stock back. */
  lemma RestoreUndoesDeduct(products: map<Id, Product>, items: seq<Item>, t1: int, t2: int, k: Id)
    requires k in products
    ensures AdjustStock(AdjustStock(products, items, -1, t1), items, 1, t2)[k].stockLevel == products[k].stockLevel
  {
    var deducted := AdjustStock(products, items, -1, t1);
    AdjustStockAt(products, items, -1, t1, k);
    AdjustStockAt(deducted, items, 1, t2, k);
  }

  /** Restoration has no memory: restoring the same items twice adds their
      quantities twice. */
  lemma RestoreTwice(products: map<Id, Product>, items: seq<Item>, t1: int, t2: int, k: Id)
    requires k in products
    ensures AdjustStock(AdjustStock(products, items, 1, t1), items, 1, t2)[k].stockLevel
            == products[k].stockLevel + 2 * QtyOf(items, k)
  {
    var once := AdjustStock(products, items, 1, t1);
    AdjustStockAt(products, items, 1, t1, k);
    AdjustStockAt(once, items, 1, t2, k);
  }

  // ---------------------------------------------------------------------
  // Mutations

  /** The arguments of `create`. */
  datatype NewOrder = NewOrder(
    orderId: Id, customerId: Id, customerName: string, customerPhone: string,
    paymentMethod: PaymentMethod, totalAmount: real, items: seq<Item>,
    deliveryAddress: DeliveryAddress, deliveryNotes: Option<string>)

  function InitialStatus(m: PaymentMethod): OrderStatus {
    if m == COD then PendingDispatch else PendingVerification
  }

  function InitialPaymentStatus(m: PaymentMethod): PaymentStatus {
    if m == COD then Verified else Pending
  }

  /** The record `create` inserts: a COD order is ready for dispatch with its
      payment taken as verified; a bank transfer waits for verification. */
  function Placed(a: NewOrder, now: int): (o: Order)
    ensures o.orderId == a.orderId && o.items == a.items && o.totalAmount == a.totalAmount
    ensures a.paymentMethod == COD ==> o.status == PendingDispatch && o.paymentStatus == Verified
    ensures a.paymentMethod == BankTransfer ==> o.status == PendingVerification && o.paymentStatus == Pending
    ensures o.assignedDriverId == None && o.routePosition == None && o.verifiedBy == None
    ensures o.createdAt == now && o.updatedAt == now
  {
    Order(a.orderId, a.customerId, a.customerName, a.customerPhone,
          InitialStatus(a.paymentMethod), a.paymentMethod, InitialPaymentStatus(a.paymentMethod),
          a.totalAmount, a.items, a.deliveryAddress, a.deliveryNotes,
          None, None, None, None, None, None, None, None, None, now, now)
  }

  /** `create`. When the check fails nothing is written. Otherwise the order
      is inserted (a second document under an existing id is never found by
      a lookup, so the table keeps the first), every line's quantity is
      taken off its product, and a system log records the initial status. */
  method Create(db: Db, a: NewOrder, now: int, logId: string) returns (r: Result<Id>)
    requires db.Valid()
    modifies db`orders, db`orderKeys, db`products, db`logs
    ensures db.Valid()
    ensures StockShortfall(old(db.products), a.items).Some? ==>
      r == Err(StockShortfall(old(db.products), a.items).value) && unchanged(db)
    ensures StockShortfall(old(db.products), a.items) == None ==>
      && r == Ok(a.orderId)
      && db.products == AdjustStock(old(db.products), a.items, -1, now)
      && (a.orderId !in old(db.orders) ==>
            db.orders == old(db.orders)[a.orderId := Placed(a, now)] && db.orderKeys == old(db.orderKeys) + [a.orderId])
      && (a.orderId in old(db.orders) ==> db.orders == old(db.orders) && db.orderKeys == old(db.orderKeys))
      && db.logs == old(db.logs) + [AuditLog(logId, OrderStatusChanged, "system", a.orderId,
                                             OrderCreation(InitialStatus(a.paymentMethod), a.paymentMethod), now)]
  {
    var shortfall := CheckStock(db.products, a.items);
    if shortfall.Some? {
      return Err(shortfall.value);
    }
    if a.orderId !in db.orders {
      EnumeratesAppend(db.orderKeys, db.orders.Keys, a.orderId);
      db.orders := db.orders[a.orderId := Placed(a, now)];
      db.orderKeys := db.orderKeys + [a.orderId];
    }
    db.products := ApplyStock(db.products, a.items, -1, now);
    db.logs := db.logs + [AuditLog(logId, OrderStatusChanged, "system", a.orderId,
                                   OrderCreation(InitialStatus(a.paymentMethod), a.paymentMethod), now)];
    r := Ok(a.orderId);
  }

  /** The statuses whose entry puts the items back on the shelf. */
  predicate RestoresStock(s: OrderStatus) {
    s == Failed || s == Returned || s == Cancelled
  }

  /** Delivering a cash-on-delivery order credits its driver. */
  predicate CreditsDriver(o: Order, newStatus: OrderStatus) {
    newStatus == Delivered && o.paymentMethod == COD
  }

  /** The driver table after `amount` is added to driver `d`'s wallet. */
  function Credit(drivers: map<Id, Driver>, d: Id, amount: real): (r: map<Id, Driver>)
    requires d in drivers
    ensures r.Keys == drivers.Keys
    ensures r[d].codWallet == drivers[d].codWallet + amount
    ensures r[d] == drivers[d].(codWallet := r[d].codWallet)
    ensures forall k :: k in drivers && k != d ==> r[k] == drivers[k]
  {
    drivers[d := drivers[d].(codWallet := drivers[d].codWallet + amount)]
  }

  /** Writes one order together with new product, driver and log tables
      whose keys are unchanged, keeping the database's invariant. */
  method Commit(db: Db, o: Order, products: map<Id, Product>, drivers: map<Id, Driver>, logs: seq<AuditLog>)
    requires db.Valid()
    requires o.orderId in db.orders
    requires products.Keys == db.products.Keys && drivers.Keys == db.drivers.Keys
    modifies db`orders, db`products, db`drivers, db`logs
    ensures db.Valid()
    ensures db.orders == old(db.orders)[o.orderId := o]
    ensures db.products == products && db.drivers == drivers && db.logs == logs
  {
    db.orders := db.orders[o.orderId := o];
    db.products, db.drivers, db.logs := products, drivers, logs;
  }

  /** `updateStatus`: any status may follow any other. Entering FAILED,
      RETURNED or CANCELLED restores the items' stock and logs it; delivering
      a COD order needs an assigned driver that exists and credits the order
      total to that driver's wallet; every success logs the transition. */
  method UpdateStatus(db: Db, orderId: Id, newStatus: OrderStatus, adminId: Option<Id>, now: int,
                      restockLogId: string, logId: string) returns (r: Result<()>)
    requires db.Valid()
    modifies db`orders, db`products, db`drivers, db`logs
    ensures db.Valid()
    ensures r.Err? ==> unchanged(db)
    ensures orderId !in old(db.orders) ==> r == Err(OrderNotFound(orderId))
    ensures orderId in old(db.orders) ==>
      var o := old(db.orders)[orderId];
      if CreditsDriver(o, newStatus) && !Truthy(o.assignedDriverId) then r == Err(MissingDriverAssignment)
      else if CreditsDriver(o, newStatus) && o.assignedDriverId.value !in old(db.drivers) then
        r == Err(DriverNotFound(o.assignedDriverId.value))
      else
        && r == Ok(())
        && db.orders == old(db.orders)[orderId := o.(status := newStatus, updatedAt := now)]
        && db.products == (if RestoresStock(newStatus) then AdjustStock(old(db.products), o.items, 1, now)
                           else old(db.products))
        && db.drivers == (if CreditsDriver(o, newStatus) then Credit(old(db.drivers), o.assignedDriverId.value, o.totalAmount)
                          else old(db.drivers))
        && db.logs == old(db.logs)
             + (if RestoresStock(newStatus)
                then [AuditLog(restockLogId, StockRestocked, Actor(adminId), orderId, StockRestoration(newStatus, o.items), now)]
                else [])
             + [AuditLog(logId, OrderStatusChanged, Actor(adminId), orderId, StatusChange(o.status, newStatus), now)]
  {
    if orderId !in db.orders {
      return Err(OrderNotFound(orderId));
    }
    var o := db.orders[orderId];
    var products, drivers, logs := db.products, db.drivers, db.logs;
    if RestoresStock(newStatus) {
      products := ApplyStock(products, o.items, 1, now);
      logs := logs + [AuditLog(restockLogId, StockRestocked, Actor(adminId), orderId, StockRestoration(newStatus, o.items), now)];
    }
    if CreditsDriver(o, newStatus) {
      if !Truthy(o.assignedDriverId) {
        return Err(MissingDriverAssignment);
      }
      var d := o.assignedDriverId.value;
      if d !in drivers {
        return Err(DriverNotFound(d));
      }
      drivers := Credit(drivers, d, o.totalAmount);
    }
    Commit(db, o.(status := newStatus, updatedAt := now), products, drivers,
           logs + [AuditLog(logId, OrderStatusChanged, Actor(adminId), orderId, StatusChange(o.status, newStatus), now)]);
    r := Ok(());
  }

  /** The statuses from which an order may still be cancelled. */
  predicate Cancellable(s: OrderStatus) {
    s == PendingDispatch || s == PendingVerification || s == Processing
  }

  /** `cancel`: only an order not yet handed to a driver may be cancelled;
      its items go back into stock and the reason and canceller are kept. */
  method Cancel(db: Db, orderId: Id, reason: Option<string>, cancelledBy: Id, now: int, logId: string)
    returns (r: Result<()>)
    requires db.Valid()
    modifies db`orders, db`products, db`logs
    ensures db.Valid()
    ensures r.Err? ==> unchanged(db)
    ensures orderId !in old(db.orders) ==> r == Err(OrderNotFound(orderId))
    ensures orderId in old(db.orders) ==>
      var o := old(db.orders)[orderId];
      if !Cancellable(o.status) then r == Err(IllegalCancellation(o.status))
      else
        && r == Ok(())
        && db.orders == old(db.orders)[orderId := o.(status := Cancelled, cancelledAt := Some(now),
                                                      cancellationReason := reason, cancelledBy := Some(cancelledBy),
                                                      updatedAt := now)]
        && db.products == AdjustStock(old(db.products), o.items, 1, now)
        && db.logs == old(db.logs) + [AuditLog(logId, OrderCancelled, cancelledBy, orderId, CancelReason(reason), now)]
  {
    if orderId !in db.orders {
      return Err(OrderNotFound(orderId));
    }
    var o := db.orders[orderId];
    if !Cancellable(o.status) {
      return Err(IllegalCancellation(o.status));
    }
    db.products := ApplyStock(db.products, o.items, 1, now);
    db.orders := db.orders[orderId := o.(status := Cancelled, cancelledAt := Some(now), cancellationReason := reason,
                                         cancelledBy := Some(cancelledBy), updatedAt := now)];
    db.logs := db.logs + [AuditLog(logId, OrderCancelled, cancelledBy, orderId, CancelReason(reason), now)];
    r := Ok(());
  }

  /** `markFailed`: from any status, restores the items and records why. */
  method MarkFailed(db: Db, orderId: Id, reason: string, adminId: Id, now: int, logId: string) returns (r: Result<()>)
    requires db.Valid()
    modifies db`orders, db`products, db`logs
    ensures db.Valid()
    ensures orderId !in old(db.orders) ==> r == Err(OrderNotFound(orderId)) && unchanged(db)
    ensures orderId in old(db.orders) ==>
      var o := old(db.orders)[orderId];
      && r == Ok(())
      && db.orders == old(db.orders)[orderId := o.(status := Failed, failedReason := Some(reason), updatedAt := now)]
      && db.products == AdjustStock(old(db.products), o.items, 1, now)
      && db.logs == old(db.logs) + [AuditLog(logId, OrderStatusChanged, adminId, orderId, MarkedWithReason(Failed, reason), now)]
  {
    if orderId !in db.orders {
      return Err(OrderNotFound(orderId));
    }
    var o := db.orders[orderId];
    db.products := ApplyStock(db.products, o.items, 1, now);
    db.orders := db.orders[orderId := o.(status := Failed, failedReason := Some(reason), updatedAt := now)];
    db.logs := db.logs + [AuditLog(logId, OrderStatusChanged, adminId, orderId, MarkedWithReason(Failed, reason), now)];
    r := Ok(());
  }

  /** `markReturned`: from any status, restores the items and records why. */
  method MarkReturned(db: Db, orderId: Id, reason: string, adminId: Id, now: int, logId: string) returns (r: Result<()>)
    requires db.Valid()
    modifies db`orders, db`products, db`logs
    ensures db.Valid()
    ensures orderId !in old(db.orders) ==> r == Err(OrderNotFound(orderId)) && unchanged(db)
    ensures orderId in old(db.orders) ==>
      var o := old(db.orders)[orderId];
      && r == Ok(())
      && db.orders == old(db.orders)[orderId := o.(status := Returned, returnReason := Some(reason), updatedAt := now)]
      && db.products == AdjustStock(old(db.products), o.items, 1, now)
      && db.logs == old(db.logs) + [AuditLog(logId, OrderStatusChanged, adminId, orderId, MarkedWithReason(Returned, reason), now)]
  {
    if orderId !in db.orders {
      return Err(OrderNotFound(orderId));
    }
    var o := db.orders[orderId];
    db.products := ApplyStock(db.products, o.items, 1, now);
    db.orders := db.orders[orderId := o.(status := Returned, returnReason := Some(reason), updatedAt := now)];
    db.logs := db.logs + [AuditLog(logId, OrderStatusChanged, adminId, orderId, MarkedWithReason(Returned, reason), now)];
    r := Ok(());
  }

  // ---------------------------------------------------------------------
  // Listing

  /** The filters of `getAll`; an absent filter, or an empty id, applies no
      condition. */
  datatype OrderQuery = OrderQuery(
    status: Option<OrderStatus>, paymentStatus: Option<PaymentStatus>,
    driverId: Option<Id>, customerId: Option<Id>, limit: Option<int>)

  function HasStatus(s: Option<OrderStatus>): Order -> bool {
    (o: Order) => s.None? || o.status == s.value
  }

  function HasPaymentStatus(s: Option<PaymentStatus>): Order -> bool {
    (o: Order) => s.None? || o.paymentStatus == s.value
  }

  function HasDriver(d: Option<Id>): Order -> bool {
    (o: Order) => !Truthy(d) || o.assignedDriverId == d
  }

  function HasCustomer(c: Option<Id>): Order -> bool {
    (o: Order) => !Truthy(c) || o.customerId == c.value
  }

  /** An order passes the query when it meets every filter supplied. */
  function Matches(q: OrderQuery): Order -> bool {
    (o: Order) => HasStatus(q.status)(o) && HasPaymentStatus(q.paymentStatus)(o)
         && HasDriver(q.driverId)(o) && HasCustomer(q.customerId)(o)
  }

  function CreatedAt(o: Order): int {
    o.createdAt
  }

  /** What `getAll` returns: the matching orders, newest first (ties in
      creation order), cut to the limit when one is given. */
  function Listing(all: seq<Order>, q: OrderQuery): seq<Order> {
    ApplyLimit(SortDesc(Filter(all, Matches(q)), CreatedAt), q.limit)
  }

  /** Every listed order matches every filter, the list is newest first, a
      positive limit keeps that many, and without a limit no matching order
      is left out. */
  lemma ListingSpec(all: seq<Order>, q: OrderQuery)
    ensures forall i :: 0 <= i < |Listing(all, q)| ==> Matches(q)(Listing(all, q)[i]) && Listing(all, q)[i] in all
    ensures SortedDesc(Listing(all, q), CreatedAt)
    ensures q.limit.Some? && q.limit.value > 0 ==> |Listing(all, q)| == Min(q.limit.value, |Filter(all, Matches(q))|)
    ensures q.limit == None || q.limit == Some(0) ==>
      forall i :: 0 <= i < |all| && Matches(q)(all[i]) ==> all[i] in Listing(all, q)
  {
    var f := Filter(all, Matches(q));
    var sorted := SortDesc(f, CreatedAt);
    var r := Listing(all, q);
    SortDescCorrect(f, CreatedAt);
    SortDescMembers(f, CreatedAt);
    assert r <= sorted;
    forall i | 0 <= i < |r| ensures Matches(q)(r[i]) && r[i] in all {
      assert r[i] == sorted[i] && sorted[i] in f;
    }
    forall i, j | 0 <= i < j < |r| ensures CreatedAt(r[i]) >= CreatedAt(r[j]) {
      assert r[i] == sorted[i] && r[j] == sorted[j];
    }
  }

  /** The condition the index that `getAll` picks applies: status, else
      payment status, else driver, else customer, else the whole table. */
  function IndexPredicate(q: OrderQuery): Order -> bool {
    if q.status.Some? then HasStatus(q.status)
    else if q.paymentStatus.Some? then HasPaymentStatus(q.paymentStatus)
    else if Truthy(q.driverId) then HasDriver(q.driverId)
    else if Truthy(q.customerId) then HasCustomer(q.customerId)
    else (o: Order) => true
  }

  /** Reading through the index and then applying the other three filters
      selects exactly the matching orders, in table order. */
  lemma IndexThenFilters(all: seq<Order>, q: OrderQuery)
    ensures Filter(Filter(Filter(Filter(all, IndexPredicate(q)), HasPaymentStatus(q.paymentStatus)),
                          HasDriver(q.driverId)), HasCustomer(q.customerId))
            == Filter(all, Matches(q))
  {
    var p0 := IndexPredicate(q);
    var p1 := And(p0, HasPaymentStatus(q.paymentStatus));
    var p2 := And(p1, HasDriver(q.driverId));
    var p3 := And(p2, HasCustomer(q.customerId));
    FilterTwice(all, p0, HasPaymentStatus(q.paymentStatus), p1);
    FilterTwice(all, p1, HasDriver(q.driverId), p2);
    FilterTwice(all, p2, HasCustomer(q.customerId), p3);
    FilterCongruent(all, p3, Matches(q));
  }

  /** The read `getAll` starts from: the orders the chosen index yields,
      in table order. */
  method ScanIndex(db: Db, q: OrderQuery) returns (orders: seq<Order>)
    requires db.Valid()
    ensures orders == Filter(db.AllOrders(), IndexPredicate(q))
  {
    var all := db.AllOrders();
    if q.status.Some? {
      orders := Filter(all, HasStatus(q.status));
    } else if q.paymentStatus.Some? {
      orders := Filter(all, HasPaymentStatus(q.paymentStatus));
    } else if Truthy(q.driverId) {
      orders := Filter(all, HasDriver(q.driverId));
    } else if Truthy(q.customerId) {
      orders := Filter(all, HasCustomer(q.customerId));
    } else {
      orders := all;
      FilterKeepsAll(all, IndexPredicate(q));
    }
  }

  /** The filters `getAll` applies after the index read; a filter the
      index already answered is skipped, which changes nothing. */
  method PostFilters(orders: seq<Order>, q: OrderQuery) returns (filtered: seq<Order>)
    requires forall i :: 0 <= i < |orders| ==> IndexPredicate(q)(orders[i])
    ensures filtered == Filter(Filter(Filter(orders, HasPaymentStatus(q.paymentStatus)),
                                      HasDriver(q.driverId)), HasCustomer(q.customerId))
  {
    filtered := orders;
    if q.paymentStatus.Some? && q.status.None? && !Truthy(q.driverId) && !Truthy(q.customerId) {
      FilterKeepsAll(filtered, HasPaymentStatus(q.paymentStatus));
    } else if q.paymentStatus.Some? {
      filtered := Filter(filtered, HasPaymentStatus(q.paymentStatus));
    } else {
      FilterKeepsAll(filtered, HasPaymentStatus(q.paymentStatus));
    }
    if Truthy(q.driverId) && q.status.None? && q.paymentStatus.None? && !Truthy(q.customerId) {
      FilterKeepsAll(filtered, HasDriver(q.driverId));
    } else if Truthy(q.driverId) {
      filtered := Filter(filtered, HasDriver(q.driverId));
    } else {
      FilterKeepsAll(filtered, HasDriver(q.driverId));
    }
    if Truthy(q.customerId) && q.status.None? && q.paymentStatus.None? && !Truthy(q.driverId) {
      FilterKeepsAll(filtered, HasCustomer(q.customerId));
    } else if Truthy(q.customerId) {
      filtered := Filter(filtered, HasCustomer(q.customerId));
    } else {
      FilterKeepsAll(filtered, HasCustomer(q.customerId));
    }
  }

  /** `filtered.sort(...)` newest first, then `slice(0, limit)` when the
      limit is non-zero. */
  method SortAndLimit(filtered: seq<Order>, limit: Option<int>) returns (r: seq<Order>)
    ensures r == ApplyLimit(SortDesc(filtered, CreatedAt), limit)
  {
    var sorted := SortedCopy(filtered, CreatedAt);
    if limit.Some? && limit.value != 0 {
      r := Take(sorted, limit.value);
    } else {
      r := sorted;
    }
  }

  /** `getAll`: read through the chosen index, apply the other filters, sort
      newest first, cut to the limit. */
  method GetAll(db: Db, q: OrderQuery) returns (r: seq<Order>)
    requires db.Valid()
    ensures r == Listing(db.AllOrders(), q)
  {
    var orders := ScanIndex(db, q);
    var filtered := PostFilters(orders, q);
    IndexThenFilters(db.AllOrders(), q);
    r := SortAndLimit(filtered, q.limit);
  }
}
