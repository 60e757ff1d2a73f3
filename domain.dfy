/** The records of the document store (orders, products, drivers, routes,
    customers, settings, users, audit logs), the errors the mutations throw,
    and the store itself. */
module Domain {
  import opened Common

  datatype PaymentMethod = COD | BankTransfer

  datatype PaymentStatus = Pending | Verified | Rejected

  datatype OrderStatus =
    | PendingVerification | PendingDispatch | Processing | Assigned | EnRoute
    | Delivered | Failed | Returned | Cancelled

  datatype RouteStatus = Draft | Active | Completed

  datatype Coord = Coord(lat: real, lng: real)

  datatype DeliveryAddress = DeliveryAddress(
    addressLabel: Option<string>, street: string, city: string, state: string,
    zipCode: string, coordinates: Coord, instructions: Option<string>)

  /** A line item, snapshotted when the order is placed. */
  datatype Item = Item(productId: Id, productName: string, quantity: int,
                       unitPrice: real, subtotal: real)

  datatype Order = Order(
    orderId: Id, customerId: Id, customerName: string, customerPhone: string,
    status: OrderStatus, paymentMethod: PaymentMethod, paymentStatus: PaymentStatus,
    totalAmount: real, items: seq<Item>,
    deliveryAddress: DeliveryAddress, deliveryNotes: Option<string>,
    assignedDriverId: Option<Id>, routePosition: Option<int>,
    verifiedBy: Option<Id>, verifiedAt: Option<int>,
    cancelledAt: Option<int>, cancellationReason: Option<string>, cancelledBy: Option<Id>,
    failedReason: Option<string>, returnReason: Option<string>,
    createdAt: int, updatedAt: int)

  datatype Product = Product(
    productId: Id, name: string, description: Option<string>, price: real,
    sku: string, imageUrl: Option<string>, stockLevel: int,
    category: Option<string>, createdAt: int, updatedAt: int)

  datatype Location = Location(lat: real, lng: real, timestamp: int)

  datatype Driver = Driver(
    driverId: Id, clerkId: Id, name: string, phone: string, isOnDuty: bool,
    codWallet: real, currentLocation: Option<Location>,
    lastLocationUpdate: Option<int>, createdAt: int)

  datatype Route = Route(
    routeId: Id, driverId: Id, orderIds: seq<Id>, status: RouteStatus,
    createdAt: int, startedAt: Option<int>, completedAt: Option<int>)

  datatype SavedAddress = SavedAddress(
    addressId: Id, addressLabel: string, street: string, city: string, state: string,
    zipCode: string, coordinates: Coord, isDefault: Option<bool>, createdAt: int)

  datatype Customer = Customer(
    customerId: Id, clerkId: Id, name: string, email: string, phone: string,
    savedAddresses: seq<SavedAddress>, createdAt: int)

  /** Setting values are arbitrary JSON. */
  datatype Json =
    | JNull | JBool(b: bool) | JNum(n: real) | JStr(s: string)
    | JArr(elems: seq<Json>) | JObj(fields: seq<(string, Json)>)

  datatype Setting = Setting(key: string, value: Json, updatedAt: int, updatedBy: Option<Id>)

  /** `docId` is the store's own document id, which `deleteUser` takes. */
  datatype User = User(
    docId: Id, clerkId: Id, firstName: Option<string>, lastName: Option<string>,
    email: string, imageUrl: Option<string>, bio: Option<string>,
    createdAt: int, updatedAt: int, lastSignInAt: Option<int>)

  datatype Action =
    | PaymentApproved | PaymentRejected | OrderAssigned | OrderStatusChanged
    | RouteCreated | RouteOptimized | DriverSettled | StockRestocked
    | ProductCreated | ProductUpdated | OrderCancelled

  /** The fields `update` was given; absent ones are left alone. */
  datatype ProductPatch = ProductPatch(
    name: Option<string>, description: Option<string>, price: Option<real>,
    imageUrl: Option<string>, category: Option<string>)

  /** The metadata object each kind of audit entry carries. */
  datatype Metadata =
    | OrderCreation(status: OrderStatus, paymentMethod: PaymentMethod)
    | StatusChange(from: OrderStatus, to: OrderStatus)
    | StockRestoration(restoredFor: OrderStatus, items: seq<Item>)
    | CancelReason(reason: Option<string>)
    | MarkedWithReason(markedStatus: OrderStatus, markReason: string)
    | Approval(amount: real)
    | Rejection(reason: Option<string>, amount: real)
    | Assignment(driverId: Id, driverName: string)
    | RouteCreation(driverId: Id, orderCount: int)
    | RouteReorder(optimizedOrderIds: seq<Id>)
    | Settlement(amount: real, previousBalance: real)
    | Restock(quantity: int, reason: Option<string>, newStockLevel: int)
    | ProductCreation(name: string, sku: string)
    | ProductChanges(changes: ProductPatch, changedAt: int)

  datatype AuditLog = AuditLog(logId: string, action: Action, adminId: Id,
                               targetId: Id, metadata: Metadata, timestamp: int)

  /** The sort key of every log query. */
  function Timestamp(l: AuditLog): int {
    l.timestamp
  }

  function HasAction(a: Action): AuditLog -> bool {
    (l: AuditLog) => l.action == a
  }

  function HasTarget(t: Id): AuditLog -> bool {
    (l: AuditLog) => l.targetId == t
  }

  function HasAdmin(a: Id): AuditLog -> bool {
    (l: AuditLog) => l.adminId == a
  }

  /** What a mutation throws. Each one aborts the whole mutation. */
  datatype Error =
    | OrderNotFound(orderId: Id)
    | ProductNotFound(productId: Id)
    | InsufficientStock(productId: Id, available: int, requested: int)
    | MissingDriverAssignment
    | DriverNotFound(driverId: Id)
    | IllegalCancellation(status: OrderStatus)
    | PaymentNotPending(paymentStatus: PaymentStatus)
    | NotBankTransfer
    | DriverOffDuty(driverId: Id)
    | SomeOrdersNotFound
    | OrdersNotFound(missing: seq<Id>)
    | OrderIsCancelled(orderId: Id)
    | AssignedToOtherDriver(orderId: Id)
    | IneligibleStatus(orderId: Id, status: OrderStatus)
    | RouteNotFound(routeId: Id)
    | RouteNotDraft(routeId: Id)
    | IdsNotInRoute(ids: seq<Id>)
    | IdsMissingFromSequence(ids: seq<Id>)
    | RouteOrdersMissing
    | DuplicateDriverId(driverId: Id)
    | DuplicateClerkId(clerkId: Id)
    | DuplicateSku(sku: string)
    | CustomerNotFound(customerId: Id)
    | SettlementExceedsBalance

  datatype Result<+T> = Ok(value: T) | Err(error: Error)

  /** A loop that throws at the first element failing `check`: the error it
      throws, if any. */
  function FirstError<T>(s: seq<T>, check: T -> Option<Error>): Option<Error>
    decreases |s|
  {
    if |s| == 0 then None
    else
      var e := FirstError(s[..|s| - 1], check);
      if e.Some? then e else check(s[|s| - 1])
  }

  /** Nothing is thrown exactly when every element passes. */
  lemma {:induction false} FirstErrorNone<T>(s: seq<T>, check: T -> Option<Error>)
    ensures FirstError(s, check) == None <==> forall i :: 0 <= i < |s| ==> check(s[i]) == None
    decreases |s|
  {
    if |s| > 0 {
      var init := s[..|s| - 1];
      FirstErrorNone(init, check);
      assert forall i :: 0 <= i < |init| ==> init[i] == s[i];
    }
  }

  /** What is thrown is the error of an element all of whose predecessors
      pass. */
  lemma {:induction false} FirstErrorIsFirst<T>(s: seq<T>, check: T -> Option<Error>)
    requires FirstError(s, check).Some?
    ensures exists i :: 0 <= i < |s| && check(s[i]) == FirstError(s, check) &&
                        forall j :: 0 <= j < i ==> check(s[j]) == None
    decreases |s|
  {
    var init := s[..|s| - 1];
    assert forall j :: 0 <= j < |init| ==> init[j] == s[j];
    if FirstError(init, check).Some? {
      FirstErrorIsFirst(init, check);
      var i :| 0 <= i < |init| && check(init[i]) == FirstError(init, check) &&
                forall j :: 0 <= j < i ==> check(init[j]) == None;
      assert check(s[i]) == FirstError(s, check);
    } else {
      FirstErrorNone(init, check);
      assert check(s[|s| - 1]) == FirstError(s, check);
    }
  }

  /** An error found in a prefix is the error of the whole sequence. */
  lemma {:induction false} FirstErrorPrefix<T>(s: seq<T>, check: T -> Option<Error>, n: nat)
    requires n <= |s| && FirstError(s[..n], check).Some?
    ensures FirstError(s, check) == FirstError(s[..n], check)
    decreases |s| - n
  {
    if n < |s| {
      assert s[..n + 1][..n] == s[..n];
      FirstErrorPrefix(s, check, n + 1);
    } else {
      assert s[..n] == s;
    }
  }

  /** A loop over `s` that throws at the first element failing `check`. */
  method FindFirstError<T>(s: seq<T>, check: T -> Option<Error>) returns (e: Option<Error>)
    ensures e == FirstError(s, check)
  {
    for i := 0 to |s|
      invariant FirstError(s[..i], check) == None
    {
      assert s[..i + 1][..i] == s[..i];
      e := check(s[i]);
      if e.Some? {
        FirstErrorPrefix(s, check, i + 1);
        return;
      }
    }
    assert s[..|s|] == s;
    e := None;
  }

  /** `args.adminId || 'system'`. */
  function Actor(adminId: Option<Id>): Id {
    OrElse(adminId, "system")
  }

  /** The document store. Each table is a map keyed by its business id; the
      tables that queries enumerate also keep their keys in creation order,
      which is the order `collect()` returns. */
  class Db {
    var orders: map<Id, Order>
    var orderKeys: seq<Id>
    var products: map<Id, Product>
    var productKeys: seq<Id>
    var drivers: map<Id, Driver>
    var driverKeys: seq<Id>
    var routes: map<Id, Route>
    var customers: map<Id, Customer>
    var settings: map<string, Setting>
    var users: map<Id, User>
    var logs: seq<AuditLog>

    ghost predicate Valid()
      reads this
    {
      && Enumerates(orderKeys, orders.Keys)
      && Enumerates(productKeys, products.Keys)
      && Enumerates(driverKeys, drivers.Keys)
      && (forall k :: k in orders ==> orders[k].orderId == k)
    }

    constructor ()
      ensures Valid()
      ensures orders == map[] && products == map[] && drivers == map[]
      ensures routes == map[] && customers == map[] && settings == map[]
      ensures users == map[] && logs == []
    {
      orders, orderKeys := map[], [];
      products, productKeys := map[], [];
      drivers, driverKeys := map[], [];
      routes, customers, settings, users := map[], map[], map[], map[];
      logs := [];
    }

    /** All orders, in creation order. */
    function AllOrders(): (r: seq<Order>)
      reads this
      requires Valid()
    {
      Collect(orders, orderKeys)
    }

    function AllProducts(): (r: seq<Product>)
      reads this
      requires Valid()
    {
      Collect(products, productKeys)
    }

    function AllDrivers(): (r: seq<Driver>)
      reads this
      requires Valid()
    {
      Collect(drivers, driverKeys)
    }
  }

  /** Order ids in creation order are the keys themselves. */
  lemma AllOrdersIds(db: Db)
    requires db.Valid()
    ensures forall i :: 0 <= i < |db.orderKeys| ==> db.AllOrders()[i].orderId == db.orderKeys[i]
    ensures forall i :: 0 <= i < |db.orderKeys| ==>
      db.AllOrders()[i].orderId in db.orders && db.orders[db.AllOrders()[i].orderId] == db.AllOrders()[i]
    ensures forall o :: o in db.AllOrders() <==> o in db.orders.Values
  {
    CollectMembers(db.orders, db.orderKeys);
  }
}
