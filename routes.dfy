/** Routes (delivery manifests): building a DRAFT route from orders of one
    on-duty driver, reordering its stops, activating and completing it, and
    advancing the driver's current stop. */
module Routes {
  import opened Common
  import opened Domain
  import opened Orders
  import opened Dispatch

  // ---------------------------------------------------------------------
  // Stop numbering

  /** Where `k` last occurs in `ids`. */
  function LastIndex(ids: seq<Id>, k: Id): (i: nat)
    requires k in ids
    ensures i < |ids| && ids[i] == k
    ensures forall j :: i < j < |ids| ==> ids[j] != k
    decreases |ids|
  {
    if ids[|ids| - 1] == k then |ids| - 1 else LastIndex(ids[..|ids| - 1], k)
  }

  /** The orders table after visiting `ids` in turn and patching the order
      at 0-based index i as stop number i + 1; ids with no order are
      skipped. */
  function Renumber(orders: map<Id, Order>, ids: seq<Id>, stop: (Order, nat) -> Order): (r: map<Id, Order>)
    ensures r.Keys == orders.Keys
    decreases |ids|
  {
    if |ids| == 0 then orders
    else
      var prev := Renumber(orders, ids[..|ids| - 1], stop);
      var k := ids[|ids| - 1];
      if k in prev then prev[k := stop(prev[k], |ids|)] else prev
  }

  /** When a later patch overrides an earlier one, each listed order ends
      with the stop number of its last occurrence; the rest are untouched. */
  lemma {:induction false} RenumberAt(orders: map<Id, Order>, ids: seq<Id>, stop: (Order, nat) -> Order, k: Id)
    requires forall o: Order, i: nat, j: nat :: stop(stop(o, i), j) == stop(o, j)
    requires k in orders
    ensures Renumber(orders, ids, stop)[k] ==
            if k in ids then stop(orders[k], LastIndex(ids, k) + 1) else orders[k]
    decreases |ids|
  {
    if |ids| > 0 {
      var init := ids[..|ids| - 1];
      RenumberAt(orders, init, stop, k);
      if ids[|ids| - 1] != k && k in ids {
        var j :| 0 <= j < |ids| && ids[j] == k;
        assert init[j] == k;
        assert LastIndex(ids, k) == LastIndex(init, k);
      }
    }
  }

  /** With no id repeated, the order listed at index i is stop i + 1. */
  lemma RenumberDistinct(orders: map<Id, Order>, ids: seq<Id>, stop: (Order, nat) -> Order)
    requires forall o: Order, i: nat, j: nat :: stop(stop(o, i), j) == stop(o, j)
    requires Distinct(ids)
    ensures forall i :: 0 <= i < |ids| && ids[i] in orders ==>
      Renumber(orders, ids, stop)[ids[i]] == stop(orders[ids[i]], i + 1)
    ensures forall k :: k in orders && k !in ids ==> Renumber(orders, ids, stop)[k] == orders[k]
  {
    forall i | 0 <= i < |ids| && ids[i] in orders
      ensures Renumber(orders, ids, stop)[ids[i]] == stop(orders[ids[i]], i + 1)
    {
      RenumberAt(orders, ids, stop, ids[i]);
    }
    forall k | k in orders && k !in ids ensures Renumber(orders, ids, stop)[k] == orders[k] {
      RenumberAt(orders, ids, stop, k);
    }
  }

  /** Renumbering keeps every order under its own id when the patch does. */
  lemma RenumberKeepsIds(orders: map<Id, Order>, ids: seq<Id>, stop: (Order, nat) -> Order)
    requires forall o: Order, i: nat, j: nat :: stop(stop(o, i), j) == stop(o, j)
    requires forall o: Order, i: nat :: stop(o, i).orderId == o.orderId
    requires forall k :: k in orders ==> orders[k].orderId == k
    ensures forall k :: k in orders ==> Renumber(orders, ids, stop)[k].orderId == k
  {
    forall k | k in orders ensures Renumber(orders, ids, stop)[k].orderId == k {
      RenumberAt(orders, ids, stop, k);
    }
  }

  /** The numbering loops of `createManifest` and `optimizeRoute`. */
  method ApplyStops(orders: map<Id, Order>, ids: seq<Id>, stop: (Order, nat) -> Order) returns (staged: map<Id, Order>)
    ensures staged == Renumber(orders, ids, stop)
  {
    staged := orders;
    for i := 0 to |ids|
      invariant staged == Renumber(orders, ids[..i], stop)
    {
      assert ids[..i + 1][..i] == ids[..i];
      if ids[i] in staged {
        staged := staged[ids[i] := stop(staged[ids[i]], i + 1)];
      }
    }
    assert ids[..|ids|] == ids;
  }

  // ---------------------------------------------------------------------
  // createManifest

  /** The statuses `createManifest` accepts. */
  const ManifestStatuses: set<OrderStatus> := {PendingDispatch, Processing, Assigned}

  /** The patch `createManifest` gives the order at stop `position`. */
  function ManifestStop(driverId: Id, now: int): (Order, nat) -> Order {
    (o: Order, position: nat) =>
      o.(assignedDriverId := Some(driverId), status := Assigned, routePosition := Some(position), updatedAt := now)
  }

  function OrderIds(s: seq<Order>): (r: seq<Id>)
    ensures |r| == |s| && forall i :: 0 <= i < |s| ==> r[i] == s[i].orderId
  {
    seq(|s|, i requires 0 <= i < |s| => s[i].orderId)
  }

  /** The ids reported as not found: those no resolved order carries. */
  function Missing(ids: seq<Id>, batch: seq<Order>): seq<Id> {
    Filter(ids, (id: Id) => id !in OrderIds(batch))
  }

  /** A repeated id makes the count check fail although every id exists, so
      the error names no missing id at all. */
  lemma DuplicateReportedMissing(db: Db, ids: seq<Id>)
    requires db.Valid()
    requires forall i :: 0 <= i < |ids| ==> ids[i] in db.orders
    requires !Distinct(ids)
    ensures |Filter(db.AllOrders(), InBatch(ids))| != |ids|
    ensures Missing(ids, Filter(db.AllOrders(), InBatch(ids))) == []
  {
    var batch := Filter(db.AllOrders(), InBatch(ids));
    BatchResolves(db, ids);
    BatchCovers(db, ids);
    forall i | 0 <= i < |ids| ensures ids[i] in OrderIds(batch) {
      var j :| 0 <= j < |batch| && batch[j].orderId == ids[i];
      assert OrderIds(batch)[j] == ids[i];
    }
    FilterNone(ids, (id: Id) => id !in OrderIds(batch));
  }

  /** An ASSIGNED order of the same driver passes the checks even when it
      already has a stop number in another route, and gets a new one. */
  lemma RestopPasses(o: Order, driverId: Id, now: int, position: nat)
    requires o.status == Assigned && o.assignedDriverId == Some(driverId) && o.routePosition.Some?
    ensures EligibilityCheck(driverId, ManifestStatuses)(o) == None
    ensures ManifestStop(driverId, now)(o, position).routePosition == Some(position)
  {
  }

  /** A later manifest stop overrides an earlier one and keeps the id. */
  lemma ManifestPatch(driverId: Id, now: int)
    ensures forall o: Order, i: nat, j: nat ::
      ManifestStop(driverId, now)(ManifestStop(driverId, now)(o, i), j) == ManifestStop(driverId, now)(o, j)
    ensures forall o: Order, i: nat :: ManifestStop(driverId, now)(o, i).orderId == o.orderId
  {
  }

  /** The orders table `createManifest` leaves once the checks pass. */
  lemma ManifestTable(db: Db, ids: seq<Id>, driverId: Id, now: int)
    requires db.Valid()
    requires |Filter(db.AllOrders(), InBatch(ids))| == |ids|
    ensures var r := Renumber(db.orders, ids, ManifestStop(driverId, now));
      && r.Keys == db.orders.Keys
      && (forall k :: k in r ==> r[k].orderId == k)
      && (forall i :: 0 <= i < |ids| ==> ids[i] in db.orders && r[ids[i]] == ManifestStop(driverId, now)(db.orders[ids[i]], i + 1))
      && (forall k :: k in db.orders && k !in ids ==> r[k] == db.orders[k])
  {
    BatchResolves(db, ids);
    ManifestPatch(driverId, now);
    RenumberDistinct(db.orders, ids, ManifestStop(driverId, now));
    RenumberKeepsIds(db.orders, ids, ManifestStop(driverId, now));
  }

  /** `createManifest`: all or nothing. The driver must exist and be on
      duty, every id must resolve (counted), and every order must pass the
      checks; then a DRAFT route is stored with the given ids, the order at
      index i becomes stop i + 1 of this driver, and ROUTE_CREATED is
      logged. */
  method CreateManifest(db: Db, routeId: Id, driverId: Id, orderIds: seq<Id>, adminId: Id, now: int,
                        logId: string) returns (r: Result<()>)
    requires db.Valid()
    modifies db`routes, db`orders, db`logs
    ensures db.Valid()
    ensures r.Err? ==> unchanged(db)
    ensures driverId !in old(db.drivers) ==> r == Err(DriverNotFound(driverId))
    ensures driverId in old(db.drivers) && !old(db.drivers)[driverId].isOnDuty ==> r == Err(DriverOffDuty(driverId))
    ensures driverId in old(db.drivers) && old(db.drivers)[driverId].isOnDuty ==>
      var batch := Filter(old(db.AllOrders()), InBatch(orderIds));
      var check := EligibilityCheck(driverId, ManifestStatuses);
      if |batch| != |orderIds| then r == Err(OrdersNotFound(Missing(orderIds, batch)))
      else if FirstError(batch, check).Some? then r == Err(FirstError(batch, check).value)
      else
        && r == Ok(())
        && db.routes == (if routeId in old(db.routes) then old(db.routes)
                         else old(db.routes)[routeId := Route(routeId, driverId, orderIds, Draft, now, None, None)])
        && db.orders.Keys == old(db.orders).Keys
        && (forall i :: 0 <= i < |orderIds| ==>
              && orderIds[i] in old(db.orders)
              && db.orders[orderIds[i]] == ManifestStop(driverId, now)(old(db.orders)[orderIds[i]], i + 1))
        && (forall k :: k in old(db.orders) && k !in orderIds ==> db.orders[k] == old(db.orders)[k])
        && db.logs == old(db.logs) + [AuditLog(logId, RouteCreated, adminId, routeId, RouteCreation(driverId, |orderIds|), now)]
  {
    if driverId !in db.drivers {
      return Err(DriverNotFound(driverId));
    }
    var driver := db.drivers[driverId];
    if !driver.isOnDuty {
      return Err(DriverOffDuty(driverId));
    }
    var orders := Filter(db.AllOrders(), InBatch(orderIds));
    if |orders| != |orderIds| {
      return Err(OrdersNotFound(Missing(orderIds, orders)));
    }
    var e := FindFirstError(orders, EligibilityCheck(driverId, ManifestStatuses));
    if e.Some? {
      return Err(e.value);
    }
    var staged := ApplyStops(db.orders, orderIds, ManifestStop(driverId, now));
    ManifestTable(db, orderIds, driverId, now);
    if routeId !in db.routes {
      db.routes := db.routes[routeId := Route(routeId, driverId, orderIds, Draft, now, None, None)];
    }
    db.orders := staged;
    db.logs := db.logs + [AuditLog(logId, RouteCreated, adminId, routeId, RouteCreation(driverId, |orderIds|), now)];
    r := Ok(());
  }

  // ---------------------------------------------------------------------
  // optimizeRoute

  function NotIn(ids: seq<Id>): Id -> bool {
    (id: Id) => id !in ids
  }

  /** The reordering check passes (nothing new, nothing dropped) exactly
      when the new sequence has the same ids as the old one; repeats are
      not noticed. */
  lemma SameStopsSpec(old_: seq<Id>, new_: seq<Id>)
    ensures Filter(new_, NotIn(old_)) == [] && Filter(old_, NotIn(new_)) == [] <==> Elems(new_) == Elems(old_)
  {
    if Elems(new_) == Elems(old_) {
      forall i | 0 <= i < |new_| ensures !NotIn(old_)(new_[i]) {
        assert new_[i] in Elems(old_);
      }
      forall i | 0 <= i < |old_| ensures !NotIn(new_)(old_[i]) {
        assert old_[i] in Elems(new_);
      }
      FilterNone(new_, NotIn(old_));
      FilterNone(old_, NotIn(new_));
    }
    if Filter(new_, NotIn(old_)) == [] && Filter(old_, NotIn(new_)) == [] {
      forall x ensures x in Elems(new_) <==> x in Elems(old_) {
        if x in Elems(new_) {
          var i :| 0 <= i < |new_| && new_[i] == x;
        }
        if x in Elems(old_) {
          var i :| 0 <= i < |old_| && old_[i] == x;
        }
      }
    }
  }

  /** The patch `optimizeRoute` gives the order at stop `position`. */
  function Reposition(now: int): (Order, nat) -> Order {
    (o: Order, position: nat) => o.(routePosition := Some(position), updatedAt := now)
  }

  /** A later reposition overrides an earlier one and keeps the id. */
  lemma RepositionPatch(now: int)
    ensures forall o: Order, i: nat, j: nat :: Reposition(now)(Reposition(now)(o, i), j) == Reposition(now)(o, j)
    ensures forall o: Order, i: nat :: Reposition(now)(o, i).orderId == o.orderId
  {
  }

  /** The orders table `optimizeRoute` leaves: each listed order carries
      the stop number of its last occurrence. */
  /** Every order in `ids` took the stop number of its last occurrence
      and the reposition patch; every other order is as it was. */
  ghost predicate Repositioned(before: map<Id, Order>, after: map<Id, Order>, ids: seq<Id>, now: int)
  {
    forall k :: k in before ==>
      k in after &&
      after[k] == if k in ids then Reposition(now)(before[k], LastIndex(ids, k) + 1) else before[k]
  }

  /** The orders table `optimizeRoute` leaves: ids stay keys of their own
      orders, and the reposition patch is applied as `Repositioned` says. */
  lemma RepositionTable(orders: map<Id, Order>, ids: seq<Id>, now: int)
    requires forall k :: k in orders ==> orders[k].orderId == k
    ensures var r := Renumber(orders, ids, Reposition(now));
      && (forall k :: k in r ==> r[k].orderId == k)
      && Repositioned(orders, r, ids, now)
  {
    RepositionPatch(now);
    var r := Renumber(orders, ids, Reposition(now));
    forall k | k in orders
      ensures r[k] == if k in ids then Reposition(now)(orders[k], LastIndex(ids, k) + 1) else orders[k]
      ensures r[k].orderId == k
    {
      RenumberAt(orders, ids, Reposition(now), k);
    }
  }

  /** `optimizeRoute`: only a DRAFT route, and only with a sequence holding
      the same ids. The route takes the new sequence, each order is
      renumbered by it (a repeated id keeps its last stop number), and
      ROUTE_OPTIMIZED is logged. */
  method OptimizeRoute(db: Db, routeId: Id, optimizedOrderIds: seq<Id>, adminId: Id, now: int, logId: string)
    returns (r: Result<()>)
    requires db.Valid()
    modifies db`routes, db`orders, db`logs
    ensures db.Valid()
    ensures r.Err? ==> unchanged(db)
    ensures routeId !in old(db.routes) ==> r == Err(RouteNotFound(routeId))
    ensures routeId in old(db.routes) ==>
      var route := old(db.routes)[routeId];
      var notInRoute := Filter(optimizedOrderIds, NotIn(route.orderIds));
      var dropped := Filter(route.orderIds, NotIn(optimizedOrderIds));
      if route.status != Draft then r == Err(RouteNotDraft(routeId))
      else if |notInRoute| > 0 then r == Err(IdsNotInRoute(notInRoute))
      else if |dropped| > 0 then r == Err(IdsMissingFromSequence(dropped))
      else
        && r == Ok(())
        && db.routes == old(db.routes)[routeId := route.(orderIds := optimizedOrderIds)]
        && db.orders == Renumber(old(db.orders), optimizedOrderIds, Reposition(now))
        && Repositioned(old(db.orders), db.orders, optimizedOrderIds, now)
        && db.logs == old(db.logs) + [AuditLog(logId, RouteOptimized, adminId, routeId, RouteReorder(optimizedOrderIds), now)]
  {
    if routeId !in db.routes {
      return Err(RouteNotFound(routeId));
    }
    var route := db.routes[routeId];
    if route.status != Draft {
      return Err(RouteNotDraft(routeId));
    }
    var missingIds := Filter(optimizedOrderIds, NotIn(route.orderIds));
    if |missingIds| > 0 {
      return Err(IdsNotInRoute(missingIds));
    }
    var extraIds := Filter(route.orderIds, NotIn(optimizedOrderIds));
    if |extraIds| > 0 {
      return Err(IdsMissingFromSequence(extraIds));
    }
    var staged := ApplyStops(db.orders, optimizedOrderIds, Reposition(now));
    RepositionTable(db.orders, optimizedOrderIds, now);
    db.routes := db.routes[routeId := route.(orderIds := optimizedOrderIds)];
    db.orders := staged;
    db.logs := db.logs + [AuditLog(logId, RouteOptimized, adminId, routeId, RouteReorder(optimizedOrderIds), now)];
    r := Ok(());
  }

  // ---------------------------------------------------------------------
  // Route lifecycle

  /** `activate`: DRAFT becomes ACTIVE, stamped; any other status is refused. */
  function Activation(route: Route, now: int): (r: Option<Route>)
    ensures r.Some? <==> route.status == Draft
  {
    if route.status != Draft then None else Some(route.(status := Active, startedAt := Some(now)))
  }

  /** `complete`: COMPLETED from any status, stamped. */
  function Completion(route: Route, now: int): Route {
    route.(status := Completed, completedAt := Some(now))
  }

  /** A route is activated at most once, and never after it is completed;
      completing keeps its stops. */
  lemma Lifecycle(route: Route, t1: int, t2: int)
    ensures Activation(route, t1).Some? ==>
      && Activation(route, t1).value.status == Active
      && Activation(route, t1).value.orderIds == route.orderIds
      && Activation(Activation(route, t1).value, t2).None?
    ensures Activation(Completion(route, t1), t2).None?
    ensures Completion(route, t1).status == Completed && Completion(route, t1).orderIds == route.orderIds
  {
  }

  /** `activate`: the route must exist and be a draft. */
  method Activate(db: Db, routeId: Id, now: int) returns (r: Result<()>)
    modifies db`routes
    ensures r.Err? ==> unchanged(db)
    ensures routeId !in old(db.routes) ==> r == Err(RouteNotFound(routeId))
    ensures routeId in old(db.routes) ==>
      match Activation(old(db.routes)[routeId], now)
      case None => r == Err(RouteNotDraft(routeId))
      case Some(route) => r == Ok(()) && db.routes == old(db.routes)[routeId := route]
  {
    if routeId !in db.routes {
      return Err(RouteNotFound(routeId));
    }
    var route := db.routes[routeId];
    if route.status != Draft {
      return Err(RouteNotDraft(routeId));
    }
    db.routes := db.routes[routeId := route.(status := Active, startedAt := Some(now))];
    r := Ok(());
  }

  /** `complete` checks nothing about the route's orders. */
  method Complete(db: Db, routeId: Id, now: int) returns (r: Result<()>)
    modifies db`routes
    ensures r.Err? ==> unchanged(db)
    ensures routeId !in old(db.routes) ==> r == Err(RouteNotFound(routeId))
    ensures routeId in old(db.routes) ==>
      r == Ok(()) && db.routes == old(db.routes)[routeId := Completion(old(db.routes)[routeId], now)]
  {
    if routeId !in db.routes {
      return Err(RouteNotFound(routeId));
    }
    var route := db.routes[routeId];
    db.routes := db.routes[routeId := route.(status := Completed, completedAt := Some(now))];
    r := Ok(());
  }

  // ---------------------------------------------------------------------
  // updateProgress

  /** The route's ids looked up in turn, skipping those with no order. */
  function Resolve(orders: map<Id, Order>, ids: seq<Id>): (r: seq<Order>)
    ensures |r| <= |ids|
    ensures |r| == |ids| <==> forall i :: 0 <= i < |ids| ==> ids[i] in orders
    ensures |r| == |ids| ==> forall i :: 0 <= i < |ids| ==> r[i] == orders[ids[i]]
    decreases |ids|
  {
    if |ids| == 0 then []
    else
      var init := ids[..|ids| - 1];
      var k := ids[|ids| - 1];
      Resolve(orders, init) + if k in orders then [orders[k]] else []
  }

  /** The one change `updateProgress` makes: the stop at `current`, if
      there is one and it is ASSIGNED, goes EN_ROUTE. */
  function Progressed(orders: map<Id, Order>, ids: seq<Id>, current: int, now: int): (r: map<Id, Order>)
    requires 0 <= current < |ids| ==> ids[current] in orders
  {
    if 0 <= current < |ids| && orders[ids[current]].status == Assigned
    then orders[ids[current] := orders[ids[current]].(status := EnRoute, updatedAt := now)]
    else orders
  }

  /** Only the current stop can change, only from ASSIGNED to EN_ROUTE, and
      repeating the call changes nothing more. */
  lemma ProgressSpec(orders: map<Id, Order>, ids: seq<Id>, current: int, t1: int, t2: int)
    requires 0 <= current < |ids| ==> ids[current] in orders
    ensures Progressed(orders, ids, current, t1).Keys == orders.Keys
    ensures forall k :: k in orders && (current < 0 || current >= |ids| || k != ids[current]) ==>
      Progressed(orders, ids, current, t1)[k] == orders[k]
    ensures forall k :: k in orders && Progressed(orders, ids, current, t1)[k] != orders[k] ==>
      orders[k].status == Assigned && Progressed(orders, ids, current, t1)[k].status == EnRoute
    ensures Progressed(Progressed(orders, ids, current, t1), ids, current, t2) == Progressed(orders, ids, current, t1)
  {
  }

  /** `updateProgress`. Every id of the route must have an order; then only
      the current stop may move on. */
  method UpdateProgress(db: Db, routeId: Id, currentStopIndex: int, now: int) returns (r: Result<()>)
    requires db.Valid()
    modifies db`orders
    ensures db.Valid()
    ensures r.Err? ==> unchanged(db)
    ensures routeId !in old(db.routes) ==> r == Err(RouteNotFound(routeId))
    ensures routeId in old(db.routes) ==>
      var ids := old(db.routes)[routeId].orderIds;
      if exists i :: 0 <= i < |ids| && ids[i] !in old(db.orders) then r == Err(RouteOrdersMissing)
      else r == Ok(()) && db.orders == Progressed(old(db.orders), ids, currentStopIndex, now)
  {
    if routeId !in db.routes {
      return Err(RouteNotFound(routeId));
    }
    var ids := db.routes[routeId].orderIds;
    var routeOrders := Resolve(db.orders, ids);
    if |routeOrders| != |ids| {
      return Err(RouteOrdersMissing);
    }
    var staged := db.orders;
    for i := 0 to |routeOrders|
      invariant staged == if 0 <= currentStopIndex < i then Progressed(db.orders, ids, currentStopIndex, now) else db.orders
    {
      var order := routeOrders[i];
      if i < currentStopIndex {
        // stops already passed are left as they are
      } else if i == currentStopIndex {
        if order.status == Assigned {
          staged := staged[ids[i] := order.(status := EnRoute, updatedAt := now)];
        }
      }
    }
    db.orders := staged;
    r := Ok(());
  }

  // ---------------------------------------------------------------------
  // getDriverAssignedOrders

  /** `!o.routePosition`: no stop number, or stop number 0. */
  function Unrouted(o: Order): bool {
    o.routePosition.None? || o.routePosition.value == 0
  }

  function ReadyForRoute(driverId: Id): Order -> bool {
    (o: Order) => o.status == Assigned && o.assignedDriverId == Some(driverId) && Unrouted(o)
  }

  /** `getDriverAssignedOrders`: exactly the driver's ASSIGNED orders that
      are in no route yet, in creation order. */
  method GetDriverAssignedOrders(db: Db, driverId: Id) returns (r: seq<Order>)
    requires db.Valid()
    ensures r == Filter(db.AllOrders(), ReadyForRoute(driverId))
    ensures forall o :: o in r <==>
      o in db.orders.Values && o.status == Assigned && o.assignedDriverId == Some(driverId) && Unrouted(o)
  {
    var all := db.AllOrders();
    var orders := Filter(all, ByDriver(driverId));
    r := Filter(orders, ReadyForRoute(driverId));
    FilterTwice(all, ByDriver(driverId), ReadyForRoute(driverId), ReadyForRoute(driverId));
    CollectMembers(db.orders, db.orderKeys);
    FilterMembers(all, ReadyForRoute(driverId));
  }
}
