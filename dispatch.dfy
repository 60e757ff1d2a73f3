/** Dispatch: assigning a batch of orders to an on-duty driver, the orders
    waiting for a driver, and the assigned orders grouped by driver. */
module Dispatch {
  import opened Common
  import opened Domain
  import opened Orders

  /** An order the batch names. */
  function InBatch(ids: seq<Id>): Order -> bool {
    (o: Order) => o.orderId in ids
  }

  /** Listing every table order whose id the batch names finds as many
      orders as ids exactly when no id repeats and every id exists; so a
      missing id and a repeated id both fail the count check. */
  lemma BatchResolves(db: Db, ids: seq<Id>)
    requires db.Valid()
    ensures |Filter(db.AllOrders(), InBatch(ids))| == |ids| <==>
            Distinct(ids) && forall i :: 0 <= i < |ids| ==> ids[i] in db.orders
  {
    AllOrdersIds(db);
    FilterLengthCongruent(db.AllOrders(), db.orderKeys, InBatch(ids), InSeq(ids));
    SelectCount(db.orderKeys, ids);
  }

  /** The batch names exactly the orders it lists. */
  lemma BatchCovers(db: Db, ids: seq<Id>)
    requires db.Valid()
    ensures forall j :: 0 <= j < |Filter(db.AllOrders(), InBatch(ids))| ==>
      var o := Filter(db.AllOrders(), InBatch(ids))[j];
      o.orderId in db.orders && db.orders[o.orderId] == o && o.orderId in ids
    ensures forall k :: k in db.orders ==>
      (k in ids <==> exists j :: 0 <= j < |Filter(db.AllOrders(), InBatch(ids))| &&
                                 Filter(db.AllOrders(), InBatch(ids))[j].orderId == k)
  {
    var all := db.AllOrders();
    var batch := Filter(all, InBatch(ids));
    AllOrdersIds(db);
    forall j | 0 <= j < |batch| ensures batch[j].orderId in db.orders && db.orders[batch[j].orderId] == batch[j] {
      var m :| 0 <= m < |all| && all[m] == batch[j];
    }
    forall k | k in db.orders && k in ids
      ensures exists j :: 0 <= j < |batch| && batch[j].orderId == k
    {
      var m :| 0 <= m < |db.orderKeys| && db.orderKeys[m] == k;
      assert InBatch(ids)(all[m]);
      var j :| 0 <= j < |batch| && batch[j] == all[m];
    }
  }

  /** The checks each order of a batch must pass, in the order they run:
      not cancelled, not another driver's, and in one of the `allowed`
      statuses. */
  function EligibilityCheck(driverId: Id, allowed: set<OrderStatus>): Order -> Option<Error> {
    (o: Order) =>
      if o.status == Cancelled then Some(OrderIsCancelled(o.orderId))
      else if Truthy(o.assignedDriverId) && o.assignedDriverId.value != driverId then Some(AssignedToOtherDriver(o.orderId))
      else if o.status !in allowed then Some(IneligibleStatus(o.orderId, o.status))
      else None
  }

  /** The statuses `assignOrdersToDriver` accepts. */
  const AssignableStatuses: set<OrderStatus> := {PendingDispatch, Processing, PendingVerification}

  function AssignCheck(driverId: Id): Order -> Option<Error> {
    EligibilityCheck(driverId, AssignableStatuses)
  }

  /** An order handed to a driver. */
  function AssignedTo(o: Order, driverId: Id, now: int): Order {
    o.(assignedDriverId := Some(driverId), status := Assigned, updatedAt := now)
  }

  /** One ORDER_ASSIGNED entry per order of the batch, in batch order. */
  function AssignmentLogs(batch: seq<Order>, driverId: Id, driverName: string, adminId: Id, now: int,
                          logIds: nat -> string): (r: seq<AuditLog>)
    ensures |r| == |batch|
  {
    seq(|batch|, i requires 0 <= i < |batch| =>
      AuditLog(logIds(i), OrderAssigned, adminId, batch[i].orderId, Assignment(driverId, driverName), now))
  }

  /** The table after assigning every order of `batch`, one after the other. */
  function AssignAll(orders: map<Id, Order>, batch: seq<Order>, driverId: Id, now: int): (r: map<Id, Order>)
    requires forall j :: 0 <= j < |batch| ==> batch[j].orderId in orders
    ensures r.Keys == orders.Keys
    decreases |batch|
  {
    if |batch| == 0 then orders
    else
      var staged := AssignAll(orders, batch[..|batch| - 1], driverId, now);
      var id := batch[|batch| - 1].orderId;
      staged[id := AssignedTo(staged[id], driverId, now)]
  }

  /** Every order of the batch ends up assigned once; the rest are untouched. */
  lemma {:induction false} AssignAllAt(orders: map<Id, Order>, batch: seq<Order>, driverId: Id, now: int, k: Id)
    requires forall j :: 0 <= j < |batch| ==> batch[j].orderId in orders
    requires k in orders
    ensures AssignAll(orders, batch, driverId, now)[k] ==
            if exists j :: 0 <= j < |batch| && batch[j].orderId == k then AssignedTo(orders[k], driverId, now)
            else orders[k]
    decreases |batch|
  {
    if |batch| > 0 {
      var init := batch[..|batch| - 1];
      AssignAllAt(orders, init, driverId, now, k);
      assert forall j :: 0 <= j < |init| ==> init[j] == batch[j];
      if k != batch[|batch| - 1].orderId && exists j :: 0 <= j < |batch| && batch[j].orderId == k {
        var j :| 0 <= j < |batch| && batch[j].orderId == k;
        assert init[j].orderId == k;
      }
    }
  }

  lemma AssignmentLogsSnoc(batch: seq<Order>, i: nat, driverId: Id, driverName: string, adminId: Id, now: int,
                           logIds: nat -> string)
    requires i < |batch|
    ensures AssignmentLogs(batch[..i + 1], driverId, driverName, adminId, now, logIds)
         == AssignmentLogs(batch[..i], driverId, driverName, adminId, now, logIds)
            + [AuditLog(logIds(i), OrderAssigned, adminId, batch[i].orderId, Assignment(driverId, driverName), now)]
  {
  }

  lemma AssignAllSnoc(orders: map<Id, Order>, batch: seq<Order>, i: nat, driverId: Id, now: int)
    requires forall j :: 0 <= j < |batch| ==> batch[j].orderId in orders
    requires i < |batch|
    ensures var staged := AssignAll(orders, batch[..i], driverId, now);
      AssignAll(orders, batch[..i + 1], driverId, now)
        == staged[batch[i].orderId := AssignedTo(staged[batch[i].orderId], driverId, now)]
  {
    assert batch[..i + 1][..i] == batch[..i];
  }

  /** The loop of `assignOrdersToDriver`, on staged copies: it stops at
      the first order failing the checks; otherwise every order of the batch
      is assigned and logged. */
  method StageAssignments(orders: map<Id, Order>, batch: seq<Order>, driverId: Id,
                          driverName: string, adminId: Id, now: int, logIds: nat -> string)
    returns (e: Option<Error>, staged: map<Id, Order>, entries: seq<AuditLog>)
    requires forall j :: 0 <= j < |batch| ==> batch[j].orderId in orders
    ensures e == FirstError(batch, AssignCheck(driverId))
    ensures e == None ==> staged == AssignAll(orders, batch, driverId, now)
    ensures e == None ==> entries == AssignmentLogs(batch, driverId, driverName, adminId, now, logIds)
  {
    staged, entries := orders, [];
    for i := 0 to |batch|
      invariant FirstError(batch[..i], AssignCheck(driverId)) == None
      invariant staged == AssignAll(orders, batch[..i], driverId, now)
      invariant entries == AssignmentLogs(batch[..i], driverId, driverName, adminId, now, logIds)
    {
      assert batch[..i + 1][..i] == batch[..i];
      var o := batch[i];
      var check := AssignCheck(driverId)(o);
      if check.Some? {
        FirstErrorPrefix(batch, AssignCheck(driverId), i + 1);
        return check, staged, entries;
      }
      AssignAllSnoc(orders, batch, i, driverId, now);
      staged := staged[o.orderId := AssignedTo(staged[o.orderId], driverId, now)];
      AssignmentLogsSnoc(batch, i, driverId, driverName, adminId, now, logIds);
      entries := entries + [AuditLog(logIds(i), OrderAssigned, adminId, o.orderId, Assignment(driverId, driverName), now)];
    }
    assert batch[..|batch|] == batch;
    e := None;
  }

  /** `assignOrdersToDriver`: all or nothing. The driver must exist and be
      on duty, the ids must resolve one to one, and every order must pass
      the checks; then each is assigned and logged, and the batch size is
      returned. */
  method AssignOrdersToDriver(db: Db, orderIds: seq<Id>, driverId: Id, adminId: Id, now: int,
                              logIds: nat -> string) returns (r: Result<int>)
    requires db.Valid()
    modifies db`orders, db`logs
    ensures db.Valid()
    ensures r.Err? ==> unchanged(db)
    ensures driverId !in old(db.drivers) ==> r == Err(DriverNotFound(driverId))
    ensures driverId in old(db.drivers) && !old(db.drivers)[driverId].isOnDuty ==> r == Err(DriverOffDuty(driverId))
    ensures driverId in old(db.drivers) && old(db.drivers)[driverId].isOnDuty ==>
      var batch := Filter(old(db.AllOrders()), InBatch(orderIds));
      if |batch| != |orderIds| then r == Err(SomeOrdersNotFound)
      else if FirstError(batch, AssignCheck(driverId)).Some? then r == Err(FirstError(batch, AssignCheck(driverId)).value)
      else
        && r == Ok(|orderIds|)
        && db.orders.Keys == old(db.orders).Keys
        && (forall k :: k in old(db.orders) ==>
              db.orders[k] == if k in orderIds then AssignedTo(old(db.orders)[k], driverId, now) else old(db.orders)[k])
        && db.logs == old(db.logs) + AssignmentLogs(batch, driverId, old(db.drivers)[driverId].name, adminId, now, logIds)
  {
    if driverId !in db.drivers {
      return Err(DriverNotFound(driverId));
    }
    var driver := db.drivers[driverId];
    if !driver.isOnDuty {
      return Err(DriverOffDuty(driverId));
    }
    var batch := Filter(db.AllOrders(), InBatch(orderIds));
    if |batch| != |orderIds| {
      return Err(SomeOrdersNotFound);
    }
    BatchCovers(db, orderIds);
    var e, orders, entries := StageAssignments(db.orders, batch, driverId, driver.name, adminId, now, logIds);
    if e.Some? {
      return Err(e.value);
    }
    forall k | k in db.orders
      ensures orders[k] == if k in orderIds then AssignedTo(db.orders[k], driverId, now) else db.orders[k]
    {
      AssignAllAt(db.orders, batch, driverId, now, k);
    }
    db.orders, db.logs := orders, db.logs + entries;
    r := Ok(|batch|);
  }

  // ---------------------------------------------------------------------
  // Queries

  /** Ascending creation time is the descending sort on its negation. */
  function Oldest(o: Order): int {
    -o.createdAt
  }

  function Unassigned(o: Order): bool {
    !Truthy(o.assignedDriverId)
  }

  /** What `getUnassignedOrders` selects, before sorting: every
      PENDING_DISPATCH order (with a driver or not), then the PROCESSING
      orders without one. */
  function AwaitingDriver(all: seq<Order>): seq<Order> {
    Filter(all, HasStatus(Some(PendingDispatch))) + Filter(Filter(all, HasStatus(Some(Processing))), Unassigned)
  }

  /** `getUnassignedOrders`: the selection, oldest first. */
  function UnassignedListing(all: seq<Order>): seq<Order> {
    SortDesc(AwaitingDriver(all), Oldest)
  }

  lemma AwaitingDriverMembers(all: seq<Order>)
    ensures forall o :: o in AwaitingDriver(all) <==>
      o in all && (o.status == PendingDispatch || (o.status == Processing && Unassigned(o)))
  {
    var pending := Filter(all, HasStatus(Some(PendingDispatch)));
    var processing := Filter(all, HasStatus(Some(Processing)));
    var free := Filter(processing, Unassigned);
    forall o ensures o in pending + free <==> o in all && (o.status == PendingDispatch || (o.status == Processing && Unassigned(o))) {
      if o in all && o.status == Processing && Unassigned(o) {
        var m :| 0 <= m < |all| && all[m] == o;
        var n :| 0 <= n < |processing| && processing[n] == o;
      }
      if o in all && o.status == PendingDispatch {
        var m :| 0 <= m < |all| && all[m] == o;
      }
      if o in free {
        var n :| 0 <= n < |free| && free[n] == o;
      }
    }
  }

  /** Oldest first; exactly the PENDING_DISPATCH orders and the PROCESSING
      orders without a driver. */
  lemma UnassignedListingSpec(all: seq<Order>)
    ensures forall i, j :: 0 <= i < j < |UnassignedListing(all)| ==>
      UnassignedListing(all)[i].createdAt <= UnassignedListing(all)[j].createdAt
    ensures forall o :: o in UnassignedListing(all) <==>
      o in all && (o.status == PendingDispatch || (o.status == Processing && Unassigned(o)))
  {
    var r := UnassignedListing(all);
    SortDescCorrect(AwaitingDriver(all), Oldest);
    SortDescMembers(AwaitingDriver(all), Oldest);
    AwaitingDriverMembers(all);
    forall i, j | 0 <= i < j < |r| ensures r[i].createdAt <= r[j].createdAt {
      assert Oldest(r[i]) >= Oldest(r[j]);
    }
  }

  method GetUnassignedOrders(db: Db) returns (r: seq<Order>)
    requires db.Valid()
    ensures r == UnassignedListing(db.AllOrders())
  {
    var orders := Filter(db.AllOrders(), HasStatus(Some(PendingDispatch)));
    var processingOrders := Filter(db.AllOrders(), HasStatus(Some(Processing)));
    var unassigned := orders + Filter(processingOrders, Unassigned);
    r := SortedCopy(unassigned, Oldest);
  }

  /** One entry of `getAssignedOrders`. */
  datatype DriverGroup = DriverGroup(driverId: Id, driverName: string, orders: seq<Order>)

  /** `driver?.name || 'Unknown Driver'`. */
  function DriverName(drivers: map<Id, Driver>, d: Id): string {
    if d in drivers && drivers[d].name != "" then drivers[d].name else "Unknown Driver"
  }

  function ByDriver(d: Id): Order -> bool {
    (o: Order) => o.assignedDriverId == Some(d)
  }

  function AssignedWithDriver(o: Order): bool {
    Truthy(o.assignedDriverId) && o.status == Assigned
  }

  /** Where driver `d`'s group sits, or the number of groups if it has none. */
  function GroupOf(gs: seq<DriverGroup>, d: Id): (i: nat)
    ensures i <= |gs|
    ensures i < |gs| ==> gs[i].driverId == d
    ensures forall j :: 0 <= j < i ==> gs[j].driverId != d
    decreases |gs|
  {
    if |gs| == 0 then 0
    else if gs[0].driverId == d then 0
    else 1 + GroupOf(gs[1..], d)
  }

  /** One pass of the grouping loop: an order without a driver is skipped;
      otherwise it joins its driver's group, which is opened (with the
      driver's name) the first time the driver is met. */
  function AddToGroups(gs: seq<DriverGroup>, o: Order, drivers: map<Id, Driver>): seq<DriverGroup> {
    if !Truthy(o.assignedDriverId) then gs
    else
      var d := o.assignedDriverId.value;
      var i := GroupOf(gs, d);
      if i < |gs| then gs[i := gs[i].(orders := gs[i].orders + [o])]
      else gs + [DriverGroup(d, DriverName(drivers, d), [o])]
  }

  function Grouped(s: seq<Order>, drivers: map<Id, Driver>): seq<DriverGroup>
    decreases |s|
  {
    if |s| == 0 then [] else AddToGroups(Grouped(s[..|s| - 1], drivers), s[|s| - 1], drivers)
  }

  /** No driver has two groups. */
  ghost predicate OneGroupPerDriver(gs: seq<DriverGroup>) {
    forall i, j :: 0 <= i < j < |gs| ==> gs[i].driverId != gs[j].driverId
  }

  /** Each group is named after its driver and holds exactly that driver's
      orders, in their original order. */
  ghost predicate GroupsHold(gs: seq<DriverGroup>, s: seq<Order>, drivers: map<Id, Driver>) {
    forall i :: 0 <= i < |gs| ==>
      && gs[i].driverId != ""
      && gs[i].orders == Filter(s, ByDriver(gs[i].driverId))
      && gs[i].driverName == DriverName(drivers, gs[i].driverId)
  }

  /** Every order that has a driver has its driver's group. */
  ghost predicate GroupsCover(gs: seq<DriverGroup>, s: seq<Order>) {
    forall i :: 0 <= i < |s| && Truthy(s[i].assignedDriverId) ==>
      GroupOf(gs, s[i].assignedDriverId.value) < |gs|
  }

  /** `gs` groups `s` by driver. */
  ghost predicate GroupsOf(gs: seq<DriverGroup>, s: seq<Order>, drivers: map<Id, Driver>) {
    OneGroupPerDriver(gs) && GroupsHold(gs, s, drivers) && GroupsCover(gs, s)
  }

  lemma FilterSnoc(s: seq<Order>, o: Order, p: Order -> bool)
    ensures Filter(s + [o], p) == if p(o) then Filter(s, p) + [o] else Filter(s, p)
  {
    assert (s + [o])[..|s|] == s;
  }

  lemma AddToGroupsCover(gs: seq<DriverGroup>, s: seq<Order>, o: Order, drivers: map<Id, Driver>)
    requires GroupsCover(gs, s)
    ensures GroupsCover(AddToGroups(gs, o, drivers), s + [o])
  {
    var gs' := AddToGroups(gs, o, drivers);
    var s' := s + [o];
    forall i | 0 <= i < |s'| && Truthy(s'[i].assignedDriverId)
      ensures GroupOf(gs', s'[i].assignedDriverId.value) < |gs'|
    {
      var x := s'[i].assignedDriverId.value;
      if i < |s| {
        assert s'[i] == s[i];
        var m := GroupOf(gs, x);
        assert gs'[m].driverId == x;
      } else {
        assert gs'[GroupOf(gs, x)].driverId == x;
      }
    }
  }

  lemma AddToGroupsOne(gs: seq<DriverGroup>, o: Order, drivers: map<Id, Driver>)
    requires OneGroupPerDriver(gs)
    ensures OneGroupPerDriver(AddToGroups(gs, o, drivers))
  {
    var gs' := AddToGroups(gs, o, drivers);
    forall i, j | 0 <= i < j < |gs'| ensures gs'[i].driverId != gs'[j].driverId {
      if j < |gs| {
        assert gs'[i].driverId == gs[i].driverId && gs'[j].driverId == gs[j].driverId;
      }
    }
  }

  /** Group `i` after filing `o` still holds exactly its driver's orders. */
  lemma AddToGroupsAt(gs: seq<DriverGroup>, s: seq<Order>, o: Order, drivers: map<Id, Driver>, i: nat)
    requires OneGroupPerDriver(gs) && GroupsHold(gs, s, drivers) && GroupsCover(gs, s)
    requires i < |AddToGroups(gs, o, drivers)|
    ensures var g := AddToGroups(gs, o, drivers)[i];
      && g.driverId != ""
      && g.orders == Filter(s + [o], ByDriver(g.driverId))
      && g.driverName == DriverName(drivers, g.driverId)
  {
    var g := AddToGroups(gs, o, drivers)[i];
    FilterSnoc(s, o, ByDriver(g.driverId));
    if !Truthy(o.assignedDriverId) {
      assert g == gs[i];
    } else {
      var d := o.assignedDriverId.value;
      var k := GroupOf(gs, d);
      if i < |gs| && i != k {
        assert g == gs[i];
        assert gs[i].driverId != d;
      } else if k == |gs| {
        forall m | 0 <= m < |s| ensures !ByDriver(d)(s[m]) {
          assert Truthy(s[m].assignedDriverId) ==> GroupOf(gs, s[m].assignedDriverId.value) < |gs|;
        }
        FilterNone(s, ByDriver(d));
      }
    }
  }

  lemma AddToGroupsHold(gs: seq<DriverGroup>, s: seq<Order>, o: Order, drivers: map<Id, Driver>)
    requires OneGroupPerDriver(gs) && GroupsHold(gs, s, drivers) && GroupsCover(gs, s)
    ensures GroupsHold(AddToGroups(gs, o, drivers), s + [o], drivers)
  {
    forall i | 0 <= i < |AddToGroups(gs, o, drivers)|
      ensures var g := AddToGroups(gs, o, drivers)[i];
        && g.driverId != ""
        && g.orders == Filter(s + [o], ByDriver(g.driverId))
        && g.driverName == DriverName(drivers, g.driverId)
    {
      AddToGroupsAt(gs, s, o, drivers, i);
    }
  }

  lemma {:induction false} GroupedSpec(s: seq<Order>, drivers: map<Id, Driver>)
    ensures GroupsOf(Grouped(s, drivers), s, drivers)
    decreases |s|
  {
    if |s| > 0 {
      var init := s[..|s| - 1];
      GroupedSpec(init, drivers);
      AddToGroupsOne(Grouped(init, drivers), s[|s| - 1], drivers);
      AddToGroupsCover(Grouped(init, drivers), init, s[|s| - 1], drivers);
      AddToGroupsHold(Grouped(init, drivers), init, s[|s| - 1], drivers);
      Snoc(s);
    }
  }

  /** The grouping loop of `getAssignedOrders`: each order is pushed onto
      its driver's group, the group being created empty on first sight. */
  method GroupByDriver(s: seq<Order>, drivers: map<Id, Driver>) returns (grouped: seq<DriverGroup>)
    ensures grouped == Grouped(s, drivers)
  {
    grouped := [];
    for i := 0 to |s|
      invariant grouped == Grouped(s[..i], drivers)
    {
      assert s[..i + 1][..i] == s[..i];
      var o := s[i];
      assert Grouped(s[..i + 1], drivers) == AddToGroups(grouped, o, drivers);
      if !Truthy(o.assignedDriverId) {
        continue;
      }
      var d := o.assignedDriverId.value;
      var driverName := DriverName(drivers, d);
      var g := GroupOf(grouped, d);
      if g == |grouped| {
        grouped := grouped + [DriverGroup(d, driverName, [])];
        assert [] + [o] == [o];
      }
      grouped := grouped[g := grouped[g].(orders := grouped[g].orders + [o])];
    }
    assert s[..|s|] == s;
  }

  /** `getAssignedOrders`. With a driver id: that driver's ASSIGNED orders
      as a single group, or nothing when there are none. Without: every
      ASSIGNED order that has a driver, grouped by driver. */
  method GetAssignedOrders(db: Db, driverId: Option<Id>) returns (r: seq<DriverGroup>)
    requires db.Valid()
    ensures Truthy(driverId) ==>
      var mine := Filter(Filter(db.AllOrders(), ByDriver(driverId.value)), HasStatus(Some(Assigned)));
      r == if |mine| == 0 then [] else [DriverGroup(driverId.value, DriverName(db.drivers, driverId.value), mine)]
    ensures !Truthy(driverId) ==> r == Grouped(Filter(db.AllOrders(), AssignedWithDriver), db.drivers)
  {
    if Truthy(driverId) {
      var orders := Filter(db.AllOrders(), ByDriver(driverId.value));
      var assignedOrders := Filter(orders, HasStatus(Some(Assigned)));
      if |assignedOrders| == 0 {
        return [];
      }
      return [DriverGroup(driverId.value, DriverName(db.drivers, driverId.value), assignedOrders)];
    }
    var assignedOrders := Filter(db.AllOrders(), AssignedWithDriver);
    r := GroupByDriver(assignedOrders, db.drivers);
  }
}
