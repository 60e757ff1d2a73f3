/** Bank-transfer verification: the queue of payments awaiting review,
    approval and rejection (which puts the items back into stock), and the
    history of reviews. */
module Payments {
  import opened Common
  import opened Domain
  import opened Orders

  /** A payment that may still be reviewed. */
  predicate Reviewable(o: Order) {
    o.paymentStatus == Pending && o.paymentMethod == BankTransfer
  }

  /** The check both reviews run first, in the order they run it. */
  function ReviewError(orders: map<Id, Order>, orderId: Id): (e: Option<Error>)
    ensures e == None <==> orderId in orders && Reviewable(orders[orderId])
  {
    if orderId !in orders then Some(OrderNotFound(orderId))
    else if orders[orderId].paymentStatus != Pending then Some(PaymentNotPending(orders[orderId].paymentStatus))
    else if orders[orderId].paymentMethod != BankTransfer then Some(NotBankTransfer)
    else None
  }

  /** The order after approval: verified and moved on to processing. */
  function AfterApproval(o: Order, adminId: Id, now: int): Order {
    o.(paymentStatus := Verified, status := Processing, verifiedBy := Some(adminId), verifiedAt := Some(now), updatedAt := now)
  }

  /** The order after rejection: its status is left as it was. */
  function AfterRejection(o: Order, adminId: Id, now: int): Order {
    o.(paymentStatus := Rejected, verifiedBy := Some(adminId), verifiedAt := Some(now), updatedAt := now)
  }

  /** `approvePayment`. */
  method ApprovePayment(db: Db, orderId: Id, adminId: Id, now: int, logId: string) returns (r: Result<()>)
    requires db.Valid()
    modifies db`orders, db`logs
    ensures db.Valid()
    ensures ReviewError(old(db.orders), orderId).Some? ==>
      r == Err(ReviewError(old(db.orders), orderId).value) && unchanged(db)
    ensures ReviewError(old(db.orders), orderId).None? ==>
      var o := old(db.orders)[orderId];
      && r == Ok(())
      && db.orders == old(db.orders)[orderId := AfterApproval(o, adminId, now)]
      && db.logs == old(db.logs) + [AuditLog(logId, PaymentApproved, adminId, orderId, Approval(o.totalAmount), now)]
  {
    if orderId !in db.orders {
      return Err(OrderNotFound(orderId));
    }
    var o := db.orders[orderId];
    if o.paymentStatus != Pending {
      return Err(PaymentNotPending(o.paymentStatus));
    }
    if o.paymentMethod != BankTransfer {
      return Err(NotBankTransfer);
    }
    db.orders := db.orders[orderId := AfterApproval(o, adminId, now)];
    db.logs := db.logs + [AuditLog(logId, PaymentApproved, adminId, orderId, Approval(o.totalAmount), now)];
    r := Ok(());
  }

  /** `rejectPayment`: also restores the items' stock. */
  method RejectPayment(db: Db, orderId: Id, reason: Option<string>, adminId: Id, now: int, logId: string)
    returns (r: Result<()>)
    requires db.Valid()
    modifies db`orders, db`products, db`logs
    ensures db.Valid()
    ensures ReviewError(old(db.orders), orderId).Some? ==>
      r == Err(ReviewError(old(db.orders), orderId).value) && unchanged(db)
    ensures ReviewError(old(db.orders), orderId).None? ==>
      var o := old(db.orders)[orderId];
      && r == Ok(())
      && db.orders == old(db.orders)[orderId := AfterRejection(o, adminId, now)]
      && db.products == AdjustStock(old(db.products), o.items, 1, now)
      && db.logs == old(db.logs) + [AuditLog(logId, PaymentRejected, adminId, orderId, Rejection(reason, o.totalAmount), now)]
  {
    if orderId !in db.orders {
      return Err(OrderNotFound(orderId));
    }
    var o := db.orders[orderId];
    if o.paymentStatus != Pending {
      return Err(PaymentNotPending(o.paymentStatus));
    }
    if o.paymentMethod != BankTransfer {
      return Err(NotBankTransfer);
    }
    db.orders := db.orders[orderId := AfterRejection(o, adminId, now)];
    db.products := ApplyStock(db.products, o.items, 1, now);
    db.logs := db.logs + [AuditLog(logId, PaymentRejected, adminId, orderId, Rejection(reason, o.totalAmount), now)];
    r := Ok(());
  }

  /** A payment is reviewed at most once: after either review, neither
      review passes its check again, and the two cannot both happen. */
  lemma ReviewedOnce(orders: map<Id, Order>, orderId: Id, adminId: Id, now: int)
    requires orderId in orders
    ensures ReviewError(orders[orderId := AfterApproval(orders[orderId], adminId, now)], orderId) == Some(PaymentNotPending(Verified))
    ensures ReviewError(orders[orderId := AfterRejection(orders[orderId], adminId, now)], orderId) == Some(PaymentNotPending(Rejected))
  {
  }

  /** Rejection leaves the status alone, so an order that could be
      cancelled before still can; cancelling it restores the items a second
      time, on top of the rejection's own restoration. */
  lemma RejectThenCancel(o: Order, adminId: Id, now: int, products: map<Id, Product>, t2: int, k: Id)
    requires Cancellable(o.status) && k in products
    ensures Cancellable(AfterRejection(o, adminId, now).status)
    ensures AdjustStock(AdjustStock(products, o.items, 1, now), o.items, 1, t2)[k].stockLevel
            == products[k].stockLevel + 2 * QtyOf(o.items, k)
  {
    RestoreTwice(products, o.items, now, t2, k);
  }

  function AwaitingReview(o: Order): bool {
    o.paymentMethod == BankTransfer && o.paymentStatus == Pending
  }

  function PaymentPending(o: Order): bool {
    o.paymentStatus == Pending
  }

  /** `getPendingVerifications`: exactly the bank-transfer orders whose
      payment is pending, in table order. */
  method GetPendingVerifications(db: Db) returns (r: seq<Order>)
    requires db.Valid()
    ensures r == Filter(db.AllOrders(), AwaitingReview)
    ensures forall i :: 0 <= i < |r| ==> r[i].paymentMethod == BankTransfer && r[i].paymentStatus == Pending
    ensures forall o :: o in db.orders.Values && AwaitingReview(o) ==> o in r
  {
    var all := db.AllOrders();
    var orders := Filter(all, PaymentPending);
    r := Filter(orders, AwaitingReview);
    FilterTwice(all, PaymentPending, AwaitingReview, AwaitingReview);
    CollectMembers(db.orders, db.orderKeys);
    FilterFrom(all, AwaitingReview, db.orders.Values);
  }

  function IsReview(l: AuditLog): bool {
    l.action == PaymentApproved || l.action == PaymentRejected
  }

  /** `getVerificationHistory`: approvals then rejections, merged newest
      first and cut to `limit || 50`. */
  function ReviewHistory(logs: seq<AuditLog>, limit: Option<int>): seq<AuditLog> {
    Take(SortDesc(Filter(logs, HasAction(PaymentApproved)) + Filter(logs, HasAction(PaymentRejected)), Timestamp),
         LimitOr(limit, 50))
  }

  /** The history holds reviews only, newest first, and none older than a
      review it leaves out; without a limit (or with 0) it holds the 50
      newest, with a positive limit that many. */
  lemma ReviewHistorySpec(logs: seq<AuditLog>, limit: Option<int>)
    ensures var r := ReviewHistory(logs, limit);
      && (forall i :: 0 <= i < |r| ==> IsReview(r[i]))
      && SortedDesc(r, Timestamp)
      && multiset(r) <= multiset(Filter(logs, IsReview))
      && (limit == None || limit == Some(0) ==> |r| == Min(50, |Filter(logs, IsReview)|))
      && (limit.Some? && limit.value > 0 ==> |r| == Min(limit.value, |Filter(logs, IsReview)|))
      && (forall x :: x in multiset(Filter(logs, IsReview)) - multiset(r) ==>
            forall i :: 0 <= i < |r| ==> x.timestamp <= r[i].timestamp)
  {
    var merged := Filter(logs, HasAction(PaymentApproved)) + Filter(logs, HasAction(PaymentRejected));
    var reviews := Filter(logs, IsReview);
    var r := ReviewHistory(logs, limit);
    ReviewsMerged(logs);
    SortDescCorrect(merged, Timestamp);
    SortedPrefix(merged, Timestamp, r);
    assert |merged| == |reviews| by {
      assert |multiset(merged)| == |multiset(reviews)|;
    }
    FilterSubMembers(logs, IsReview, r);
  }

  /** Approvals and rejections together are the reviews. */
  lemma ReviewsMerged(logs: seq<AuditLog>)
    ensures multiset(Filter(logs, HasAction(PaymentApproved)) + Filter(logs, HasAction(PaymentRejected)))
            == multiset(Filter(logs, IsReview))
  {
    FilterDisjointUnion(logs, HasAction(PaymentApproved), HasAction(PaymentRejected));
    FilterCongruent(logs, Or(HasAction(PaymentApproved), HasAction(PaymentRejected)), IsReview);
  }

  method GetVerificationHistory(db: Db, limit: Option<int>) returns (r: seq<AuditLog>)
    ensures r == ReviewHistory(db.logs, limit)
  {
    var n := LimitOr(limit, 50);
    var approved := Filter(db.logs, HasAction(PaymentApproved));
    var rejected := Filter(db.logs, HasAction(PaymentRejected));
    var allLogs := SortedCopy(approved + rejected, Timestamp);
    r := Take(allLogs, n);
  }
}
