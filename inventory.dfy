/** The stock history: the STOCK_RESTOCKED logs, optionally of one product,
    newest first, cut to a limit. */
module Inventory {
  import opened Common
  import opened Domain

  /** The restock logs `getStockHistory` keeps before sorting. */
  function Restocks(logs: seq<AuditLog>, productId: Option<Id>): seq<AuditLog> {
    var restockLogs := Filter(logs, HasAction(StockRestocked));
    if Truthy(productId) then Filter(restockLogs, HasTarget(productId.value)) else restockLogs
  }

  /** What `getStockHistory` returns. */
  function StockHistory(logs: seq<AuditLog>, productId: Option<Id>, limit: Option<int>): seq<AuditLog> {
    ApplyLimit(SortDesc(Restocks(logs, productId), Timestamp), limit)
  }

  predicate RestockOf(l: AuditLog, productId: Option<Id>) {
    l.action == StockRestocked && (Truthy(productId) ==> l.targetId == productId.value)
  }

  /** The history holds restock logs only, of the product when one is
      named, newest first; no matching log is dropped except by the limit,
      which keeps the newest ones. */
  lemma StockHistorySpec(logs: seq<AuditLog>, productId: Option<Id>, limit: Option<int>)
    ensures var r := StockHistory(logs, productId, limit);
      && SortedDesc(r, Timestamp)
      && (forall l :: l in r ==> l in logs && RestockOf(l, productId))
      && (limit == None || limit == Some(0) ==> forall l :: l in logs && RestockOf(l, productId) ==> l in r)
      && (limit.Some? && limit.value > 0 ==> |r| == Min(limit.value, |Restocks(logs, productId)|))
      && (forall x :: x in multiset(Restocks(logs, productId)) - multiset(r) ==>
            forall i :: 0 <= i < |r| ==> x.timestamp <= r[i].timestamp)
  {
    var kept := Restocks(logs, productId);
    LimitedNewest(kept, kept, Timestamp, limit);
    forall l | l in kept ensures l in logs && RestockOf(l, productId) {
      if Truthy(productId) {
        assert l in Filter(logs, HasAction(StockRestocked));
      }
    }
    forall l | l in logs && RestockOf(l, productId) ensures l in kept {
      var m :| 0 <= m < |logs| && logs[m] == l;
      var restockLogs := Filter(logs, HasAction(StockRestocked));
      assert l in restockLogs;
      var n :| 0 <= n < |restockLogs| && restockLogs[n] == l;
    }
  }

  /** The stock restored when an order is cancelled or returned is logged
      under the order's id, so a product's history never shows it unless an
      order shares the product's id. (An empty product id is falsy and
      returns every restock log, restorations included.) */
  lemma RestorationsHidden(logs: seq<AuditLog>, orderIds: set<Id>, productId: Id, limit: Option<int>)
    requires forall l :: l in logs && l.metadata.StockRestoration? ==> l.targetId in orderIds
    requires productId != "" && productId !in orderIds
    ensures forall l :: l in StockHistory(logs, Some(productId), limit) ==> !l.metadata.StockRestoration?
  {
    StockHistorySpec(logs, Some(productId), limit);
  }

  /** `getStockHistory`: the filtered list is narrowed, sorted in place,
      then cut. */
  method GetStockHistory(db: Db, productId: Option<Id>, limit: Option<int>) returns (r: seq<AuditLog>)
    ensures r == StockHistory(db.logs, productId, limit)
  {
    var filtered := Filter(db.logs, HasAction(StockRestocked));
    if Truthy(productId) {
      filtered := Filter(filtered, HasTarget(productId.value));
    }
    filtered := SortedCopy(filtered, Timestamp);
    if limit.Some? && limit.value != 0 {
      return Take(filtered, limit.value);
    }
    r := filtered;
  }
}
