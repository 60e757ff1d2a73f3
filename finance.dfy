/** The settlement history: the DRIVER_SETTLED logs, optionally of one
    driver, newest first, cut to a limit. */
module Finance {
  import opened Common
  import opened Domain

  /** The settlement logs `getSettlementHistory` keeps before sorting. */
  function Settlements(logs: seq<AuditLog>, driverId: Option<Id>): seq<AuditLog> {
    var settlementLogs := Filter(logs, HasAction(DriverSettled));
    if Truthy(driverId) then Filter(settlementLogs, HasTarget(driverId.value)) else settlementLogs
  }

  /** What `getSettlementHistory` returns. */
  function SettlementHistory(logs: seq<AuditLog>, driverId: Option<Id>, limit: Option<int>): seq<AuditLog> {
    ApplyLimit(SortDesc(Settlements(logs, driverId), Timestamp), limit)
  }

  predicate SettlementOf(l: AuditLog, driverId: Option<Id>) {
    l.action == DriverSettled && (Truthy(driverId) ==> l.targetId == driverId.value)
  }

  /** The history holds settlements only, of the driver when one is named,
      newest first; no matching log is dropped except by the limit, which
      keeps the newest ones. */
  lemma SettlementHistorySpec(logs: seq<AuditLog>, driverId: Option<Id>, limit: Option<int>)
    ensures var r := SettlementHistory(logs, driverId, limit);
      && SortedDesc(r, Timestamp)
      && (forall l :: l in r ==> l in logs && SettlementOf(l, driverId))
      && (limit == None || limit == Some(0) ==> forall l :: l in logs && SettlementOf(l, driverId) ==> l in r)
      && (limit.Some? && limit.value > 0 ==> |r| == Min(limit.value, |Settlements(logs, driverId)|))
      && (forall x :: x in multiset(Settlements(logs, driverId)) - multiset(r) ==>
            forall i :: 0 <= i < |r| ==> x.timestamp <= r[i].timestamp)
  {
    var kept := Settlements(logs, driverId);
    LimitedNewest(kept, kept, Timestamp, limit);
    forall l | l in kept ensures l in logs && SettlementOf(l, driverId) {
      if Truthy(driverId) {
        assert l in Filter(logs, HasAction(DriverSettled));
      }
    }
    forall l | l in logs && SettlementOf(l, driverId) ensures l in kept {
      var m :| 0 <= m < |logs| && logs[m] == l;
      var settlementLogs := Filter(logs, HasAction(DriverSettled));
      assert l in settlementLogs;
      var n :| 0 <= n < |settlementLogs| && settlementLogs[n] == l;
    }
  }

  /** `getSettlementHistory`: the filtered list is narrowed, sorted in
      place, then cut. */
  method GetSettlementHistory(db: Db, driverId: Option<Id>, limit: Option<int>) returns (r: seq<AuditLog>)
    ensures r == SettlementHistory(db.logs, driverId, limit)
  {
    var filtered := Filter(db.logs, HasAction(DriverSettled));
    if Truthy(driverId) {
      filtered := Filter(filtered, HasTarget(driverId.value));
    }
    filtered := SortedCopy(filtered, Timestamp);
    if limit.Some? && limit.value != 0 {
      return Take(filtered, limit.value);
    }
    r := filtered;
  }
}
