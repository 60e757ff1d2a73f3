/** Drivers: registration, the fields a driver's record changes by, the COD
    wallet settlement that debits what deliveries credited, and the wallet
    report. */
module Drivers {
  import opened Common
  import opened Domain

  /** `create`: the driver id and the Clerk account must both be new; a new
      driver starts off duty with an empty wallet. */
  method Create(db: Db, driverId: Id, clerkId: Id, name: string, phone: string, now: int) returns (r: Result<()>)
    requires db.Valid()
    modifies db`drivers, db`driverKeys
    ensures db.Valid()
    ensures r.Err? ==> unchanged(db)
    ensures driverId in old(db.drivers) ==> r == Err(DuplicateDriverId(driverId))
    ensures driverId !in old(db.drivers) && (exists k :: k in old(db.drivers) && old(db.drivers)[k].clerkId == clerkId) ==>
      r == Err(DuplicateClerkId(clerkId))
    ensures r.Ok? <==> driverId !in old(db.drivers) && forall k :: k in old(db.drivers) ==> old(db.drivers)[k].clerkId != clerkId
    ensures r.Ok? ==>
      && db.drivers == old(db.drivers)[driverId := Driver(driverId, clerkId, name, phone, false, 0.0, None, None, now)]
      && db.driverKeys == old(db.driverKeys) + [driverId]
  {
    if driverId in db.drivers {
      return Err(DuplicateDriverId(driverId));
    }
    if exists k :: k in db.drivers && db.drivers[k].clerkId == clerkId {
      return Err(DuplicateClerkId(clerkId));
    }
    EnumeratesAppend(db.driverKeys, db.drivers.Keys, driverId);
    db.drivers := db.drivers[driverId := Driver(driverId, clerkId, name, phone, false, 0.0, None, None, now)];
    db.driverKeys := db.driverKeys + [driverId];
    r := Ok(());
  }

  /** `update`: name and phone, nothing else. */
  method Update(db: Db, driverId: Id, name: string, phone: string) returns (r: Result<()>)
    requires db.Valid()
    modifies db`drivers
    ensures db.Valid()
    ensures r.Err? ==> unchanged(db)
    ensures r.Ok? <==> driverId in old(db.drivers)
    ensures r.Err? ==> r == Err(DriverNotFound(driverId))
    ensures r.Ok? ==> db.drivers == old(db.drivers)[driverId := old(db.drivers)[driverId].(name := name, phone := phone)]
  {
    if driverId !in db.drivers {
      return Err(DriverNotFound(driverId));
    }
    db.drivers := db.drivers[driverId := db.drivers[driverId].(name := name, phone := phone)];
    r := Ok(());
  }

  /** `updateDutyStatus`: the on-duty flag, nothing else. */
  method UpdateDutyStatus(db: Db, driverId: Id, isOnDuty: bool) returns (r: Result<()>)
    requires db.Valid()
    modifies db`drivers
    ensures db.Valid()
    ensures r.Err? ==> unchanged(db)
    ensures r.Ok? <==> driverId in old(db.drivers)
    ensures r.Err? ==> r == Err(DriverNotFound(driverId))
    ensures r.Ok? ==> db.drivers == old(db.drivers)[driverId := old(db.drivers)[driverId].(isOnDuty := isOnDuty)]
  {
    if driverId !in db.drivers {
      return Err(DriverNotFound(driverId));
    }
    db.drivers := db.drivers[driverId := db.drivers[driverId].(isOnDuty := isOnDuty)];
    r := Ok(());
  }

  /** `updateLocation`: the position, stamped, and the time of the update. */
  method UpdateLocation(db: Db, driverId: Id, lat: real, lng: real, now: int) returns (r: Result<()>)
    requires db.Valid()
    modifies db`drivers
    ensures db.Valid()
    ensures r.Err? ==> unchanged(db)
    ensures r.Ok? <==> driverId in old(db.drivers)
    ensures r.Err? ==> r == Err(DriverNotFound(driverId))
    ensures r.Ok? ==> db.drivers == old(db.drivers)[driverId :=
      old(db.drivers)[driverId].(currentLocation := Some(Location(lat, lng, now)), lastLocationUpdate := Some(now))]
  {
    if driverId !in db.drivers {
      return Err(DriverNotFound(driverId));
    }
    db.drivers := db.drivers[driverId := db.drivers[driverId].(
      currentLocation := Some(Location(lat, lng, now)), lastLocationUpdate := Some(now))];
    r := Ok(());
  }

  // ---------------------------------------------------------------------
  // settleWallet

  /** `args.amount || driver.codWallet`: an absent or zero amount settles
      the whole balance. */
  function SettledAmount(amount: Option<real>, balance: real): real {
    if amount.Some? && amount.value != 0.0 then amount.value else balance
  }

  /** The balance after settling `amount`, or the refusal when it would go
      below zero. */
  function Settle(balance: real, amount: Option<real>): (r: Result<real>)
    ensures r.Ok? <==> SettledAmount(amount, balance) <= balance
    ensures r.Ok? ==> r.value >= 0.0 && r.value + SettledAmount(amount, balance) == balance
  {
    var newBalance := balance - SettledAmount(amount, balance);
    if newBalance < 0.0 then Err(SettlementExceedsBalance) else Ok(newBalance)
  }

  /** No amount, or 0, empties the wallet; any other amount up to the
      balance takes exactly that much off, and one above it is refused; a
      negative amount (always below a balance that is not in debt) passes
      and raises the balance. */
  lemma SettleSpec(balance: real, amount: Option<real>)
    ensures amount.None? || amount.value == 0.0 ==> Settle(balance, amount) == Ok(0.0)
    ensures amount.Some? && amount.value != 0.0 && amount.value <= balance ==> Settle(balance, amount) == Ok(balance - amount.value)
    ensures amount.Some? && amount.value != 0.0 && amount.value > balance ==> Settle(balance, amount) == Err(SettlementExceedsBalance)
    ensures amount.Some? && amount.value < 0.0 && amount.value <= balance ==>
      Settle(balance, amount).Ok? && Settle(balance, amount).value > balance
  {
  }

  /** `settleWallet`: debits the wallet and logs DRIVER_SETTLED with the
      amount and the balance before, returning the new balance. */
  method SettleWallet(db: Db, driverId: Id, amount: Option<real>, adminId: Id, now: int, logId: string)
    returns (r: Result<real>)
    requires db.Valid()
    modifies db`drivers, db`logs
    ensures db.Valid()
    ensures r.Err? ==> unchanged(db)
    ensures driverId !in old(db.drivers) ==> r == Err(DriverNotFound(driverId))
    ensures driverId in old(db.drivers) ==>
      var driver := old(db.drivers)[driverId];
      && r == Settle(driver.codWallet, amount)
      && (r.Ok? ==>
            && db.drivers == old(db.drivers)[driverId := driver.(codWallet := r.value)]
            && db.logs == old(db.logs) + [AuditLog(logId, DriverSettled, adminId, driverId,
                                                   Settlement(SettledAmount(amount, driver.codWallet), driver.codWallet), now)])
  {
    if driverId !in db.drivers {
      return Err(DriverNotFound(driverId));
    }
    var driver := db.drivers[driverId];
    var settlementAmount := if amount.Some? && amount.value != 0.0 then amount.value else driver.codWallet;
    var newBalance := driver.codWallet - settlementAmount;
    if newBalance < 0.0 {
      return Err(SettlementExceedsBalance);
    }
    db.drivers := db.drivers[driverId := driver.(codWallet := newBalance)];
    db.logs := db.logs + [AuditLog(logId, DriverSettled, adminId, driverId,
                                   Settlement(settlementAmount, driver.codWallet), now)];
    r := Ok(newBalance);
  }

  // ---------------------------------------------------------------------
  // getWallets

  datatype Wallet = Wallet(driverId: Id, name: string, codWallet: real, lastSettlement: Option<int>)

  /** The newest timestamp among the driver's settlement logs. */
  function LastSettlement(settlementLogs: seq<AuditLog>, driverId: Id): Option<int> {
    var mine := SortDesc(Filter(settlementLogs, HasTarget(driverId)), Timestamp);
    if |mine| > 0 then Some(mine[0].timestamp) else None
  }

  function SettledBy(driverId: Id): AuditLog -> bool {
    (l: AuditLog) => l.action == DriverSettled && l.targetId == driverId
  }

  lemma SettlementsOf(logs: seq<AuditLog>, driverId: Id)
    ensures forall l :: l in Filter(Filter(logs, HasAction(DriverSettled)), HasTarget(driverId)) <==>
      l in logs && SettledBy(driverId)(l)
  {
    var settlementLogs := Filter(logs, HasAction(DriverSettled));
    forall l | l in logs && SettledBy(driverId)(l)
      ensures l in Filter(settlementLogs, HasTarget(driverId))
    {
      var m :| 0 <= m < |logs| && logs[m] == l;
      var n :| 0 <= n < |settlementLogs| && settlementLogs[n] == l;
    }
    forall l | l in Filter(settlementLogs, HasTarget(driverId)) ensures l in logs {
      var n :| 0 <= n < |Filter(settlementLogs, HasTarget(driverId))| && Filter(settlementLogs, HasTarget(driverId))[n] == l;
    }
  }

  /** `lastSettlement` is null exactly when the driver was never settled,
      and otherwise the latest time one of its settlements was logged. */
  lemma LastSettlementSpec(logs: seq<AuditLog>, driverId: Id)
    ensures var last := LastSettlement(Filter(logs, HasAction(DriverSettled)), driverId);
      && (last.None? <==> forall l :: l in logs ==> !SettledBy(driverId)(l))
      && (last.Some? ==>
            && (exists l :: l in logs && SettledBy(driverId)(l) && l.timestamp == last.value)
            && (forall l :: l in logs && SettledBy(driverId)(l) ==> l.timestamp <= last.value))
  {
    var filtered := Filter(Filter(logs, HasAction(DriverSettled)), HasTarget(driverId));
    SettlementsOf(logs, driverId);
    SortDescMembers(filtered, Timestamp);
    if |filtered| > 0 {
      SortDescHead(filtered, Timestamp);
    } else {
      SortDescCorrect(filtered, Timestamp);
    }
  }

  /** `getWallets`: one row per driver, in creation order. */
  function Wallets(drivers: seq<Driver>, logs: seq<AuditLog>): (r: seq<Wallet>)
    ensures |r| == |drivers|
    ensures forall i :: 0 <= i < |drivers| ==>
      r[i] == Wallet(drivers[i].driverId, drivers[i].name, drivers[i].codWallet,
                     LastSettlement(Filter(logs, HasAction(DriverSettled)), drivers[i].driverId))
  {
    var settlementLogs := Filter(logs, HasAction(DriverSettled));
    seq(|drivers|, i requires 0 <= i < |drivers| =>
      Wallet(drivers[i].driverId, drivers[i].name, drivers[i].codWallet, LastSettlement(settlementLogs, drivers[i].driverId)))
  }
}
