/** The audit-log queries: one index chosen by the first filter supplied,
    then newest first, then the limit. */
module AuditLogs {
  import opened Common
  import opened Domain

  function OldestFirst(l: AuditLog): int {
    -l.timestamp
  }

  /** The `by_timestamp` index: oldest first, ties in insertion order. */
  function ByTimestamp(logs: seq<AuditLog>): (r: seq<AuditLog>)
    ensures SortedDesc(r, OldestFirst)
    ensures multiset(r) == multiset(logs)
  {
    SortDescCorrect(logs, OldestFirst);
    SortDesc(logs, OldestFirst)
  }

  /** The logs `getAll` reads: only the first truthy filter among adminId,
      targetId and action is applied. */
  function Selected(logs: seq<AuditLog>, adminId: Option<Id>, targetId: Option<Id>, action: Option<Action>): seq<AuditLog> {
    if Truthy(adminId) then Filter(logs, HasAdmin(adminId.value))
    else if Truthy(targetId) then Filter(logs, HasTarget(targetId.value))
    else if action.Some? then Filter(logs, HasAction(action.value))
    else ByTimestamp(logs)
  }

  /** What `getAll` returns. */
  function Listing(logs: seq<AuditLog>, adminId: Option<Id>, targetId: Option<Id>, action: Option<Action>, limit: Option<int>): seq<AuditLog> {
    ApplyLimit(SortDesc(Selected(logs, adminId, targetId, action), Timestamp), limit)
  }

  /** A log passes the filter that takes precedence. */
  predicate Passes(l: AuditLog, adminId: Option<Id>, targetId: Option<Id>, action: Option<Action>) {
    if Truthy(adminId) then l.adminId == adminId.value
    else if Truthy(targetId) then l.targetId == targetId.value
    else if action.Some? then l.action == action.value
    else true
  }

  function Passing(adminId: Option<Id>, targetId: Option<Id>, action: Option<Action>): AuditLog -> bool {
    (l: AuditLog) => Passes(l, adminId, targetId, action)
  }

  /** The index read holds exactly the passing logs. */
  lemma SelectedPasses(logs: seq<AuditLog>, adminId: Option<Id>, targetId: Option<Id>, action: Option<Action>)
    ensures multiset(Selected(logs, adminId, targetId, action)) == multiset(Filter(logs, Passing(adminId, targetId, action)))
  {
    var pass := Passing(adminId, targetId, action);
    if Truthy(adminId) {
      FilterCongruent(logs, HasAdmin(adminId.value), pass);
    } else if Truthy(targetId) {
      FilterCongruent(logs, HasTarget(targetId.value), pass);
    } else if action.Some? {
      FilterCongruent(logs, HasAction(action.value), pass);
    } else {
      FilterKeepsAll(logs, pass);
    }
  }

  /** The listing holds logs passing the filter that takes precedence,
      newest first, none older than a passing log it leaves out; with no
      limit (or 0) it holds every passing log, and a positive limit keeps
      that many of them. */
  lemma ListingSpec(logs: seq<AuditLog>, adminId: Option<Id>, targetId: Option<Id>, action: Option<Action>, limit: Option<int>)
    ensures var r := Listing(logs, adminId, targetId, action, limit);
      && SortedDesc(r, Timestamp)
      && (forall l :: l in r ==> l in logs && Passes(l, adminId, targetId, action))
      && (limit == None || limit == Some(0) ==> forall l :: l in logs && Passes(l, adminId, targetId, action) ==> l in r)
      && (limit.Some? && limit.value > 0 ==> |r| == Min(limit.value, |Filter(logs, Passing(adminId, targetId, action))|))
      && (forall x :: x in multiset(Filter(logs, Passing(adminId, targetId, action))) - multiset(r) ==>
            forall i :: 0 <= i < |r| ==> x.timestamp <= r[i].timestamp)
  {
    var passing := Filter(logs, Passing(adminId, targetId, action));
    SelectedPasses(logs, adminId, targetId, action);
    LimitedNewest(Selected(logs, adminId, targetId, action), passing, Timestamp, limit);
    forall l | l in logs && Passes(l, adminId, targetId, action) ensures l in passing {
      var m :| 0 <= m < |logs| && logs[m] == l;
    }
  }

  /** Only the filter that takes precedence matters: the others are
      ignored. */
  lemma Precedence(logs: seq<AuditLog>, adminId: Option<Id>, targetId: Option<Id>, action: Option<Action>, limit: Option<int>)
    ensures Truthy(adminId) ==> Listing(logs, adminId, targetId, action, limit) == Listing(logs, adminId, None, None, limit)
    ensures !Truthy(adminId) && Truthy(targetId) ==> Listing(logs, adminId, targetId, action, limit) == Listing(logs, None, targetId, None, limit)
    ensures !Truthy(adminId) && !Truthy(targetId) ==> Listing(logs, adminId, targetId, action, limit) == Listing(logs, None, None, action, limit)
  {
  }

  /** `getAll`: the index read by branch, sorted in place, then cut. */
  method GetAll(db: Db, adminId: Option<Id>, targetId: Option<Id>, action: Option<Action>, limit: Option<int>)
    returns (r: seq<AuditLog>)
    ensures r == Listing(db.logs, adminId, targetId, action, limit)
  {
    var logs: seq<AuditLog>;
    if Truthy(adminId) {
      logs := Filter(db.logs, HasAdmin(adminId.value));
    } else if Truthy(targetId) {
      logs := Filter(db.logs, HasTarget(targetId.value));
    } else if action.Some? {
      logs := Filter(db.logs, HasAction(action.value));
    } else {
      logs := SortedCopy(db.logs, OldestFirst);
    }
    var filtered := SortedCopy(logs, Timestamp);
    if limit.Some? && limit.value != 0 {
      return Take(filtered, limit.value);
    }
    r := filtered;
  }

  /** What `getRecent` returns: the `limit || 10` newest logs. */
  function Recent(logs: seq<AuditLog>, limit: Option<int>): seq<AuditLog> {
    Take(SortDesc(ByTimestamp(logs), Timestamp), LimitOr(limit, 10))
  }

  /** The recent logs are newest first and none is older than a log left
      out; without a limit there are ten, or all of them when fewer. */
  lemma RecentSpec(logs: seq<AuditLog>, limit: Option<int>)
    ensures var r := Recent(logs, limit);
      && SortedDesc(r, Timestamp)
      && multiset(r) <= multiset(logs)
      && (limit.Some? && limit.value > 0 ==> |r| == Min(limit.value, |logs|))
      && (limit == None || limit == Some(0) ==> |r| == Min(10, |logs|))
      && (forall x :: x in multiset(logs) - multiset(r) ==> forall i :: 0 <= i < |r| ==> x.timestamp <= r[i].timestamp)
  {
    var sel := ByTimestamp(logs);
    SortedPrefix(sel, Timestamp, Recent(logs, limit));
    SortDescCorrect(sel, Timestamp);
  }

  /** `getRecent`. */
  method GetRecent(db: Db, limit: Option<int>) returns (r: seq<AuditLog>)
    ensures r == Recent(db.logs, limit)
  {
    var n := if limit.Some? && limit.value != 0 then limit.value else 10;
    var logs := SortedCopy(db.logs, OldestFirst);
    logs := SortedCopy(logs, Timestamp);
    r := Take(logs, n);
  }
}
