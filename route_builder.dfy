/** The route builder's local ordering of stops: start at the first stop
    and repeatedly go to the nearest unvisited one. The distance between
    two orders' addresses is a parameter. */
module RouteBuilder {
  import opened Common
  import opened Domain

  type Distance = (Order, Order) -> real

  /** `new Map(orders.map(o => [o.orderId, o]))`: the last order with an id
      wins. */
  function OrderMap(orders: seq<Order>): (m: map<Id, Order>)
    ensures forall id :: id in m <==> exists k :: 0 <= k < |orders| && orders[k].orderId == id
    ensures forall id :: id in m ==> m[id] in orders && m[id].orderId == id
    decreases |orders|
  {
    if |orders| == 0 then map[]
    else
      var o := orders[|orders| - 1];
      var m := OrderMap(orders[..|orders| - 1])[o.orderId := o];
      assert forall id :: id in m ==> m[id] in orders by {
        forall id | id in m ensures m[id] in orders {
          if id != o.orderId {
            assert m[id] in orders[..|orders| - 1];
          }
        }
      }
      m
  }

  /** `new Set(s)` in its iteration order: each id at its first
      occurrence. */
  function Dedup(s: seq<Id>): (r: seq<Id>)
    ensures Distinct(r)
    ensures forall x :: x in r <==> x in s
    decreases |s|
  {
    if |s| == 0 then []
    else
      var d := Dedup(s[..|s| - 1]);
      var x := s[|s| - 1];
      if x in d then d else d + [x]
  }

  lemma {:induction false} DedupDistinct(s: seq<Id>)
    requires Distinct(s)
    ensures Dedup(s) == s
    decreases |s|
  {
    if |s| > 0 {
      var init := s[..|s| - 1];
      assert Distinct(init) by {
        forall i, j | 0 <= i < j < |init| ensures init[i] != init[j] {
          assert init[i] == s[i] && init[j] == s[j];
        }
      }
      DedupDistinct(init);
      assert s[|s| - 1] !in init by {
        forall i | 0 <= i < |init| ensures init[i] != s[|s| - 1] {
          assert init[i] == s[i];
        }
      }
      assert init + [s[|s| - 1]] == s;
    }
  }

  /** `remaining.delete(x)` shrinks a set holding `x`. */
  lemma {:induction false} RemoveShrinks(s: seq<Id>, x: Id)
    requires x in s
    ensures |Filter(s, Other(x))| < |s|
    decreases |s|
  {
    var init := s[..|s| - 1];
    if s[|s| - 1] != x {
      assert x in init by {
        var k :| 0 <= k < |s| && s[k] == x;
        assert init[k] == x;
      }
      RemoveShrinks(init, x);
    }
  }

  function DistanceFrom(current: Order, orderMap: map<Id, Order>, distance: Distance, id: Id): real
    requires id in orderMap
  {
    distance(current, orderMap[id])
  }

  /** The inner `for` loop: among `ids` that have an order, the first one
      at the least distance from `current` (the comparison is a strict
      `<`). */
  function Nearest(ids: seq<Id>, orderMap: map<Id, Order>, current: Order, distance: Distance): (r: Option<Id>)
    ensures r.Some? ==> r.value in orderMap && r.value in ids
    decreases |ids|
  {
    if |ids| == 0 then None
    else
      var prev := Nearest(ids[..|ids| - 1], orderMap, current, distance);
      var x := ids[|ids| - 1];
      if x in orderMap && (prev.None? || DistanceFrom(current, orderMap, distance, x) < DistanceFrom(current, orderMap, distance, prev.value))
      then Some(x)
      else prev
  }

  /** Every id before position `k` that has an order is strictly farther
      from `current` than the id at `k`. */
  predicate EarlierFarther(ids: seq<Id>, k: nat, orderMap: map<Id, Order>, current: Order, distance: Distance)
    requires k < |ids| && ids[k] in orderMap
  {
    forall i :: 0 <= i < k && ids[i] in orderMap ==>
      DistanceFrom(current, orderMap, distance, ids[k]) < DistanceFrom(current, orderMap, distance, ids[i])
  }

  /** There is a nearest id exactly when some id has an order; none with
      an order is nearer, and every one before it is strictly farther, so
      ties go to the earliest. */
  lemma NearestSpec(ids: seq<Id>, orderMap: map<Id, Order>, current: Order, distance: Distance)
    ensures var r := Nearest(ids, orderMap, current, distance);
      && (r.None? <==> forall i :: 0 <= i < |ids| ==> ids[i] !in orderMap)
      && (r.Some? ==> forall x :: x in ids && x in orderMap ==>
            DistanceFrom(current, orderMap, distance, r.value) <= DistanceFrom(current, orderMap, distance, x))
      && (r.Some? ==> exists k :: 0 <= k < |ids| && ids[k] == r.value && EarlierFarther(ids, k, orderMap, current, distance))
  {
    NearestNone(ids, orderMap, current, distance);
    NearestLeast(ids, orderMap, current, distance);
    NearestEarliest(ids, orderMap, current, distance);
  }

  lemma {:induction false} NearestNone(ids: seq<Id>, orderMap: map<Id, Order>, current: Order, distance: Distance)
    ensures Nearest(ids, orderMap, current, distance).None? <==> forall i :: 0 <= i < |ids| ==> ids[i] !in orderMap
    decreases |ids|
  {
    if |ids| > 0 {
      var init := ids[..|ids| - 1];
      NearestNone(init, orderMap, current, distance);
      if Nearest(ids, orderMap, current, distance).None? {
        forall i | 0 <= i < |ids| ensures ids[i] !in orderMap {
          if i < |init| {
            assert init[i] == ids[i];
          }
        }
      } else {
        var r := Nearest(ids, orderMap, current, distance);
        var k :| 0 <= k < |ids| && ids[k] == r.value;
      }
    }
  }

  lemma {:induction false} NearestLeast(ids: seq<Id>, orderMap: map<Id, Order>, current: Order, distance: Distance)
    ensures var r := Nearest(ids, orderMap, current, distance);
      r.Some? ==> forall x :: x in ids && x in orderMap ==>
        DistanceFrom(current, orderMap, distance, r.value) <= DistanceFrom(current, orderMap, distance, x)
    decreases |ids|
  {
    if |ids| > 0 {
      var init := ids[..|ids| - 1];
      NearestLeast(init, orderMap, current, distance);
      NearestNone(init, orderMap, current, distance);
      var r := Nearest(ids, orderMap, current, distance);
      forall x | x in ids && x in orderMap
        ensures DistanceFrom(current, orderMap, distance, r.value) <= DistanceFrom(current, orderMap, distance, x)
      {
        var m :| 0 <= m < |ids| && ids[m] == x;
        if m < |init| {
          assert init[m] == x;
        }
      }
    }
  }

  lemma {:induction false} NearestEarliest(ids: seq<Id>, orderMap: map<Id, Order>, current: Order, distance: Distance)
    ensures var r := Nearest(ids, orderMap, current, distance);
      r.Some? ==> exists k :: 0 <= k < |ids| && ids[k] == r.value && EarlierFarther(ids, k, orderMap, current, distance)
    decreases |ids|
  {
    if |ids| > 0 {
      var init := ids[..|ids| - 1];
      NearestEarliest(init, orderMap, current, distance);
      var prev := Nearest(init, orderMap, current, distance);
      var r := Nearest(ids, orderMap, current, distance);
      var x := ids[|ids| - 1];
      if x in orderMap && (prev.None? || DistanceFrom(current, orderMap, distance, x) < DistanceFrom(current, orderMap, distance, prev.value)) {
        NearestLeast(init, orderMap, current, distance);
        NearestNone(init, orderMap, current, distance);
        forall i | 0 <= i < |ids| - 1 && ids[i] in orderMap
          ensures DistanceFrom(current, orderMap, distance, x) < DistanceFrom(current, orderMap, distance, ids[i])
        {
          assert init[i] == ids[i];
        }
        assert EarlierFarther(ids, |ids| - 1, orderMap, current, distance);
      } else if r.Some? {
        var k :| 0 <= k < |init| && init[k] == r.value && EarlierFarther(init, k, orderMap, current, distance);
        assert forall i :: 0 <= i < k ==> ids[i] == init[i];
        assert EarlierFarther(ids, k, orderMap, current, distance);
      }
    }
  }

  /** The `while` loop from `current` over the unvisited `remaining` ids:
      the ids it appends, in order. It stops when the current id has no
      order, when no remaining id has one, or when the nearest id is the
      falsy empty string. */
  function Tour(orderMap: map<Id, Order>, remaining: seq<Id>, current: Id, distance: Distance): (t: seq<Id>)
    decreases |remaining|
  {
    if |remaining| == 0 || current !in orderMap then []
    else
      var next := Nearest(remaining, orderMap, orderMap[current], distance);
      if !Truthy(next) then []
      else
        RemoveShrinks(remaining, next.value);
        [next.value] + Tour(orderMap, Filter(remaining, Other(next.value)), next.value, distance)
  }

  /** What `optimizeRouteLocally` resolves to. With orders present the
      first id of the sequence leads; the caller never passes an empty
      sequence with orders. */
  function Optimize(orders: seq<Order>, currentSequence: seq<Id>, distance: Distance): seq<Id>
    requires |currentSequence| > 0 || |orders| == 0
  {
    if |orders| == 0 then currentSequence
    else
      var first := currentSequence[0];
      [first] + Tour(OrderMap(orders), Filter(Dedup(currentSequence), Other(first)), first, distance)
  }

  function Prev(current: Id, t: seq<Id>, k: nat): Id
    requires k <= |t|
  {
    if k == 0 then current else t[k - 1]
  }

  /** Step `k` of the tour `t` from `current` over `remaining`: the id
      appended is unvisited and has an order, and no unvisited id with an
      order is nearer to the stop before it. */
  predicate GreedyAt(orderMap: map<Id, Order>, remaining: seq<Id>, current: Id, t: seq<Id>, k: nat, distance: Distance)
    requires k < |t|
  {
    && Prev(current, t, k) in orderMap && t[k] in orderMap && t[k] in remaining && t[k] !in t[..k]
    && forall x :: x in remaining && x !in t[..k] && x in orderMap ==>
         DistanceFrom(orderMap[Prev(current, t, k)], orderMap, distance, t[k])
           <= DistanceFrom(orderMap[Prev(current, t, k)], orderMap, distance, x)
  }

  /** Every step of the tour is greedy. */
  lemma {:induction false} TourGreedy(orderMap: map<Id, Order>, remaining: seq<Id>, current: Id, distance: Distance)
    ensures forall k :: 0 <= k < |Tour(orderMap, remaining, current, distance)| ==>
      GreedyAt(orderMap, remaining, current, Tour(orderMap, remaining, current, distance), k, distance)
    decreases |remaining|
  {
    if |remaining| > 0 && current in orderMap {
      var next := Nearest(remaining, orderMap, orderMap[current], distance);
      if Truthy(next) {
        var n := next.value;
        var rest := Filter(remaining, Other(n));
        RemoveShrinks(remaining, n);
        TourGreedy(orderMap, rest, n, distance);
        NearestSpec(remaining, orderMap, orderMap[current], distance);
        assert n in orderMap && n in remaining;
        assert forall x :: x in remaining && x in orderMap ==>
          DistanceFrom(orderMap[current], orderMap, distance, n) <= DistanceFrom(orderMap[current], orderMap, distance, x);
        assert forall k :: 0 <= k < |Tour(orderMap, rest, n, distance)| ==> GreedyAt(orderMap, rest, n, Tour(orderMap, rest, n, distance), k, distance);
        GreedyShift(orderMap, remaining, current, n, Tour(orderMap, rest, n, distance), distance);
      }
    }
  }

  /** The first step is greedy by the choice of the nearest id, and the
      later ones are the steps of the tour that follows it. */
  lemma GreedyShift(orderMap: map<Id, Order>, remaining: seq<Id>, current: Id, n: Id, t': seq<Id>, distance: Distance)
    requires current in orderMap && n in orderMap && n in remaining
    requires forall x :: x in remaining && x in orderMap ==>
      DistanceFrom(orderMap[current], orderMap, distance, n) <= DistanceFrom(orderMap[current], orderMap, distance, x)
    requires forall k :: 0 <= k < |t'| ==> GreedyAt(orderMap, Filter(remaining, Other(n)), n, t', k, distance)
    ensures forall k :: 0 <= k < |t'| + 1 ==> GreedyAt(orderMap, remaining, current, [n] + t', k, distance)
  {
    forall k | 0 <= k < |t'| + 1 ensures GreedyAt(orderMap, remaining, current, [n] + t', k, distance) {
      if k > 0 {
        GreedyStep(orderMap, remaining, current, n, t', k - 1, distance);
      }
    }
  }

  /** Step `k` of the tour from the first appended id `n` over the ids
      without `n` is step `k + 1` of the tour from `current`. */
  lemma GreedyStep(orderMap: map<Id, Order>, remaining: seq<Id>, current: Id, n: Id, t': seq<Id>, k: nat, distance: Distance)
    requires k < |t'|
    requires GreedyAt(orderMap, Filter(remaining, Other(n)), n, t', k, distance)
    ensures GreedyAt(orderMap, remaining, current, [n] + t', k + 1, distance)
  {
    var rest := Filter(remaining, Other(n));
    var t := [n] + t';
    assert Prev(current, t, k + 1) == Prev(n, t', k);
    assert t[k + 1] == t'[k];
    assert t[..k + 1] == [n] + t'[..k];
    var m :| 0 <= m < |rest| && rest[m] == t'[k];
    forall x | x in remaining && x !in t[..k + 1] && x in orderMap ensures x in rest {
      var j :| 0 <= j < |remaining| && remaining[j] == x;
    }
  }

  /** Every id the tour appends is an unvisited one, and none twice. */
  lemma TourDistinct(orderMap: map<Id, Order>, remaining: seq<Id>, current: Id, distance: Distance)
    ensures var t := Tour(orderMap, remaining, current, distance);
      Distinct(t) && forall x :: x in t ==> x in remaining
  {
    TourGreedy(orderMap, remaining, current, distance);
    GreedyVisitsOnce(orderMap, remaining, current, Tour(orderMap, remaining, current, distance), distance);
  }

  lemma GreedyVisitsOnce(orderMap: map<Id, Order>, remaining: seq<Id>, current: Id, t: seq<Id>, distance: Distance)
    requires forall k :: 0 <= k < |t| ==> GreedyAt(orderMap, remaining, current, t, k, distance)
    ensures Distinct(t) && forall x :: x in t ==> x in remaining
  {
    forall i, j | 0 <= i < j < |t| ensures t[i] != t[j] {
      assert GreedyAt(orderMap, remaining, current, t, j, distance);
      assert t[i] == t[..j][i];
    }
    forall x | x in t ensures x in remaining {
      var k :| 0 <= k < |t| && t[k] == x;
      assert GreedyAt(orderMap, remaining, current, t, k, distance);
    }
  }

  /** When the current id and every remaining id have orders and no id is
      empty, the tour visits every remaining id: it never stops early. */
  lemma {:induction false} TourCovers(orderMap: map<Id, Order>, remaining: seq<Id>, current: Id, distance: Distance)
    requires Distinct(remaining) && current in orderMap
    requires forall i :: 0 <= i < |remaining| ==> remaining[i] in orderMap && remaining[i] != ""
    ensures multiset(Tour(orderMap, remaining, current, distance)) == multiset(remaining)
    decreases |remaining|
  {
    if |remaining| > 0 {
      var next := Nearest(remaining, orderMap, orderMap[current], distance);
      assert remaining[0] in orderMap;
      var n := next.value;
      var rest := Filter(remaining, Other(n));
      RemoveShrinks(remaining, n);
      FilterDistinct(remaining, Other(n));
      TourCovers(orderMap, rest, n, distance);
      RemoveOne(remaining, n);
    }
  }

  /** Deleting an element of a duplicate-free sequence takes exactly that
      element out of its multiset. */
  lemma {:induction false} RemoveOne(s: seq<Id>, x: Id)
    requires Distinct(s) && x in s
    ensures multiset(Filter(s, Other(x))) + multiset{x} == multiset(s)
    decreases |s|
  {
    var init := s[..|s| - 1];
    var y := s[|s| - 1];
    assert s == init + [y];
    assert Distinct(init) by {
      forall i, j | 0 <= i < j < |init| ensures init[i] != init[j] {
        assert init[i] == s[i] && init[j] == s[j];
      }
    }
    if y == x {
      assert x !in init by {
        forall i | 0 <= i < |init| ensures init[i] != x {
          assert init[i] == s[i];
        }
      }
      FilterKeepsAll(init, Other(x));
    } else {
      assert x in init by {
        var k :| 0 <= k < |s| && s[k] == x;
        assert init[k] == x;
      }
      RemoveOne(init, x);
    }
  }

  /** With orders present the result starts with the first id of the
      sequence, repeats no id and holds only ids of the sequence. */
  lemma OptimizeVisitsOnce(orders: seq<Order>, currentSequence: seq<Id>, distance: Distance)
    requires |orders| > 0 && |currentSequence| > 0
    ensures var r := Optimize(orders, currentSequence, distance);
      && |r| > 0 && r[0] == currentSequence[0]
      && Distinct(r) && forall x :: x in r ==> x in currentSequence
  {
    var first := currentSequence[0];
    var remaining := Filter(Dedup(currentSequence), Other(first));
    TourDistinct(OrderMap(orders), remaining, first, distance);
    LedTourVisitsOnce(first, remaining, Tour(OrderMap(orders), remaining, first, distance), currentSequence);
  }

  /** The first id followed by a duplicate-free tour of the other
      distinct ids of a sequence repeats nothing and draws on the
      sequence. */
  lemma LedTourVisitsOnce(first: Id, remaining: seq<Id>, t: seq<Id>, s: seq<Id>)
    requires first in s && remaining == Filter(Dedup(s), Other(first))
    requires Distinct(t) && forall x :: x in t ==> x in remaining
    ensures Distinct([first] + t) && forall x :: x in [first] + t ==> x in s
  {
    FirstNotRemaining(first, Dedup(s));
    ConsDistinct(first, t);
    DrawsOn(first, remaining, t, s);
  }

  lemma FirstNotRemaining(first: Id, d: seq<Id>)
    ensures first !in Filter(d, Other(first))
  {
    var remaining := Filter(d, Other(first));
    forall i | 0 <= i < |remaining| ensures remaining[i] != first {
      assert Other(first)(remaining[i]);
    }
  }

  lemma DrawsOn(first: Id, remaining: seq<Id>, t: seq<Id>, s: seq<Id>)
    requires first in s && remaining == Filter(Dedup(s), Other(first))
    requires forall x :: x in t ==> x in remaining
    ensures forall x :: x in [first] + t ==> x in s
  {
    RemainingIn(first, s);
  }

  lemma RemainingIn(first: Id, s: seq<Id>)
    ensures forall x :: x in Filter(Dedup(s), Other(first)) ==> x in s
  {
    var d := Dedup(s);
    var remaining := Filter(d, Other(first));
    forall k | 0 <= k < |remaining| ensures remaining[k] in s {
      assert remaining[k] in d;
    }
  }

  lemma ConsDistinct(x: Id, t: seq<Id>)
    requires Distinct(t) && x !in t
    ensures Distinct([x] + t)
  {
    var r := [x] + t;
    forall i, j | 0 <= i < j < |r| ensures r[i] != r[j] {
      assert r[j] == t[j - 1];
      if i > 0 {
        assert r[i] == t[i - 1];
      }
    }
  }

  /** When the sequence repeats no id and every id is non-empty and has an
      order, the result is a reordering of the sequence. */
  lemma OptimizeCovers(orders: seq<Order>, currentSequence: seq<Id>, distance: Distance)
    requires |orders| > 0 && |currentSequence| > 0 && Distinct(currentSequence)
    requires forall i :: 0 <= i < |currentSequence| ==>
      currentSequence[i] != "" && exists k :: 0 <= k < |orders| && orders[k].orderId == currentSequence[i]
    ensures multiset(Optimize(orders, currentSequence, distance)) == multiset(currentSequence)
  {
    DedupDistinct(currentSequence);
    var orderMap := OrderMap(orders);
    forall i | 0 <= i < |currentSequence| ensures currentSequence[i] in orderMap && currentSequence[i] != "" {
    }
    LedTourCovers(orderMap, currentSequence, distance);
  }

  /** The first id followed by the tour of the others covers a sequence
      whose ids are distinct, non-empty and have orders. */
  lemma LedTourCovers(orderMap: map<Id, Order>, s: seq<Id>, distance: Distance)
    requires |s| > 0 && Distinct(s)
    requires forall i :: 0 <= i < |s| ==> s[i] in orderMap && s[i] != ""
    ensures multiset([s[0]] + Tour(orderMap, Filter(s, Other(s[0])), s[0], distance)) == multiset(s)
  {
    var first := s[0];
    var remaining := Filter(s, Other(first));
    FilterDistinct(s, Other(first));
    forall i | 0 <= i < |remaining| ensures remaining[i] in orderMap && remaining[i] != "" {
      var j :| 0 <= j < |s| && s[j] == remaining[i];
    }
    TourCovers(orderMap, remaining, first, distance);
    RemoveOne(s, first);
    var t := Tour(orderMap, remaining, first, distance);
    assert multiset([first] + t) == multiset{first} + multiset(t);
  }

  /** `optimizeRouteLocally` resolves to: the sequence itself when there
      are no orders; otherwise a duplicate-free sequence of its ids led by
      its first id, holding all of them when every id is distinct,
      non-empty and has an order. */
  lemma OptimizeSpec(orders: seq<Order>, currentSequence: seq<Id>, distance: Distance)
    requires |currentSequence| > 0 || |orders| == 0
    ensures var r := Optimize(orders, currentSequence, distance);
      && (|orders| == 0 ==> r == currentSequence)
      && (|currentSequence| > 0 ==> |r| > 0 && r[0] == currentSequence[0])
      && (|orders| > 0 ==> Distinct(r) && forall x :: x in r ==> x in currentSequence)
      && (Distinct(currentSequence) && (forall i :: 0 <= i < |currentSequence| ==>
            currentSequence[i] != "" && exists k :: 0 <= k < |orders| && orders[k].orderId == currentSequence[i])
          ==> multiset(r) == multiset(currentSequence))
  {
    if |orders| > 0 {
      OptimizeVisitsOnce(orders, currentSequence, distance);
      if Distinct(currentSequence) && (forall i :: 0 <= i < |currentSequence| ==>
            currentSequence[i] != "" && exists k :: 0 <= k < |orders| && orders[k].orderId == currentSequence[i]) {
        OptimizeCovers(orders, currentSequence, distance);
      }
    }
  }

  /** `optimizeRouteLocally`: the first id leads, then the `while` loop
      appends the tour of the other distinct ids. */
  method OptimizeRouteLocally(orders: seq<Order>, currentSequence: seq<Id>, distance: Distance) returns (r: seq<Id>)
    requires |currentSequence| > 0 || |orders| == 0
    ensures r == Optimize(orders, currentSequence, distance)
  {
    if |orders| == 0 {
      return currentSequence;
    }
    var orderMap := OrderMap(orders);
    var remaining := Dedup(currentSequence);
    var currentOrderId := currentSequence[0];
    remaining := Filter(remaining, Other(currentOrderId));
    var tour := VisitNearest(orderMap, remaining, currentOrderId, distance);
    r := [currentOrderId] + tour;
  }

  /** The `while` loop: appends the nearest unvisited id and deletes it
      from the remaining set, until `NextStop` finds none. */
  method VisitNearest(orderMap: map<Id, Order>, remaining: seq<Id>, current: Id, distance: Distance) returns (optimized: seq<Id>)
    ensures optimized == Tour(orderMap, remaining, current, distance)
  {
    optimized := [];
    var left := remaining;
    var currentOrderId := current;
    ghost var whole := Tour(orderMap, remaining, current, distance);
    ghost var todo := whole;
    while |left| > 0
      invariant todo == Tour(orderMap, left, currentOrderId, distance)
      invariant optimized + todo == whole
      decreases |left|
    {
      var next := NextStop(orderMap, left, currentOrderId, distance);
      if next.None? {
        break;
      }
      var n := next.value;
      RemoveShrinks(left, n);
      ghost var rest := Tour(orderMap, Filter(left, Other(n)), n, distance);
      AppendShift(optimized, n, todo, rest, whole);
      optimized := optimized + [n];
      left := Filter(left, Other(n));
      currentOrderId := n;
      todo := rest;
    }
    assert todo == [];
    assert optimized + [] == optimized;
  }

  lemma AppendShift(optimized: seq<Id>, n: Id, todo: seq<Id>, rest: seq<Id>, whole: seq<Id>)
    requires optimized + todo == whole && todo == [n] + rest
    ensures (optimized + [n]) + rest == whole
  {
    assert optimized + ([n] + rest) == (optimized + [n]) + rest;
  }

  /** The body of the `while` loop up to its two `break`s: none when the
      current id has no order or the nearest id is missing or empty,
      otherwise the nearest id, which the tour appends next. */
  method NextStop(orderMap: map<Id, Order>, left: seq<Id>, currentOrderId: Id, distance: Distance) returns (next: Option<Id>)
    requires |left| > 0
    ensures next.None? ==> Tour(orderMap, left, currentOrderId, distance) == []
    ensures next.Some? ==> next.value in left
    ensures next.Some? ==>
      Tour(orderMap, left, currentOrderId, distance) == [next.value] + Tour(orderMap, Filter(left, Other(next.value)), next.value, distance)
  {
    if currentOrderId !in orderMap {
      return None;
    }
    var nearestId := FindNearest(left, orderMap, orderMap[currentOrderId], distance);
    TourStep(orderMap, left, currentOrderId, distance);
    if !Truthy(nearestId) {
      return None;
    }
    next := nearestId;
  }

  /** One turn of the `while` loop, as the tour sees it. */
  lemma TourStep(orderMap: map<Id, Order>, remaining: seq<Id>, current: Id, distance: Distance)
    requires |remaining| > 0 && current in orderMap
    ensures var next := Nearest(remaining, orderMap, orderMap[current], distance);
      && (!Truthy(next) ==> Tour(orderMap, remaining, current, distance) == [])
      && (Truthy(next) ==> next.value in remaining)
      && (Truthy(next) ==>
            Tour(orderMap, remaining, current, distance) == [next.value] + Tour(orderMap, Filter(remaining, Other(next.value)), next.value, distance))
  {
  }

  /** The inner loop, keeping the best distance so far (none at first,
      which stands for `Infinity`). */
  method FindNearest(remaining: seq<Id>, orderMap: map<Id, Order>, current: Order, distance: Distance) returns (nearestId: Option<Id>)
    ensures nearestId == Nearest(remaining, orderMap, current, distance)
  {
    nearestId := None;
    var nearestDistance: Option<real> := None;
    for i := 0 to |remaining|
      invariant nearestId == Nearest(remaining[..i], orderMap, current, distance)
      invariant nearestId.Some? ==>
        nearestId.value in orderMap && nearestDistance == Some(DistanceFrom(current, orderMap, distance, nearestId.value))
      invariant nearestId.None? ==> nearestDistance.None?
    {
      assert remaining[..i + 1][..i] == remaining[..i];
      var orderId := remaining[i];
      if orderId in orderMap {
        var d := distance(current, orderMap[orderId]);
        if nearestDistance.None? || d < nearestDistance.value {
          nearestDistance := Some(d);
          nearestId := Some(orderId);
        }
      }
    }
    assert remaining[..|remaining|] == remaining;
  }
}
