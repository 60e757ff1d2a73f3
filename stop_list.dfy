/** The stop list of the route builder: dragging a stop to another stop's
    place, and the orders shown in sequence order. */
module StopList {
  import opened Common
  import opened Domain

  /** `s.indexOf(x)`: the first position of `x`, or -1. */
  function IndexOf<T(==)>(s: seq<T>, x: T): (r: int)
    ensures -1 <= r < |s|
    ensures r == -1 <==> x !in s
    ensures r >= 0 ==> s[r] == x && forall k :: 0 <= k < r ==> s[k] != x
    decreases |s|
  {
    if |s| == 0 then -1
    else if s[0] == x then 0
    else
      var i := IndexOf(s[1..], x);
      if i == -1 then -1 else i + 1
  }

  /** `s` without the element at position `i`. */
  function Without<T>(s: seq<T>, i: nat): seq<T>
    requires i < |s|
  {
    s[..i] + s[i + 1..]
  }

  /** The two splices of `handleDragEnd`: take the element at `from` out,
      put it back in at `to`. */
  function Moved<T>(s: seq<T>, from: nat, to: nat): (r: seq<T>)
    requires from < |s| && to < |s|
    ensures |r| == |s| && r[to] == s[from]
    ensures forall k :: 0 <= k < |s| && k != to ==>
      r[k] == if from < to && from <= k < to then s[k + 1]
              else if to < from && to < k <= from then s[k - 1]
              else s[k]
  {
    var t := Without(s, from);
    t[..to] + [s[from]] + t[to..]
  }

  /** The move is a permutation that puts the dragged element at the
      target position and keeps every other element in its relative order;
      a move onto itself changes nothing. */
  lemma MovedSpec<T>(s: seq<T>, from: nat, to: nat)
    requires from < |s| && to < |s|
    ensures multiset(Moved(s, from, to)) == multiset(s)
    ensures Moved(s, from, to)[to] == s[from]
    ensures Without(Moved(s, from, to), to) == Without(s, from)
    ensures from == to ==> Moved(s, from, to) == s
  {
    MovedKeepsOthers(s, from, to);
    MovedPermutes(s, from, to);
    if from == to {
      assert s == s[..from] + [s[from]] + s[from + 1..];
    }
  }

  lemma MovedKeepsOthers<T>(s: seq<T>, from: nat, to: nat)
    requires from < |s| && to < |s|
    ensures Without(Moved(s, from, to), to) == Without(s, from)
  {
    var t := Without(s, from);
    var r := t[..to] + [s[from]] + t[to..];
    assert r[..to] == t[..to] && r[to + 1..] == t[to..];
    assert t[..to] + t[to..] == t;
  }

  lemma MovedPermutes<T>(s: seq<T>, from: nat, to: nat)
    requires from < |s| && to < |s|
    ensures multiset(Moved(s, from, to)) == multiset(s)
  {
    var t := Without(s, from);
    assert t[..to] + t[to..] == t;
    assert multiset(t[..to] + [s[from]] + t[to..]) == multiset(t) + multiset{s[from]};
    assert s == s[..from] + [s[from]] + s[from + 1..];
  }

  /** The pointwise description pins the move down. */
  lemma MovedPointwise<T>(s: seq<T>, from: nat, to: nat, r: seq<T>)
    requires from < |s| && to < |s| && |r| == |s| && r[to] == s[from]
    requires forall k {:trigger r[k]} :: 0 <= k < |s| && k != to ==>
      r[k] == if from < to && from <= k < to then s[k + 1]
              else if to < from && to < k <= from then s[k - 1]
              else s[k]
    ensures r == Moved(s, from, to)
  {
    var m := Moved(s, from, to);
    forall k | 0 <= k < |s| ensures r[k] == m[k] {
      if k == to {
        assert m[to] == s[from];
      } else {
        assert r[k] == if from < to && from <= k < to then s[k + 1]
                       else if to < from && to < k <= from then s[k - 1]
                       else s[k];
        assert m[k] == if from < to && from <= k < to then s[k + 1]
                       else if to < from && to < k <= from then s[k - 1]
                       else s[k];
      }
    }
  }

  /** `a[from..to-1] := a[from+1..to]`, in place. */
  method ShiftLeft<T>(a: array<T>, from: nat, to: nat)
    requires from <= to < a.Length
    modifies a
    ensures forall k :: 0 <= k < a.Length ==> a[k] == if from <= k < to then old(a[k + 1]) else old(a[k])
  {
    var i := from;
    while i < to
      invariant from <= i <= to
      invariant forall k :: 0 <= k < a.Length ==> a[k] == if from <= k < i then old(a[k + 1]) else old(a[k])
    {
      a[i] := a[i + 1];
      i := i + 1;
    }
  }

  /** `a[to+1..from] := a[to..from-1]`, in place, from the right. */
  method ShiftRight<T>(a: array<T>, from: nat, to: nat)
    requires to <= from < a.Length
    modifies a
    ensures forall k :: 0 <= k < a.Length ==> a[k] == if to < k <= from then old(a[k - 1]) else old(a[k])
  {
    var i := from;
    while i > to
      invariant to <= i <= from
      invariant forall k :: 0 <= k < a.Length ==> a[k] == if i < k <= from then old(a[k - 1]) else old(a[k])
    {
      a[i] := a[i - 1];
      i := i - 1;
    }
  }

  /** Takes the element at `from` out and puts it back at `to`, in place. */
  method MoveInPlace<T>(a: array<T>, from: nat, to: nat)
    requires from < a.Length && to < a.Length
    modifies a
    ensures a[..] == Moved(old(a[..]), from, to)
  {
    ghost var s := a[..];
    var removed := a[from];
    if from < to {
      ShiftLeft(a, from, to);
    } else if to < from {
      ShiftRight(a, from, to);
    }
    a[to] := removed;
    MovedPointwise(s, from, to, a[..]);
  }

  /** The sequence `handleDragEnd` hands to `onSequenceChange`, or None when
      it hands nothing: no drop target, a drop onto itself, or an id that
      is not in the sequence. */
  function DragResult(sequence: seq<Id>, activeId: Id, overId: Option<Id>): Option<seq<Id>> {
    if overId.None? || activeId == overId.value then None
    else
      var oldIndex := IndexOf(sequence, activeId);
      var newIndex := IndexOf(sequence, overId.value);
      if oldIndex != -1 && newIndex != -1 then Some(Moved(sequence, oldIndex, newIndex)) else None
  }

  /** The drop changes the sequence exactly when both ids are in it and
      differ; the dragged id then sits where the target id was first found,
      and the others keep their order. */
  lemma DragResultSpec(sequence: seq<Id>, activeId: Id, overId: Option<Id>)
    ensures var r := DragResult(sequence, activeId, overId);
      && (r.Some? <==> overId.Some? && activeId != overId.value && activeId in sequence && overId.value in sequence)
      && (r.Some? ==>
            var from := IndexOf(sequence, activeId);
            var to := IndexOf(sequence, overId.value);
            && multiset(r.value) == multiset(sequence)
            && r.value[to] == activeId
            && Without(r.value, to) == Without(sequence, from))
  {
    if overId.Some? && activeId != overId.value && activeId in sequence && overId.value in sequence {
      MovedSpec(sequence, IndexOf(sequence, activeId), IndexOf(sequence, overId.value));
    }
  }

  /** `handleDragEnd`: the sequence is copied and the copy spliced. */
  method HandleDragEnd(sequence: seq<Id>, activeId: Id, overId: Option<Id>) returns (r: Option<seq<Id>>)
    ensures r == DragResult(sequence, activeId, overId)
  {
    if overId.None? || activeId == overId.value {
      return None;
    }
    var oldIndex := IndexOf(sequence, activeId);
    var newIndex := IndexOf(sequence, overId.value);
    if oldIndex != -1 && newIndex != -1 {
      var newSequence := new Id[|sequence|](i requires 0 <= i < |sequence| => sequence[i]);
      assert newSequence[..] == sequence;
      MoveInPlace(newSequence, oldIndex, newIndex);
      return Some(newSequence[..]);
    }
    r := None;
  }

  /** `orders.find(o => o.orderId === id)`. */
  function Find(orders: seq<Order>, id: Id): (r: Option<Order>)
    ensures r.Some? <==> exists k :: 0 <= k < |orders| && orders[k].orderId == id
    ensures r.Some? ==> r.value in orders && r.value.orderId == id
    ensures r.Some? ==> exists k :: 0 <= k < |orders| && orders[k] == r.value && forall j :: 0 <= j < k ==> orders[j].orderId != id
    decreases |orders|
  {
    if |orders| == 0 then None
    else if orders[0].orderId == id then Some(orders[0])
    else
      var r := Find(orders[1..], id);
      if r.Some? then
        var k :| 0 <= k < |orders[1..]| && orders[1..][k] == r.value && forall j :: 0 <= j < k ==> orders[1..][j].orderId != id;
        assert orders[k + 1] == r.value;
        r
      else r
  }

  function HasOrder(orders: seq<Order>): Id -> bool {
    (id: Id) => Find(orders, id).Some?
  }

  /** `orderedOrders`: the sequence mapped to orders, ids with no order
      dropped. */
  function OrderedOrders(sequence: seq<Id>, orders: seq<Order>): (r: seq<Order>)
    decreases |sequence|
  {
    if |sequence| == 0 then []
    else
      var found := Find(orders, sequence[|sequence| - 1]);
      OrderedOrders(sequence[..|sequence| - 1], orders) + if found.Some? then [found.value] else []
  }

  /** The shown orders follow the sequence: their ids are the sequence's
      ids that have an order, in sequence order, and each is the first
      order with its id. */
  lemma {:induction false} OrderedOrdersSpec(sequence: seq<Id>, orders: seq<Order>)
    ensures var r := OrderedOrders(sequence, orders);
      && |r| == |Filter(sequence, HasOrder(orders))|
      && forall i :: 0 <= i < |r| ==>
           r[i].orderId == Filter(sequence, HasOrder(orders))[i] && Find(orders, r[i].orderId) == Some(r[i])
    decreases |sequence|
  {
    if |sequence| > 0 {
      OrderedOrdersSpec(sequence[..|sequence| - 1], orders);
    }
  }
}
