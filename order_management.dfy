/** `src/pages/OrderManagement.tsx`: the seller's order list. The buttons
    shown under an order are the only transition graph of the application;
    a successful status update replaces the order in the local list, a
    successful delete removes it, and significant updates raise a browser
    notification. The list itself is the concatenation of every shop's
    orders. */
module OrderManagement {
  import opened Common
  import opened Records
  import opened Seqs
  import opened OrderUtils

  // ---------------------------------------------------------------------
  // Offered actions

  /** The status buttons rendered under an order in `status`. */
  function OfferedActions(status: string): (r: seq<string>)
    ensures Cancelled !in r && Pending !in r
    ensures forall s :: s in r ==> s in OrderStatuses
    ensures r != [] <==> status in [Pending, Accepted, Preparing, Delivering]
    ensures forall s :: s in r <==>
              s in OrderStatuses && status in [Pending, Accepted, Preparing, Delivering] &&
              Stage(s) == Stage(status) + 1
  {
    if status == Pending then [Accepted, Refused]
    else if status == Accepted then [Preparing]
    else if status == Preparing then [Delivering]
    else if status == Delivering then [Delivered]
    else []
  }

  /** The position of a status along the seller's path; -1 off the path. */
  function Stage(status: string): int
  {
    if status == Pending then 0
    else if status == Accepted || status == Refused then 1
    else if status == Preparing then 2
    else if status == Delivering then 3
    else if status == Delivered then 4
    else -1
  }

  /** Every offered action moves exactly one stage forward, so following
      the buttons never returns to an earlier status. */
  lemma OfferedAdvances(from: string, to: string)
    requires to in OfferedActions(from)
    ensures Stage(from) >= 0 && Stage(to) == Stage(from) + 1
  {
    StatusesDistinct();
    assert OrderStatuses[0] == Pending && OrderStatuses[1] == Accepted && OrderStatuses[2] == Preparing;
    assert OrderStatuses[3] == Delivering && OrderStatuses[4] == Delivered && OrderStatuses[6] == Refused;
  }

  /** A sequence of statuses in which each one is offered from the one
      before it. */
  predicate IsRun(run: seq<string>)
  {
    forall i :: 0 <= i < |run| - 1 ==> run[i + 1] in OfferedActions(run[i])
  }

  /** The happy path: pending, accepted, preparing, delivering, delivered. */
  const HappyPath: seq<string> := [Pending, Accepted, Preparing, Delivering, Delivered]

  /** Along a run from `pending` that never refuses, the status at step `i`
      is the `i`-th status of the happy path. */
  lemma {:induction false} RunFollowsHappyPath(run: seq<string>, i: nat)
    requires IsRun(run) && |run| > 0 && run[0] == Pending && Refused !in run
    requires i < |run|
    ensures i < |HappyPath| && run[i] == HappyPath[i]
  {
    if i > 0 {
      RunFollowsHappyPath(run, i - 1);
      assert run[i] in OfferedActions(run[i - 1]);
      assert run[i] != Refused;
    }
  }

  /** Following the offered actions from `pending` without refusing reaches
      `delivered` in exactly four steps, through the happy path. */
  lemma HappyPathIsTheOnlyDelivery(run: seq<string>)
    requires IsRun(run) && |run| > 0 && run[0] == Pending && Refused !in run
    requires run[|run| - 1] == Delivered
    ensures run == HappyPath
  {
    RunFollowsHappyPath(run, |run| - 1);
    forall i | 0 <= i < |run|
      ensures run[i] == HappyPath[i]
    {
      RunFollowsHappyPath(run, i);
    }
  }

  /** The happy path is itself a run of offered actions. */
  lemma HappyPathIsRun()
    ensures IsRun(HappyPath) && |HappyPath| - 1 == 4
  {
    assert HappyPath[1] in OfferedActions(HappyPath[0]);
  }

  // ---------------------------------------------------------------------
  // Notification predicate

  /** `['accepted', 'preparing', 'delivering', 'delivered'].includes(status)` */
  predicate ShouldNotify(status: string)
  {
    status in [Accepted, Preparing, Delivering, Delivered]
  }

  /** A notification is raised exactly for the statuses an offered action
      can reach other than `refused`; never for `refused`, `cancelled` or
      `pending`. */
  lemma ShouldNotifyIffOfferedForward(status: string)
    ensures ShouldNotify(status) <==>
              (status != Refused && exists from :: status in OfferedActions(from))
    ensures !ShouldNotify(Refused) && !ShouldNotify(Cancelled) && !ShouldNotify(Pending)
  {
    if ShouldNotify(status) {
      var from := if status == Accepted then Pending
                  else if status == Preparing then Accepted
                  else if status == Delivering then Preparing
                  else Delivering;
      assert status in OfferedActions(from);
    }
  }

  // ---------------------------------------------------------------------
  // Local list updates

  /** `orders.map(order => order.id === orderId ? updatedOrder : order)` */
  function ReplaceById(orders: seq<Order>, orderId: string, updated: Order): (r: seq<Order>)
    ensures |r| == |orders|
    ensures forall i :: 0 <= i < |orders| && orders[i].id == orderId ==> r[i] == updated
    ensures forall i :: 0 <= i < |orders| && orders[i].id != orderId ==> r[i] == orders[i]
  {
    if orders == [] then []
    else [if orders[0].id == orderId then updated else orders[0]] + ReplaceById(orders[1..], orderId, updated)
  }

  /** The browser notification raised after a significant update. */
  datatype Notification = Notification(title: string, body: string, orderId: string, status: string, kind: string)

  /** What the page does with the response to `PUT /api/orders/:id/status`:
      `response` is the returned order when the response is ok. */
  function StatusUpdateResponse(orders: seq<Order>, orderId: string, status: string, response: Option<Order>)
    : (r: (seq<Order>, Option<Notification>))
    ensures response.None? ==> r.0 == orders
    ensures response.Some? ==> r.0 == ReplaceById(orders, orderId, response.value)
    ensures r.1.Some? <==> response.Some? && ShouldNotify(status)
    ensures r.1.Some? ==> r.1.value.orderId == orderId && r.1.value.status == status &&
                          r.1.value.kind == "order-update"
  {
    match response
    case None => (orders, None)
    case Some(updated) =>
      var notification :=
        if ShouldNotify(status) then
          Some(Notification("Order Status Updated", "Order #" + orderId + " is now " + status,
                            orderId, status, "order-update"))
        else None;
      (ReplaceById(orders, orderId, updated), notification)
  }

  /** `orders.filter(order => order.id !== orderId)` */
  function RemoveById(orders: seq<Order>, orderId: string): (r: seq<Order>)
    ensures forall o :: o in r <==> o in orders && o.id != orderId
  {
    Filter(orders, (o: Order) => o.id != orderId)
  }

  /** Removal keeps every other order as often as it occurred and drops
      every order with that id. */
  lemma RemoveByIdCounts(orders: seq<Order>, orderId: string)
    ensures forall o :: multiset(RemoveById(orders, orderId))[o] ==
                          if o.id != orderId then multiset(orders)[o] else 0
  {
    FilterMultiset(orders, (o: Order) => o.id != orderId);
  }

  /** Removal keeps the relative order: removing from a concatenation is the
      concatenation of the removals. */
  lemma RemoveByIdKeepsOrder(front: seq<Order>, back: seq<Order>, orderId: string)
    ensures RemoveById(front + back, orderId) == RemoveById(front, orderId) + RemoveById(back, orderId)
  {
    FilterAppend(front, back, (o: Order) => o.id != orderId);
  }

  /** What the page does with the response to `DELETE /api/orders/:id`. */
  function DeleteResponse(orders: seq<Order>, orderId: string, ok: bool): (r: seq<Order>)
    ensures !ok ==> r == orders
    ensures ok ==> forall o :: o in r <==> o in orders && o.id != orderId
  {
    if ok then RemoveById(orders, orderId) else orders
  }

  // ---------------------------------------------------------------------
  // Aggregation over the seller's shops

  /** The orders of every shop, concatenated in shop order. */
  function Flatten(shopOrders: seq<seq<Order>>): (r: seq<Order>)
  {
    if shopOrders == [] then []
    else Flatten(shopOrders[..|shopOrders| - 1]) + shopOrders[|shopOrders| - 1]
  }

  /** An order is in the list exactly when one of the shops returned it. */
  lemma {:induction false} FlattenMembership(shopOrders: seq<seq<Order>>, o: Order)
    ensures o in Flatten(shopOrders) <==> exists i :: 0 <= i < |shopOrders| && o in shopOrders[i]
  {
    if shopOrders != [] {
      var front := shopOrders[..|shopOrders| - 1];
      FlattenMembership(front, o);
      if o in Flatten(shopOrders) && o !in shopOrders[|shopOrders| - 1] {
        var i :| 0 <= i < |front| && o in front[i];
        assert shopOrders[i] == front[i];
      }
      if exists i :: 0 <= i < |shopOrders| && o in shopOrders[i] {
        var i :| 0 <= i < |shopOrders| && o in shopOrders[i];
        if i < |front| {
          assert front[i] == shopOrders[i];
        }
      }
    }
  }

  /** The list holds every shop's orders, one block after the other. */
  lemma {:induction false} FlattenAppend(a: seq<seq<Order>>, b: seq<seq<Order>>)
    ensures Flatten(a + b) == Flatten(a) + Flatten(b)
    decreases |b|
  {
    if b == [] {
      assert a + b == a;
    } else {
      var b' := b[..|b| - 1];
      assert (a + b)[..|a + b| - 1] == a + b';
      FlattenAppend(a, b');
    }
  }

  /** `for (const shop of userShops) allOrders.push(...shopOrders)`, where
      `shopOrders[i]` is the response for the `i`-th shop. */
  method AggregateOrders(shopOrders: seq<seq<Order>>) returns (all: seq<Order>)
    ensures all == Flatten(shopOrders)
  {
    all := [];
    var i := 0;
    while i < |shopOrders|
      invariant 0 <= i <= |shopOrders|
      invariant all == Flatten(shopOrders[..i])
    {
      assert shopOrders[..i + 1][..i] == shopOrders[..i];
      all := all + shopOrders[i];
      i := i + 1;
    }
    assert shopOrders[..i] == shopOrders;
  }
}
