/** `server/utils/orderUtils.js`: the order status engine. An update applies
    the custom status when one is given and the new status otherwise, without
    checking it against the known statuses; it seeds a missing history with
    the current status, appends a timestamped entry, and on `delivered`
    records the time between the first `accepted` and the first `delivered`
    entries. The clock is the parameter `now`. */
module OrderUtils {
  import opened Common
  import opened Records
  import opened Seqs
  import Database

  const Pending := "pending"
  const Accepted := "accepted"
  const Preparing := "preparing"
  const Delivering := "delivering"
  const Delivered := "delivered"
  const Cancelled := "cancelled"
  const Refused := "refused"

  /** `ORDER_STATUSES` */
  const OrderStatuses: seq<string> :=
    [Pending, Accepted, Preparing, Delivering, Delivered, Cancelled, Refused]

  /** The seven statuses are distinct strings. */
  lemma StatusesDistinct()
    ensures forall i, j :: 0 <= i < j < |OrderStatuses| ==> OrderStatuses[i] != OrderStatuses[j]
  {
    assert Pending[0] == 'p' && Accepted[0] == 'a' && Preparing[0] == 'p' && Delivering[0] == 'd';
    assert Delivered[0] == 'd' && Cancelled[0] == 'c' && Refused[0] == 'r';
    assert |Pending| == 7 && |Preparing| == 9 && |Delivering| == 10 && |Delivered| == 9;
  }

  /** `STATUS_DESCRIPTIONS[status]`: a description for exactly the seven
      known statuses. */
  function StatusDescription(status: string): (d: Option<string>)
    ensures d.Some? <==> status in OrderStatuses
  {
    if status == Pending then Some("Order has been placed and is waiting for merchant confirmation")
    else if status == Accepted then Some("Order has been accepted by the merchant")
    else if status == Preparing then Some("Order is being prepared")
    else if status == Delivering then Some("Order is out for delivery")
    else if status == Delivered then Some("Order has been delivered")
    else if status == Cancelled then Some("Order has been cancelled")
    else if status == Refused then Some("Order has been refused by the merchant")
    else None
  }

  /** `createOrderTimestamp(status)` at time `now`. */
  function CreateOrderTimestamp(status: string, now: int): HistoryEntry
  {
    HistoryEntry(status, now)
  }

  predicate HasStatus(h: seq<HistoryEntry>, status: string)
  {
    exists i :: 0 <= i < |h| && h[i].status == status
  }

  /** `h.find(e => e.status === status)` as an index; `|h|` when none. */
  function FirstIndexOf(h: seq<HistoryEntry>, status: string): (i: nat)
    ensures i <= |h|
    ensures i < |h| ==> h[i].status == status
    ensures forall j :: 0 <= j < i ==> h[j].status != status
    ensures i < |h| <==> HasStatus(h, status)
  {
    if h == [] then 0
    else if h[0].status == status then 0
    else
      var i := 1 + FirstIndexOf(h[1..], status);
      assert forall j :: 1 <= j < |h| ==> h[j] == h[1..][j - 1];
      i
  }

  /** Appending entries leaves the first entry of a status that is already
      present where it was. */
  lemma {:induction false} FirstIndexOfAppend(h: seq<HistoryEntry>, extra: seq<HistoryEntry>, status: string)
    requires HasStatus(h, status)
    ensures FirstIndexOf(h + extra, status) == FirstIndexOf(h, status)
  {
    if h[0].status != status {
      assert (h + extra)[1..] == h[1..] + extra;
      var i :| 0 <= i < |h| && h[i].status == status;
      assert h[1..][i - 1].status == status;
      FirstIndexOfAppend(h[1..], extra, status);
    }
  }

  /** Appending after a history that lacks the status finds the first such
      entry among the appended ones. */
  lemma {:induction false} FirstIndexOfAppendAbsent(h: seq<HistoryEntry>, extra: seq<HistoryEntry>, status: string)
    requires !HasStatus(h, status)
    ensures FirstIndexOf(h + extra, status) == |h| + FirstIndexOf(extra, status)
  {
    if h == [] {
      assert h + extra == extra;
    } else {
      assert h[0].status != status;
      assert (h + extra)[1..] == h[1..] + extra;
      FirstIndexOfAppendAbsent(h[1..], extra, status);
    }
  }

  const MsPerHour := 3600000
  const MsPerMinute := 60000

  /** JavaScript's `a % m` for `m > 0`: the remainder has the sign of `a`. */
  function JsRem(a: int, m: int): int
    requires m > 0
  {
    if a >= 0 then a % m else -((-a) % m)
  }

  /** `hours = Math.floor(d / 3600000)` and
      `minutes = Math.floor((d % 3600000) / 60000)`; Dafny's `/` by a
      positive divisor rounds down, as `Math.floor` does. */
  function SplitElapsed(d: int): (int, int)
  {
    (d / MsPerHour, JsRem(d, MsPerHour) / MsPerMinute)
  }

  /** For a non-negative difference the split is whole hours and the
      remaining whole minutes. */
  lemma SplitElapsedNonNegative(d: int)
    requires d >= 0
    ensures SplitElapsed(d).0 == d / MsPerHour
    ensures 0 <= SplitElapsed(d).1 <= 59
    ensures SplitElapsed(d).0 * 60 + SplitElapsed(d).1 == d / MsPerMinute
  {
    var h := d / 3600000;
    var r := d % 3600000;
    var m := r / 60000;
    var s := r % 60000;
    assert d == h * 3600000 + r;
    assert r == m * 60000 + s;
    assert 0 <= m <= 59;
    assert d == (h * 60 + m) * 60000 + s;
    DivByMinuteUnique(d, h * 60 + m, s);
  }

  /** For a negative difference (the first `delivered` entry precedes the
      first `accepted` one) both parts are at most zero. */
  lemma SplitElapsedNegative(d: int)
    requires d < 0
    ensures SplitElapsed(d).0 <= -1
    ensures -60 <= SplitElapsed(d).1 <= 0
  {
    var r := JsRem(d, MsPerHour);
    assert -MsPerHour < r <= 0;
  }

  lemma DivByMinuteUnique(a: int, q: int, r: int)
    requires 0 <= r < 60000 && a == q * 60000 + r
    ensures a / 60000 == q
  {
  }

  /** The text `"<hours>h <minutes>m"`. */
  function FormatElapsed(d: int): string
  {
    var (h, m) := SplitElapsed(d);
    IntToString(h) + "h " + IntToString(m) + "m"
  }

  /** The milliseconds from the first `accepted` to the first `delivered`
      entry, when the history has both. */
  function DeliveryMillis(order: Order): (r: Option<int>)
    ensures r.Some? <==> (order.statusHistory.Some? &&
                          HasStatus(order.statusHistory.value, Accepted) &&
                          HasStatus(order.statusHistory.value, Delivered))
    ensures r.Some? ==>
              var h := order.statusHistory.value;
              r.value == h[FirstIndexOf(h, Delivered)].timestamp - h[FirstIndexOf(h, Accepted)].timestamp
  {
    if order.statusHistory.None? then None
    else
      var h := order.statusHistory.value;
      var a := FirstIndexOf(h, Accepted);
      var d := FirstIndexOf(h, Delivered);
      if a < |h| && d < |h| then Some(h[d].timestamp - h[a].timestamp) else None
  }

  /** `calculateDeliveryTime(order)`: null without a history or without an
      `accepted` or a `delivered` entry; otherwise the time from the first
      `accepted` to the first `delivered` entry, as text. */
  function CalculateDeliveryTime(order: Order): Option<string>
  {
    match DeliveryMillis(order)
    case None => None
    case Some(d) => Some(FormatElapsed(d))
  }

  /** `customStatus || newStatus`; an empty custom status stands for a
      missing one. */
  function FinalStatus(newStatus: string, customStatus: string): string
  {
    if customStatus != "" then customStatus else newStatus
  }

  /** The history an update starts from: the stored one, or a single entry
      with the current status (`pending` when there is none). */
  function SeededHistory(order: Order, now: int): seq<HistoryEntry>
  {
    if order.statusHistory.Some? then order.statusHistory.value
    else [CreateOrderTimestamp(if order.status != "" then order.status else Pending, now)]
  }

  /** The order after `updateOrderStatus` applied `status` at `now`: the
      entry is pushed onto the (seeded) history, `status` and `updatedAt` are
      set, and delivering also stores the computed delivery time. */
  function Transitioned(order: Order, status: string, now: int): Order
  {
    var pushed := Pushed(order, status, now);
    if status == Delivered then WithDeliveryTime(pushed) else pushed
  }

  /** What one update does: the history only grows by the new entry (after
      the seeded one when it was missing), the status is that of the last
      entry, `updatedAt` is `now`, only delivering touches the delivery time
      (and then always sets it, to a text exactly when an `accepted` entry
      exists), and the rest of the order is unchanged. */
  lemma TransitionedShape(order: Order, status: string, now: int)
    ensures var o := Transitioned(order, status, now);
            o.statusHistory.Some? &&
            (order.statusHistory.None? ==>
               |o.statusHistory.value| == 2 &&
               o.statusHistory.value[0].status == (if order.status != "" then order.status else Pending)) &&
            (order.statusHistory.Some? ==>
               |o.statusHistory.value| == |order.statusHistory.value| + 1 &&
               o.statusHistory.value[..|order.statusHistory.value|] == order.statusHistory.value) &&
            o.statusHistory.value[|o.statusHistory.value| - 1] == HistoryEntry(status, now) &&
            o.status == o.statusHistory.value[|o.statusHistory.value| - 1].status &&
            o.updatedAt == now &&
            (status != Delivered ==> o.deliveryTime == order.deliveryTime) &&
            (status == Delivered ==>
               o.deliveryTime != Unset &&
               (o.deliveryTime.Elapsed? <==> HasStatus(o.statusHistory.value, Accepted))) &&
            o.id == order.id && o.shopId == order.shopId && o.customerId == order.customerId &&
            o.customerEmail == order.customerEmail && o.items == order.items && o.total == order.total &&
            o.paymentMethod == order.paymentMethod && o.deliveryOption == order.deliveryOption &&
            o.createdAt == order.createdAt
  {
    var h := SeededHistory(order, now) + [CreateOrderTimestamp(status, now)];
    assert h[|h| - 1].status == status;
  }

  /** The order with the new entry pushed and `status` and `updatedAt` set. */
  function Pushed(order: Order, status: string, now: int): Order
  {
    order.(statusHistory := Some(SeededHistory(order, now) + [CreateOrderTimestamp(status, now)]),
           status := status, updatedAt := now)
  }

  /** `order.deliveryTime = calculateDeliveryTime(order)` */
  function WithDeliveryTime(order: Order): Order
  {
    order.(deliveryTime := match CalculateDeliveryTime(order)
                           case Some(t) => Elapsed(t)
                           case None => NullTime)
  }

  /** Delivering an order whose history has no earlier `delivered` entry
      measures the time from its first `accepted` entry to `now`, and
      stores that time as text. */
  lemma DeliveredMeasuresFromFirstAccepted(order: Order, now: int)
    requires !HasStatus(SeededHistory(order, now), Delivered)
    requires HasStatus(SeededHistory(order, now), Accepted)
    ensures var h := SeededHistory(order, now);
            DeliveryMillis(Pushed(order, Delivered, now)) == Some(now - h[FirstIndexOf(h, Accepted)].timestamp)
    ensures var h := SeededHistory(order, now);
            Transitioned(order, Delivered, now).deliveryTime ==
              Elapsed(FormatElapsed(now - h[FirstIndexOf(h, Accepted)].timestamp))
  {
    var h := SeededHistory(order, now);
    var e := [CreateOrderTimestamp(Delivered, now)];
    var a := FirstIndexOf(h, Accepted);
    DeliveredPushMeasures(h, e, now);
    assert Pushed(order, Delivered, now).statusHistory == Some(h + e);
    assert (h + e)[a] == h[a];
    DeliveredStoresElapsed(order, now, now - h[a].timestamp);
  }

  /** Delivering stores the measured time as text. */
  lemma DeliveredStoresElapsed(order: Order, now: int, d: int)
    requires DeliveryMillis(Pushed(order, Delivered, now)) == Some(d)
    ensures Transitioned(order, Delivered, now).deliveryTime == Elapsed(FormatElapsed(d))
  {
  }

  /** Pushing the first `delivered` entry onto a history with an `accepted`
      one: the first indices of both are known. */
  lemma DeliveredPushMeasures(h: seq<HistoryEntry>, e: seq<HistoryEntry>, now: int)
    requires e == [CreateOrderTimestamp(Delivered, now)]
    requires !HasStatus(h, Delivered) && HasStatus(h, Accepted)
    ensures FirstIndexOf(h + e, Accepted) == FirstIndexOf(h, Accepted) < |h|
    ensures FirstIndexOf(h + e, Delivered) == |h|
    ensures (h + e)[|h|].timestamp == now
    ensures HasStatus(h + e, Accepted) && HasStatus(h + e, Delivered)
  {
    FirstIndexOfAppend(h, e, Accepted);
    FirstIndexOfAppendAbsent(h, e, Delivered);
    assert (h + e)[|h|] == e[0];
    assert FirstIndexOf(e, Delivered) == 0;
  }

  /** Once the history holds both an `accepted` and a `delivered` entry, no
      later update changes what the delivery time is computed from. */
  lemma DeliveryTimeStable(order: Order, status: string, now: int)
    requires order.statusHistory.Some?
    requires HasStatus(order.statusHistory.value, Accepted)
    requires HasStatus(order.statusHistory.value, Delivered)
    ensures CalculateDeliveryTime(Transitioned(order, status, now)) == CalculateDeliveryTime(order)
  {
    var pushed := Pushed(order, status, now);
    PushKeepsMillis(order, status, now);
    var o := Transitioned(order, status, now);
    assert o.statusHistory == pushed.statusHistory;
    SameHistorySameTime(o, pushed);
  }

  /** Pushing an entry onto a history that already has an `accepted` and a
      `delivered` entry keeps the first of each where it was. */
  lemma PushKeepsMillis(order: Order, status: string, now: int)
    requires order.statusHistory.Some?
    requires HasStatus(order.statusHistory.value, Accepted)
    requires HasStatus(order.statusHistory.value, Delivered)
    ensures DeliveryMillis(Pushed(order, status, now)) == DeliveryMillis(order)
  {
    var h := order.statusHistory.value;
    var e := [CreateOrderTimestamp(status, now)];
    var a := FirstIndexOf(h, Accepted);
    var d := FirstIndexOf(h, Delivered);
    assert a < |h| && d < |h|;
    var pushed := Pushed(order, status, now);
    assert pushed.statusHistory == Some(h + e);
    assert FirstIndexOf(h + e, Accepted) == a by {
      FirstIndexOfAppend(h, e, Accepted);
    }
    assert FirstIndexOf(h + e, Delivered) == d by {
      FirstIndexOfAppend(h, e, Delivered);
    }
    assert (h + e)[a] == h[a] && (h + e)[d] == h[d];
  }

  /** The delivery time depends on the history alone. */
  lemma SameHistorySameTime(o1: Order, o2: Order)
    requires o1.statusHistory == o2.statusHistory
    ensures DeliveryMillis(o1) == DeliveryMillis(o2)
  {
  }

  /** Two hours and a quarter between acceptance and delivery reads
      `"2h 15m"`. */
  lemma FormatTwoHoursAQuarter()
    ensures FormatElapsed(8100000) == "2h 15m"
  {
    assert SplitElapsed(8100000) == (2, 15);
    assert NatToString(15) == NatToString(1) + [DigitChar(5)];
  }

  /** An order accepted at `t` and delivered 8,100,000 ms later records
      `"2h 15m"`. */
  lemma AcceptThenDeliverExample(order: Order, t: int)
    requires order.statusHistory == Some([HistoryEntry(Pending, 0)])
    ensures var o := Transitioned(Transitioned(order, Accepted, t), Delivered, t + 8100000);
            o.deliveryTime == Elapsed("2h 15m") && o.status == Delivered
  {
    var o1 := Transitioned(order, Accepted, t);
    var h := [HistoryEntry(Pending, 0), HistoryEntry(Accepted, t)];
    assert o1 == Pushed(order, Accepted, t);
    assert [HistoryEntry(Pending, 0)] + [CreateOrderTimestamp(Accepted, t)] == h;
    assert o1.statusHistory == Some(h);
    assert SeededHistory(o1, t + 8100000) == h;
    assert h[1].status == Accepted;
    assert h[0].status != Delivered && h[1].status != Delivered;
    assert FirstIndexOf(h, Accepted) == 1;
    DeliveredMeasuresFromFirstAccepted(o1, t + 8100000);
    FormatTwoHoursAQuarter();
  }

  /** Delivering straight from `pending` stores `null` as the delivery
      time. */
  lemma DeliverWithoutAcceptExample(order: Order, now: int)
    requires order.statusHistory.None? && order.status == Pending
    ensures Transitioned(order, Delivered, now).deliveryTime == NullTime
  {
    var h := [HistoryEntry(Pending, now), HistoryEntry(Delivered, now)];
    assert SeededHistory(order, now) == [CreateOrderTimestamp(Pending, now)];
    assert [CreateOrderTimestamp(Pending, now)] + [CreateOrderTimestamp(Delivered, now)] == h;
    assert Pushed(order, Delivered, now).statusHistory == Some(h);
    assert !HasStatus(h, Accepted);
  }

  /** The order after a run of updates, one status and one time each. */
  function TransitionedAll(order: Order, statuses: seq<string>, times: seq<int>): Order
    requires |statuses| == |times|
    decreases |statuses|
  {
    if statuses == [] then order
    else TransitionedAll(Transitioned(order, statuses[0], times[0]), statuses[1..], times[1..])
  }

  /** The history only grows: after N updates it has N more entries (N + 1
      when it started missing), the earlier entries stay in place, and the
      status is that of the last entry. */
  lemma {:induction false} HistoryAfterRun(order: Order, statuses: seq<string>, times: seq<int>)
    requires |statuses| == |times| && |statuses| > 0
    decreases |statuses|
    ensures var o := TransitionedAll(order, statuses, times);
            o.statusHistory.Some? && |o.statusHistory.value| > 0 &&
            o.status == o.statusHistory.value[|o.statusHistory.value| - 1].status &&
            (order.statusHistory.None? ==> |o.statusHistory.value| == |statuses| + 1) &&
            (order.statusHistory.Some? ==>
               |o.statusHistory.value| == |order.statusHistory.value| + |statuses| &&
               o.statusHistory.value[..|order.statusHistory.value|] == order.statusHistory.value)
  {
    var o1 := Transitioned(order, statuses[0], times[0]);
    if |statuses| > 1 {
      HistoryAfterRun(o1, statuses[1..], times[1..]);
      var o := TransitionedAll(order, statuses, times);
      assert o == TransitionedAll(o1, statuses[1..], times[1..]);
      if order.statusHistory.Some? {
        var h := order.statusHistory.value;
        var h1 := o1.statusHistory.value;
        assert o.statusHistory.value[..|h1|] == h1;
        assert o.statusHistory.value[..|h|] == h1[..|h|];
      }
    }
  }

  /** `updateOrderStatus` result: the updated order, or the
      "Order not found" error. */
  datatype UpdateResult = Updated(order: Order) | OrderNotFound

    /** `updateOrderStatus(orderId, newStatus, customStatus)`: an unknown id
      fails and saves nothing; otherwise only the first order with that id
      is changed, as `Transitioned` describes, and is returned. */
  method UpdateOrderStatus(db: Database.Db, orderId: string, newStatus: string, customStatus: string, now: int)
    returns (r: UpdateResult)
    modifies db`orders
    ensures var i := FindIndex(old(db.orders), OrderId, orderId);
            if i == |old(db.orders)| then r == OrderNotFound && db.orders == old(db.orders)
            else r == Updated(Transitioned(old(db.orders)[i], FinalStatus(newStatus, customStatus), now)) &&
                 db.orders == old(db.orders)[i := r.order]
  {
    var i := 0;
    while i < |db.orders| && db.orders[i].id != orderId
      invariant 0 <= i <= |db.orders|
      invariant forall j :: 0 <= j < i ==> db.orders[j].id != orderId
    {
      i := i + 1;
    }
    assert i == FindIndex(db.orders, OrderId, orderId);
    if i == |db.orders| {
      return OrderNotFound;
    }
    var order := db.orders[i];
    var finalStatus := if customStatus != "" then customStatus else newStatus;
    if order.statusHistory.None? {
      order := order.(statusHistory := Some([CreateOrderTimestamp(if order.status != "" then order.status else Pending, now)]));
    }
    order := order.(statusHistory := Some(order.statusHistory.value + [CreateOrderTimestamp(finalStatus, now)]));
    order := order.(status := finalStatus, updatedAt := now);
    if finalStatus == Delivered {
      var t := CalculateDeliveryTime(order);
      order := order.(deliveryTime := if t.Some? then Elapsed(t.value) else NullTime);
    }
    db.orders := db.orders[i := order];
    r := Updated(order);
  }
}
