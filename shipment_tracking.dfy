/** The tracking page's arithmetic on the two shipment dates (progress percentage,
    weeks elapsed, days remaining) and its constant timeline of delivery events.
    Times are integer milliseconds since the epoch, as Date.getTime() returns them. */
module ShipmentTracking {

  const MsPerDay: int := 24 * 60 * 60 * 1000
  const MsPerWeek: int := 7 * MsPerDay

  /** The order date 2024-11-22 and the estimated delivery date 2025-08-29, each at
      UTC midnight, which is how JavaScript reads an ISO date without a time. */
  const OrderPlacementMs: int := 1732233600000
  const EstimatedDeliveryMs: int := 1756425600000

  function TotalDuration(orderMs: int, deliveryMs: int): int {
    deliveryMs - orderMs
  }

  function ElapsedDuration(orderMs: int, nowMs: int): int {
    nowMs - orderMs
  }

  function Min(a: int, b: int): int { if a <= b then a else b }

  function Max(a: int, b: int): int { if a >= b then a else b }

  /** x / d rounded down, as JavaScript's Math.floor gives it, for a positive
      divisor; Dafny's division already rounds down then. */
  function FloorDiv(x: int, d: int): (q: int)
    requires d > 0
    ensures q * d <= x < (q + 1) * d
  {
    x / d
  }

  /** x / d rounded up, as JavaScript's Math.ceil gives it, for a positive divisor. */
  function CeilDiv(x: int, d: int): (q: int)
    requires d > 0
    ensures (q - 1) * d < x <= q * d
  {
    var f := FloorDiv(-x, d);
    -f
  }

  /** The share of the total duration that has elapsed, in whole percent rounded
      down and clamped to [0, 100]. The quotient is taken exactly: between the two
      dates the result is the whole number of percent elapsed. */
  function ProgressPercentage(elapsed: int, total: int): (p: int)
    requires total > 0
    ensures 0 <= p <= 100
    ensures 0 <= elapsed <= total ==> p * total <= elapsed * 100 < (p + 1) * total
  {
    var raw := FloorDiv(elapsed * 100, total);
    RawPercentInRange(elapsed, total);
    Min(Max(raw, 0), 100)
  }

  /** Whole weeks elapsed since the order, rounded down. */
  function ElapsedWeeks(elapsed: int): (w: int)
    ensures w * MsPerWeek <= elapsed < (w + 1) * MsPerWeek
  {
    FloorDiv(elapsed, MsPerWeek)
  }

  /** Days left until the estimated delivery, rounded up. */
  function RemainingDays(deliveryMs: int, nowMs: int): (d: int)
    ensures (d - 1) * MsPerDay < deliveryMs - nowMs <= d * MsPerDay
  {
    CeilDiv(deliveryMs - nowMs, MsPerDay)
  }

  /** The progress shown at time nowMs. */
  function ProgressAt(orderMs: int, deliveryMs: int, nowMs: int): int
    requires deliveryMs > orderMs
  {
    ProgressPercentage(ElapsedDuration(orderMs, nowMs), TotalDuration(orderMs, deliveryMs))
  }

  // ---------------------------------------------------------------------------
  // Arithmetic helpers

  lemma MulMonotone(x: int, y: int, t: int)
    requires t > 0
    ensures x <= y ==> x * t <= y * t
  {
    assert y * t - x * t == (y - x) * t;
  }

  lemma DivMonotone(a: int, b: int, d: int)
    requires d > 0 && a <= b
    ensures FloorDiv(a, d) <= FloorDiv(b, d)
  {
    var qa, qb := FloorDiv(a, d), FloorDiv(b, d);
    MulMonotone(qb + 1, qa, d);
  }

  /** The unclamped percentage floor(elapsed * 100 / total) already lies in
      [0, 100] between the two dates, and is exactly 100 at the delivery date. */
  lemma RawPercentInRange(elapsed: int, total: int)
    requires total > 0
    ensures 0 <= elapsed <= total ==> 0 <= FloorDiv(elapsed * 100, total) <= 100
    ensures FloorDiv(total * 100, total) == 100
  {
    var q := FloorDiv(elapsed * 100, total);
    MulMonotone(q + 1, 0, total);
    MulMonotone(101, q, total);
    var q' := FloorDiv(total * 100, total);
    MulMonotone(q' + 1, 100, total);
    MulMonotone(101, q', total);
  }

  // ---------------------------------------------------------------------------
  // Properties of the progress bar

  /** At or before the order date the bar is empty. */
  lemma ProgressZeroBeforeOrder(orderMs: int, deliveryMs: int, nowMs: int)
    requires deliveryMs > orderMs && nowMs <= orderMs
    ensures ProgressAt(orderMs, deliveryMs, nowMs) == 0
  {
    var e, t := ElapsedDuration(orderMs, nowMs), TotalDuration(orderMs, deliveryMs);
    DivMonotone(e * 100, 0, t);
    RawPercentInRange(0, t);
  }

  /** At or after the estimated delivery date the bar is full. */
  lemma ProgressFullAfterDelivery(orderMs: int, deliveryMs: int, nowMs: int)
    requires deliveryMs > orderMs && nowMs >= deliveryMs
    ensures ProgressAt(orderMs, deliveryMs, nowMs) == 100
  {
    var e, t := ElapsedDuration(orderMs, nowMs), TotalDuration(orderMs, deliveryMs);
    RawPercentInRange(e, t);
    DivMonotone(t * 100, e * 100, t);
  }

  /** The bar never moves backwards as time passes. */
  lemma ProgressMonotone(orderMs: int, deliveryMs: int, now1: int, now2: int)
    requires deliveryMs > orderMs && now1 <= now2
    ensures ProgressAt(orderMs, deliveryMs, now1) <= ProgressAt(orderMs, deliveryMs, now2)
  {
    var t := TotalDuration(orderMs, deliveryMs);
    var e1, e2 := ElapsedDuration(orderMs, now1), ElapsedDuration(orderMs, now2);
    DivMonotone(e1 * 100, e2 * 100, t);
  }

  /** The shipment's own dates are forty weeks apart, so the total duration the
      percentage divides by is positive. */
  lemma ShipmentSpansFortyWeeks()
    ensures TotalDuration(OrderPlacementMs, EstimatedDeliveryMs) == 40 * MsPerWeek
    ensures TotalDuration(OrderPlacementMs, EstimatedDeliveryMs) > 0
  {
  }

  // ---------------------------------------------------------------------------
  // Timeline

  datatype Status = Completed | InProgress | Pending

  /** The first event shows the order date formatted by a date library, which is
      not modelled; the others carry fixed text. */
  datatype DateLabel = FormattedOrderDate | Text(text: string)

  /** A timeline entry; its icon is not modelled. */
  datatype TimelineEvent = TimelineEvent(id: int, title: string, details: string, date: DateLabel, status: Status)

  const TimelineEvents: seq<TimelineEvent> := [
    TimelineEvent(1, "Order Placed", "Your Cinghialino has been confirmed", FormattedOrderDate, Completed),
    TimelineEvent(2, "Dispatched", "Your Cinghialino is packed and ready to travel", Text("December 11, 2024"), Completed),
    TimelineEvent(3, "Customs declaration",
      "Your Cinghialino has passed the first border controls. Sanity checks completed successfully.",
      Text("January 14, 2025"), Completed),
    TimelineEvent(4, "Further checks", "Waiting for more details from the customs office", Text("April 14, 2025"), InProgress),
    TimelineEvent(5, "In Transit", "Your Cinghialino is on its way to you", Text(""), Pending),
    TimelineEvent(6, "Delivery", "Your Cinghialino will arrive soon", Text("August 20, 2025"), Pending)
  ]

  /** The rendering rule: the event at position index of a list of count events
      gets a connector line below it when its index is below count - 1. */
  predicate HasConnector(index: int, count: int) {
    index < count - 1
  }

  function StatusRank(s: Status): nat {
    match s
    case Completed => 0
    case InProgress => 1
    case Pending => 2
  }

  /** The timeline ids are 1..6 in order, hence unique and strictly increasing. */
  lemma TimelineIds()
    ensures |TimelineEvents| == 6
    ensures forall i :: 0 <= i < |TimelineEvents| ==> TimelineEvents[i].id == i + 1
    ensures forall i, j :: 0 <= i < j < |TimelineEvents| ==> TimelineEvents[i].id < TimelineEvents[j].id
  {
  }

  /** How many of the first k events of a list of n events get a connector. */
  function ConnectorsAmong(n: int, k: nat): nat {
    if k == 0 then 0 else ConnectorsAmong(n, k - 1) + (if HasConnector(k - 1, n) then 1 else 0)
  }

  /** Among the first k of n events, every one but the last of the list gets a
      connector. */
  lemma {:induction false} ConnectorsAmongPrefix(n: nat, k: nat)
    requires 1 <= n && k <= n
    ensures ConnectorsAmong(n, k) == if k < n then k else n - 1
  {
    if k > 0 {
      ConnectorsAmongPrefix(n, k - 1);
    }
  }

  /** On the timeline, every event except the final "Delivery" gets a connector
      to the next one, so five connectors join the six events. */
  lemma ConnectorRule()
    ensures forall i :: 0 <= i < |TimelineEvents| ==>
      (HasConnector(i, |TimelineEvents|) <==> TimelineEvents[i].title != "Delivery")
    ensures ConnectorsAmong(|TimelineEvents|, |TimelineEvents|) == |TimelineEvents| - 1 == 5
  {
    ConnectorsAmongPrefix(|TimelineEvents|, |TimelineEvents|);
  }

  /** Completed events come first, then the one in progress, then the pending ones. */
  lemma TimelineStatusOrder()
    ensures forall i, j :: 0 <= i < j < |TimelineEvents| ==>
      StatusRank(TimelineEvents[i].status) <= StatusRank(TimelineEvents[j].status)
    ensures forall i :: 0 <= i < |TimelineEvents| ==>
      (TimelineEvents[i].status == InProgress <==> i == 3)
  {
  }
}
