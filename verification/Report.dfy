/** The daily report's figures, computed from the record log on every
    read: counts of calls, answered calls and orders, their differences,
    the revenue, and the conversion rate as a whole percentage. */
module Report {
  import opened Types

  /** How many elements satisfy `p` (the length of the filtered log). */
  function Count<T>(s: seq<T>, p: T -> bool): (n: nat)
    ensures n <= |s|
  {
    if s == [] then 0
    else Count(s[..|s| - 1], p) + (if p(s[|s| - 1]) then 1 else 0)
  }

  predicate IsPickedRecord(r: CallRecord) {
    r.outcome == Picked
  }

  predicate IsOrderedRecord(r: CallRecord) {
    r.orderStatus == Ordered
  }

  /** Sum of the stored totals, accumulated left to right. */
  function Revenue(records: seq<CallRecord>): nat {
    if records == [] then 0
    else Revenue(records[..|records| - 1]) + records[|records| - 1].totalAmount
  }

  /** `Math.round(part / whole * 100)` for a non-empty log, 0 otherwise:
      the percentage rounded to the nearest integer, halves rounded up.
      Read over the rationals, `r - 1/2 <= 100 * part / whole < r + 1/2`;
      a part no larger than the whole gives a percentage in 0..100. */
  function RoundPercent(part: nat, whole: nat): (r: int)
    ensures whole == 0 ==> r == 0
    ensures whole > 0 ==> 2 * whole * r <= 200 * part + whole < 2 * whole * (r + 1)
    ensures part <= whole ==> 0 <= r <= 100
  {
    if whole == 0 then 0
    else
      var n, d := 200 * part + whole, 2 * whole;
      DivBounds(n, d);
      if part <= whole then
        QuotientBelow(n / d, d, 101, n);
        n / d
      else
        n / d
  }

  /** The quotient brackets the dividend. */
  lemma DivBounds(n: nat, d: nat)
    requires d > 0
    ensures d * (n / d) <= n < d * (n / d + 1)
  {
    var q, m := n / d, n % d;
    assert n == d * q + m;
    assert d * (q + 1) == d * q + d;
  }

  /** A quotient whose multiple stays below `d * bound` is below `bound`. */
  lemma QuotientBelow(q: int, d: int, bound: int, n: int)
    requires d > 0 && d * q <= n < d * bound
    ensures q < bound
  {
    assert d * (bound - q) == d * bound - d * q;
  }

  /** The report figures for a log.  The empty log reports all zeros;
      otherwise the conversion rate is orders per call as a percentage,
      rounded to the nearest integer with halves rounded up. */
  function ComputeStats(records: seq<CallRecord>): (st: DailyStats)
    ensures st.totalRoomsCalled == |records|
    ensures 0 <= st.totalPicked <= st.totalRoomsCalled
    ensures 0 <= st.totalOrders <= st.totalRoomsCalled
    ensures st.totalNotPicked == st.totalRoomsCalled - st.totalPicked >= 0
    ensures st.totalNotOrdered == st.totalPicked - st.totalOrders
    ensures records == [] ==> st == DailyStats(0, 0, 0, 0, 0, 0, 0)
    ensures records != [] ==>
      2 * |records| * st.conversionRate <= 200 * st.totalOrders + |records|
                                         < 2 * |records| * (st.conversionRate + 1)
  {
    var calls := |records|;
    var picked := Count(records, IsPickedRecord);
    var orders := Count(records, IsOrderedRecord);
    DailyStats(
      calls,
      picked,
      orders,
      calls - picked,
      picked - orders,
      Revenue(records),
      if calls > 0 then RoundPercent(orders, calls) else 0)
  }

  /** Appending one record moves every figure by that record alone: one
      more call, one more answered call if it was picked, one more order if
      it was ordered, and its total added to the revenue. */
  lemma {:induction false} StatsAppend(records: seq<CallRecord>, rec: CallRecord)
    ensures var before, after := ComputeStats(records), ComputeStats(records + [rec]);
      && after.totalRoomsCalled == before.totalRoomsCalled + 1
      && after.totalPicked == before.totalPicked + (if rec.outcome == Picked then 1 else 0)
      && after.totalOrders == before.totalOrders + (if rec.orderStatus == Ordered then 1 else 0)
      && after.totalRevenue == before.totalRevenue + rec.totalAmount
  {
    assert (records + [rec])[..|records|] == records;
  }

  /** In a log of consistent records every order is an answered call. */
  lemma {:induction false} OrdersAtMostPicked(records: seq<CallRecord>)
    requires AllValid(records)
    ensures Count(records, IsOrderedRecord) <= Count(records, IsPickedRecord)
    decreases |records|
  {
    if records != [] {
      var last := records[|records| - 1];
      assert ValidRecord(last);
      OrdersAtMostPicked(records[..|records| - 1]);
    }
  }

  /** Sum over the records of what their lines add up to. */
  function LinesRevenue(records: seq<CallRecord>): nat {
    if records == [] then 0
    else LinesRevenue(records[..|records| - 1]) + LinesTotal(records[|records| - 1].orderedItems)
  }

  /** In a log of consistent records the revenue is the sum of price times
      quantity over every ordered line. */
  lemma {:induction false} RevenueIsLinesRevenue(records: seq<CallRecord>)
    requires AllValid(records)
    ensures Revenue(records) == LinesRevenue(records)
    decreases |records|
  {
    if records != [] {
      assert ValidRecord(records[|records| - 1]);
      RevenueIsLinesRevenue(records[..|records| - 1]);
    }
  }

  /** For a log of consistent records: orders <= answered <= calls, both
      differences are non-negative, the conversion rate is a percentage in
      0..100, and the revenue is the sum over all ordered lines. */
  lemma {:induction false} ValidLogStats(records: seq<CallRecord>)
    requires AllValid(records)
    ensures var st := ComputeStats(records);
      && 0 <= st.totalOrders <= st.totalPicked <= st.totalRoomsCalled
      && st.totalNotPicked >= 0 && st.totalNotOrdered >= 0
      && 0 <= st.conversionRate <= 100
      && st.totalRevenue == LinesRevenue(records)
  {
    OrdersAtMostPicked(records);
    RevenueIsLinesRevenue(records);
  }
}
