/** The entities of the call dashboard: catalog items, order lines, call
    outcomes and statuses, the immutable call record, and the derived daily
    statistics.  Amounts are whole currency units (the catalog prices are all
    integers), so prices, quantities and totals are natural numbers. */
module Types {
  import opened Text

  datatype Option<+T> = None | Some(value: T)

  /** A sellable catalog item; `servedWith` is optional in the catalog. */
  datatype MenuItem = MenuItem(
    id: string,
    category: string,
    name: string,
    price: nat,
    description: string,
    servedWith: Option<string>,
    isVeg: bool,
    isSpicy: bool)

  /** How a call ended.  Only `Picked` is an answered call; the other three
      are the missed-call variants the operator can choose. */
  datatype CallOutcome = Picked | NotPicked1 | NotPicked2 | NotPickedFinal

  datatype OrderStatus = Ordered | NotOrdered | NoResponse

  /** An order line: a snapshot of the catalog item (price included) plus the
      quantity ordered. */
  datatype OrderItem = OrderItem(item: MenuItem, quantity: nat)

  type Cart = seq<OrderItem>

  datatype CallRecord = CallRecord(
    id: string,
    roomNumber: string,
    timestamp: nat,
    callAttempt: nat,
    outcome: CallOutcome,
    orderStatus: OrderStatus,
    orderedItems: seq<OrderItem>,
    totalAmount: nat)

  /** The seven figures of the daily report; every one is computed from the
      record log (see `Report.ComputeStats`), none is stored. */
  datatype DailyStats = DailyStats(
    totalRoomsCalled: int,
    totalPicked: int,
    totalOrders: int,
    totalNotPicked: int,
    totalNotOrdered: int,
    totalRevenue: int,
    conversionRate: int)

  function LineAmount(line: OrderItem): nat {
    line.item.price * line.quantity
  }

  /** Sum of price * quantity over the lines, accumulated left to right. */
  function LinesTotal(lines: seq<OrderItem>): nat {
    if lines == [] then 0
    else LinesTotal(lines[..|lines| - 1]) + LineAmount(lines[|lines| - 1])
  }

  /** The item ids of the lines, in order. */
  function Ids(lines: seq<OrderItem>): (ids: seq<string>)
    ensures |ids| == |lines|
    ensures forall i | 0 <= i < |lines| :: ids[i] == lines[i].item.id
  {
    seq(|lines|, i requires 0 <= i < |lines| => lines[i].item.id)
  }

  /** The item id of line `i`.  Distinctness is stated over this function
      so that it is used only where a proof names a line's id. */
  function IdAt(lines: seq<OrderItem>, i: nat): string
    requires i < |lines|
  {
    lines[i].item.id
  }

  predicate DistinctIds(lines: seq<OrderItem>) {
    forall i, j | 0 <= i < j < |lines| :: IdAt(lines, i) != IdAt(lines, j)
  }

  /** What the cart handlers keep true: one line per item id, and every line
      ordered at least once. */
  predicate WellFormedCart(lines: seq<OrderItem>) {
    && DistinctIds(lines)
    && forall i | 0 <= i < |lines| :: lines[i].quantity >= 1
  }

  /** The consistency a record should have: the stored total agrees with its
      lines, lines are present exactly for an `Ordered` call, `NoResponse` is
      used exactly for a missed call, and the room number is not blank. */
  predicate ValidRecord(r: CallRecord) {
    && r.totalAmount == LinesTotal(r.orderedItems)
    && (r.orderedItems != [] <==> r.orderStatus == Ordered)
    && (r.orderStatus == NoResponse <==> r.outcome != Picked)
    && WellFormedCart(r.orderedItems)
    && r.callAttempt >= 1
    && !IsBlank(r.roomNumber)
  }

  /** Every record of the log is consistent. */
  predicate AllValid(records: seq<CallRecord>) {
    records == [] || (AllValid(records[..|records| - 1]) && ValidRecord(records[|records| - 1]))
  }

  /** The total over a concatenation is the sum of the totals. */
  lemma {:induction false} LinesTotalConcat(a: seq<OrderItem>, b: seq<OrderItem>)
    ensures LinesTotal(a + b) == LinesTotal(a) + LinesTotal(b)
    decreases |b|
  {
    if b == [] {
      assert a + b == a;
    } else {
      var b' := b[..|b| - 1];
      assert (a + b)[..|a + b| - 1] == a + b';
      assert (a + b)[|a + b| - 1] == b[|b| - 1];
      LinesTotalConcat(a, b');
    }
  }

  /** Appending one line adds its amount. */
  lemma LinesTotalSnoc(a: seq<OrderItem>, x: OrderItem)
    ensures LinesTotal(a + [x]) == LinesTotal(a) + LineAmount(x)
  {
    assert (a + [x])[..|a|] == a;
  }

  /** A valid record's status is determined by its outcome and its lines:
      a missed call is `NoResponse`; an answered one is `Ordered` exactly when
      it carries lines. */
  lemma ValidRecordStatus(r: CallRecord)
    requires ValidRecord(r)
    ensures r.orderStatus ==
      (if r.outcome != Picked then NoResponse
       else if r.orderedItems == [] then NotOrdered
       else Ordered)
    ensures r.orderStatus != Ordered ==> r.totalAmount == 0
  {
  }
}
