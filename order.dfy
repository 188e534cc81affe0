/**
 * The per-order feature builder of olist/order.py (class Order).  The tables
 * that Order.__init__ loads are passed in as a Data value; every feature
 * table is a sequence of rows keyed by order_id.  Timestamps are integer
 * seconds, missing values are None, and day values are exact reals.
 */
module Order {
  import opened Wrappers
  import opened Relational

  const SECONDS_PER_DAY: int := 24 * 3600
  const DELIVERED := "delivered"

  // ---------------------------------------------------------------------
  // Input tables (the columns the feature methods read)

  datatype OrderRow = OrderRow(
    orderId: string,
    orderStatus: string,
    orderPurchaseTimestamp: Option<int>,
    orderApprovedAt: Option<int>,
    orderDeliveredCarrierDate: Option<int>,
    orderDeliveredCustomerDate: Option<int>,
    orderEstimatedDeliveryDate: Option<int>)

  datatype ReviewRow = ReviewRow(orderId: string, reviewScore: Option<int>)

  datatype ItemRow = ItemRow(orderId: string, sellerId: string, price: real, freightValue: real)

  datatype SellerRow = SellerRow(sellerId: string, sellerZipCodePrefix: int)

  /** The entries 'orders', 'order_reviews', 'order_items' and 'sellers' of self.data. */
  datatype Data = Data(
    orders: seq<OrderRow>,
    orderReviews: seq<ReviewRow>,
    orderItems: seq<ItemRow>,
    sellers: seq<SellerRow>)

  // ---------------------------------------------------------------------
  // Feature tables

  datatype WaitTimeRow = WaitTimeRow(
    orderId: string,
    waitTime: Option<real>,
    expectedWaitTime: Option<real>,
    delayVsExpected: Option<real>,
    orderStatus: string)

  datatype ReviewScoreRow = ReviewScoreRow(orderId: string, dimIsFiveStar: int, dimIsOneStar: int, reviewScore: Option<int>)

  datatype NumberItemsRow = NumberItemsRow(orderId: string, numberOfItems: nat)

  datatype NumberSellersRow = NumberSellersRow(orderId: string, numberOfSellers: nat)

  datatype PriceFreightRow = PriceFreightRow(orderId: string, price: real, freightValue: real)

  /** A row of items.merge(sellers, on='seller_id', how='left'); None where no seller matched. */
  datatype MergedItemRow = MergedItemRow(item: ItemRow, seller: Option<SellerRow>)

  datatype TrainingRow = TrainingRow(
    orderId: string,
    waitTime: Option<real>,
    expectedWaitTime: Option<real>,
    delayVsExpected: Option<real>,
    orderStatus: string,
    dimIsFiveStar: int,
    dimIsOneStar: int,
    reviewScore: Option<int>,
    numberOfItems: nat,
    numberOfSellers: nat,
    price: real,
    freightValue: real)

  // The order_id column of each table, as a key function.
  function OrderKey(o: OrderRow): string { o.orderId }
  function ReviewKey(r: ReviewRow): string { r.orderId }
  function ItemKey(r: ItemRow): string { r.orderId }
  function WaitTimeKey(w: WaitTimeRow): string { w.orderId }
  function ReviewScoreKey(r: ReviewScoreRow): string { r.orderId }
  function NumberItemsKey(r: NumberItemsRow): string { r.orderId }
  function NumberSellersKey(r: NumberSellersRow): string { r.orderId }
  function PriceFreightKey(r: PriceFreightRow): string { r.orderId }
  function TrainingKey(t: TrainingRow): string { t.orderId }

  // ---------------------------------------------------------------------
  // get_wait_time (lines 16-57)

  /** (later - earlier).dt.total_seconds() / (24 * 3600); a missing side gives a missing value. */
  function DaysBetween(later: Option<int>, earlier: Option<int>): (d: Option<real>)
    ensures d.Some? <==> later.Some? && earlier.Some?
    ensures d.Some? ==> d.value * SECONDS_PER_DAY as real == (later.value - earlier.value) as real
  {
    if later.Some? && earlier.Some? then Some((later.value - earlier.value) as real / SECONDS_PER_DAY as real)
    else None
  }

  /** np.maximum(delay, 0): negative delays become 0, a missing value stays missing. */
  function ClampAtZero(d: Option<real>): (c: Option<real>)
    ensures c.Some? <==> d.Some?
    ensures c.Some? ==> c.value >= 0.0 && c.value >= d.value && (c.value == d.value || c.value == 0.0)
  {
    match d
    case None => None
    case Some(x) => Some(if x >= 0.0 then x else 0.0)
  }

  /** orders[orders['order_status'] == 'delivered'] (line 25). */
  function Delivered(orders: seq<OrderRow>): (kept: seq<OrderRow>)
    ensures |kept| <= |orders|
    ensures forall o :: o in kept <==> o in orders && o.orderStatus == DELIVERED
  {
    if |orders| == 0 then []
    else
      assert forall o :: o in orders <==> o == orders[0] || o in orders[1..];
      (if orders[0].orderStatus == DELIVERED then [orders[0]] else []) + Delivered(orders[1..])
  }

  /** The rows get_wait_time works on (lines 22-25). */
  function StatusFilter(orders: seq<OrderRow>, isDelivered: bool): seq<OrderRow> {
    if isDelivered then Delivered(orders) else orders
  }

  /** The output row get_wait_time derives from one order row (lines 40-57). */
  function WaitTimeFeatures(o: OrderRow): WaitTimeRow {
    WaitTimeRow(
      o.orderId,
      DaysBetween(o.orderDeliveredCustomerDate, o.orderPurchaseTimestamp),
      DaysBetween(o.orderEstimatedDeliveryDate, o.orderPurchaseTimestamp),
      ClampAtZero(DaysBetween(o.orderDeliveredCustomerDate, o.orderEstimatedDeliveryDate)),
      o.orderStatus)
  }

  function WaitTimeTable(orders: seq<OrderRow>, isDelivered: bool): seq<WaitTimeRow> {
    var kept := StatusFilter(orders, isDelivered);
    seq(|kept|, i requires 0 <= i < |kept| => WaitTimeFeatures(kept[i]))
  }

  /** Order.get_wait_time: filter, then assign one derived column after another. */
  method GetWaitTime(data: Data, isDelivered: bool) returns (table: seq<WaitTimeRow>)
    ensures table == WaitTimeTable(data.orders, isDelivered)
  {
    var orders := data.orders;
    if isDelivered {
      orders := Delivered(orders);
    }
    var n := |orders|;

    var waitTime := new Option<real>[n];
    for i := 0 to n
      invariant forall k :: 0 <= k < i ==>
        waitTime[k] == DaysBetween(orders[k].orderDeliveredCustomerDate, orders[k].orderPurchaseTimestamp)
    {
      waitTime[i] := DaysBetween(orders[i].orderDeliveredCustomerDate, orders[i].orderPurchaseTimestamp);
    }
    var wait := waitTime[..];

    var expectedWaitTime := new Option<real>[n];
    for i := 0 to n
      invariant forall k :: 0 <= k < i ==>
        expectedWaitTime[k] == DaysBetween(orders[k].orderEstimatedDeliveryDate, orders[k].orderPurchaseTimestamp)
    {
      expectedWaitTime[i] := DaysBetween(orders[i].orderEstimatedDeliveryDate, orders[i].orderPurchaseTimestamp);
    }
    var expected := expectedWaitTime[..];

    var delay := new Option<real>[n];
    for i := 0 to n
      invariant forall k :: 0 <= k < i ==>
        delay[k] == DaysBetween(orders[k].orderDeliveredCustomerDate, orders[k].orderEstimatedDeliveryDate)
    {
      delay[i] := DaysBetween(orders[i].orderDeliveredCustomerDate, orders[i].orderEstimatedDeliveryDate);
    }
    var late := delay[..];

    var delayVsExpected := new Option<real>[n];
    for i := 0 to n
      invariant forall k :: 0 <= k < i ==> delayVsExpected[k] == ClampAtZero(late[k])
    {
      delayVsExpected[i] := ClampAtZero(late[i]);
    }
    var clamped := delayVsExpected[..];

    table := seq(n, i requires 0 <= i < n =>
      WaitTimeRow(orders[i].orderId, wait[i], expected[i], clamped[i], orders[i].orderStatus));
  }

  // ---------------------------------------------------------------------
  // get_review_score (lines 59-74)

  /** (condition).astype(int) */
  function Flag(b: bool): int {
    if b then 1 else 0
  }

  /** The output row get_review_score derives from one review row (lines 65-72). */
  function ReviewScoreFeatures(r: ReviewRow): (f: ReviewScoreRow)
    ensures f.orderId == r.orderId && f.reviewScore == r.reviewScore
    ensures f.dimIsFiveStar in {0, 1} && f.dimIsOneStar in {0, 1}
    ensures f.dimIsFiveStar == 1 <==> r.reviewScore == Some(5)
    ensures f.dimIsOneStar == 1 <==> r.reviewScore == Some(1)
    ensures !(f.dimIsFiveStar == 1 && f.dimIsOneStar == 1)
  {
    ReviewScoreRow(r.orderId, Flag(r.reviewScore == Some(5)), Flag(r.reviewScore == Some(1)), r.reviewScore)
  }

  function ReviewScoreTable(reviews: seq<ReviewRow>): seq<ReviewScoreRow> {
    seq(|reviews|, i requires 0 <= i < |reviews| => ReviewScoreFeatures(reviews[i]))
  }

  /** Order.get_review_score: copy the two columns, then assign the two flag columns. */
  method GetReviewScore(data: Data) returns (table: seq<ReviewScoreRow>)
    ensures table == ReviewScoreTable(data.orderReviews)
  {
    var reviewScores := data.orderReviews;
    var n := |reviewScores|;

    var fiveStar := new int[n];
    for i := 0 to n
      invariant forall k :: 0 <= k < i ==> fiveStar[k] == Flag(reviewScores[k].reviewScore == Some(5))
    {
      fiveStar[i] := Flag(reviewScores[i].reviewScore == Some(5));
    }
    var five := fiveStar[..];

    var oneStar := new int[n];
    for i := 0 to n
      invariant forall k :: 0 <= k < i ==> oneStar[k] == Flag(reviewScores[k].reviewScore == Some(1))
    {
      oneStar[i] := Flag(reviewScores[i].reviewScore == Some(1));
    }
    var one := oneStar[..];

    table := seq(n, i requires 0 <= i < n =>
      ReviewScoreRow(reviewScores[i].orderId, five[i], one[i], reviewScores[i].reviewScore));
  }

  // ---------------------------------------------------------------------
  // get_number_items (lines 76-84)

  function ItemOrderIds(items: seq<ItemRow>): seq<string> {
    seq(|items|, i requires 0 <= i < |items| => items[i].orderId)
  }

  /** The group keys of items.groupby('order_id'). */
  function ItemGroups(items: seq<ItemRow>): seq<string> {
    Dedup(ItemOrderIds(items))
  }

  function NumberItemsRows(ks: seq<string>, items: seq<ItemRow>): (rows: seq<NumberItemsRow>)
    ensures |rows| == |ks|
    ensures forall i :: 0 <= i < |ks| ==> rows[i] == NumberItemsRow(ks[i], CountKey(items, ItemKey, ks[i]))
  {
    if |ks| == 0 then []
    else [NumberItemsRow(ks[0], CountKey(items, ItemKey, ks[0]))] + NumberItemsRows(ks[1..], items)
  }

  /** items.groupby('order_id').size() */
  function NumberItems(items: seq<ItemRow>): seq<NumberItemsRow> {
    NumberItemsRows(ItemGroups(items), items)
  }

  /** The sum of the number_of_items column. */
  function ItemsTotal(rows: seq<NumberItemsRow>): nat {
    if |rows| == 0 then 0 else rows[0].numberOfItems + ItemsTotal(rows[1..])
  }

  // ---------------------------------------------------------------------
  // get_number_sellers (lines 86-100)

  function MatchingSellers(sellerId: string, sellers: seq<SellerRow>): seq<SellerRow> {
    if |sellers| == 0 then []
    else (if sellers[0].sellerId == sellerId then [sellers[0]] else []) + MatchingSellers(sellerId, sellers[1..])
  }

  /** The rows one item contributes to a left merge: one per matching seller, or one with no seller. */
  function MergeItem(item: ItemRow, sellers: seq<SellerRow>): (m: seq<MergedItemRow>)
    ensures |m| > 0
    ensures forall i :: 0 <= i < |m| ==> m[i].item == item
  {
    var matched := MatchingSellers(item.sellerId, sellers);
    if |matched| == 0 then [MergedItemRow(item, None)]
    else seq(|matched|, i requires 0 <= i < |matched| => MergedItemRow(item, Some(matched[i])))
  }

  /** items.merge(sellers, on='seller_id', how='left'): item order, then seller order. */
  function LeftMerge(items: seq<ItemRow>, sellers: seq<SellerRow>): seq<MergedItemRow> {
    if |items| == 0 then []
    else LeftMerge(items[..|items| - 1], sellers) + MergeItem(items[|items| - 1], sellers)
  }

  function MergedOrderIds(merged: seq<MergedItemRow>): seq<string> {
    seq(|merged|, i requires 0 <= i < |merged| => merged[i].item.orderId)
  }

  /** The distinct seller_id values among the merged rows of order x. */
  function MergedSellers(merged: seq<MergedItemRow>, x: string): set<string> {
    if |merged| == 0 then {}
    else (if merged[0].item.orderId == x then {merged[0].item.sellerId} else {}) + MergedSellers(merged[1..], x)
  }

  function NumberSellersRows(ks: seq<string>, merged: seq<MergedItemRow>): (rows: seq<NumberSellersRow>)
    ensures |rows| == |ks|
    ensures forall i :: 0 <= i < |ks| ==> rows[i] == NumberSellersRow(ks[i], |MergedSellers(merged, ks[i])|)
  {
    if |ks| == 0 then []
    else [NumberSellersRow(ks[0], |MergedSellers(merged, ks[0])|)] + NumberSellersRows(ks[1..], merged)
  }

  /** merged.groupby('order_id')['seller_id'].nunique() */
  function NumberSellers(items: seq<ItemRow>, sellers: seq<SellerRow>): seq<NumberSellersRow> {
    var merged := LeftMerge(items, sellers);
    NumberSellersRows(Dedup(MergedOrderIds(merged)), merged)
  }

  /** Reference: the distinct seller_id values among the item rows of order x. */
  ghost function ItemSellers(items: seq<ItemRow>, x: string): set<string> {
    if |items| == 0 then {}
    else
      var last := items[|items| - 1];
      ItemSellers(items[..|items| - 1], x) + (if last.orderId == x then {last.sellerId} else {})
  }

  // ---------------------------------------------------------------------
  // get_price_and_freight (lines 102-109)

  function Price(r: ItemRow): real { r.price }
  function Freight(r: ItemRow): real { r.freightValue }
  function RowPrice(r: PriceFreightRow): real { r.price }
  function RowFreight(r: PriceFreightRow): real { r.freightValue }

  function PriceFreightRows(ks: seq<string>, items: seq<ItemRow>): (rows: seq<PriceFreightRow>)
    ensures |rows| == |ks|
    ensures forall i :: 0 <= i < |ks| ==>
      rows[i] == PriceFreightRow(ks[i], SumKey(items, ItemKey, Price, ks[i]), SumKey(items, ItemKey, Freight, ks[i]))
  {
    if |ks| == 0 then []
    else
      [PriceFreightRow(ks[0], SumKey(items, ItemKey, Price, ks[0]), SumKey(items, ItemKey, Freight, ks[0]))]
      + PriceFreightRows(ks[1..], items)
  }

  /** items.groupby('order_id')[["price", "freight_value"]].sum() */
  function PriceAndFreight(items: seq<ItemRow>): seq<PriceFreightRow> {
    PriceFreightRows(ItemGroups(items), items)
  }

  // ---------------------------------------------------------------------
  // get_training_data (lines 185-204)

  type WaitReview = (WaitTimeRow, ReviewScoreRow)
  type WithItems = (WaitReview, NumberItemsRow)
  type WithSellers = (WithItems, NumberSellersRow)
  type Joined = (WithSellers, PriceFreightRow)

  function WaitReviewKey(p: WaitReview): string { p.0.orderId }
  function WithItemsKey(p: WithItems): string { p.0.0.orderId }
  function WithSellersKey(p: WithSellers): string { p.0.0.0.orderId }
  // The five rows a fully merged row is made of.
  function WaitPart(p: Joined): WaitTimeRow { p.0.0.0.0 }
  function ReviewPart(p: Joined): ReviewScoreRow { p.0.0.0.1 }
  function ItemsPart(p: Joined): NumberItemsRow { p.0.0.1 }
  function SellersPart(p: Joined): NumberSellersRow { p.0.1 }
  function PricePart(p: Joined): PriceFreightRow { p.1 }

  function JoinedKey(p: Joined): string { WaitPart(p).orderId }

  /** The merge chain of lines 194-198, always on get_wait_time(is_delivered=True). */
  function JoinedFeatures(data: Data): seq<Joined> {
    var waitReview := InnerJoin(WaitTimeTable(data.orders, true), ReviewScoreTable(data.orderReviews), WaitTimeKey, ReviewScoreKey);
    var withItems := InnerJoin(waitReview, NumberItems(data.orderItems), WaitReviewKey, NumberItemsKey);
    var withSellers := InnerJoin(withItems, NumberSellers(data.orderItems, data.sellers), WithItemsKey, NumberSellersKey);
    InnerJoin(withSellers, PriceAndFreight(data.orderItems), WithSellersKey, PriceFreightKey)
  }

  function ToTrainingRow(p: Joined): TrainingRow {
    var w, r := WaitPart(p), ReviewPart(p);
    var items, sellers, pf := ItemsPart(p), SellersPart(p), PricePart(p);
    TrainingRow(
      w.orderId, w.waitTime, w.expectedWaitTime, w.delayVsExpected, w.orderStatus,
      r.dimIsFiveStar, r.dimIsOneStar, r.reviewScore,
      items.numberOfItems, sellers.numberOfSellers, pf.price, pf.freightValue)
  }

  function Flatten(joined: seq<Joined>): seq<TrainingRow> {
    seq(|joined|, i requires 0 <= i < |joined| => ToTrainingRow(joined[i]))
  }

  /** No column of the row is missing. */
  predicate Complete(t: TrainingRow) {
    t.waitTime.Some? && t.expectedWaitTime.Some? && t.delayVsExpected.Some? && t.reviewScore.Some?
  }

  /** df.dropna() */
  function DropNa(rows: seq<TrainingRow>): (kept: seq<TrainingRow>)
    ensures |kept| <= |rows|
    ensures forall t :: t in kept <==> t in rows && Complete(t)
  {
    if |rows| == 0 then []
    else
      assert forall t :: t in rows <==> t == rows[0] || t in rows[1..];
      (if Complete(rows[0]) then [rows[0]] else []) + DropNa(rows[1..])
  }

  /**
   * Order.get_training_data.  Neither argument is used: line 194 passes
   * is_delivered=True and the distance feature is never merged in.
   */
  function TrainingData(data: Data, isDelivered: bool, withDistanceSellerCustomer: bool): (rows: seq<TrainingRow>)
    ensures forall t :: t in rows ==> Complete(t)
  {
    DropNa(Flatten(JoinedFeatures(data)))
  }
}
