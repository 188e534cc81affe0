/** What the feature tables of olist/order.py promise, proved about the Order model. */
module OrderProperties {
  import opened Wrappers
  import opened Relational
  import opened Order

  // ---------------------------------------------------------------------
  // get_wait_time

  /** With is_delivered, the table holds exactly the features of the delivered orders (line 25). */
  lemma WaitTimeDelivered(orders: seq<OrderRow>)
    ensures forall w :: w in WaitTimeTable(orders, true) ==> w.orderStatus == DELIVERED
    ensures forall o :: o in orders && o.orderStatus == DELIVERED ==> WaitTimeFeatures(o) in WaitTimeTable(orders, true)
  {
    var kept := Delivered(orders);
    var table := WaitTimeTable(orders, true);
    forall w | w in table ensures w.orderStatus == DELIVERED {
      var i :| 0 <= i < |table| && table[i] == w;
      assert kept[i] in kept;
    }
    forall o | o in orders && o.orderStatus == DELIVERED ensures WaitTimeFeatures(o) in table {
      var i :| 0 <= i < |kept| && kept[i] == o;
      assert table[i] == WaitTimeFeatures(o);
    }
  }

  /** Without is_delivered, there is one row per order row, in the same order (lines 22-24). */
  lemma WaitTimeAllOrders(orders: seq<OrderRow>)
    ensures |WaitTimeTable(orders, false)| == |orders|
    ensures forall i :: 0 <= i < |orders| ==>
      WaitTimeTable(orders, false)[i].orderId == orders[i].orderId &&
      WaitTimeTable(orders, false)[i].orderStatus == orders[i].orderStatus
  {
  }

  function Max(a: real, b: real): real {
    if a >= b then a else b
  }

  /**
   * With all three timestamps present, delay_vs_expected is the lateness
   * wait_time - expected_wait_time clamped at zero (lines 40-55).
   */
  lemma DelayIsClampedLateness(o: OrderRow)
    requires o.orderPurchaseTimestamp.Some? && o.orderDeliveredCustomerDate.Some? && o.orderEstimatedDeliveryDate.Some?
    ensures var w := WaitTimeFeatures(o);
      w.waitTime.Some? && w.expectedWaitTime.Some? && w.delayVsExpected.Some? &&
      w.delayVsExpected.value == Max(0.0, w.waitTime.value - w.expectedWaitTime.value)
    ensures var w := WaitTimeFeatures(o);
      o.orderDeliveredCustomerDate.value <= o.orderEstimatedDeliveryDate.value <==> w.delayVsExpected == Some(0.0)
  {
    var p := o.orderPurchaseTimestamp.value;
    var d := o.orderDeliveredCustomerDate.value;
    var e := o.orderEstimatedDeliveryDate.value;
    var n := SECONDS_PER_DAY as real;
    assert (d - p) as real / n - (e - p) as real / n == (d - e) as real / n;
    assert d <= e <==> (d - e) as real / n <= 0.0;
  }

  /** A missing timestamp gives missing values, and the row is kept (lines 40-55). */
  lemma MissingTimestampKeepsRow(orders: seq<OrderRow>, i: nat)
    requires i < |orders|
    requires orders[i].orderDeliveredCustomerDate.None?
    ensures WaitTimeTable(orders, false)[i].orderId == orders[i].orderId
    ensures WaitTimeTable(orders, false)[i].waitTime.None?
    ensures WaitTimeTable(orders, false)[i].delayVsExpected.None?
  {
  }

  /** Purchased at t, delivered four days later, expected after nine: 4.0, 9.0 and no delay. */
  lemma WaitTimeScenario(id: string, t: int)
    ensures WaitTimeTable([OrderRow(id, DELIVERED, Some(t), None, None, Some(t + 4 * SECONDS_PER_DAY), Some(t + 9 * SECONDS_PER_DAY))], true)
      == [WaitTimeRow(id, Some(4.0), Some(9.0), Some(0.0), DELIVERED)]
  {
    var o := OrderRow(id, DELIVERED, Some(t), None, None, Some(t + 4 * SECONDS_PER_DAY), Some(t + 9 * SECONDS_PER_DAY));
    assert Delivered([o]) == [o] by {
      assert [o][1..] == [];
    }
  }

  // ---------------------------------------------------------------------
  // get_review_score

  /** One output row per review row, in order, with no deduplication; the flags follow the score (lines 64-72). */
  lemma ReviewScoreRows(reviews: seq<ReviewRow>)
    ensures |ReviewScoreTable(reviews)| == |reviews|
    ensures forall i :: 0 <= i < |reviews| ==>
      var f := ReviewScoreTable(reviews)[i];
      f.orderId == reviews[i].orderId && f.reviewScore == reviews[i].reviewScore &&
      (f.dimIsFiveStar == 1 <==> reviews[i].reviewScore == Some(5)) &&
      (f.dimIsOneStar == 1 <==> reviews[i].reviewScore == Some(1)) &&
      f.dimIsFiveStar in {0, 1} && f.dimIsOneStar in {0, 1} && f.dimIsFiveStar + f.dimIsOneStar <= 1
  {
  }

  // ---------------------------------------------------------------------
  // The group keys

  lemma ItemGroupsKeys(items: seq<ItemRow>)
    ensures Distinct(ItemGroups(items))
    ensures forall x :: x in ItemGroups(items) <==> x in Keys(items, ItemKey)
  {
    var ids := ItemOrderIds(items);
    forall x ensures x in ItemGroups(items) <==> x in Keys(items, ItemKey) {
      if x in ids {
        var i :| 0 <= i < |ids| && ids[i] == x;
        assert ItemKey(items[i]) == x;
      }
      if x in Keys(items, ItemKey) {
        var i :| 0 <= i < |items| && ItemKey(items[i]) == x;
        assert ids[i] == x;
      }
    }
  }

  /** A table whose i-th key is ks[i] for distinct ks has unique keys and the key set of ks. */
  lemma {:induction false} KeysFollow<A>(rows: seq<A>, key: A -> string, ks: seq<string>)
    requires Distinct(ks)
    requires |rows| == |ks| && forall i :: 0 <= i < |ks| ==> key(rows[i]) == ks[i]
    ensures forall i, j :: 0 <= i < j < |rows| ==> key(rows[i]) != key(rows[j])
    ensures forall x :: x in Keys(rows, key) <==> x in ks
    ensures forall x :: CountKey(rows, key, x) == if x in ks then 1 else 0
  {
    forall x ensures CountKey(rows, key, x) == if x in ks then 1 else 0 {
      CountKeyPointwise(rows, ks, key, Ident, x);
      DistinctCount(ks, x);
    }
    forall x | x in ks ensures x in Keys(rows, key) {
      var i :| 0 <= i < |ks| && ks[i] == x;
      assert key(rows[i]) == x;
    }
  }

  // ---------------------------------------------------------------------
  // get_number_items

  /** Each order_id of the items appears once, with the number of its item rows, which is at least 1 (line 82). */
  lemma NumberItemsGroups(items: seq<ItemRow>)
    ensures var t := NumberItems(items);
      (forall i, j :: 0 <= i < j < |t| ==> t[i].orderId != t[j].orderId) &&
      Keys(t, NumberItemsKey) == Keys(items, ItemKey) &&
      forall i :: 0 <= i < |t| ==>
        t[i].numberOfItems == CountKey(items, ItemKey, t[i].orderId) && t[i].numberOfItems >= 1
  {
    var ks := ItemGroups(items);
    var t := NumberItems(items);
    ItemGroupsKeys(items);
    KeysFollow(t, NumberItemsKey, ks);
    forall i | 0 <= i < |t| ensures t[i].numberOfItems >= 1 {
      assert ks[i] in Keys(items, ItemKey);
      CountKeyPositive(items, ItemKey, ks[i]);
    }
  }

  lemma {:induction false} ItemsTotalOver(ks: seq<string>, items: seq<ItemRow>)
    ensures ItemsTotal(NumberItemsRows(ks, items)) == CountsOver(ks, items, ItemKey)
  {
    if |ks| > 0 {
      var rows := NumberItemsRows(ks, items);
      assert rows[1..] == NumberItemsRows(ks[1..], items);
      ItemsTotalOver(ks[1..], items);
    }
  }

  lemma ItemsInGroups(items: seq<ItemRow>)
    ensures forall i :: 0 <= i < |items| ==> ItemKey(items[i]) in ItemGroups(items)
  {
    ItemGroupsKeys(items);
    forall i | 0 <= i < |items| ensures ItemKey(items[i]) in ItemGroups(items) {
      assert ItemKey(items[i]) in Keys(items, ItemKey);
    }
  }

  /** The counts add up to the number of item rows. */
  lemma NumberItemsTotal(items: seq<ItemRow>)
    ensures ItemsTotal(NumberItems(items)) == |items|
  {
    ItemsTotalOver(ItemGroups(items), items);
    ItemGroupsKeys(items);
    ItemsInGroups(items);
    CountsOverAll(ItemGroups(items), items, ItemKey);
  }

  // ---------------------------------------------------------------------
  // get_number_sellers

  lemma {:induction false} MergedSellersConcat(a: seq<MergedItemRow>, b: seq<MergedItemRow>, x: string)
    ensures MergedSellers(a + b, x) == MergedSellers(a, x) + MergedSellers(b, x)
  {
    if |a| == 0 {
      assert a + b == b;
    } else {
      assert (a + b)[0] == a[0] && (a + b)[1..] == a[1..] + b;
      MergedSellersConcat(a[1..], b, x);
    }
  }

  lemma {:induction false} MergedSellersUniform(m: seq<MergedItemRow>, item: ItemRow, x: string)
    requires |m| > 0 && forall i :: 0 <= i < |m| ==> m[i].item == item
    ensures MergedSellers(m, x) == if item.orderId == x then {item.sellerId} else {}
  {
    if |m| > 1 {
      assert forall i :: 0 <= i < |m| - 1 ==> m[1..][i] == m[i + 1];
      MergedSellersUniform(m[1..], item, x);
    }
  }

  /** Merging in the sellers keeps each order's set of seller_id values (line 93). */
  lemma {:induction false} LeftMergeSellers(items: seq<ItemRow>, sellers: seq<SellerRow>, x: string)
    ensures MergedSellers(LeftMerge(items, sellers), x) == ItemSellers(items, x)
  {
    if |items| > 0 {
      var init, last := items[..|items| - 1], items[|items| - 1];
      LeftMergeSellers(init, sellers, x);
      MergedSellersConcat(LeftMerge(init, sellers), MergeItem(last, sellers), x);
      MergedSellersUniform(MergeItem(last, sellers), last, x);
    }
  }

  lemma MergedOrderIdsConcat(a: seq<MergedItemRow>, b: seq<MergedItemRow>)
    ensures MergedOrderIds(a + b) == MergedOrderIds(a) + MergedOrderIds(b)
  {
    assert forall i :: 0 <= i < |a| ==> (a + b)[i] == a[i];
    assert forall i :: |a| <= i < |a| + |b| ==> (a + b)[i] == b[i - |a|];
  }

  /** The merged rows of the last item repeat its order_id, which Dedup sees once. */
  lemma MergedIdsStep(items: seq<ItemRow>, sellers: seq<SellerRow>)
    requires |items| > 0
    ensures Dedup(MergedOrderIds(LeftMerge(items, sellers)))
      == Dedup(MergedOrderIds(LeftMerge(items[..|items| - 1], sellers)) + [items[|items| - 1].orderId])
  {
    var init, last := items[..|items| - 1], items[|items| - 1];
    var m := MergedOrderIds(LeftMerge(init, sellers));
    var b := MergedOrderIds(MergeItem(last, sellers));
    MergedOrderIdsConcat(LeftMerge(init, sellers), MergeItem(last, sellers));
    DedupRepeat(m, b, last.orderId);
  }

  /** Merging in the sellers keeps the group keys and their order (lines 93-95). */
  lemma {:induction false} LeftMergeGroups(items: seq<ItemRow>, sellers: seq<SellerRow>)
    ensures Dedup(MergedOrderIds(LeftMerge(items, sellers))) == ItemGroups(items)
  {
    if |items| == 0 {
      assert MergedOrderIds(LeftMerge(items, sellers)) == [] == ItemOrderIds(items);
    } else {
      var init, last := items[..|items| - 1], items[|items| - 1];
      MergedIdsStep(items, sellers);
      LeftMergeGroups(init, sellers);
      DedupSnoc(MergedOrderIds(LeftMerge(init, sellers)), ItemOrderIds(init), last.orderId);
      assert ItemOrderIds(items) == ItemOrderIds(init) + [last.orderId];
    }
  }

  /** The seller table does not matter: the item rows alone decide number_of_sellers (lines 93-99). */
  lemma NumberSellersIgnoresSellers(items: seq<ItemRow>, sellers: seq<SellerRow>, others: seq<SellerRow>)
    ensures NumberSellers(items, sellers) == NumberSellers(items, others)
  {
    LeftMergeGroups(items, sellers);
    LeftMergeGroups(items, others);
    var r1, r2 := NumberSellers(items, sellers), NumberSellers(items, others);
    forall i | 0 <= i < |r1| ensures r1[i] == r2[i] {
      var k := ItemGroups(items)[i];
      LeftMergeSellers(items, sellers, k);
      LeftMergeSellers(items, others, k);
    }
  }

  /** An order has at least one and at most number_of_items distinct sellers. */
  lemma {:induction false} SellersAtMostItems(items: seq<ItemRow>, x: string)
    ensures |ItemSellers(items, x)| <= CountKey(items, ItemKey, x)
    ensures x in Keys(items, ItemKey) ==> |ItemSellers(items, x)| >= 1
  {
    if |items| > 0 {
      var init, last := items[..|items| - 1], items[|items| - 1];
      SellersAtMostItems(init, x);
      assert items == init + [last];
      CountKeyConcat(init, [last], ItemKey, x);
      assert CountKey([last], ItemKey, x) == if last.orderId == x then 1 else 0 by {
        assert [last][1..] == [];
      }
      var s := ItemSellers(init, x);
      if last.orderId == x {
        assert ItemSellers(items, x) == s + {last.sellerId};
        if last.sellerId !in s {
          assert |s + {last.sellerId}| == |s| + 1;
        } else {
          assert s + {last.sellerId} == s;
        }
      } else if x in Keys(items, ItemKey) {
        var i :| 0 <= i < |items| && ItemKey(items[i]) == x;
        assert ItemKey(init[i]) == x;
      }
    }
  }

  /**
   * Each order_id of the items appears once, with the number of distinct
   * seller_id values among its item rows: at least 1 and at most its
   * number_of_items (lines 93-99).
   */
  lemma NumberSellersGroups(items: seq<ItemRow>, sellers: seq<SellerRow>)
    ensures var t := NumberSellers(items, sellers);
      (forall i, j :: 0 <= i < j < |t| ==> t[i].orderId != t[j].orderId) &&
      Keys(t, NumberSellersKey) == Keys(items, ItemKey) &&
      forall i :: 0 <= i < |t| ==>
        t[i].numberOfSellers == |ItemSellers(items, t[i].orderId)| &&
        1 <= t[i].numberOfSellers <= CountKey(items, ItemKey, t[i].orderId)
  {
    var ks := ItemGroups(items);
    var t := NumberSellers(items, sellers);
    LeftMergeGroups(items, sellers);
    ItemGroupsKeys(items);
    KeysFollow(t, NumberSellersKey, ks);
    forall i | 0 <= i < |t|
      ensures t[i].numberOfSellers == |ItemSellers(items, t[i].orderId)|
      ensures 1 <= t[i].numberOfSellers <= CountKey(items, ItemKey, t[i].orderId)
    {
      LeftMergeSellers(items, sellers, ks[i]);
      assert ks[i] in Keys(items, ItemKey);
      SellersAtMostItems(items, ks[i]);
    }
  }

  // ---------------------------------------------------------------------
  // get_price_and_freight

  /** Each order_id of the items appears once, with the group sums of price and freight_value (line 108). */
  lemma PriceAndFreightGroups(items: seq<ItemRow>)
    ensures var t := PriceAndFreight(items);
      (forall i, j :: 0 <= i < j < |t| ==> t[i].orderId != t[j].orderId) &&
      Keys(t, PriceFreightKey) == Keys(items, ItemKey) &&
      forall i :: 0 <= i < |t| ==>
        t[i].price == SumKey(items, ItemKey, Price, t[i].orderId) &&
        t[i].freightValue == SumKey(items, ItemKey, Freight, t[i].orderId)
  {
    ItemGroupsKeys(items);
    KeysFollow(PriceAndFreight(items), PriceFreightKey, ItemGroups(items));
  }

  lemma {:induction false} PriceTotalOver(ks: seq<string>, items: seq<ItemRow>)
    ensures Total(PriceFreightRows(ks, items), RowPrice) == SumsOver(ks, items, ItemKey, Price)
    ensures Total(PriceFreightRows(ks, items), RowFreight) == SumsOver(ks, items, ItemKey, Freight)
  {
    if |ks| > 0 {
      var rows := PriceFreightRows(ks, items);
      assert rows[1..] == PriceFreightRows(ks[1..], items);
      PriceTotalOver(ks[1..], items);
    }
  }

  /** Over all orders, the price and freight_value columns add up to the item totals. */
  lemma PriceAndFreightTotals(items: seq<ItemRow>)
    ensures Total(PriceAndFreight(items), RowPrice) == Total(items, Price)
    ensures Total(PriceAndFreight(items), RowFreight) == Total(items, Freight)
  {
    PriceTotalOver(ItemGroups(items), items);
    ItemGroupsKeys(items);
    ItemsInGroups(items);
    SumsOverAll(ItemGroups(items), items, ItemKey, Price);
    SumsOverAll(ItemGroups(items), items, ItemKey, Freight);
  }

  // ---------------------------------------------------------------------
  // get_training_data

  /** Every row of the wait-time table comes from one order row that passed the filter. */
  lemma WaitTimeRowOrigin(orders: seq<OrderRow>, isDelivered: bool, w: WaitTimeRow)
    requires w in WaitTimeTable(orders, isDelivered)
    ensures exists i ::
      0 <= i < |orders| && (isDelivered ==> orders[i].orderStatus == DELIVERED) && w == WaitTimeFeatures(orders[i])
  {
    var kept := StatusFilter(orders, isDelivered);
    var i :| 0 <= i < |kept| && WaitTimeTable(orders, isDelivered)[i] == w;
    assert kept[i] in kept;
    var j :| 0 <= j < |orders| && orders[j] == kept[i];
  }

  /** Every row of the review table comes from one review row. */
  lemma ReviewRowOrigin(reviews: seq<ReviewRow>, r: ReviewScoreRow)
    requires r in ReviewScoreTable(reviews)
    ensures exists i :: 0 <= i < |reviews| && r == ReviewScoreFeatures(reviews[i])
  {
  }

  /** A joined row pairs rows of the five feature tables that share one order_id (lines 194-198). */
  lemma JoinedRowParts(data: Data, p: Joined)
    requires p in JoinedFeatures(data)
    ensures WaitPart(p) in WaitTimeTable(data.orders, true)
    ensures ReviewPart(p) in ReviewScoreTable(data.orderReviews)
    ensures ItemsPart(p) in NumberItems(data.orderItems)
    ensures SellersPart(p) in NumberSellers(data.orderItems, data.sellers)
    ensures PricePart(p) in PriceAndFreight(data.orderItems)
    ensures var x := WaitPart(p).orderId;
      ReviewPart(p).orderId == x && ItemsPart(p).orderId == x && SellersPart(p).orderId == x && PricePart(p).orderId == x
  {
    var waitReview := InnerJoin(WaitTimeTable(data.orders, true), ReviewScoreTable(data.orderReviews), WaitTimeKey, ReviewScoreKey);
    var withItems := InnerJoin(waitReview, NumberItems(data.orderItems), WaitReviewKey, NumberItemsKey);
    var withSellers := InnerJoin(withItems, NumberSellers(data.orderItems, data.sellers), WithItemsKey, NumberSellersKey);
    assert p.0 in withSellers;
    assert p.0.0 in withItems;
    assert p.0.0.0 in waitReview;
  }

  /** Every training row is the flattening of one joined row. */
  lemma TrainingRowOrigin(data: Data, isDelivered: bool, withDistance: bool, t: TrainingRow)
    requires t in TrainingData(data, isDelivered, withDistance)
    ensures exists p :: p in JoinedFeatures(data) && t == ToTrainingRow(p)
  {
    var joined := JoinedFeatures(data);
    var flat := Flatten(joined);
    assert t in DropNa(flat);
    assert t in flat;
    var i :| 0 <= i < |flat| && flat[i] == t;
    assert flat[i] == ToTrainingRow(joined[i]);
    assert joined[i] in joined;
  }

  /** The row of a joined row comes from a delivered order, a review and the item groups of its order_id. */
  lemma JoinedRowSources(data: Data, p: Joined)
    requires p in JoinedFeatures(data)
    ensures var t := ToTrainingRow(p);
      t.orderStatus == DELIVERED &&
      t.orderId in Keys(data.orders, OrderKey) &&
      t.orderId in Keys(data.orderReviews, ReviewKey) &&
      t.orderId in Keys(data.orderItems, ItemKey)
  {
    JoinedRowParts(data, p);
    WaitTimeRowKey(data.orders, WaitPart(p));
    ReviewRowKey(data.orderReviews, ReviewPart(p));
    NumberItemsRowKey(data.orderItems, ItemsPart(p));
  }

  lemma WaitTimeRowKey(orders: seq<OrderRow>, w: WaitTimeRow)
    requires w in WaitTimeTable(orders, true)
    ensures w.orderStatus == DELIVERED && w.orderId in Keys(orders, OrderKey)
  {
    WaitTimeRowOrigin(orders, true, w);
    var i :| 0 <= i < |orders| && orders[i].orderStatus == DELIVERED && w == WaitTimeFeatures(orders[i]);
    assert OrderKey(orders[i]) == w.orderId;
  }

  lemma ReviewRowKey(reviews: seq<ReviewRow>, r: ReviewScoreRow)
    requires r in ReviewScoreTable(reviews)
    ensures r.orderId in Keys(reviews, ReviewKey)
  {
    ReviewRowOrigin(reviews, r);
    var j :| 0 <= j < |reviews| && r == ReviewScoreFeatures(reviews[j]);
    assert ReviewKey(reviews[j]) == r.orderId;
  }

  lemma NumberItemsRowKey(items: seq<ItemRow>, n: NumberItemsRow)
    requires n in NumberItems(items)
    ensures n.orderId in Keys(items, ItemKey)
  {
    ItemGroupsKeys(items);
    var t := NumberItems(items);
    var k :| 0 <= k < |t| && t[k] == n;
  }

  /**
   * Whatever is_delivered says, the training rows are delivered orders
   * with every column present, and their order_id has a review, an item
   * and hence a seller and a price (lines 194-202).
   */
  lemma TrainingRowsFromAllTables(data: Data, isDelivered: bool, withDistance: bool)
    ensures forall t :: t in TrainingData(data, isDelivered, withDistance) ==>
      t.orderStatus == DELIVERED && Complete(t) &&
      t.orderId in Keys(data.orders, OrderKey) &&
      t.orderId in Keys(data.orderReviews, ReviewKey) &&
      t.orderId in Keys(data.orderItems, ItemKey)
  {
    forall t | t in TrainingData(data, isDelivered, withDistance)
      ensures t.orderStatus == DELIVERED
      ensures t.orderId in Keys(data.orders, OrderKey)
      ensures t.orderId in Keys(data.orderReviews, ReviewKey)
      ensures t.orderId in Keys(data.orderItems, ItemKey)
    {
      TrainingRowOrigin(data, isDelivered, withDistance, t);
      var p :| p in JoinedFeatures(data) && t == ToTrainingRow(p);
      JoinedRowSources(data, p);
    }
  }

  /** get_training_data ignores both of its arguments (lines 194 and 185-204). */
  lemma TrainingFlagsIgnored(data: Data, isDelivered: bool, withDistance: bool)
    ensures TrainingData(data, isDelivered, withDistance) == TrainingData(data, true, false)
  {
  }

  /** An order without a review row gets no training row. */
  lemma NoReviewNoTrainingRow(data: Data, isDelivered: bool, withDistance: bool, x: string)
    requires x !in Keys(data.orderReviews, ReviewKey)
    ensures CountKey(TrainingData(data, isDelivered, withDistance), TrainingKey, x) == 0
  {
    TrainingRowsFromAllTables(data, isDelivered, withDistance);
    var rows := TrainingData(data, isDelivered, withDistance);
    forall i | 0 <= i < |rows| ensures TrainingKey(rows[i]) != x {
      assert rows[i] in rows;
    }
    CountKeyAbsent(rows, TrainingKey, x);
  }

  lemma {:induction false} CountKeyAbsent<A>(rows: seq<A>, key: A -> string, x: string)
    requires forall i :: 0 <= i < |rows| ==> key(rows[i]) != x
    ensures CountKey(rows, key, x) == 0
  {
    if |rows| > 0 {
      assert forall i :: 0 <= i < |rows| - 1 ==> rows[1..][i] == rows[i + 1];
      CountKeyAbsent(rows[1..], key, x);
    }
  }

  /** Filtering on the status keeps every row of an order that is delivered. */
  lemma {:induction false} DeliveredKeepsCount(orders: seq<OrderRow>, x: string)
    requires forall i :: 0 <= i < |orders| && orders[i].orderId == x ==> orders[i].orderStatus == DELIVERED
    ensures CountKey(Delivered(orders), OrderKey, x) == CountKey(orders, OrderKey, x)
  {
    if |orders| > 0 {
      assert forall i :: 0 <= i < |orders| - 1 ==> orders[1..][i] == orders[i + 1];
      DeliveredKeepsCount(orders[1..], x);
      var head := if orders[0].orderStatus == DELIVERED then [orders[0]] else [];
      CountKeyConcat(head, Delivered(orders[1..]), OrderKey, x);
      if head != [] {
        assert head[1..] == [];
      }
    }
  }

  /** dropna keeps every row of an order whose rows are all complete. */
  lemma {:induction false} DropNaKeepsCount(rows: seq<TrainingRow>, x: string)
    requires forall i :: 0 <= i < |rows| && rows[i].orderId == x ==> Complete(rows[i])
    ensures CountKey(DropNa(rows), TrainingKey, x) == CountKey(rows, TrainingKey, x)
  {
    if |rows| > 0 {
      assert forall i :: 0 <= i < |rows| - 1 ==> rows[1..][i] == rows[i + 1];
      DropNaKeepsCount(rows[1..], x);
      var head := if Complete(rows[0]) then [rows[0]] else [];
      CountKeyConcat(head, DropNa(rows[1..]), TrainingKey, x);
      if head != [] {
        assert head[1..] == [];
      }
    }
  }

  /** Every order row of x is delivered. */
  ghost predicate DeliveredOrder(orders: seq<OrderRow>, x: string) {
    forall i :: 0 <= i < |orders| && orders[i].orderId == x ==> orders[i].orderStatus == DELIVERED
  }

  /** Every order row of x is delivered and carries the three timestamps the features use. */
  ghost predicate TimedDelivery(orders: seq<OrderRow>, x: string) {
    forall i :: 0 <= i < |orders| && orders[i].orderId == x ==>
      orders[i].orderStatus == DELIVERED && orders[i].orderPurchaseTimestamp.Some? &&
      orders[i].orderDeliveredCustomerDate.Some? && orders[i].orderEstimatedDeliveryDate.Some?
  }

  /** Every review row of x has a score. */
  ghost predicate ScoredReviews(reviews: seq<ReviewRow>, x: string) {
    forall i :: 0 <= i < |reviews| && reviews[i].orderId == x ==> reviews[i].reviewScore.Some?
  }

  /** The joined rows of x have no missing value when its order and reviews have none. */
  lemma JoinedRowComplete(data: Data, p: Joined)
    requires p in JoinedFeatures(data)
    requires TimedDelivery(data.orders, JoinedKey(p)) && ScoredReviews(data.orderReviews, JoinedKey(p))
    ensures Complete(ToTrainingRow(p))
  {
    JoinedRowParts(data, p);
    WaitTimeRowOrigin(data.orders, true, WaitPart(p));
    var i :| 0 <= i < |data.orders| && WaitPart(p) == WaitTimeFeatures(data.orders[i]);
    ReviewRowOrigin(data.orderReviews, ReviewPart(p));
    var j :| 0 <= j < |data.orderReviews| && ReviewPart(p) == ReviewScoreFeatures(data.orderReviews[j]);
  }

  /** Before the merges, x has one wait-time row, its review rows, and one row in each group table. */
  lemma FeatureCounts(data: Data, x: string)
    requires CountKey(data.orders, OrderKey, x) == 1 && DeliveredOrder(data.orders, x)
    requires x in Keys(data.orderItems, ItemKey)
    ensures CountKey(WaitTimeTable(data.orders, true), WaitTimeKey, x) == 1
    ensures CountKey(ReviewScoreTable(data.orderReviews), ReviewScoreKey, x) == CountKey(data.orderReviews, ReviewKey, x)
    ensures CountKey(NumberItems(data.orderItems), NumberItemsKey, x) == 1
    ensures CountKey(NumberSellers(data.orderItems, data.sellers), NumberSellersKey, x) == 1
    ensures CountKey(PriceAndFreight(data.orderItems), PriceFreightKey, x) == 1
  {
    DeliveredKeepsCount(data.orders, x);
    CountKeyPointwise(WaitTimeTable(data.orders, true), Delivered(data.orders), WaitTimeKey, OrderKey, x);
    CountKeyPointwise(ReviewScoreTable(data.orderReviews), data.orderReviews, ReviewScoreKey, ReviewKey, x);
    GroupCounts(data.orderItems, data.sellers, x);
  }

  lemma GroupCounts(items: seq<ItemRow>, sellers: seq<SellerRow>, x: string)
    requires x in Keys(items, ItemKey)
    ensures CountKey(NumberItems(items), NumberItemsKey, x) == 1
    ensures CountKey(NumberSellers(items, sellers), NumberSellersKey, x) == 1
    ensures CountKey(PriceAndFreight(items), PriceFreightKey, x) == 1
  {
    var ks := ItemGroups(items);
    ItemGroupsKeys(items);
    assert x in ks;
    DistinctCount(ks, x);
    CountKeyPointwise(NumberItems(items), ks, NumberItemsKey, Ident, x);
    LeftMergeGroups(items, sellers);
    CountKeyPointwise(NumberSellers(items, sellers), ks, NumberSellersKey, Ident, x);
    CountKeyPointwise(PriceAndFreight(items), ks, PriceFreightKey, Ident, x);
  }

  /**
   * The merge chain multiplies the group sizes of x: 1 * k * 1 * 1 * 1.
   * Missing timestamps do not matter here; only dropna removes such rows.
   */
  lemma JoinedCount(data: Data, x: string, k: nat)
    requires CountKey(data.orders, OrderKey, x) == 1 && DeliveredOrder(data.orders, x)
    requires CountKey(data.orderReviews, ReviewKey, x) == k
    requires x in Keys(data.orderItems, ItemKey)
    ensures CountKey(JoinedFeatures(data), JoinedKey, x) == k
  {
    var w := WaitTimeTable(data.orders, true);
    var r := ReviewScoreTable(data.orderReviews);
    var ni := NumberItems(data.orderItems);
    var ns := NumberSellers(data.orderItems, data.sellers);
    var pf := PriceAndFreight(data.orderItems);
    var waitReview := InnerJoin(w, r, WaitTimeKey, ReviewScoreKey);
    var withItems := InnerJoin(waitReview, ni, WaitReviewKey, NumberItemsKey);
    var withSellers := InnerJoin(withItems, ns, WithItemsKey, NumberSellersKey);

    FeatureCounts(data, x);
    InnerJoinCount(w, r, WaitTimeKey, ReviewScoreKey, WaitReviewKey, x);
    InnerJoinCount(waitReview, ni, WaitReviewKey, NumberItemsKey, WithItemsKey, x);
    InnerJoinCount(withItems, ns, WithItemsKey, NumberSellersKey, WithSellersKey, x);
    InnerJoinCount(withSellers, pf, WithSellersKey, PriceFreightKey, JoinedKey, x);
  }

  /**
   * The inner merges fan out: a delivered order with its timestamps, at
   * least one item and k reviews, all scored, gets exactly k training
   * rows (lines 194-202).
   */
  lemma ReviewFanOut(data: Data, x: string, k: nat)
    requires CountKey(data.orders, OrderKey, x) == 1 && TimedDelivery(data.orders, x)
    requires CountKey(data.orderReviews, ReviewKey, x) == k && ScoredReviews(data.orderReviews, x)
    requires x in Keys(data.orderItems, ItemKey)
    ensures CountKey(TrainingData(data, true, false), TrainingKey, x) == k
  {
    var joined := JoinedFeatures(data);
    JoinedCount(data, x, k);
    var flat := Flatten(joined);
    CountKeyPointwise(flat, joined, TrainingKey, JoinedKey, x);
    forall i | 0 <= i < |flat| && flat[i].orderId == x ensures Complete(flat[i]) {
      assert joined[i] in joined;
      JoinedRowComplete(data, joined[i]);
    }
    DropNaKeepsCount(flat, x);
  }
}
