/**
  Whole runs of the shop with one request after the other: stock never goes below zero and no
  two orders ever get the same number. `Perform` carries each operation out on a `Shop.ShopServer`.
 */
module SerialRuns {
  import opened Prelude
  import opened Orders
  import opened Cart
  import opened Payments
  import opened Shop

  datatype Op =
    | AddItem(userId: string, productId: string, quantity: int)
    | UpdateItem(userId: string, row: nat, quantity: int)
    | RemoveItem(userId: string, row: nat)
    | Clear(userId: string)
    | PlaceOrderOf(userId: string, addressOk: bool, explicit: seq<Item>, payMethod: PaymentMethod,
                   today: Date, createdOn: Date, gateway: Option<string>)
    | Verify(authority: string, ok: bool, verdict: GatewayAnswer)
    | Cancel(order: nat)
    | ChangeStatus(order: nat, status: OrderStatus)

  function Apply(c: Content, op: Op): Content {
    match op
    case AddItem(u, p, q) => c.(cart := AddToCart(c.db.products, c.cart, u, p, q).0)
    case UpdateItem(u, row, q) => c.(cart := UpdateCartItem(c.db.products, c.cart, u, row, q).0)
    case RemoveItem(u, row) => c.(cart := RemoveFromCart(c.cart, u, row).0)
    case Clear(u) => c.(cart := ClearCart(c.cart, u))
    case PlaceOrderOf(u, addressOk, explicit, m, today, createdOn, gateway) =>
      CheckoutTables(c, u, addressOk, explicit, m, today, createdOn, gateway).0
    case Verify(a, ok, verdict) =>
      var done := VerifyAlone(c.db, c.verdicts, a, ok, verdict);
      c.(db := done.db, verdicts := done.verdicts)
    case Cancel(id) => c.(db := CancelOrder(c.db, id).0)
    case ChangeStatus(id, status) =>
      if id < |c.db.orders|
      then c.(db := c.db.(orders := c.db.orders[id := c.db.orders[id].(status := status)])) else c
  }

  ghost function RunOps(c: Content, ops: seq<Op>): Content {
    Fold(Apply, c, ops)
  }

  ghost predicate Opening(c: Content) {
    c.db.orders == [] && c.cart == Table([], 0)
  }

  /** The operation as the server carries it out, each by its own method. */
  method Perform(shop: ShopServer, op: Op)
    modifies shop
    ensures shop.Tables() == Apply(old(shop.Tables()), op)
  {
    match op
    case AddItem(u, p, q) => var _ := shop.AddToCart(u, p, q);
    case UpdateItem(u, row, q) => var _ := shop.UpdateCartItem(u, row, q);
    case RemoveItem(u, row) => var _ := shop.RemoveFromCart(u, row);
    case Clear(u) => shop.ClearCart(u);
    case PlaceOrderOf(u, addressOk, explicit, m, today, createdOn, gateway) =>
      var _ := shop.Checkout(u, addressOk, explicit, m, today, createdOn, gateway);
    case Verify(a, ok, verdict) => var _ := shop.VerifyPayment(a, ok, verdict);
    case Cancel(id) => var _ := shop.CancelOrder(id);
    case ChangeStatus(id, status) => var _ := shop.UpdateStatus(id, status);
  }

  // ---------- what one operation does to the order table ----------

  /** The rows keep their lines, numbers and dates; only payment and status fields move. */
  ghost predicate SameGoods(orders: seq<Order>, orders': seq<Order>) {
    && |orders'| == |orders|
    && forall i :: 0 <= i < |orders| ==>
         && orders'[i].lines == orders[i].lines && orders'[i].orderNumber == orders[i].orderNumber
         && orders'[i].createdOn == orders[i].createdOn
  }

  ghost predicate SameShop(db: Db, db': Db) {
    db'.products == db.products && SameGoods(db.orders, db'.orders)
  }

  lemma VerifyStepKeepsGoods(s: State, a: Action)
    requires a.GatewayVerified? || a.WriteFailed? || a.WritePaid? || a.Reread?
    ensures SameShop(s.db, Next(s, a).db)
  {
  }

  lemma VerifyKeepsGoods(db: Db, verdicts: seq<Verdict>, authority: string, ok: bool, verdict: GatewayAnswer)
    ensures SameShop(db, VerifyAlone(db, verdicts, authority, ok, verdict).db)
  {
    var s := DoBeginVerify(State(db, map[], verdicts), 0, authority, ok);
    var t := Next(s, GatewayVerified(0, verdict));
    var u := Next(t, WriteFailed(0));
    var v := Next(u, WritePaid(0));
    VerifyStepKeepsGoods(s, GatewayVerified(0, verdict));
    VerifyStepKeepsGoods(t, WriteFailed(0));
    VerifyStepKeepsGoods(u, WritePaid(0));
    VerifyStepKeepsGoods(v, Reread(0));
  }

  /** Every operation but a successful checkout keeps the goods of all orders. */
  lemma OtherOpsKeepGoods(c: Content, op: Op)
    requires !op.PlaceOrderOf?
    ensures SameGoods(c.db.orders, Apply(c, op).db.orders)
    ensures !op.Cancel? ==> Apply(c, op).db.products == c.db.products
  {
    match op
    case Verify(a, ok, verdict) => VerifyKeepsGoods(c.db, c.verdicts, a, ok, verdict);
    case _ =>
  }

  /**
    A checkout changes nothing at all, or is exactly one placement (`CreateEffect` says which), after which
    at most the new order gets the gateway's authority and at most the user's own cart is cleared.
   */
  lemma CheckoutPlacesOne(c: Content, op: Op)
    requires op.PlaceOrderOf?
    ensures var created := CreateOrder(c.db, op.addressOk, CheckoutItems(c, op.userId, op.explicit), op.payMethod,
                                       op.today, op.createdOn);
            var c' := Apply(c, op);
            || c' == c
            || (&& created.1.Success? && created.1.value == |c.db.orders|
                && c'.verdicts == c.verdicts && c'.db.products == created.0.products
                && (c'.db.orders == created.0.orders || OnlyAuthorityAdded(created.0.orders, c'.db.orders, created.1.value))
                && (c'.cart == c.cart || c'.cart == ClearCart(c.cart, op.userId)))
  {
  }

  ghost predicate OnlyAuthorityAdded(orders: seq<Order>, orders': seq<Order>, id: nat) {
    id < |orders| == |orders'| && orders' == orders[id := orders[id].(authority := orders'[id].authority)]
  }

  // ---------- stock never goes below zero ----------

  ghost predicate PositiveLines(orders: seq<Order>) {
    forall i, j :: 0 <= i < |orders| && 0 <= j < |orders[i].lines| ==> orders[i].lines[j].quantity >= 1
  }

  /** What must be asked of a request: an explicit list names products once, with positive quantities. */
  ghost predicate CarefulOp(op: Op) {
    op.PlaceOrderOf? ==> DistinctProducts(op.explicit) && forall i :: 0 <= i < |op.explicit| ==> op.explicit[i].quantity >= 1
  }

  ghost predicate Healthy(c: Content) {
    TableOk(c.cart) && NoNegativeStock(c.db.products) && PositiveLines(c.db.orders)
  }

  lemma {:induction false} PositiveQuantity(lines: seq<OrderItem>, p: string)
    requires forall j :: 0 <= j < |lines| ==> lines[j].quantity >= 1
    ensures Quantity(lines, p) >= 0
  {
    if lines != [] { PositiveQuantity(lines[..|lines| - 1], p); }
  }

  lemma CarefulCreation(db: Db, addressOk: bool, items: seq<Item>, payMethod: PaymentMethod, today: Date, createdOn: Date)
    requires NoNegativeStock(db.products) && PositiveLines(db.orders) && DistinctProducts(items)
    requires forall i :: 0 <= i < |items| ==> items[i].quantity >= 1
    requires CreateOrder(db, addressOk, items, payMethod, today, createdOn).1.Success?
    ensures var db' := CreateOrder(db, addressOk, items, payMethod, today, createdOn).0;
            NoNegativeStock(db'.products) && PositiveLines(db'.orders)
  {
    var lines := Price(db.products, items).value;
    forall p | p in db.products ensures Quantity(lines, p) <= db.products[p].stock {
      DistinctItemsCovered(db.products, items, p);
    }
    PlaceNonNegativeIff(db, Draft(NextOrderNumber(db.orders, today), lines, payMethod), createdOn);
    PricedQuantities(db.products, items);
  }

  lemma PricedQuantities(products: Products, items: seq<Item>)
    requires Price(products, items).Success? && forall i :: 0 <= i < |items| ==> items[i].quantity >= 1
    ensures forall j :: 0 <= j < |items| ==> Price(products, items).value[j].quantity >= 1
  {
    PriceMeaning(products, items);
    forall j | 0 <= j < |items| ensures Price(products, items).value[j].quantity >= 1 {
      assert PriceItem(products, items[j]) == Success(Price(products, items).value[j]);
    }
  }

  lemma CheckoutKeepsHealthy(c: Content, op: Op)
    requires Healthy(c) && CarefulOp(op) && op.PlaceOrderOf?
    ensures Healthy(Apply(c, op))
  {
    CheckoutPlacesOne(c, op);
    ClearKeepsTable(c.cart, op.userId);
    if Apply(c, op) != c {
      var items := CheckoutItems(c, op.userId, op.explicit);
      CartItemsDistinct(c.cart, op.userId);
      CarefulCreation(c.db, op.addressOk, items, op.payMethod, op.today, op.createdOn);
    }
  }

  lemma CancelKeepsHealthy(c: Content, id: nat)
    requires Healthy(c)
    ensures Healthy(Apply(c, Cancel(id)))
  {
    OtherOpsKeepGoods(c, Cancel(id));
    if CancelOrder(c.db, id).1.None? {
      var lines := c.db.orders[id].lines;
      ShiftMeaning(c.db.products, lines, true);
      forall p | p in c.db.products ensures Shift(c.db.products, lines, true)[p].stock >= 0 {
        PositiveQuantity(lines, p);
      }
    }
  }

  lemma OpKeepsHealthy(c: Content, op: Op)
    requires Healthy(c) && CarefulOp(op)
    ensures Healthy(Apply(c, op))
  {
    match op
    case AddItem(u, p, q) => AddKeepsTable(c.db.products, c.cart, u, p, q);
    case UpdateItem(u, row, q) => UpdateKeepsTable(c.db.products, c.cart, u, row, q);
    case RemoveItem(u, row) => RemoveKeepsTable(c.cart, u, row);
    case Clear(u) => ClearKeepsTable(c.cart, u);
    case PlaceOrderOf(_, _, _, _, _, _, _) => CheckoutKeepsHealthy(c, op);
    case Cancel(id) => CancelKeepsHealthy(c, id);
    case _ => OtherOpsKeepGoods(c, op);
  }

  /**
    Over every serial run of cart edits, checkouts, payments, cancellations and status changes no
    stock is ever negative: checking item by item is enough because a cart has one row per product.
   */
  lemma {:induction false} StockNeverNegative(c: Content, ops: seq<Op>)
    requires Opening(c) && NoNegativeStock(c.db.products)
    requires forall i :: 0 <= i < |ops| ==> CarefulOp(ops[i])
    ensures Healthy(RunOps(c, ops)) && NoNegativeStock(RunOps(c, ops).db.products)
  {
    if ops != [] {
      StockNeverNegative(c, ops[..|ops| - 1]);
      OpKeepsHealthy(RunOps(c, ops[..|ops| - 1]), ops[|ops| - 1]);
    }
  }

  // ---------- order numbers never repeat ----------

  /** The clock does not run backwards, within a checkout (midnight may pass) and between checkouts. */
  ghost predicate Chronological(ops: seq<Op>) {
    && (forall i :: 0 <= i < |ops| && ops[i].PlaceOrderOf? ==>
          ops[i].today.Valid() && ops[i].createdOn.Valid() && ops[i].today.NotAfter(ops[i].createdOn))
    && (forall i, j :: 0 <= i < j < |ops| && ops[i].PlaceOrderOf? && ops[j].PlaceOrderOf? ==>
          ops[i].createdOn.NotAfter(ops[j].today))
  }

  /** Order `k` was numbered on `day` with counter `n`, no later than it was inserted. */
  ghost predicate NumberedAs(orders: seq<Order>, k: nat, day: Date, n: nat)
    requires k < |orders|
  {
    && day.Valid() && orders[k].orderNumber == OrderNumber(day, n)
    && day.NotAfter(orders[k].createdOn)
    && (day == orders[k].createdOn ==> n <= CountOn(orders[..k + 1], day))
  }

  ghost predicate HasNumber(orders: seq<Order>, k: nat)
    requires k < |orders|
  {
    orders[k].createdOn.Valid() && exists day: Date, n: nat :: NumberedAs(orders, k, day, n)
  }

  ghost predicate WellNumbered(orders: seq<Order>) {
    && (forall k :: 0 <= k < |orders| ==> HasNumber(orders, k))
    && (forall i, j :: 0 <= i < j < |orders| ==> orders[i].orderNumber != orders[j].orderNumber)
  }

  lemma {:induction false} CountOnPrefix(orders: seq<Order>, k: nat, day: Date)
    requires k <= |orders|
    ensures CountOn(orders[..k], day) <= CountOn(orders, day)
  {
    if k == |orders| {
      assert orders[..k] == orders;
    } else {
      var n := |orders| - 1;
      assert orders[..n][..k] == orders[..k];
      CountOnPrefix(orders[..n], k, day);
    }
  }

  lemma {:induction false} CountOnSameGoods(orders: seq<Order>, orders': seq<Order>, day: Date)
    requires SameGoods(orders, orders')
    ensures CountOn(orders', day) == CountOn(orders, day)
  {
    if orders != [] {
      var n := |orders| - 1;
      CountOnSameGoods(orders[..n], orders'[..n], day);
    }
  }

  lemma SameGoodsWellNumbered(orders: seq<Order>, orders': seq<Order>)
    requires WellNumbered(orders) && SameGoods(orders, orders')
    ensures WellNumbered(orders')
  {
    forall k | 0 <= k < |orders'| ensures HasNumber(orders', k) {
      assert HasNumber(orders, k);
      var day: Date, n: nat :| NumberedAs(orders, k, day, n);
      CountOnSameGoods(orders[..k + 1], orders'[..k + 1], day);
      assert NumberedAs(orders', k, day, n);
    }
  }

  /** With no order dated after today, the number computed today is one nobody has. */
  lemma NextNumberIsFree(orders: seq<Order>, today: Date)
    requires WellNumbered(orders) && today.Valid()
    requires forall k :: 0 <= k < |orders| ==> orders[k].createdOn.NotAfter(today)
    ensures NumberFree(orders, NextOrderNumber(orders, today))
  {
    var next := CountOn(orders, today) + 1;
    forall k | 0 <= k < |orders| ensures orders[k].orderNumber != OrderNumber(today, next) {
      assert HasNumber(orders, k);
      var day: Date, n: nat :| NumberedAs(orders, k, day, n);
      CountOnPrefix(orders, k + 1, today);
      if orders[k].orderNumber == OrderNumber(today, next) {
        OrderNumberInjective(day, n, today, next);
        SameOrdinalSameDate(orders[k].createdOn, today);
        assert false;
      }
    }
  }

  lemma SameOrdinalSameDate(d: Date, e: Date)
    requires d.Valid() && e.Valid()
    ensures d.Ordinal() == e.Ordinal() ==> d == e
  {
    if d.Ordinal() == e.Ordinal() {
      PlacesDiffer(d.year - e.year, d.month - e.month, d.day - e.day);
    }
  }

  lemma PlacesDiffer(years: int, months: int, days: int)
    requires -11 <= months <= 11 && -30 <= days <= 30
    requires 10000 * years + 100 * months + days == 0
    ensures years == 0 && months == 0 && days == 0
  {
  }

  lemma AppendWellNumbered(orders: seq<Order>, o: Order, today: Date)
    requires WellNumbered(orders) && today.Valid() && o.createdOn.Valid() && today.NotAfter(o.createdOn)
    requires forall k :: 0 <= k < |orders| ==> orders[k].createdOn.NotAfter(today)
    requires o.orderNumber == NextOrderNumber(orders, today)
    ensures WellNumbered(orders + [o])
  {
    var all := orders + [o];
    NextNumberIsFree(orders, today);
    assert all[..|orders|] == orders && all[..|orders| + 1] == all;
    assert NumberedAs(all, |orders|, today, CountOn(orders, today) + 1);
    assert HasNumber(all, |orders|);
    forall k | 0 <= k < |orders| ensures HasNumber(all, k) {
      assert HasNumber(orders, k);
      var day: Date, n: nat :| NumberedAs(orders, k, day, n);
      assert all[..k + 1] == orders[..k + 1];
      assert NumberedAs(all, k, day, n);
    }
  }

  ghost predicate Dates(op: Op, day: Date) { op.PlaceOrderOf? && op.createdOn == day }

  ghost predicate OnSomeCheckoutDay(day: Date, ops: seq<Op>) {
    exists i :: 0 <= i < |ops| && Dates(ops[i], day)
  }

  /** Every order stems from a checkout of the run and carries its date. */
  ghost predicate DatedBy(orders: seq<Order>, ops: seq<Op>) {
    forall k :: 0 <= k < |orders| ==> OnSomeCheckoutDay(orders[k].createdOn, ops)
  }

  lemma DatedByMore(orders: seq<Order>, orders': seq<Order>, ops: seq<Op>)
    requires ops != [] && DatedBy(orders, ops[..|ops| - 1]) && |orders| <= |orders'| <= |orders| + 1
    requires forall k :: 0 <= k < |orders| ==> orders'[k].createdOn == orders[k].createdOn
    requires |orders| < |orders'| ==>
               ops[|ops| - 1].PlaceOrderOf? && ops[|ops| - 1].createdOn == orders'[|orders|].createdOn
    ensures DatedBy(orders', ops)
  {
    var n := |ops| - 1;
    forall k | 0 <= k < |orders'| ensures OnSomeCheckoutDay(orders'[k].createdOn, ops) {
      if k < |orders| {
        assert OnSomeCheckoutDay(orders[k].createdOn, ops[..n]);
        var i :| 0 <= i < n && Dates(ops[..n][i], orders[k].createdOn);
        assert Dates(ops[i], orders'[k].createdOn);
      } else {
        assert Dates(ops[n], orders'[k].createdOn);
      }
    }
  }

  /** Orders dated by earlier operations are dated no later than the next checkout's today. */
  lemma NothingAhead(orders: seq<Order>, ops: seq<Op>)
    requires ops != [] && Chronological(ops) && DatedBy(orders, ops[..|ops| - 1]) && ops[|ops| - 1].PlaceOrderOf?
    ensures forall k :: 0 <= k < |orders| ==> orders[k].createdOn.NotAfter(ops[|ops| - 1].today)
  {
    var n := |ops| - 1;
    forall k | 0 <= k < |orders| ensures orders[k].createdOn.NotAfter(ops[n].today) {
      assert OnSomeCheckoutDay(orders[k].createdOn, ops[..n]);
      var i :| 0 <= i < n && Dates(ops[..n][i], orders[k].createdOn);
      assert ops[i].createdOn.NotAfter(ops[n].today);
    }
  }

  lemma CheckoutKeepsNumbers(c: Content, ops: seq<Op>)
    requires ops != [] && Chronological(ops) && ops[|ops| - 1].PlaceOrderOf?
    requires WellNumbered(c.db.orders) && DatedBy(c.db.orders, ops[..|ops| - 1])
    ensures var c' := Apply(c, ops[|ops| - 1]); WellNumbered(c'.db.orders) && DatedBy(c'.db.orders, ops)
  {
    var op := ops[|ops| - 1];
    var orders, c' := c.db.orders, Apply(c, op);
    CheckoutPlacesOne(c, op);
    if c' == c {
      DatedByMore(orders, orders, ops);
    } else {
      var (db, _) := CreateOrder(c.db, op.addressOk, CheckoutItems(c, op.userId, op.explicit), op.payMethod,
                                 op.today, op.createdOn);
      var o := db.orders[|orders|];
      assert db.orders == orders + [o];
      NothingAhead(orders, ops);
      AppendWellNumbered(orders, o, op.today);
      SameGoodsWellNumbered(db.orders, c'.db.orders);
      DatedByMore(orders, c'.db.orders, ops);
    }
  }

  lemma OpKeepsNumbers(c: Content, ops: seq<Op>)
    requires ops != [] && Chronological(ops)
    requires WellNumbered(c.db.orders) && DatedBy(c.db.orders, ops[..|ops| - 1])
    ensures var c' := Apply(c, ops[|ops| - 1]); WellNumbered(c'.db.orders) && DatedBy(c'.db.orders, ops)
  {
    var op := ops[|ops| - 1];
    if op.PlaceOrderOf? {
      CheckoutKeepsNumbers(c, ops);
    } else {
      OtherOpsKeepGoods(c, op);
      SameGoodsWellNumbered(c.db.orders, Apply(c, op).db.orders);
      DatedByMore(c.db.orders, Apply(c, op).db.orders, ops);
    }
  }

  lemma {:induction false} RunKeepsNumbers(c: Content, ops: seq<Op>)
    requires Opening(c) && Chronological(ops)
    ensures WellNumbered(RunOps(c, ops).db.orders) && DatedBy(RunOps(c, ops).db.orders, ops)
  {
    if ops != [] {
      RunKeepsNumbers(c, ops[..|ops| - 1]);
      OpKeepsNumbers(RunOps(c, ops[..|ops| - 1]), ops);
    }
  }

  /**
    Over every serial run whose clock does not go back, all order numbers differ and the unique key
    never refuses one: after any such run the next checkout computes a number that is free, also
    when an earlier one was numbered before midnight and inserted after it.
   */
  lemma OrderNumbersNeverCollide(c: Content, ops: seq<Op>, next: Op)
    requires Opening(c) && next.PlaceOrderOf? && Chronological(ops + [next])
    ensures var orders := RunOps(c, ops).db.orders;
            && (forall i, j :: 0 <= i < j < |orders| ==> orders[i].orderNumber != orders[j].orderNumber)
            && NumberFree(orders, NextOrderNumber(orders, next.today))
  {
    var all := ops + [next];
    assert all[..|ops|] == ops;
    assert Chronological(ops) by {
      forall i | 0 <= i < |ops| ensures ops[i] == all[i] {}
    }
    RunKeepsNumbers(c, ops);
    NothingAhead(RunOps(c, ops).db.orders, all);
    NextNumberIsFree(RunOps(c, ops).db.orders, next.today);
  }

  /**
    The serial assumption is needed: of two creations that both counted before either inserted,
    the second is turned down by the unique key.
   */
  lemma OverlappingCreationsCollide(db: Db, today: Date, first: Draft, second: Draft, day: Date, day': Date)
    requires first.orderNumber == second.orderNumber == NextOrderNumber(db.orders, today)
    requires PlaceOrder(db, first, day).1.Success? && IsInteger(Total(second.lines))
    ensures PlaceOrder(PlaceOrder(db, first, day).0, second, day').1 == Failure(NumberTaken)
  {
    var db' := PlaceOrder(db, first, day).0;
    assert db'.orders[|db.orders|].orderNumber == second.orderNumber;
  }

  // ---------- two checkouts at once ----------

  /** What a creation puts through when it was priced on `shelf` and numbered on `orders`. */
  function DraftOf(shelf: Products, orders: seq<Order>, items: seq<Item>, payMethod: PaymentMethod, today: Date): Draft
    requires Price(shelf, items).Success?
  {
    Draft(NextOrderNumber(orders, today), Price(shelf, items).value, payMethod)
  }

  /**
    Two creations that both checked the stock before either took it: once both are in, no stock is negative
    if and only if for every product it covers both together.
   */
  lemma StaleChecksOversellIff(db: Db, first: seq<Item>, payMethod: PaymentMethod, today: Date, day: Date,
                               second: seq<Item>, payMethod': PaymentMethod, today': Date, day': Date)
    requires Price(db.products, first).Success? && Price(db.products, second).Success?
    requires PlaceOrder(db, DraftOf(db.products, db.orders, first, payMethod, today), day).1.Success?
    requires var db1 := PlaceOrder(db, DraftOf(db.products, db.orders, first, payMethod, today), day).0;
             PlaceOrder(db1, DraftOf(db.products, db1.orders, second, payMethod', today'), day').1.Success?
    ensures var db1 := PlaceOrder(db, DraftOf(db.products, db.orders, first, payMethod, today), day).0;
            var db2 := PlaceOrder(db1, DraftOf(db.products, db1.orders, second, payMethod', today'), day').0;
            NoNegativeStock(db2.products) <==>
            forall p :: p in db.products ==>
              Quantity(Price(db.products, first).value, p) + Quantity(Price(db.products, second).value, p) <=
              db.products[p].stock
  {
    var lines, more := Price(db.products, first).value, Price(db.products, second).value;
    var db1 := PlaceOrder(db, DraftOf(db.products, db.orders, first, payMethod, today), day).0;
    PlaceNonNegativeIff(db1, DraftOf(db.products, db1.orders, second, payMethod', today'), day');
    ShiftMeaning(db.products, lines, false);
    assert forall p :: p in db.products ==> db1.products[p].stock == db.products[p].stock - Quantity(lines, p);
  }

  const LAST_RING := map["ring" := Product(100, 0.0, 1, true)]
  const RING_LINE := OrderItem("ring", 1, 100, 0.0)

  lemma RingIsPriced()
    ensures Price(LAST_RING, [Item("ring", 1)]) == Success([RING_LINE])
    ensures IsInteger(Total([RING_LINE])) && Quantity([RING_LINE], "ring") == 1
  {
    var items := [Item("ring", 1)];
    assert items[..0] == [] && items[..1] == items && [] + [RING_LINE] == [RING_LINE] && [RING_LINE][..0] == [];
    PriceStep(LAST_RING, items, 0);
    SumsStep([], RING_LINE);
    assert LineDiscount(RING_LINE) == 0.0 && Total([RING_LINE]) == 100.0;
  }

  /** The second order of a day is numbered past the first. */
  lemma SecondNumberIsFree(o: Order, today: Date)
    requires today.Valid() && o.createdOn == today && o.orderNumber == NextOrderNumber([], today)
    ensures NumberFree([o], NextOrderNumber([o], today))
  {
    assert [o][..0] == [] && CountOn([o], today) == 1;
    if OrderNumber(today, 1) == OrderNumber(today, 2) { OrderNumberInjective(today, 1, today, 2); }
  }

  const ANN_ROW := CartRow(0, "ann", "ring", 1)
  const BOB_ROW := CartRow(1, "bob", "ring", 1)

  /** The last ring lies in the carts of two users. */
  const TWO_CARTS := Content(Db(LAST_RING, []), Table([ANN_ROW, BOB_ROW], 2), [])

  lemma EachHasTheRing()
    ensures TableOk(TWO_CARTS.cart)
    ensures CheckoutItems(TWO_CARTS, "ann", []) == CheckoutItems(TWO_CARTS, "bob", []) == [Item("ring", 1)]
  {
    assert "ann"[0] != "bob"[0];
    RowsOfTwo(ANN_ROW, BOB_ROW, "ann");
    RowsOfTwo(ANN_ROW, BOB_ROW, "bob");
    assert ItemsOf([ANN_ROW]) == [Item("ring", 1)] && ItemsOf([BOB_ROW]) == [Item("ring", 1)];
  }

  /** It happens: one ring, two carts with it, both checked before either takes it. */
  lemma LastPieceSoldTwice(today: Date)
    requires today.Valid()
    ensures var ann, bob := CheckoutItems(TWO_CARTS, "ann", []), CheckoutItems(TWO_CARTS, "bob", []);
            && Price(LAST_RING, ann).Success? && Price(LAST_RING, bob).Success?
            && var (db1, first) := PlaceOrder(TWO_CARTS.db, DraftOf(LAST_RING, [], ann, CashOnDelivery, today), today);
            var (db2, second) := PlaceOrder(db1, DraftOf(LAST_RING, db1.orders, bob, CashOnDelivery, today), today);
            first.Success? && second.Success? && "ring" in db2.products && db2.products["ring"].stock == -1
  {
    EachHasTheRing();
    RingIsPriced();
    var draft := Draft(NextOrderNumber([], today), [RING_LINE], CashOnDelivery);
    var db1 := PlaceOrder(Db(LAST_RING, []), draft, today).0;
    SecondNumberIsFree(NewOrder(draft, today), today);
    assert db1.orders == [NewOrder(draft, today)];
    ShiftMeaning(LAST_RING, [RING_LINE], false);
    ShiftMeaning(db1.products, [RING_LINE], false);
  }
}
