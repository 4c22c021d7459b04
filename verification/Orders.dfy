/**
  Orders, their prices, their numbers and the stock they hold
  (src/modules/orders/orders.service.ts, prisma/schema.prisma).

  The order table only grows, so an order's position in the sequence is its id.
  Everything here is a value: the class `ShopServer` of `Shop` runs the same operations in place,
  and `Payments` interleaves them.
 */
module Orders {
  import opened Prelude
  import opened Decimal

  datatype OrderStatus = Pending | Confirmed | Processing | Shipped | Delivered | Cancelled | GoodsRefunded

  datatype PaymentStatus = Unpaid | Paid | Failed | Refunded | PartiallyRefunded

  datatype PaymentMethod = Zarinpal | NextPay | CashOnDelivery | BankTransfer

  /** A product row: price in Rial, discount in percent. */
  datatype Product = Product(price: int, discount: real, stock: int, isActive: bool)

  type Products = map<string, Product>

  /** What a caller asks for. */
  datatype Item = Item(productId: string, quantity: int)

  /** An order line: the item with the price and discount of the moment. */
  datatype OrderItem = OrderItem(productId: string, quantity: int, price: int, discount: real)

  /** A calendar day in the server's time zone. */
  datatype Date = Date(year: nat, month: nat, day: nat) {
    predicate Valid() { 1 <= month <= 12 && 1 <= day <= 31 }

    function Ordinal(): nat { 10000 * year + 100 * month + day }

    predicate NotAfter(later: Date) { Ordinal() <= later.Ordinal() }
  }

  /**
    An order row. `restocks` is history: how many committed cancellations have put
    this order's goods back on the shelf.
   */
  datatype Order = Order(
    orderNumber: string,
    lines: seq<OrderItem>,
    subtotal: int,
    discount: int,
    totalPrice: int,
    payMethod: PaymentMethod,
    status: OrderStatus,
    payStatus: PaymentStatus,
    authority: Option<string>,
    paymentId: Option<string>,
    createdOn: Date,
    restocks: nat)

  datatype Db = Db(products: Products, orders: seq<Order>)

  datatype Refusal =
    | BadAddress
    | UnknownProduct(productId: string)
    | OutOfStock(productId: string)
    | TotalNotInteger
    | NumberTaken
    | MissingProduct
    | NoSuchOrder
    | AlreadyShipped
    | AlreadyPaid

  // ---------- pricing ----------

  function LineSubtotal(l: OrderItem): int { l.price * l.quantity }

  function LineDiscount(l: OrderItem): real {
    (l.price as real * l.discount) / 100.0 * l.quantity as real
  }

  function Subtotal(lines: seq<OrderItem>): int {
    if lines == [] then 0 else Subtotal(lines[..|lines| - 1]) + LineSubtotal(lines[|lines| - 1])
  }

  function Discount(lines: seq<OrderItem>): real {
    if lines == [] then 0.0 else Discount(lines[..|lines| - 1]) + LineDiscount(lines[|lines| - 1])
  }

  function Total(lines: seq<OrderItem>): real { Subtotal(lines) as real - Discount(lines) }

  predicate IsInteger(x: real) { x == x.Floor as real }

  /** `Math.round`: ties go up. */
  function Round(x: real): int { (x + 0.5).Floor }

  ghost predicate FairLine(l: OrderItem) {
    0 <= l.price && 0.0 <= l.discount <= 100.0 && 1 <= l.quantity
  }

  /** What one line costs: the quantity at the unit price less its percentage. */
  function LineCharge(l: OrderItem): real {
    l.quantity as real * (l.price as real * (100.0 - l.discount) / 100.0)
  }

  function Charge(lines: seq<OrderItem>): real {
    if lines == [] then 0.0 else Charge(lines[..|lines| - 1]) + LineCharge(lines[|lines| - 1])
  }

  lemma LineTotalIsCharge(l: OrderItem)
    ensures LineSubtotal(l) as real - LineDiscount(l) == LineCharge(l)
  {
    var p, q, d := l.price as real, l.quantity as real, l.discount;
    ProductOfInts(l.price, l.quantity);
    assert (p * d) / 100.0 * q == q * ((p * d) / 100.0);
    assert p * (100.0 - d) == p * 100.0 - p * d;
    assert p * (100.0 - d) / 100.0 == p - (p * d) / 100.0;
    assert q * (p - (p * d) / 100.0) == q * p - q * ((p * d) / 100.0);
  }

  lemma ProductOfInts(a: int, b: int)
    ensures (a * b) as real == a as real * b as real
  {
    if b >= 0 {
      ProductOfReals(a, b);
    } else {
      ProductOfReals(a, -b);
      assert a * -b == -(a * b);
    }
  }

  /** The total charged is the sum of what the lines cost. */
  lemma {:induction false} TotalIsCharge(lines: seq<OrderItem>)
    ensures Total(lines) == Charge(lines)
  {
    if lines != [] {
      TotalIsCharge(lines[..|lines| - 1]);
      LineTotalIsCharge(lines[|lines| - 1]);
    }
  }

  lemma {:induction false} ProductOfReals(a: int, b: nat)
    ensures (a * b) as real == a as real * b as real
    decreases b
  {
    if b != 0 {
      ProductOfReals(a, b - 1);
      assert a * b == a * (b - 1) + a;
      assert b as real == (b - 1) as real + 1.0;
    }
  }

  lemma LineDiscountBounded(l: OrderItem)
    requires FairLine(l)
    ensures 0.0 <= LineDiscount(l) <= LineSubtotal(l) as real
  {
    var p, q := l.price as real, l.quantity as real;
    var off := (p * l.discount) / 100.0;
    assert 0.0 <= p * l.discount <= p * 100.0;
    assert 0.0 <= off * q <= p * q;
    ProductOfReals(l.price, l.quantity);
  }

  lemma {:induction false} DiscountBounded(lines: seq<OrderItem>)
    requires forall l :: l in lines ==> FairLine(l)
    ensures 0.0 <= Discount(lines) <= Subtotal(lines) as real
  {
    if lines != [] {
      DiscountBounded(lines[..|lines| - 1]);
      LineDiscountBounded(lines[|lines| - 1]);
    }
  }

  lemma RoundMeaning(x: real)
    ensures -0.5 <= x - Round(x) as real < 0.5
  {
  }

  lemma RoundInteger(n: int)
    ensures Round(n as real) == n
  {
    var m := Round(n as real);
    RoundMeaning(n as real);
    assert -0.5 <= (n - m) as real < 0.5;
  }

  lemma IntegerDifference(a: int, x: real)
    ensures IsInteger(a as real - x) <==> IsInteger(x)
  {
    if IsInteger(x) { assert a as real - x == (a - x.Floor) as real; }
    if IsInteger(a as real - x) { assert x == (a - (a as real - x).Floor) as real; }
  }

  /**
    The stored figures hang together: the total lies between zero and the subtotal,
    and subtotal minus the *rounded* discount is off the total by at most one half;
    exactly nothing when the total is a whole number, as its column demands.
   */
  lemma PricesAgree(lines: seq<OrderItem>)
    ensures var gap := (Subtotal(lines) - Round(Discount(lines))) as real - Total(lines);
            -0.5 <= gap <= 0.5 && (gap == 0.0 <==> IsInteger(Total(lines)))
    ensures (forall l :: l in lines ==> FairLine(l)) ==> 0.0 <= Total(lines) <= Subtotal(lines) as real
  {
    var subtotal, d := Subtotal(lines), Discount(lines);
    RoundMeaning(d);
    IntegerDifference(subtotal, d);
    if IsInteger(d) { RoundInteger(d.Floor); }
    assert (subtotal - Round(d)) as real - Total(lines) == d - Round(d) as real;
    if forall l :: l in lines ==> FairLine(l) {
      DiscountBounded(lines);
    }
  }

  // ---------- validation ----------

  /** `checkStock`, for a product that may be missing. */
  predicate CheckStock(products: Products, productId: string, quantity: int) {
    productId in products && products[productId].stock >= quantity
  }

  function PriceItem(products: Products, item: Item): Result<OrderItem, Refusal> {
    if item.productId !in products || !products[item.productId].isActive then
      Failure(UnknownProduct(item.productId))
    else if !CheckStock(products, item.productId, item.quantity) then
      Failure(OutOfStock(item.productId))
    else
      var p := products[item.productId];
      Success(OrderItem(item.productId, item.quantity, p.price, p.discount))
  }

  /** The validation loop: the first item that fails decides, otherwise every item is priced. */
  function Price(products: Products, items: seq<Item>): (r: Result<seq<OrderItem>, Refusal>)
    ensures r.Success? ==> |r.value| == |items|
  {
    if items == [] then Success([])
    else
      var n := |items| - 1;
      match Price(products, items[..n])
      case Failure(e) => Failure(e)
      case Success(lines) =>
        match PriceItem(products, items[n])
        case Failure(e) => Failure(e)
        case Success(line) => Success(lines + [line])
  }

  /** Once a prefix is refused, the whole list is refused for the same reason. */
  lemma {:induction false} PriceStopsEarly(products: Products, items: seq<Item>, k: nat)
    requires k <= |items| && Price(products, items[..k]).Failure?
    ensures Price(products, items) == Price(products, items[..k])
  {
    if k == |items| {
      assert items[..k] == items;
    } else {
      var n := |items| - 1;
      assert items[..n][..k] == items[..k];
      PriceStopsEarly(products, items[..n], k);
    }
  }

  /** One turn of the loop. */
  lemma PriceStep(products: Products, items: seq<Item>, k: nat)
    requires k < |items| && Price(products, items[..k]).Success?
    ensures match PriceItem(products, items[k])
            case Success(line) => Price(products, items[..k + 1]) == Success(Price(products, items[..k]).value + [line])
            case Failure(e) => Price(products, items) == Failure(e)
  {
    assert items[..k + 1][..k] == items[..k];
    if PriceItem(products, items[k]).Failure? {
      PriceStopsEarly(products, items, k + 1);
    }
  }

  lemma SumsStep(lines: seq<OrderItem>, line: OrderItem)
    ensures Subtotal(lines + [line]) == Subtotal(lines) + LineSubtotal(line)
    ensures Discount(lines + [line]) == Discount(lines) + LineDiscount(line)
  {
    assert (lines + [line])[..|lines|] == lines;
  }

  /** An item that can be ordered: an active product with enough on the shelf. */
  predicate Orderable(products: Products, item: Item) {
    item.productId in products && products[item.productId].isActive && products[item.productId].stock >= item.quantity
  }

  /** The order line of an item: the product's price and discount of the moment. */
  predicate IsLineOf(products: Products, item: Item, line: OrderItem)
    requires item.productId in products
  {
    && line.productId == item.productId && line.quantity == item.quantity
    && line.price == products[item.productId].price && line.discount == products[item.productId].discount
  }

  /** Why an item is refused: a missing or inactive product is unknown, any other one out of stock. */
  lemma PriceItemMeaning(products: Products, item: Item)
    ensures var r := PriceItem(products, item);
            && (r.Success? <==> Orderable(products, item))
            && (r.Success? ==> IsLineOf(products, item, r.value))
            && (r.Failure? ==>
                r.error == if item.productId in products && products[item.productId].isActive
                           then OutOfStock(item.productId) else UnknownProduct(item.productId))
  {
  }

  /**
    Pricing succeeds exactly when every single item is an active product with enough on the shelf, and then
    every line carries that item at the product's price and discount.
   */
  lemma {:induction false} PriceMeaning(products: Products, items: seq<Item>)
    ensures Price(products, items).Success? <==> forall i :: 0 <= i < |items| ==> Orderable(products, items[i])
    ensures Price(products, items).Success? ==>
              forall i :: 0 <= i < |items| ==>
                && items[i].productId in products && IsLineOf(products, items[i], Price(products, items).value[i])
                && PriceItem(products, items[i]) == Success(Price(products, items).value[i])
  {
    if items != [] {
      PriceMeaning(products, items[..|items| - 1]);
    }
  }

  /** A refused list is refused for its first item that cannot be ordered. */
  lemma {:induction false} PriceRefusal(products: Products, items: seq<Item>, k: nat)
    requires k < |items| && !Orderable(products, items[k])
    requires forall i :: 0 <= i < k ==> Orderable(products, items[i])
    ensures Price(products, items) ==
            Failure(if items[k].productId in products && products[items[k].productId].isActive
                    then OutOfStock(items[k].productId) else UnknownProduct(items[k].productId))
  {
    PriceMeaning(products, items[..k]);
    PriceStep(products, items, k);
  }

  // ---------- stock ----------

  /** How much of product `p` the lines ask for, repeated lines added up. */
  function Quantity(lines: seq<OrderItem>, p: string): int {
    if lines == [] then 0
    else
      var last := lines[|lines| - 1];
      Quantity(lines[..|lines| - 1], p) + if last.productId == p then last.quantity else 0
  }

  predicate AllKnown(products: Products, lines: seq<OrderItem>) {
    forall i :: 0 <= i < |lines| ==> lines[i].productId in products
  }

  function Move(products: Products, p: string, delta: int): Products
    requires p in products
  {
    products[p := products[p].(stock := products[p].stock + delta)]
  }

  /** Take every line off the shelf (`giveBack` false) or put it back (true), line by line. */
  function Shift(products: Products, lines: seq<OrderItem>, giveBack: bool): (r: Products)
    requires AllKnown(products, lines)
    ensures r.Keys == products.Keys
  {
    if lines == [] then products
    else
      var last := lines[|lines| - 1];
      Move(Shift(products, lines[..|lines| - 1], giveBack), last.productId,
           if giveBack then last.quantity else -last.quantity)
  }

  /** The whole loop moves each product's stock by exactly its summed quantity and nothing else. */
  lemma {:induction false} ShiftMeaning(products: Products, lines: seq<OrderItem>, giveBack: bool)
    requires AllKnown(products, lines)
    ensures forall p :: p in products ==>
              Shift(products, lines, giveBack)[p] ==
              products[p].(stock := products[p].stock +
                                    if giveBack then Quantity(lines, p) else -Quantity(lines, p))
  {
    if lines != [] {
      ShiftMeaning(products, lines[..|lines| - 1], giveBack);
    }
  }

  /** Cancelling straight after ordering restores the product table exactly. */
  lemma TakeThenGiveBack(products: Products, lines: seq<OrderItem>)
    requires AllKnown(products, lines)
    ensures Shift(Shift(products, lines, false), lines, true) == products
  {
    var taken := Shift(products, lines, false);
    ShiftMeaning(products, lines, false);
    ShiftMeaning(taken, lines, true);
    forall p | p in products ensures Shift(taken, lines, true)[p] == products[p] {
      assert taken[p].stock == products[p].stock - Quantity(lines, p);
    }
  }

  // ---------- order numbers ----------

  function CountOn(orders: seq<Order>, day: Date): nat {
    if orders == [] then 0
    else CountOn(orders[..|orders| - 1], day) + if orders[|orders| - 1].createdOn == day then 1 else 0
  }

  function DayStamp(day: Date): string {
    Show(day.year) + PadStart(Show(day.month), 2) + PadStart(Show(day.day), 2)
  }

  function OrderNumber(day: Date, count: nat): string {
    "ORD-" + (DayStamp(day) + "-" + PadStart(Show(count), 5))
  }

  /** The day's count is the number of orders created on that day. */
  lemma {:induction false} CountOnMeaning(orders: seq<Order>, day: Date)
    ensures CountOn(orders, day) == |set i | 0 <= i < |orders| && orders[i].createdOn == day|
  {
    var days := set i | 0 <= i < |orders| && orders[i].createdOn == day;
    if orders == [] {
      assert days == {};
    } else {
      var n := |orders| - 1;
      CountOnMeaning(orders[..n], day);
      var before := set i | 0 <= i < |orders[..n]| && orders[..n][i].createdOn == day;
      assert days == before + if orders[n].createdOn == day then {n} else {};
    }
  }

  /** The date part reads year, month, day. */
  lemma DayStampMeaning(day: Date)
    requires day.Valid()
    ensures AllDigits(DayStamp(day)) && Read(DayStamp(day)) == 10000 * day.year + 100 * day.month + day.day
  {
    TwoDigits(day.month);
    TwoDigits(day.day);
    var year, month, dom := Show(day.year), PadStart(Show(day.month), 2), PadStart(Show(day.day), 2);
    ReadTwoMore(year, month);
    ReadTwoMore(year + month, dom);
    ReadPadStart(Show(day.month), 2);
    ReadPadStart(Show(day.day), 2);
    ReadShow(day.year);
    ReadShow(day.month);
    ReadShow(day.day);
  }

  /**
    The next order number of a day: "ORD-", the date, a dash and, in at least five digits, one more than the
    number of orders created on that day.
   */
  lemma NextOrderNumberMeaning(orders: seq<Order>, today: Date) returns (stamp: string, counter: string)
    requires today.Valid()
    ensures NextOrderNumber(orders, today) == "ORD-" + stamp + "-" + counter
    ensures AllDigits(stamp) && Read(stamp) == 10000 * today.year + 100 * today.month + today.day
    ensures AllDigits(counter) && |counter| >= 5
    ensures Read(counter) == 1 + |set i | 0 <= i < |orders| && orders[i].createdOn == today|
  {
    var n := CountOn(orders, today) + 1;
    stamp, counter := DayStamp(today), PadStart(Show(n), 5);
    DayStampMeaning(today);
    CountOnMeaning(orders, today);
    PadStartReads(n, 5);
    assert "ORD-" + (stamp + "-" + counter) == "ORD-" + stamp + "-" + counter;
  }

  /** Strings with a dash-free head are split by their first dash in one way only. */
  lemma FirstDashSplits(a: string, b: string, s: string, t: string)
    requires AllDigits(a) && AllDigits(b) && a + "-" + s == b + "-" + t
    ensures a == b && s == t
  {
    var whole := a + "-" + s;
    assert whole[|a|] == '-' && (b + "-" + t)[|b|] == '-';
    assert |a| >= |b| && |b| >= |a|;
    assert a == whole[..|a|] && b == whole[..|b|];
    assert s == whole[|a| + 1..] && t == whole[|b| + 1..];
  }

  lemma TwoDigits(n: nat)
    requires n < 100
    ensures |PadStart(Show(n), 2)| == 2
  {
    if n >= 10 { assert |Show(n / 10)| == 1; }
  }

  lemma DayStampInjective(d: Date, e: Date)
    requires d.Valid() && e.Valid() && DayStamp(d) == DayStamp(e)
    ensures d == e
  {
    TwoDigits(d.month); TwoDigits(e.month); TwoDigits(d.day); TwoDigits(e.day);
    var s, n := DayStamp(d), |DayStamp(d)|;
    assert s[n - 2..] == PadStart(Show(d.day), 2) == PadStart(Show(e.day), 2);
    assert s[n - 4..n - 2] == PadStart(Show(d.month), 2) == PadStart(Show(e.month), 2);
    assert s[..n - 4] == Show(d.year) == Show(e.year);
    PaddedShowInjective(d.day, e.day, 2);
    PaddedShowInjective(d.month, e.month, 2);
    PaddedShowInjective(d.year, e.year, 0);
  }

  /** An order number tells its day and its counter, also beyond 99999 orders a day. */
  lemma OrderNumberInjective(d: Date, m: nat, e: Date, n: nat)
    requires d.Valid() && e.Valid() && OrderNumber(d, m) == OrderNumber(e, n)
    ensures d == e && m == n
  {
    assert OrderNumber(d, m)[4..] == DayStamp(d) + "-" + PadStart(Show(m), 5);
    assert OrderNumber(e, n)[4..] == DayStamp(e) + "-" + PadStart(Show(n), 5);
    FirstDashSplits(DayStamp(d), DayStamp(e), PadStart(Show(m), 5), PadStart(Show(n), 5));
    DayStampInjective(d, e);
    PaddedShowInjective(m, n, 5);
  }

  // ---------- the two transactions ----------

  /** What `create` has in hand when its transaction starts; the reads behind it may be stale. */
  datatype Draft = Draft(orderNumber: string, lines: seq<OrderItem>, payMethod: PaymentMethod)

  predicate NumberFree(orders: seq<Order>, number: string) {
    forall i :: 0 <= i < |orders| ==> orders[i].orderNumber != number
  }

  function NewOrder(draft: Draft, createdOn: Date): Order
  {
    Order(draft.orderNumber, draft.lines, Subtotal(draft.lines), Round(Discount(draft.lines)),
          Total(draft.lines).Floor, draft.payMethod, Pending, Unpaid, None, None, createdOn, 0)
  }

  /** The transaction of `create`: insert the order, then take the goods; all or nothing. */
  function PlaceOrder(db: Db, draft: Draft, createdOn: Date): (r: (Db, Result<nat, Refusal>))
    ensures r.1.Success? ==> r.1.value < |r.0.orders|
  {
    if !IsInteger(Total(draft.lines)) then (db, Failure(TotalNotInteger))
    else if !NumberFree(db.orders, draft.orderNumber) then (db, Failure(NumberTaken))
    else if !AllKnown(db.products, draft.lines) then (db, Failure(MissingProduct))
    else
      (Db(Shift(db.products, draft.lines, false), db.orders + [NewOrder(draft, createdOn)]),
       Success(|db.orders|))
  }

  function NextOrderNumber(orders: seq<Order>, today: Date): string {
    OrderNumber(today, CountOn(orders, today) + 1)
  }

  /** `create` from start to end, when nothing else runs: `today` is read before, `createdOn` in the insert. */
  function CreateOrder(db: Db, addressOk: bool, items: seq<Item>, payMethod: PaymentMethod, today: Date, createdOn: Date)
    : (r: (Db, Result<nat, Refusal>))
    ensures r.1.Success? ==> r.1.value < |r.0.orders|
  {
    if !addressOk then (db, Failure(BadAddress))
    else
      match Price(db.products, items)
      case Failure(e) => (db, Failure(e))
      case Success(lines) => PlaceOrder(db, Draft(NextOrderNumber(db.orders, today), lines, payMethod), createdOn)
  }

  /** The guards of `cancel`. They do not look for an earlier cancellation. */
  function CancelGuard(orders: seq<Order>, id: nat): Option<Refusal> {
    if id >= |orders| then Some(NoSuchOrder)
    else if orders[id].status == Shipped || orders[id].status == Delivered then Some(AlreadyShipped)
    else if orders[id].payStatus == Paid then Some(AlreadyPaid)
    else None
  }

  /** The rule of the guide (markdown/API_GUIDE.md:448-449): unpaid or not confirmed, and not shipped. */
  predicate GuideAllowsCancel(o: Order) {
    (o.payStatus != Paid || o.status == Pending) && o.status != Shipped && o.status != Delivered
  }

  /** The guards follow the guide but for one kind of order: PAID and put back to PENDING. */
  lemma GuideDiffersIff(orders: seq<Order>, id: nat)
    requires id < |orders|
    ensures CancelGuard(orders, id).None? ==> GuideAllowsCancel(orders[id])
    ensures GuideAllowsCancel(orders[id]) && CancelGuard(orders, id).Some? <==>
            orders[id].payStatus == Paid && orders[id].status == Pending
  {
  }

  /** The transaction of `cancel`: put the goods back, mark the order. */
  function CommitCancel(db: Db, id: nat): Db
    requires id < |db.orders| && AllKnown(db.products, db.orders[id].lines)
  {
    var o := db.orders[id];
    Db(Shift(db.products, o.lines, true),
       db.orders[id := o.(status := Cancelled, restocks := o.restocks + 1)])
  }

  /** `cancel` from start to end. */
  function CancelOrder(db: Db, id: nat): (Db, Option<Refusal>) {
    var refused := CancelGuard(db.orders, id);
    if refused.Some? then (db, refused)
    else if !AllKnown(db.products, db.orders[id].lines) then (db, Some(MissingProduct))
    else (CommitCancel(db, id), None)
  }

  ghost predicate NoNegativeStock(products: Products) {
    forall p :: p in products ==> products[p].stock >= 0
  }

  lemma PricedLinesKnown(products: Products, items: seq<Item>)
    requires Price(products, items).Success?
    ensures AllKnown(products, Price(products, items).value)
  {
    PriceMeaning(products, items);
    forall i | 0 <= i < |items| ensures Price(products, items).value[i].productId in products {
      assert PriceItem(products, items[i]).Success?;
    }
  }

  /** What it takes for `create` to go through; otherwise it leaves everything as it was. */
  lemma CreateSucceedsIff(db: Db, addressOk: bool, items: seq<Item>, payMethod: PaymentMethod, today: Date, createdOn: Date)
    ensures var (db', r) := CreateOrder(db, addressOk, items, payMethod, today, createdOn);
            && (r.Failure? ==> db' == db)
            && (r.Success? <==>
                && addressOk
                && (forall i :: 0 <= i < |items| ==> Orderable(db.products, items[i]))
                && Price(db.products, items).Success? && IsInteger(Total(Price(db.products, items).value))
                && NumberFree(db.orders, NextOrderNumber(db.orders, today)))
  {
    PriceMeaning(db.products, items);
    if Price(db.products, items).Success? {
      PricedLinesKnown(db.products, items);
    }
  }

  /** Which refusal it is: the address comes first, then the items, then the total, then the number. */
  lemma CreateRefusal(db: Db, addressOk: bool, items: seq<Item>, payMethod: PaymentMethod, today: Date, createdOn: Date)
    requires CreateOrder(db, addressOk, items, payMethod, today, createdOn).1.Failure?
    ensures var e := CreateOrder(db, addressOk, items, payMethod, today, createdOn).1.error;
            && (e == BadAddress <==> !addressOk)
            && (e.UnknownProduct? || e.OutOfStock? <==>
                addressOk && exists i :: 0 <= i < |items| && !Orderable(db.products, items[i]))
            && (e.UnknownProduct? || e.OutOfStock? ==> Price(db.products, items) == Failure(e))
            && (e == TotalNotInteger <==>
                addressOk && Price(db.products, items).Success? && !IsInteger(Total(Price(db.products, items).value)))
            && (e == NumberTaken <==>
                && addressOk && Price(db.products, items).Success? && IsInteger(Total(Price(db.products, items).value))
                && !NumberFree(db.orders, NextOrderNumber(db.orders, today)))
  {
    PriceMeaning(db.products, items);
    if addressOk {
      if k: nat :| k < |items| && !Orderable(db.products, items[k]) {
        PriceErrorKind(db.products, items);
      } else {
        PricedLinesKnown(db.products, items);
      }
    }
  }

  lemma {:induction false} PriceErrorKind(products: Products, items: seq<Item>)
    requires Price(products, items).Failure?
    ensures Price(products, items).error.UnknownProduct? || Price(products, items).error.OutOfStock?
  {
    if items != [] && Price(products, items[..|items| - 1]).Failure? {
      PriceErrorKind(products, items[..|items| - 1]);
    }
  }

  /** Every column of a new order: numbered, priced, pending, unpaid, and not yet with the gateway. */
  ghost predicate IsNewOrder(o: Order, orderNumber: string, payMethod: PaymentMethod, createdOn: Date) {
    && o.orderNumber == orderNumber && o.payMethod == payMethod && o.createdOn == createdOn
    && o.subtotal == Subtotal(o.lines) && o.discount == Round(Discount(o.lines))
    && o.totalPrice as real == Total(o.lines) == Charge(o.lines)
    && o.status == Pending && o.payStatus == Unpaid && o.authority.None? && o.paymentId.None? && o.restocks == 0
  }

  /**
    What `create` leaves behind: one new order, pending and UNPAID, that charges what its lines cost and
    whose figures add up, with one line per item at today's prices, and every product lower by exactly the
    quantity asked.
   */
  lemma CreateEffect(db: Db, items: seq<Item>, payMethod: PaymentMethod, today: Date, createdOn: Date)
    requires CreateOrder(db, true, items, payMethod, today, createdOn).1.Success?
    ensures CreateOrder(db, true, items, payMethod, today, createdOn).1.value == |db.orders|
    ensures var db' := CreateOrder(db, true, items, payMethod, today, createdOn).0;
            && |db'.orders| == |db.orders| + 1 && db'.orders[..|db.orders|] == db.orders
            && db'.products.Keys == db.products.Keys
            && var o := db'.orders[|db.orders|];
            && IsNewOrder(o, NextOrderNumber(db.orders, today), payMethod, createdOn)
            && o.subtotal - o.discount == o.totalPrice
            && |o.lines| == |items|
            && (forall i :: 0 <= i < |items| ==>
                 items[i].productId in db.products && IsLineOf(db.products, items[i], o.lines[i]))
            && forall p :: p in db.products ==>
                 db'.products[p] == db.products[p].(stock := db.products[p].stock - Quantity(o.lines, p))
  {
    PriceMeaning(db.products, items);
    var lines := Price(db.products, items).value;
    PricesAgree(lines);
    TotalIsCharge(lines);
    ShiftMeaning(db.products, lines, false);
  }

  /** With distinct products, what the lines ask of a product is the quantity of its one line. */
  lemma {:induction false} QuantityOfLine(lines: seq<OrderItem>, i: nat)
    requires i < |lines| && forall j, k :: 0 <= j < k < |lines| ==> lines[j].productId != lines[k].productId
    ensures Quantity(lines, lines[i].productId) == lines[i].quantity
  {
    var n := |lines| - 1;
    if i == n {
      QuantityAbsent(lines[..n], lines[n].productId);
    } else {
      QuantityOfLine(lines[..n], i);
    }
  }

  /**
    Cancelling goes through exactly for an order that is neither shipped nor delivered nor PAID and whose
    products are all there; then its goods are back, it is CANCELLED, and nothing else has changed.
   */
  lemma CancelMeaning(db: Db, id: nat)
    ensures var (db', refused) := CancelOrder(db, id);
            && (refused.Some? ==> db' == db)
            && (refused.None? <==>
                && id < |db.orders| && db.orders[id].status != Shipped && db.orders[id].status != Delivered
                && db.orders[id].payStatus != Paid && AllKnown(db.products, db.orders[id].lines))
            && (refused == Some(NoSuchOrder) <==> id >= |db.orders|)
            && (refused == Some(AlreadyShipped) <==>
                id < |db.orders| && (db.orders[id].status == Shipped || db.orders[id].status == Delivered))
            && (refused == Some(AlreadyPaid) ==> id < |db.orders| && db.orders[id].payStatus == Paid)
            && (refused.None? ==>
                && |db'.orders| == |db.orders| && db'.products.Keys == db.products.Keys
                && (forall i :: 0 <= i < |db.orders| && i != id ==> db'.orders[i] == db.orders[i])
                && db'.orders[id] == db.orders[id].(status := Cancelled, restocks := db.orders[id].restocks + 1)
                && forall p :: p in db.products ==>
                     db'.products[p] ==
                     db.products[p].(stock := db.products[p].stock + Quantity(db.orders[id].lines, p)))
  {
    if CancelOrder(db, id).1.None? {
      ShiftMeaning(db.products, db.orders[id].lines, true);
    }
  }

  /** Cancelling the order just created is allowed and restores every shelf exactly. */
  lemma CreateThenCancel(db: Db, items: seq<Item>, payMethod: PaymentMethod, today: Date, createdOn: Date)
    requires CreateOrder(db, true, items, payMethod, today, createdOn).1.Success?
    ensures var (created, id) := CreateOrder(db, true, items, payMethod, today, createdOn);
            var (cancelled, refused) := CancelOrder(created, id.value);
            && refused.None? && cancelled.products == db.products
            && |cancelled.orders| == |db.orders| + 1 && cancelled.orders[..|db.orders|] == db.orders
            && cancelled.orders[|db.orders|].status == Cancelled && cancelled.orders[|db.orders|].restocks == 1
  {
    TakeThenGiveBack(db.products, Price(db.products, items).value);
  }

  lemma {:induction false} QuantityAbsent(lines: seq<OrderItem>, p: string)
    requires forall i :: 0 <= i < |lines| ==> lines[i].productId != p
    ensures Quantity(lines, p) == 0
  {
    if lines != [] { QuantityAbsent(lines[..|lines| - 1], p); }
  }

  ghost predicate DistinctProducts(items: seq<Item>) {
    forall i, j :: 0 <= i < j < |items| ==> items[i].productId != items[j].productId
  }

  /** With distinct products the per-item stock check covers the whole decrement loop. */
  lemma {:induction false} DistinctItemsCovered(products: Products, items: seq<Item>, p: string)
    requires Price(products, items).Success? && DistinctProducts(items) && p in products
    requires products[p].stock >= 0
    ensures Quantity(Price(products, items).value, p) <= products[p].stock
  {
    if items != [] {
      var n := |items| - 1;
      var lines := Price(products, items).value;
      assert lines[..n] == Price(products, items[..n]).value;
      if items[n].productId == p {
        PriceMeaning(products, items[..n]);
        forall i | 0 <= i < n ensures lines[..n][i].productId != p {
          assert PriceItem(products, items[..n][i]) == Success(lines[..n][i]);
        }
        QuantityAbsent(lines[..n], p);
      } else {
        DistinctItemsCovered(products, items[..n], p);
      }
    }
  }

  /** A placement leaves no stock negative exactly when, product by product, the sum asked was there. */
  lemma PlaceNonNegativeIff(db: Db, draft: Draft, createdOn: Date)
    requires PlaceOrder(db, draft, createdOn).1.Success?
    ensures NoNegativeStock(PlaceOrder(db, draft, createdOn).0.products) <==>
            forall p :: p in db.products ==> Quantity(draft.lines, p) <= db.products[p].stock
  {
    ShiftMeaning(db.products, draft.lines, false);
    var after := PlaceOrder(db, draft, createdOn).0.products;
    assert forall p :: p in db.products ==> after[p].stock == db.products[p].stock - Quantity(draft.lines, p);
  }

  /** An item listed twice is checked against the stock twice, each time alone. */
  lemma RepeatedItemPriced(products: Products, item: Item)
    requires PriceItem(products, item).Success?
    ensures var line := PriceItem(products, item).value;
            && Price(products, [item, item]) == Success([line, line])
            && Discount([line, line]) == LineDiscount(line) + LineDiscount(line)
            && Quantity([line, line], item.productId) == 2 * item.quantity
  {
    var line := PriceItem(products, item).value;
    assert [item, item][..0] == [] && [item, item][..1] == [item] && [item, item][..2] == [item, item];
    PriceStep(products, [item, item], 0);
    PriceStep(products, [item, item], 1);
    assert [] + [line] == [line] && [line] + [line] == [line, line];
    SumsStep([], line);
    SumsStep([line], line);
    assert [line, line][..1] == [line] && [line][..0] == [];
    assert Quantity([line], item.productId) == item.quantity;
  }

  /** Listing a product twice passes both per-item checks and drives its stock below zero. */
  lemma RepeatedItemOversells(day: Date)
    ensures var products := map["ring" := Product(100, 0.0, 3, true)];
            var (db, r) := CreateOrder(Db(products, []), true, [Item("ring", 2), Item("ring", 2)], Zarinpal, day, day);
            r.Success? && db.products["ring"].stock == -1
  {
    var products := map["ring" := Product(100, 0.0, 3, true)];
    var line := OrderItem("ring", 2, 100, 0.0);
    RepeatedItemPriced(products, Item("ring", 2));
    assert LineDiscount(line) == 0.0;
    ShiftMeaning(products, [line, line], false);
  }

  // ---------- the ledger ----------

  /** What all orders still hold of `p`: placed quantities minus one return per cancellation. */
  function Net(orders: seq<Order>, p: string): int {
    if orders == [] then 0
    else
      var o := orders[|orders| - 1];
      Net(orders[..|orders| - 1], p) + (1 - o.restocks) * Quantity(o.lines, p)
  }

  /** What the orders that were never cancelled hold of `p`. */
  function Held(orders: seq<Order>, p: string): int {
    if orders == [] then 0
    else
      var o := orders[|orders| - 1];
      Held(orders[..|orders| - 1], p) + if o.restocks == 0 then Quantity(o.lines, p) else 0
  }

  /** What repeated cancellations put back beyond what was ever taken. */
  function Surplus(orders: seq<Order>, p: string): int {
    if orders == [] then 0
    else
      var o := orders[|orders| - 1];
      Surplus(orders[..|orders| - 1], p) + if o.restocks == 0 then 0 else (o.restocks - 1) * Quantity(o.lines, p)
  }

  lemma {:induction false} NetIsHeldMinusSurplus(orders: seq<Order>, p: string)
    ensures Net(orders, p) == Held(orders, p) - Surplus(orders, p)
  {
    if orders != [] {
      NetIsHeldMinusSurplus(orders[..|orders| - 1], p);
    }
  }

  /** With no negative holdings, there is no surplus exactly when nothing held was put back twice. */
  lemma {:induction false} NoSurplusIff(orders: seq<Order>, p: string)
    requires forall i :: 0 <= i < |orders| ==> Quantity(orders[i].lines, p) >= 0
    ensures Surplus(orders, p) >= 0
    ensures Surplus(orders, p) == 0 <==>
            forall i :: 0 <= i < |orders| && Quantity(orders[i].lines, p) > 0 ==> orders[i].restocks <= 1
  {
    if orders != [] {
      var n := |orders| - 1;
      NoSurplusIff(orders[..n], p);
      var o := orders[n];
      var q := Quantity(o.lines, p);
      if o.restocks >= 1 { assert (o.restocks - 1) * q >= 0; }
      if q > 0 && o.restocks >= 2 { assert (o.restocks - 1) * q > 0; }
    }
  }

  /** Replacing one order changes the ledger by that order's share only. */
  lemma {:induction false} NetUpdate(orders: seq<Order>, id: nat, o: Order, p: string)
    requires id < |orders| && o.lines == orders[id].lines
    ensures Net(orders[id := o], p) == Net(orders, p) + (orders[id].restocks - o.restocks) * Quantity(o.lines, p)
  {
    var n := |orders| - 1;
    if id == n {
      assert orders[id := o][..n] == orders[..n];
      var q := Quantity(o.lines, p);
      assert (1 - o.restocks) * q == (1 - orders[n].restocks) * q + (orders[n].restocks - o.restocks) * q;
    } else {
      assert orders[id := o][..n] == orders[..n][id := o];
      NetUpdate(orders[..n], id, o, p);
    }
  }

  lemma NetAppend(orders: seq<Order>, o: Order, p: string)
    ensures Net(orders + [o], p) == Net(orders, p) + (1 - o.restocks) * Quantity(o.lines, p)
  {
    assert (orders + [o])[..|orders|] == orders;
  }

  /** The shelf plus what the orders hold: the quantity no transaction may change. */
  function Ledger(db: Db, p: string): int
    requires p in db.products
  {
    db.products[p].stock + Net(db.orders, p)
  }

  lemma PlaceKeepsLedger(db: Db, draft: Draft, createdOn: Date, p: string)
    requires p in db.products
    ensures var db' := PlaceOrder(db, draft, createdOn).0; p in db'.products && Ledger(db', p) == Ledger(db, p)
  {
    if PlaceOrder(db, draft, createdOn).1.Success? {
      ShiftMeaning(db.products, draft.lines, false);
      NetAppend(db.orders, NewOrder(draft, createdOn), p);
    }
  }

  lemma CancelKeepsLedger(db: Db, id: nat, p: string)
    requires p in db.products
    requires id < |db.orders| && AllKnown(db.products, db.orders[id].lines)
    ensures var db' := CommitCancel(db, id); p in db'.products && Ledger(db', p) == Ledger(db, p)
  {
    ShiftMeaning(db.products, db.orders[id].lines, true);
    var o := db.orders[id];
    NetUpdate(db.orders, id, o.(status := Cancelled, restocks := o.restocks + 1), p);
  }
}
