/**
  The shop run by one caller at a time: the services' methods over the tables they change
  (src/modules/orders/orders.service.ts, src/modules/cart/cart.service.ts,
  src/modules/checkout/checkout.service.ts), each proved against the specification functions of
  `Orders` and `Cart` or against one call of the machine of `Payments` scheduled alone.
 */
module Shop {
  import opened Prelude
  import opened Orders
  import opened Cart
  import opened Payments

  /** The tables as one value. */
  datatype Content = Content(db: Db, cart: Table, verdicts: seq<Verdict>)

  datatype CheckoutReply = Answered(reply: Reply) | EmptyCart | NotCreated(refusal: Refusal)

  // ---------- a call that is not interrupted ----------

  /** The rest of a verify call, from any point on. */
  function FinishVerify(s: State, verdict: GatewayAnswer): State {
    Next(Next(Next(Next(s, GatewayVerified(0, verdict)), WriteFailed(0)), WritePaid(0)), Reread(0))
  }

  /** One verify call, scheduled alone from start to end. */
  function VerifyAlone(db: Db, verdicts: seq<Verdict>, authority: string, ok: bool, verdict: GatewayAnswer): State {
    FinishVerify(DoBeginVerify(State(db, map[], verdicts), 0, authority, ok), verdict)
  }

  lemma FinishReplied(s: State, reply: Reply, verdict: GatewayAnswer)
    requires s.calls == map[0 := Replied(reply)]
    ensures FinishVerify(s, verdict) == s
  {
    assert Next(s, GatewayVerified(0, verdict)) == s && Next(s, WriteFailed(0)) == s && Next(s, WritePaid(0)) == s;
  }

  lemma FinishFailing(s: State, id: nat, verdict: GatewayAnswer)
    requires id < |s.db.orders| && s.calls == map[0 := Failing(id)]
    ensures FinishVerify(s, verdict) == DoWriteFailed(s, 0, id)
  {
    assert Next(s, GatewayVerified(0, verdict)) == s;
    var t := Next(s, WriteFailed(0));
    assert t == DoWriteFailed(s, 0, id);
    assert Next(t, WritePaid(0)) == t && Next(t, Reread(0)) == t;
  }

  lemma FinishAsking(s: State, id: nat, authority: string, amount: int, verdict: GatewayAnswer)
    requires id < |s.db.orders| && s.calls == map[0 := Asking(id, authority, amount)]
    ensures var t := DoVerified(s, 0, id, authority, amount, verdict);
            FinishVerify(s, verdict) ==
            match verdict
            case Declined => DoWriteFailed(t, 0, id)
            case Accepted(refId) =>
              var w := DoWritePaid(t, 0, id, refId);
              if w.calls[0].Rereading? then DoReread(w, 0, id) else w
  {
    var t := DoVerified(s, 0, id, authority, amount, verdict);
    assert Next(s, GatewayVerified(0, verdict)) == t;
    match verdict
    case Declined =>
      var v := Next(t, WriteFailed(0));
      assert v == DoWriteFailed(t, 0, id);
      assert Next(v, WritePaid(0)) == v && Next(v, Reread(0)) == v;
    case Accepted(refId) =>
      assert Next(t, WriteFailed(0)) == t;
      assert Next(t, WritePaid(0)) == DoWritePaid(t, 0, id, refId);
  }

  /** `cancel` from start to end is a cancel call of the protocol scheduled alone. */
  lemma CancelFollowsProtocol(db: Db, verdicts: seq<Verdict>, id: nat)
    ensures var (db', refused) := CancelOrder(db, id);
            Next(Next(State(db, map[], verdicts), BeginCancel(0, id)), WriteCancel(0)) ==
            State(db', map[0 := Replied(if refused.None? then OrderCancelled(id) else Refused)], verdicts)
  {
    var s := State(db, map[], verdicts);
    var t := Next(s, BeginCancel(0, id));
    if t.calls[0].Cancelling? {
      assert Next(t, WriteCancel(0)) == DoWriteCancel(t, 0, id);
    } else {
      assert Next(t, WriteCancel(0)) == t;
    }
  }

  /** What `checkout` does with order `id` once it is in: the gateway's answer and its consequences. */
  function SettledCheckout(db: Db, id: nat, gateway: Option<string>): (Db, Reply)
    requires id < |db.orders|
  {
    var o := db.orders[id];
    if o.payMethod == CashOnDelivery || o.payMethod == BankTransfer then (db, OrderPlaced(id))
    else if o.payMethod == NextPay || gateway.None? || gateway.value == "" then (db, Refused)
    else if exists i :: 0 <= i < |db.orders| && i != id && db.orders[i].authority == gateway then (db, Refused)
    else (db.(orders := db.orders[id := o.(authority := gateway)]), Redirect(id, gateway.value))
  }

  /** The same part as the protocol has it, a fresh call scheduled alone from the transaction on. */
  lemma CheckoutFollowsProtocol(db: Db, verdicts: seq<Verdict>, draft: Draft, createdOn: Date, gateway: Option<string>)
    requires PlaceOrder(db, draft, createdOn).1.Success?
    ensures var s := DoPlace(State(db, map[], verdicts), 0, draft, createdOn);
            var (db', reply) := SettledCheckout(PlaceOrder(db, draft, createdOn).0, |db.orders|, gateway);
            Next(Next(s, GatewayRequested(0, gateway)), StoreAuthority(0)) == State(db', map[0 := Replied(reply)], verdicts)
  {
    var placed, id := PlaceOrder(db, draft, createdOn).0, |db.orders|;
    var s := DoPlace(State(db, map[], verdicts), 0, draft, createdOn);
    assert s == State(placed, s.calls, verdicts) && placed.orders[id].payMethod == draft.payMethod;
    if s.calls[0].Requesting? {
      FinishRequesting(s, id, gateway);
    } else {
      assert Next(s, GatewayRequested(0, gateway)) == s;
    }
  }

  lemma FinishRequesting(s: State, id: nat, gateway: Option<string>)
    requires id < |s.db.orders| && s.calls == map[0 := Requesting(id)] && s.db.orders[id].authority.None?
    requires s.db.orders[id].payMethod == Zarinpal || s.db.orders[id].payMethod == NextPay
    ensures var (db', reply) := SettledCheckout(s.db, id, gateway);
            Next(Next(s, GatewayRequested(0, gateway)), StoreAuthority(0)) == State(db', map[0 := Replied(reply)], s.verdicts)
  {
    var t := DoRequested(s, 0, id, gateway);
    assert Next(s, GatewayRequested(0, gateway)) == t;
    if t.calls[0].Storing? {
      assert Next(t, StoreAuthority(0)) == DoStore(t, 0, id, gateway.value);
    } else {
      assert Next(t, StoreAuthority(0)) == t;
    }
  }

  /** `checkout` from the items on: explicit ones if there are any, else the cart's. */
  function CheckoutItems(c: Content, userId: string, explicit: seq<Item>): seq<Item> {
    if explicit != [] then explicit else ItemsOf(RowsOf(c.cart.rows, userId))
  }

  function CheckoutTables(c: Content, userId: string, addressOk: bool, explicit: seq<Item>, payMethod: PaymentMethod,
                          today: Date, createdOn: Date, gateway: Option<string>): (Content, CheckoutReply)
  {
    var items := CheckoutItems(c, userId, explicit);
    var (db, created) := CreateOrder(c.db, addressOk, items, payMethod, today, createdOn);
    if !addressOk then (c, NotCreated(BadAddress))
    else if items == [] then (c, EmptyCart)
    else if created.Failure? then (c, NotCreated(created.error))
    else FinishedCheckout(c.(db := db), userId, explicit == [], created.value, gateway)
  }

  /** From the stored order on; a cart that was used is cleared only if the call succeeds. */
  function FinishedCheckout(c: Content, userId: string, usedCart: bool, id: nat, gateway: Option<string>)
    : (Content, CheckoutReply)
    requires id < |c.db.orders|
  {
    var (db, reply) := SettledCheckout(c.db, id, gateway);
    (Content(db, if usedCart && reply != Refused then ClearCart(c.cart, userId) else c.cart, c.verdicts), Answered(reply))
  }

  // ---------- outcomes, column by column ----------

  /** What one verify call does to the orders and the gateway's history, and what it answers. */
  ghost predicate VerifyOutcome(orders: seq<Order>, verdicts: seq<Verdict>, authority: string, ok: bool,
                                verdict: GatewayAnswer, orders': seq<Order>, verdicts': seq<Verdict>, r: Reply)
  {
    var found := FindByAuthority(orders, authority);
    if found.None? then r == Refused && orders' == orders && verdicts' == verdicts
    else
      var id, o := found.value, orders[found.value];
      && (o.payStatus == Paid ==> r == PaymentOk(id, o.paymentId))
      && (o.payStatus != Paid && !(o.payStatus == Unpaid && ok && o.payMethod == Zarinpal && verdict.Accepted?) ==>
            r == Refused)
      && (o.payStatus == Unpaid && (!ok || (o.payMethod == Zarinpal && verdict.Declined?)) ==>
            orders' == orders[id := o.(payStatus := Failed)])
      && (o.payStatus == Unpaid && ok && o.payMethod == Zarinpal && verdict.Accepted? ==>
            && r == PaymentOk(id, verdict.refId)
            && orders' == orders[id := o.(payStatus := Paid, status := Confirmed,
                                          paymentId := if verdict.refId.Some? then verdict.refId else o.paymentId)])
      && (o.payStatus != Unpaid || (ok && o.payMethod != Zarinpal) ==> orders' == orders)
      && verdicts' == verdicts + if o.payStatus != Paid && ok && o.payMethod == Zarinpal && verdict.Accepted?
                                 then [Verdict(authority, o.totalPrice, verdict.refId)] else []
  }

  /** What a checkout does to the cart rows: the user's are gone exactly if the cart was used and the call succeeded. */
  ghost predicate CartOutcome(rows: seq<CartRow>, userId: string, explicit: seq<Item>, rows': seq<CartRow>, r: CheckoutReply) {
    if explicit == [] && r.Answered? && (r.reply.OrderPlaced? || r.reply.Redirect?) then
      RowsOf(rows', userId) == [] && forall v :: v != userId ==> RowsOf(rows', v) == RowsOf(rows, v)
    else rows' == rows
  }

  /** What a checkout that got its order in does with it: paid on delivery or by transfer, sent to the gateway, or left as it is. */
  ghost predicate PaymentOutcome(orders: seq<Order>, id: nat, gateway: Option<string>, orders': seq<Order>, reply: Reply)
    requires id < |orders|
  {
    var payMethod := orders[id].payMethod;
    var sendable := payMethod == Zarinpal && gateway.Some? && gateway.value != "" &&
                    forall i :: 0 <= i < |orders| && i != id ==> orders[i].authority != gateway;
    if payMethod == CashOnDelivery || payMethod == BankTransfer then reply == OrderPlaced(id) && orders' == orders
    else if sendable then
      reply == Redirect(id, gateway.value) && orders' == orders[id := orders[id].(authority := gateway)]
    else reply == Refused && orders' == orders
  }

  lemma PaymentMeaning(db: Db, id: nat, gateway: Option<string>)
    requires id < |db.orders|
    ensures var (db', reply) := SettledCheckout(db, id, gateway);
            db'.products == db.products && PaymentOutcome(db.orders, id, gateway, db'.orders, reply)
  {
  }

  lemma CartMeaning(c: Content, userId: string, usedCart: bool, id: nat, gateway: Option<string>)
    requires id < |c.db.orders|
    ensures var (c', r) := FinishedCheckout(c, userId, usedCart, id, gateway);
            CartOutcome(c.cart.rows, userId, if usedCart then [] else [Item("", 0)], c'.cart.rows, r)
  {
    PaymentMeaning(c.db, id, gateway);
    forall v: string
      ensures RowsOf(ClearCart(c.cart, userId).rows, v) == if v == userId then [] else RowsOf(c.cart.rows, v)
    {
      ClearedCart(c.cart.rows, userId, v);
    }
  }

  /** What a checkout does from start to end, told without its parts. */
  ghost predicate CheckoutOutcome(c: Content, userId: string, addressOk: bool, explicit: seq<Item>, payMethod: PaymentMethod,
                                  today: Date, createdOn: Date, gateway: Option<string>, c': Content, r: CheckoutReply)
  {
    var items := if explicit != [] then explicit else ItemsOf(RowsOf(c.cart.rows, userId));
    && CartOutcome(c.cart.rows, userId, explicit, c'.cart.rows, r)
    && c'.cart.nextId == c.cart.nextId && c'.verdicts == c.verdicts
    && (r == EmptyCart <==> addressOk && items == [])
    && (r == NotCreated(BadAddress) <==> !addressOk)
    && (!r.Answered? ==> c'.db == c.db)
    && (r.NotCreated? && addressOk ==>
          CreateOrder(c.db, true, items, payMethod, today, createdOn).1 == Failure(r.refusal))
    && (r.Answered? ==>
          var (db, created) := CreateOrder(c.db, true, items, payMethod, today, createdOn);
          && created == Success(|c.db.orders|) && |db.orders| == |c.db.orders| + 1 && c'.db.products == db.products
          && PaymentOutcome(db.orders, |c.db.orders|, gateway, c'.db.orders, r.reply))
  }

  lemma CheckoutMeaning(c: Content, userId: string, addressOk: bool, explicit: seq<Item>, payMethod: PaymentMethod,
                        today: Date, createdOn: Date, gateway: Option<string>)
    ensures var (c', r) := CheckoutTables(c, userId, addressOk, explicit, payMethod, today, createdOn, gateway);
            CheckoutOutcome(c, userId, addressOk, explicit, payMethod, today, createdOn, gateway, c', r)
  {
    var items := CheckoutItems(c, userId, explicit);
    var (db, created) := CreateOrder(c.db, addressOk, items, payMethod, today, createdOn);
    if addressOk && items != [] {
      if created.Success? {
        CreateEffect(c.db, items, payMethod, today, createdOn);
        PaymentMeaning(db, created.value, gateway);
        CartMeaning(c.(db := db), userId, explicit == [], created.value, gateway);
      } else {
        CreateRefusal(c.db, addressOk, items, payMethod, today, createdOn);
      }
    }
  }

  /** Straight after a cart checkout that succeeded there is nothing left to check out. */
  lemma CheckoutAgainIsEmpty(c: Content, userId: string, payMethod: PaymentMethod, today: Date, createdOn: Date,
                             gateway: Option<string>, payMethod': PaymentMethod, today': Date, createdOn': Date,
                             gateway': Option<string>)
    requires var r := CheckoutTables(c, userId, true, [], payMethod, today, createdOn, gateway).1;
             r.Answered? && (r.reply.OrderPlaced? || r.reply.Redirect?)
    ensures var c' := CheckoutTables(c, userId, true, [], payMethod, today, createdOn, gateway).0;
            CheckoutTables(c', userId, true, [], payMethod', today', createdOn', gateway') == (c', EmptyCart)
  {
    CheckoutMeaning(c, userId, true, [], payMethod, today, createdOn, gateway);
    var c' := CheckoutTables(c, userId, true, [], payMethod, today, createdOn, gateway).0;
    assert ItemsOf(RowsOf(c'.cart.rows, userId)) == [];
  }

  // ---------- the services ----------

  class ShopServer {
    var products: Products
    var orders: seq<Order>
    var rows: seq<CartRow>
    var nextRow: nat
    var verdicts: seq<Verdict>

    function Tables(): Content
      reads this
    {
      Content(Db(products, orders), Table(rows, nextRow), verdicts)
    }

    constructor (products: Products)
      ensures Tables() == Content(Db(products, []), Table([], 0), [])
    {
      this.products, orders, rows, nextRow, verdicts := products, [], [], 0, [];
    }

    /** The validation loop of `OrdersService.create`. */
    method PriceItems(items: seq<Item>)
      returns (r: Result<seq<OrderItem>, Refusal>, subtotal: int, discount: real)
      ensures r == Price(products, items)
      ensures r.Success? ==> subtotal == Subtotal(r.value) && discount == Discount(r.value)
    {
      subtotal, discount := 0, 0.0;
      var orderItems: seq<OrderItem> := [];
      for k := 0 to |items|
        invariant Price(products, items[..k]) == Success(orderItems)
        invariant subtotal == Subtotal(orderItems) && discount == Discount(orderItems)
      {
        var item := items[k];
        PriceStep(products, items, k);
        if item.productId !in products || !products[item.productId].isActive {
          return Failure(UnknownProduct(item.productId)), subtotal, discount;
        }
        if !CheckStock(products, item.productId, item.quantity) {
          return Failure(OutOfStock(item.productId)), subtotal, discount;
        }
        var product := products[item.productId];
        var line := OrderItem(item.productId, item.quantity, product.price, product.discount);
        SumsStep(orderItems, line);
        var itemPrice := product.price * item.quantity;
        var itemDiscount := (product.price as real * product.discount) / 100.0 * item.quantity as real;
        subtotal, discount := subtotal + itemPrice, discount + itemDiscount;
        orderItems := orderItems + [line];
      }
      assert items[..|items|] == items;
      r := Success(orderItems);
    }

    /** The decrement loop of `OrdersService.create`. */
    method TakeGoods(items: seq<Item>, lines: seq<OrderItem>)
      requires Price(products, items) == Success(lines)
      modifies this`products
      ensures AllKnown(old(products), lines) && products == Shift(old(products), lines, false)
    {
      PricedLinesKnown(products, items);
      PriceMeaning(products, items);
      for k := 0 to |items|
        invariant products == Shift(old(products), lines[..k], false)
      {
        assert lines[..k + 1][..k] == lines[..k];
        assert PriceItem(old(products), items[k]) == Success(lines[k]);
        products := Move(products, items[k].productId, -items[k].quantity);
      }
      assert lines[..|items|] == lines;
    }

    /** `OrdersService.create`: price every item, then insert and take the goods in one transaction. */
    method CreateOrder(addressOk: bool, items: seq<Item>, payMethod: PaymentMethod, today: Date, createdOn: Date)
      returns (r: Result<nat, Refusal>)
      modifies this`products, this`orders
      ensures (Tables().db, r) ==
              Orders.CreateOrder(old(Tables().db), addressOk, items, payMethod, today, createdOn)
    {
      if !addressOk {
        return Failure(BadAddress);
      }
      var priced, subtotal, discount := PriceItems(items);
      if priced.Failure? {
        return Failure(priced.error);
      }
      var totalPrice := subtotal as real - discount;
      var orderNumber := NextOrderNumber(orders, today);
      if !IsInteger(totalPrice) {
        return Failure(TotalNotInteger);
      }
      if !NumberFree(orders, orderNumber) {
        return Failure(NumberTaken);
      }
      orders := orders + [Order(orderNumber, priced.value, subtotal, Round(discount), totalPrice.Floor, payMethod,
                                Pending, Unpaid, None, None, createdOn, 0)];
      TakeGoods(items, priced.value);
      r := Success(|orders| - 1);
    }

    /** `OrdersService.cancel`: guards, then return the goods and mark the order; a missing product rolls back. */
    method CancelOrder(id: nat) returns (refused: Option<Refusal>)
      modifies this`products, this`orders
      ensures (Tables().db, refused) == Orders.CancelOrder(old(Tables().db), id)
    {
      if id >= |orders| {
        return Some(NoSuchOrder);
      }
      var order := orders[id];
      if order.status == Shipped || order.status == Delivered {
        return Some(AlreadyShipped);
      }
      if order.payStatus == Paid {
        return Some(AlreadyPaid);
      }
      var staged := products;
      for k := 0 to |order.lines|
        invariant AllKnown(products, order.lines[..k]) && staged == Shift(products, order.lines[..k], true)
      {
        assert order.lines[..k + 1][..k] == order.lines[..k];
        if order.lines[k].productId !in staged {
          return Some(MissingProduct);
        }
        staged := Move(staged, order.lines[k].productId, order.lines[k].quantity);
      }
      assert order.lines[..|order.lines|] == order.lines;
      products := staged;
      orders := orders[id := order.(status := Cancelled, restocks := order.restocks + 1)];
      refused := None;
    }

    /** `OrdersService.updateStatus`. */
    method UpdateStatus(id: nat, status: OrderStatus) returns (found: bool)
      modifies this`orders
      ensures found == (id < |old(orders)|)
      ensures orders == if found then old(orders)[id := old(orders)[id].(status := status)] else old(orders)
      ensures State(Tables().db, map[], verdicts) ==
              Next(State(old(Tables().db), map[], old(verdicts)), SetStatus(id, status))
    {
      found := id < |orders|;
      if found {
        orders := orders[id := orders[id].(status := status)];
      }
    }

    /** `OrdersService.setPaymentAuthority`; the column is unique. */
    method SetPaymentAuthority(id: nat, authority: string) returns (stored: bool)
      requires id < |orders|
      modifies this`orders
      ensures stored <==> forall i :: 0 <= i < |old(orders)| && i != id ==> old(orders)[i].authority != Some(authority)
      ensures orders == if stored then old(orders)[id := old(orders)[id].(authority := Some(authority))] else old(orders)
    {
      stored := forall i :: 0 <= i < |orders| && i != id ==> orders[i].authority != Some(authority);
      if stored {
        orders := orders[id := orders[id].(authority := Some(authority))];
      }
    }

    /**
      `CheckoutService.verifyPayment`, its guarded writes in place: left alone it is one verify call of the
      machine, and does what `VerifyOutcome` says. A FAILED order stays refused even when the gateway took
      the money.
     */
    method VerifyPayment(authority: string, ok: bool, verdict: GatewayAnswer) returns (r: Reply)
      modifies this`orders, this`verdicts
      ensures State(Tables().db, map[0 := Replied(r)], verdicts) ==
              VerifyAlone(old(Tables().db), old(verdicts), authority, ok, verdict)
      ensures VerifyOutcome(old(orders), old(verdicts), authority, ok, verdict, orders, verdicts, r)
    {
      ghost var begun := DoBeginVerify(State(Tables().db, map[], verdicts), 0, authority, ok);
      var found := FindByAuthority(orders, authority);
      if found.None? {
        FinishReplied(begun, Refused, verdict);
        return Refused;
      }
      var id := found.value;
      var order := orders[id];
      if order.payStatus == Paid {
        FinishReplied(begun, PaymentOk(id, order.paymentId), verdict);
        return PaymentOk(id, order.paymentId);
      }
      if !ok {
        FinishFailing(begun, id, verdict);
        if order.payStatus == Unpaid {
          orders := orders[id := order.(payStatus := Failed)];
        }
        return Refused;
      }
      if order.payMethod != Zarinpal {
        FinishReplied(begun, Refused, verdict);
        return Refused;
      }
      FinishAsking(begun, id, authority, order.totalPrice, verdict);
      if verdict.Declined? {
        if order.payStatus == Unpaid {
          orders := orders[id := order.(payStatus := Failed)];
        }
        return Refused;
      }
      verdicts := verdicts + [Verdict(authority, order.totalPrice, verdict.refId)];
      if order.payStatus != Unpaid {
        return Refused;
      }
      var paymentId := if verdict.refId.Some? then verdict.refId else order.paymentId;
      orders := orders[id := order.(payStatus := Paid, status := Confirmed, paymentId := paymentId)];
      r := PaymentOk(id, verdict.refId);
    }

    /** The part of `CheckoutService.checkout` after the order is in. */
    method SettleCheckout(id: nat, gateway: Option<string>) returns (r: Reply)
      requires id < |orders|
      modifies this`orders
      ensures (Tables().db, r) == SettledCheckout(old(Tables().db), id, gateway)
    {
      var payMethod := orders[id].payMethod;
      if payMethod == CashOnDelivery || payMethod == BankTransfer {
        return OrderPlaced(id);
      }
      if payMethod == NextPay || gateway.None? || gateway.value == "" {
        return Refused;
      }
      var stored := this.SetPaymentAuthority(id, gateway.value);
      if !stored {
        return Refused;
      }
      r := Redirect(id, gateway.value);
    }

    /** `CheckoutService.checkout`: what `CheckoutOutcome` says of orders, shelves and cart. */
    method Checkout(userId: string, addressOk: bool, explicit: seq<Item>, payMethod: PaymentMethod,
                    today: Date, createdOn: Date, gateway: Option<string>) returns (r: CheckoutReply)
      modifies this
      ensures (Tables(), r) == CheckoutTables(old(Tables()), userId, addressOk, explicit, payMethod, today, createdOn, gateway)
      ensures CheckoutOutcome(old(Tables()), userId, addressOk, explicit, payMethod, today, createdOn, gateway, Tables(), r)
    {
      CheckoutMeaning(Tables(), userId, addressOk, explicit, payMethod, today, createdOn, gateway);
      if !addressOk {
        return NotCreated(BadAddress);
      }
      var items := explicit;
      if explicit == [] {
        items := ItemsOf(RowsOf(rows, userId));
        if items == [] {
          return EmptyCart;
        }
      }
      var created := this.CreateOrder(addressOk, items, payMethod, today, createdOn);
      if created.Failure? {
        return NotCreated(created.error);
      }
      r := FinishCheckout(userId, explicit == [], created.value, gateway);
    }

    method FinishCheckout(userId: string, usedCart: bool, id: nat, gateway: Option<string>) returns (r: CheckoutReply)
      requires id < |orders|
      modifies this`orders, this`rows
      ensures (Tables(), r) == FinishedCheckout(old(Tables()), userId, usedCart, id, gateway)
    {
      var reply := this.SettleCheckout(id, gateway);
      if usedCart && reply != Refused {
        this.ClearCart(userId);
      }
      r := Answered(reply);
    }

    /** `CartService.addToCart`: one row per user and product, found before one is made. */
    method AddToCart(userId: string, productId: string, quantity: int) returns (refused: Option<CartRefusal>)
      modifies this`rows, this`nextRow
      ensures (Tables().cart, refused) ==
              Cart.AddToCart(products, old(Tables().cart), userId, productId, quantity)
    {
      if quantity < 1 {
        return Some(QuantityTooSmall);
      }
      if productId !in products || !products[productId].isActive {
        return Some(ProductUnavailable);
      }
      if !CheckStock(products, productId, quantity) {
        return Some(NotEnoughStock);
      }
      var existing := FindRow(rows, userId, productId);
      if existing.Some? {
        var newQuantity := rows[existing.value].quantity + quantity;
        if !CheckStock(products, productId, newQuantity) {
          return Some(NotEnoughStock);
        }
        rows := rows[existing.value := rows[existing.value].(quantity := newQuantity)];
      } else {
        rows, nextRow := rows + [CartRow(nextRow, userId, productId, quantity)], nextRow + 1;
      }
      refused := None;
    }

    /** `CartService.updateCartItem`. */
    method UpdateCartItem(userId: string, id: nat, quantity: int) returns (refused: Option<CartRefusal>)
      modifies this`rows
      ensures (Tables().cart, refused) ==
              Cart.UpdateCartItem(products, old(Tables().cart), userId, id, quantity)
    {
      if quantity < 1 {
        return Some(QuantityTooSmall);
      }
      var found := FindRowById(rows, id);
      if found.None? {
        return Some(RowNotFound);
      }
      var row := rows[found.value];
      if row.userId != userId {
        return Some(NotYourCart);
      }
      if !CheckStock(products, row.productId, quantity) {
        return Some(NotEnoughStock);
      }
      rows := rows[found.value := row.(quantity := quantity)];
      refused := None;
    }

    /** `CartService.removeFromCart`. */
    method RemoveFromCart(userId: string, id: nat) returns (refused: Option<CartRefusal>)
      modifies this`rows
      ensures (Tables().cart, refused) == Cart.RemoveFromCart(old(Tables().cart), userId, id)
    {
      var found := FindRowById(rows, id);
      if found.None? {
        return Some(RowNotFound);
      }
      if rows[found.value].userId != userId {
        return Some(NotYourCart);
      }
      rows := rows[..found.value] + rows[found.value + 1..];
      refused := None;
    }

    /** `CartService.clearCart`. */
    method ClearCart(userId: string)
      modifies this`rows
      ensures Tables().cart == Cart.ClearCart(old(Tables().cart), userId)
    {
      rows := RowsNotOf(rows, userId);
    }
  }
}
