/**
  Order numbers under every interleaving of creations (src/modules/orders/orders.service.ts,
  `generateOrderNumber` and the transaction of `create`). A creation reads the date, then counts the
  day's orders, then inserts; between these steps anything may happen: other creations, payments,
  cancellations, midnight. The clock does not go back.
 */
module OrderNumbers {
  import opened Prelude
  import opened Orders
  import opened SerialRuns
  import Payments

  /**
    Where a creation stands. `seen` is history: how many orders there were when the date was read.
   */
  datatype Ticket = Dated(today: Date, seen: nat) | Counted(today: Date, seen: nat, count: nat)

  /** The shop with its clock, the creations, and as history the call that placed each order. */
  datatype State = State(shop: Payments.State, clock: Date, tickets: map<nat, Ticket>, placedBy: seq<nat>)

  datatype Action =
    | Advance(day: Date)
    | ReadDate(call: nat)
    | CountOrders(call: nat)
    | Insert(call: nat, lines: seq<OrderItem>, payMethod: PaymentMethod)
    | Other(step: Payments.Action)

  function Number(t: Ticket): string
    requires t.Counted?
  {
    OrderNumber(t.today, t.count + 1)
  }

  /** Call `c` has counted and not inserted yet. */
  predicate Ready(s: State, c: nat) {
    c in s.tickets && s.tickets[c].Counted? && Payments.Idle(s.shop, c)
  }

  /** The transaction of the creation: refused or not, its call goes on as `Payments` says. */
  function DoInsert(s: State, c: nat, lines: seq<OrderItem>, payMethod: PaymentMethod): State
    requires Ready(s, c)
  {
    var draft := Draft(Number(s.tickets[c]), lines, payMethod);
    var placed := PlaceOrder(s.shop.db, draft, s.clock).1;
    s.(shop := Payments.DoPlace(s.shop, c, draft, s.clock),
       placedBy := if placed.Success? then s.placedBy + [c] else s.placedBy)
  }

  function Next(s: State, a: Action): State {
    match a
    case Advance(day) => if day.Valid() && s.clock.NotAfter(day) then s.(clock := day) else s
    case ReadDate(c) =>
      if c in s.tickets || !Payments.Idle(s.shop, c) then s
      else s.(tickets := s.tickets[c := Dated(s.clock, |s.shop.db.orders|)])
    case CountOrders(c) =>
      if c in s.tickets && s.tickets[c].Dated? then
        var t := s.tickets[c];
        s.(tickets := s.tickets[c := Counted(t.today, t.seen, CountOn(s.shop.db.orders, t.today))])
      else s
    case Insert(c, lines, payMethod) => if Ready(s, c) then DoInsert(s, c, lines, payMethod) else s
    case Other(step) => if step.Place? then s else s.(shop := Payments.Next(s.shop, step))
  }

  ghost function Run(s: State, actions: seq<Action>): State {
    Fold(Next, s, actions)
  }

  predicate Initial(s: State) {
    Payments.Initial(s.shop) && s.clock.Valid() && s.tickets == map[] && s.placedBy == []
  }

  // ---------- the invariant ----------

  ghost predicate NothingAfter(orders: seq<Order>, day: Date) {
    forall k :: 0 <= k < |orders| ==> orders[k].createdOn.NotAfter(day)
  }

  /** What a ticket knows stays true while the table grows. */
  ghost predicate TicketOk(t: Ticket, orders: seq<Order>, clock: Date) {
    && t.today.Valid() && t.today.NotAfter(clock)
    && t.seen <= |orders| && NothingAfter(orders[..t.seen], t.today)
    && (t.Counted? ==> CountOn(orders[..t.seen], t.today) <= t.count <= CountOn(orders, t.today))
  }

  /** Order `k` carries the number of the call that placed it. */
  ghost predicate PlacedBy(s: State, k: nat)
    requires k < |s.shop.db.orders| && |s.placedBy| == |s.shop.db.orders|
  {
    var c := s.placedBy[k];
    && c in s.shop.calls && c in s.tickets && s.tickets[c].Counted?
    && s.shop.db.orders[k].orderNumber == Number(s.tickets[c])
  }

  ghost predicate Inv(s: State) {
    && Payments.Inv(s.shop) && s.clock.Valid()
    && WellNumbered(s.shop.db.orders) && NothingAfter(s.shop.db.orders, s.clock)
    && (forall c :: c in s.tickets ==> TicketOk(s.tickets[c], s.shop.db.orders, s.clock))
    && |s.placedBy| == |s.shop.db.orders|
    && (forall k :: 0 <= k < |s.placedBy| ==> PlacedBy(s, k))
  }

  // ---------- which numbers are taken ----------

  /** An order numbered for the ticket's day that was there when the date was read is among those counted. */
  lemma SeenIsCounted(orders: seq<Order>, t: Ticket, clock: Date, k: nat, n: nat)
    requires t.Counted? && TicketOk(t, orders, clock) && k < t.seen
    requires orders[k].createdOn.Valid() && NumberedAs(orders, k, t.today, n)
    ensures n <= t.count
  {
    assert orders[..t.seen][k] == orders[k];
    SameOrdinalSameDate(orders[k].createdOn, t.today);
    assert orders[..t.seen][..k + 1] == orders[..k + 1];
    CountOnPrefix(orders[..t.seen], k + 1, t.today);
  }

  /** An order that was there when the date was read never holds the number. */
  lemma EarlierOrdersDiffer(orders: seq<Order>, t: Ticket, clock: Date, k: nat)
    requires WellNumbered(orders) && t.Counted? && TicketOk(t, orders, clock) && k < t.seen
    ensures orders[k].orderNumber != Number(t)
  {
    assert HasNumber(orders, k);
    var day: Date, n: nat :| NumberedAs(orders, k, day, n);
    if day == t.today { SeenIsCounted(orders, t, clock, k, n); }
    if OrderNumber(day, n) == OrderNumber(t.today, t.count + 1) {
      OrderNumberInjective(day, n, t.today, t.count + 1);
    }
  }

  /** Another creation that read the same date and the same count was inserted since the date was read. */
  ghost predicate Overtaken(s: State, c: nat)
    requires c in s.tickets && s.tickets[c].Counted?
  {
    exists k :: s.tickets[c].seen <= k < |s.placedBy| && s.placedBy[k] != c && SameCount(s, s.placedBy[k], c)
  }

  ghost predicate SameCount(s: State, d: nat, c: nat)
    requires c in s.tickets && s.tickets[c].Counted?
  {
    d in s.tickets && s.tickets[d].Counted? &&
    s.tickets[d].today == s.tickets[c].today && s.tickets[d].count == s.tickets[c].count
  }

  lemma NumberFreeIff(s: State, c: nat)
    requires Inv(s) && Ready(s, c)
    ensures NumberFree(s.shop.db.orders, Number(s.tickets[c])) <==> !Overtaken(s, c)
  {
    var orders, t := s.shop.db.orders, s.tickets[c];
    if Overtaken(s, c) {
      var k :| t.seen <= k < |s.placedBy| && s.placedBy[k] != c && SameCount(s, s.placedBy[k], c);
      assert PlacedBy(s, k);
      assert orders[k].orderNumber == Number(t);
    } else {
      forall k | 0 <= k < |orders| ensures orders[k].orderNumber != Number(t) {
        if k < t.seen {
          EarlierOrdersDiffer(orders, t, s.clock, k);
        } else {
          LaterOrdersDiffer(s, c, k);
        }
      }
    }
  }

  lemma LaterOrdersDiffer(s: State, c: nat, k: nat)
    requires Inv(s) && Ready(s, c) && !Overtaken(s, c) && s.tickets[c].seen <= k < |s.shop.db.orders|
    ensures s.shop.db.orders[k].orderNumber != Number(s.tickets[c])
  {
    var d, t := s.placedBy[k], s.tickets[c];
    assert PlacedBy(s, k) && TicketOk(t, s.shop.db.orders, s.clock) && TicketOk(s.tickets[d], s.shop.db.orders, s.clock);
    assert !SameCount(s, d, c);
    if Number(s.tickets[d]) == Number(t) {
      OrderNumberInjective(s.tickets[d].today, s.tickets[d].count + 1, t.today, t.count + 1);
    }
  }

  // ---------- every step keeps the invariant ----------

  /** One more order with a number computed from a count that may be stale, but free. */
  lemma StaleAppendWellNumbered(orders: seq<Order>, o: Order, t: Ticket, clock: Date)
    requires WellNumbered(orders) && t.Counted? && TicketOk(t, orders, clock)
    requires clock.Valid() && o.createdOn == clock && o.orderNumber == Number(t) && NumberFree(orders, o.orderNumber)
    ensures WellNumbered(orders + [o])
  {
    var all := orders + [o];
    assert all[..|orders|] == orders && all[..|orders| + 1] == all;
    assert NumberedAs(all, |orders|, t.today, t.count + 1);
    assert HasNumber(all, |orders|);
    forall k | 0 <= k < |orders| ensures HasNumber(all, k) {
      assert HasNumber(orders, k);
      var day: Date, n: nat :| NumberedAs(orders, k, day, n);
      assert all[..k + 1] == orders[..k + 1];
      assert NumberedAs(all, k, day, n);
    }
  }

  lemma {:induction false} CountOnAppend(orders: seq<Order>, o: Order, day: Date)
    ensures CountOn(orders + [o], day) == CountOn(orders, day) + if o.createdOn == day then 1 else 0
  {
    assert (orders + [o])[..|orders|] == orders;
  }

  lemma TicketSurvivesAppend(t: Ticket, orders: seq<Order>, o: Order, clock: Date)
    requires TicketOk(t, orders, clock)
    ensures TicketOk(t, orders + [o], clock)
  {
    assert (orders + [o])[..t.seen] == orders[..t.seen];
    CountOnAppend(orders, o, t.today);
  }

  lemma TicketSurvivesSameGoods(t: Ticket, orders: seq<Order>, orders': seq<Order>, clock: Date)
    requires TicketOk(t, orders, clock) && SameGoods(orders, orders')
    ensures TicketOk(t, orders', clock)
  {
    CountOnSameGoods(orders[..t.seen], orders'[..t.seen], t.today);
    CountOnSameGoods(orders, orders', t.today);
    forall k | 0 <= k < t.seen ensures orders'[..t.seen][k].createdOn.NotAfter(t.today) {
      assert orders[..t.seen][k].createdOn == orders'[..t.seen][k].createdOn;
    }
  }

  lemma InsertKeepsInv(s: State, c: nat, lines: seq<OrderItem>, payMethod: PaymentMethod)
    requires Inv(s) && Ready(s, c)
    ensures Inv(DoInsert(s, c, lines, payMethod))
  {
    var draft := Draft(Number(s.tickets[c]), lines, payMethod);
    var s', orders := DoInsert(s, c, lines, payMethod), s.shop.db.orders;
    Payments.PlaceKeepsInv(s.shop, c, draft, s.clock);
    if PlaceOrder(s.shop.db, draft, s.clock).1.Success? {
      var o := NewOrder(draft, s.clock);
      assert s'.shop.db.orders == orders + [o];
      StaleAppendWellNumbered(orders, o, s.tickets[c], s.clock);
      forall d | d in s'.tickets ensures TicketOk(s'.tickets[d], orders + [o], s.clock) {
        TicketSurvivesAppend(s.tickets[d], orders, o, s.clock);
      }
    }
    forall k | 0 <= k < |s'.placedBy| ensures PlacedBy(s', k) {
      if k < |orders| { assert PlacedBy(s, k); }
    }
  }

  /** The steps of `Payments` other than `Place` keep all rows, with their numbers and dates. */
  lemma OtherKeepsGoods(s: Payments.State, a: Payments.Action)
    requires Payments.Inv(s) && !a.Place?
    ensures SameGoods(s.db.orders, Payments.Next(s, a).db.orders)
  {
    Payments.StepKeepsInv(s, a);
    var s' := Payments.Next(s, a);
    assert |s'.db.orders| == |s.db.orders|;
    forall i | 0 <= i < |s.db.orders| ensures s'.db.orders[i].orderNumber == s.db.orders[i].orderNumber {
      assert Payments.Settles(s.db.orders[i], s'.db.orders[i]);
    }
  }

  lemma OtherKeepsInv(s: State, step: Payments.Action)
    requires Inv(s) && !step.Place?
    ensures Inv(s.(shop := Payments.Next(s.shop, step)))
  {
    var s' := s.(shop := Payments.Next(s.shop, step));
    Payments.StepKeepsInv(s.shop, step);
    OtherKeepsGoods(s.shop, step);
    SameGoodsWellNumbered(s.shop.db.orders, s'.shop.db.orders);
    forall c | c in s'.tickets ensures TicketOk(s'.tickets[c], s'.shop.db.orders, s'.clock) {
      TicketSurvivesSameGoods(s.tickets[c], s.shop.db.orders, s'.shop.db.orders, s.clock);
    }
    forall k | 0 <= k < |s'.placedBy| ensures PlacedBy(s', k) {
      assert PlacedBy(s, k);
    }
  }

  /** A creation takes its ticket or counts. */
  lemma TicketKeepsInv(s: State, c: nat, t: Ticket)
    requires Inv(s) && TicketOk(t, s.shop.db.orders, s.clock)
    requires c in s.tickets ==> s.tickets[c].Dated?
    ensures Inv(s.(tickets := s.tickets[c := t]))
  {
    var s' := s.(tickets := s.tickets[c := t]);
    forall k | 0 <= k < |s'.placedBy| ensures PlacedBy(s', k) {
      assert PlacedBy(s, k);
    }
  }

  lemma StepKeepsInv(s: State, a: Action)
    requires Inv(s)
    ensures Inv(Next(s, a))
  {
    var orders := s.shop.db.orders;
    match a
    case Advance(_) =>
      forall k | 0 <= k < |s.placedBy| ensures PlacedBy(Next(s, a), k) {
        assert PlacedBy(s, k);
      }
    case ReadDate(c) =>
      assert orders[..|orders|] == orders;
      if Next(s, a) != s { TicketKeepsInv(s, c, Dated(s.clock, |orders|)); }
    case CountOrders(c) =>
      if c in s.tickets && s.tickets[c].Dated? {
        var t := s.tickets[c];
        CountOnPrefix(orders, t.seen, t.today);
        TicketKeepsInv(s, c, Counted(t.today, t.seen, CountOn(orders, t.today)));
      }
    case Insert(c, lines, payMethod) => if Ready(s, c) { InsertKeepsInv(s, c, lines, payMethod); }
    case Other(step) => if !step.Place? { OtherKeepsInv(s, step); }
  }

  lemma RunKeepsInv(s: State, actions: seq<Action>)
    requires Inv(s)
    ensures Inv(Run(s, actions))
  {
    forall t, a | Inv(t) ensures Inv(Next(t, a)) {
      StepKeepsInv(t, a);
    }
    FoldKeeps(Next, (t: State) => Inv(t), s, actions);
  }

  lemma InitialInv(s: State)
    requires Initial(s)
    ensures Inv(s)
  {
    Payments.InitialInv(s.shop);
  }

  // ---------- the results ----------

  /**
    In every interleaving, an insertion is refused for its number if and only if another creation that
    read the same date and the same count was inserted since this one read the date. (A total that is not
    a whole number is refused first.)
   */
  lemma RefusedForNumberIff(s0: State, actions: seq<Action>, c: nat, lines: seq<OrderItem>, payMethod: PaymentMethod)
    requires Initial(s0) && Ready(Run(s0, actions), c)
    ensures var s := Run(s0, actions);
            PlaceOrder(s.shop.db, Draft(Number(s.tickets[c]), lines, payMethod), s.clock).1 == Failure(NumberTaken) <==>
            IsInteger(Total(lines)) && Overtaken(s, c)
  {
    InitialInv(s0);
    RunKeepsInv(s0, actions);
    NumberFreeIff(Run(s0, actions), c);
  }

  /** A creation during which no other order was inserted is never refused for its number, midnight or not. */
  lemma AloneKeepsNumber(s0: State, actions: seq<Action>, c: nat)
    requires Initial(s0) && Ready(Run(s0, actions), c)
    requires Run(s0, actions).tickets[c].seen == |Run(s0, actions).shop.db.orders|
    ensures NumberFree(Run(s0, actions).shop.db.orders, Number(Run(s0, actions).tickets[c]))
  {
    InitialInv(s0);
    RunKeepsInv(s0, actions);
    NumberFreeIff(Run(s0, actions), c);
  }

  /** In every interleaving the numbers of all orders differ, and each tells its day, no later than its insertion. */
  lemma NumbersDifferAlways(s0: State, actions: seq<Action>)
    requires Initial(s0)
    ensures WellNumbered(Run(s0, actions).shop.db.orders)
  {
    InitialInv(s0);
    RunKeepsInv(s0, actions);
  }

  /** The three steps of a creation, one after the other, are `create`. */
  lemma CreationAlone(s: State, c: nat, items: seq<Item>, payMethod: PaymentMethod)
    requires c !in s.tickets && Payments.Idle(s.shop, c) && Price(s.shop.db.products, items).Success?
    ensures var lines := Price(s.shop.db.products, items).value;
            Run(s, [ReadDate(c), CountOrders(c), Insert(c, lines, payMethod)]).shop.db ==
            CreateOrder(s.shop.db, true, items, payMethod, s.clock, s.clock).0
  {
    var lines := Price(s.shop.db.products, items).value;
    var t := Next(s, ReadDate(c));
    var u := Next(t, CountOrders(c));
    assert u.tickets[c] == Counted(s.clock, |s.shop.db.orders|, CountOn(s.shop.db.orders, s.clock));
    FoldThree(Next, s, ReadDate(c), t, CountOrders(c), u, Insert(c, lines, payMethod), DoInsert(u, c, lines, payMethod));
  }

  /** A shop with one ring in which creation 0 has counted and creation 1 has only read the date. */
  lemma TwoCreationsBegin(s0: State, day: Date)
    requires Initial(s0) && s0.clock == day && day.Valid()
    ensures Run(s0, [ReadDate(0), CountOrders(0), ReadDate(1)]) ==
            s0.(tickets := map[0 := Counted(day, 0, 0), 1 := Dated(day, 0)])
  {
    var s1 := s0.(tickets := map[0 := Dated(day, 0)]);
    var s2 := s0.(tickets := map[0 := Counted(day, 0, 0)]);
    var s3 := s0.(tickets := map[0 := Counted(day, 0, 0), 1 := Dated(day, 0)]);
    assert Next(s0, ReadDate(0)) == s1 && Next(s1, CountOrders(0)) == s2 && Next(s2, ReadDate(1)) == s3;
    FoldThree(Next, s0, ReadDate(0), s1, CountOrders(0), s2, ReadDate(1), s3);
  }

  /** The first order, when nothing stands in its way. */
  lemma FirstOrderPlaced(products: Products, draft: Draft, createdOn: Date)
    requires IsInteger(Total(draft.lines)) && AllKnown(products, draft.lines)
    ensures PlaceOrder(Db(products, []), draft, createdOn) ==
            (Db(Shift(products, draft.lines, false), [NewOrder(draft, createdOn)]), Success(0))
  {
    assert [] + [NewOrder(draft, createdOn)] == [NewOrder(draft, createdOn)];
  }

  /** An order numbered for one day goes in on a later one, and a count for the first day then finds nothing. */
  lemma LateInsert(s: State, day: Date, later: Date) returns (t: State)
    requires s.shop.db == Db(LAST_RING, []) && s.shop.calls == map[] && s.clock == later && day != later
    requires s.tickets == map[0 := Counted(day, 0, 0), 1 := Dated(day, 0)] && s.placedBy == []
    ensures t == Next(s, Insert(0, [RING_LINE], CashOnDelivery)) && t.tickets == s.tickets && t.placedBy == [0]
    ensures |t.shop.db.orders| == 1 && t.shop.db.orders[0].createdOn == later && 1 !in t.shop.calls
  {
    RingIsPriced();
    FirstOrderPlaced(LAST_RING, Draft(OrderNumber(day, 1), [RING_LINE], CashOnDelivery), later);
    assert Ready(s, 0);
    t := DoInsert(s, 0, [RING_LINE], CashOnDelivery);
  }

  /** Midnight passes, creation 0 inserts, and only then does creation 1 count: nothing is dated on its day. */
  lemma MidnightPasses(s: State, day: Date, later: Date)
    requires s.shop.db == Db(LAST_RING, []) && s.shop.calls == map[] && s.clock == day && later.Valid()
    requires day.NotAfter(later) && day != later
    requires s.tickets == map[0 := Counted(day, 0, 0), 1 := Dated(day, 0)] && s.placedBy == []
    ensures var t := Run(s, [Advance(later), Insert(0, [RING_LINE], CashOnDelivery), CountOrders(1)]);
            t.tickets == map[0 := Counted(day, 0, 0), 1 := Counted(day, 0, 0)] && t.placedBy == [0] && Ready(t, 1)
  {
    var s1 := s.(clock := later);
    var s2 := LateInsert(s1, day, later);
    var s3 := s2.(tickets := map[0 := Counted(day, 0, 0), 1 := Counted(day, 0, 0)]);
    assert CountOn(s2.shop.db.orders, day) == 0 && s2.tickets[1 := Counted(day, 0, 0)] == s3.tickets;
    FoldThree(Next, s, Advance(later), s1, Insert(0, [RING_LINE], CashOnDelivery), s2, CountOrders(1), s3);
  }

  /**
    A collision of two creations of which one counted only after the other was inserted: both read the date
    before midnight, and an order inserted after midnight is not counted on the day it is numbered for.
   */
  lemma MidnightCollision(day: Date, later: Date) returns (s0: State, actions: seq<Action>)
    requires day.Valid() && later.Valid() && day.NotAfter(later) && day != later
    ensures Initial(s0) && Ready(Run(s0, actions), 1)
    ensures !NumberFree(Run(s0, actions).shop.db.orders, Number(Run(s0, actions).tickets[1]))
  {
    s0 := State(Payments.State(Db(LAST_RING, []), map[], []), day, map[], []);
    var first := [ReadDate(0), CountOrders(0), ReadDate(1)];
    var rest := [Advance(later), Insert(0, [RING_LINE], CashOnDelivery), CountOrders(1)];
    TwoCreationsBegin(s0, day);
    MidnightPasses(Run(s0, first), day, later);
    FoldAppend(Next, s0, first, rest);
    actions := first + rest;
    InitialInv(s0);
    RunKeepsInv(s0, actions);
    var s := Run(s0, actions);
    assert s.placedBy[0] != 1 && SameCount(s, s.placedBy[0], 1);
    NumberFreeIff(s, 1);
  }
}
