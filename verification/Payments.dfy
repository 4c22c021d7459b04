/**
  The payment protocol as a state machine over the atomic steps between two awaits
  (src/modules/checkout/checkout.service.ts, with `cancel` and `updateStatus` of
  src/modules/orders/orders.service.ts).

  Any number of checkout, verify and cancel calls may be in flight. Each one is a
  program counter in `calls`; an action lets one call take its next step, so a
  sequence of actions is an interleaving. Gateway verdicts, authorities, refIds and
  drafts are inputs of the steps: anything may come.
 */
module Payments {
  import opened Prelude
  import opened Orders

  datatype Reply =
    | PaymentOk(order: nat, refId: Option<string>)
    | OrderPlaced(order: nat)
    | Redirect(order: nat, authority: string)
    | OrderCancelled(order: nat)
    | Refused

  /** What a call will do when it is scheduled next. */
  datatype Call =
    | Requesting(order: nat)                          // checkout: awaits the gateway's authority
    | Storing(order: nat, authority: string)          // checkout: will store the authority
    | Asking(order: nat, authority: string, amount: int) // verify: awaits the gateway's verdict
    | Failing(order: nat)                             // verify: will write FAILED if still UNPAID
    | Confirming(order: nat, refId: Option<string>)   // verify: will write PAID if still UNPAID
    | Rereading(order: nat)                           // verify: lost the write, will look again
    | Cancelling(order: nat)                          // cancel: guards passed, will commit
    | Replied(reply: Reply)

  /** A positive answer of the gateway, kept as history. */
  datatype Verdict = Verdict(authority: string, amount: int, refId: Option<string>)

  datatype GatewayAnswer = Accepted(refId: Option<string>) | Declined

  datatype State = State(db: Db, calls: map<nat, Call>, verdicts: seq<Verdict>)

  datatype Action =
    | Place(call: nat, draft: Draft, createdOn: Date)
    | GatewayRequested(call: nat, answer: Option<string>)
    | StoreAuthority(call: nat)
    | BeginVerify(call: nat, authority: string, ok: bool)
    | GatewayVerified(call: nat, verdict: GatewayAnswer)
    | WriteFailed(call: nat)
    | WritePaid(call: nat)
    | Reread(call: nat)
    | BeginCancel(call: nat, order: nat)
    | WriteCancel(call: nat)
    | SetStatus(order: nat, status: OrderStatus)

  // ---------- the steps ----------

  /** `findUnique` by authority. */
  function FindByAuthority(orders: seq<Order>, authority: string): (r: Option<nat>)
    ensures r.Some? ==> r.value < |orders| && orders[r.value].authority == Some(authority)
    ensures r.None? ==> forall i :: 0 <= i < |orders| ==> orders[i].authority != Some(authority)
  {
    if orders == [] then None
    else
      var n := |orders| - 1;
      if orders[n].authority == Some(authority) then Some(n) else FindByAuthority(orders[..n], authority)
  }

  function Resume(s: State, c: nat, call: Call): State {
    s.(calls := s.calls[c := call])
  }

  function WithOrder(s: State, id: nat, o: Order): State
    requires id < |s.db.orders|
  {
    s.(db := s.db.(orders := s.db.orders[id := o]))
  }

  function DoPlace(s: State, c: nat, draft: Draft, createdOn: Date): State {
    var (db, placed) := PlaceOrder(s.db, draft, createdOn);
    match placed
    case Failure(_) => Resume(s, c, Replied(Refused))
    case Success(id) =>
      Resume(s.(db := db), c,
             if draft.payMethod == CashOnDelivery || draft.payMethod == BankTransfer
             then Replied(OrderPlaced(id)) else Requesting(id))
  }

  /** The request to the gateway came back. NEXTPAY throws; an empty authority counts as none. */
  function DoRequested(s: State, c: nat, id: nat, answer: Option<string>): State
    requires id < |s.db.orders|
  {
    if s.db.orders[id].payMethod == NextPay || answer.None? || answer.value == "" then
      Resume(s, c, Replied(Refused))
    else Resume(s, c, Storing(id, answer.value))
  }

  /** `setPaymentAuthority`; the column is unique. */
  function DoStore(s: State, c: nat, id: nat, authority: string): State
    requires id < |s.db.orders|
  {
    var holder := FindByAuthority(s.db.orders, authority);
    if holder.Some? && holder.value != id then Resume(s, c, Replied(Refused))
    else
      Resume(WithOrder(s, id, s.db.orders[id].(authority := Some(authority))), c, Replied(Redirect(id, authority)))
  }

  function DoBeginVerify(s: State, c: nat, authority: string, ok: bool): State {
    match FindByAuthority(s.db.orders, authority)
    case None => Resume(s, c, Replied(Refused))
    case Some(id) =>
      var o := s.db.orders[id];
      if o.payStatus == Paid then Resume(s, c, Replied(PaymentOk(id, o.paymentId)))
      else if !ok then Resume(s, c, Failing(id))
      else if o.payMethod != Zarinpal then Resume(s, c, Replied(Refused))
      else Resume(s, c, Asking(id, authority, o.totalPrice))
  }

  function DoVerified(s: State, c: nat, id: nat, authority: string, amount: int, verdict: GatewayAnswer): State {
    match verdict
    case Declined => Resume(s, c, Failing(id))
    case Accepted(refId) =>
      Resume(s.(verdicts := s.verdicts + [Verdict(authority, amount, refId)]), c, Confirming(id, refId))
  }

  /** The guarded write of FAILED: `updateMany` with `paymentStatus: UNPAID` in its condition. */
  function DoWriteFailed(s: State, c: nat, id: nat): State
    requires id < |s.db.orders|
  {
    var o := s.db.orders[id];
    Resume(if o.payStatus == Unpaid then WithOrder(s, id, o.(payStatus := Failed)) else s, c, Replied(Refused))
  }

  /** The guarded write of PAID. An undefined refId leaves the column as it is. */
  function DoWritePaid(s: State, c: nat, id: nat, refId: Option<string>): State
    requires id < |s.db.orders|
  {
    var o := s.db.orders[id];
    if o.payStatus != Unpaid then Resume(s, c, Rereading(id))
    else
      var paid := o.(payStatus := Paid, status := Confirmed, paymentId := if refId.Some? then refId else o.paymentId);
      Resume(WithOrder(s, id, paid), c, Replied(PaymentOk(id, refId)))
  }

  function DoReread(s: State, c: nat, id: nat): State
    requires id < |s.db.orders|
  {
    var o := s.db.orders[id];
    Resume(s, c, Replied(if o.payStatus == Paid then PaymentOk(id, o.paymentId) else Refused))
  }

  function DoWriteCancel(s: State, c: nat, id: nat): State
    requires id < |s.db.orders|
  {
    if AllKnown(s.db.products, s.db.orders[id].lines)
    then Resume(s.(db := CommitCancel(s.db, id)), c, Replied(OrderCancelled(id)))
    else Resume(s, c, Replied(Refused))
  }

  predicate Idle(s: State, c: nat) { c !in s.calls }

  /** Call `c` is in flight, on an order that exists. */
  predicate Ready(s: State, c: nat) {
    c in s.calls && !s.calls[c].Replied? && s.calls[c].order < |s.db.orders|
  }

  /** One scheduling decision; an action that is not enabled changes nothing. */
  function Next(s: State, a: Action): State {
    match a
    case Place(c, draft, createdOn) => if Idle(s, c) then DoPlace(s, c, draft, createdOn) else s
    case GatewayRequested(c, answer) =>
      if Ready(s, c) && s.calls[c].Requesting? then DoRequested(s, c, s.calls[c].order, answer) else s
    case StoreAuthority(c) =>
      if Ready(s, c) && s.calls[c].Storing? then DoStore(s, c, s.calls[c].order, s.calls[c].authority) else s
    case BeginVerify(c, authority, ok) => if Idle(s, c) then DoBeginVerify(s, c, authority, ok) else s
    case GatewayVerified(c, verdict) =>
      if Ready(s, c) && s.calls[c].Asking?
      then DoVerified(s, c, s.calls[c].order, s.calls[c].authority, s.calls[c].amount, verdict) else s
    case WriteFailed(c) => if Ready(s, c) && s.calls[c].Failing? then DoWriteFailed(s, c, s.calls[c].order) else s
    case WritePaid(c) =>
      if Ready(s, c) && s.calls[c].Confirming? then DoWritePaid(s, c, s.calls[c].order, s.calls[c].refId) else s
    case Reread(c) => if Ready(s, c) && s.calls[c].Rereading? then DoReread(s, c, s.calls[c].order) else s
    case BeginCancel(c, id) =>
      if !Idle(s, c) then s
      else Resume(s, c, if CancelGuard(s.db.orders, id).None? then Cancelling(id) else Replied(Refused))
    case WriteCancel(c) => if Ready(s, c) && s.calls[c].Cancelling? then DoWriteCancel(s, c, s.calls[c].order) else s
    case SetStatus(id, status) =>
      if id < |s.db.orders| then WithOrder(s, id, s.db.orders[id].(status := status)) else s
  }

  ghost function Run(s: State, actions: seq<Action>): State {
    Fold(Next, s, actions)
  }

  /** A shop that opens: products on the shelf, no order, no call. */
  predicate Initial(s: State) {
    s.db.orders == [] && s.calls == map[] && s.verdicts == []
  }

  // ---------- the invariant ----------

  /** What is true of every order row. */
  ghost predicate OrderOk(o: Order, s: State) {
    && (o.authority.Some? ==> o.payMethod == Zarinpal)
    && (o.payStatus == Unpaid || o.payStatus == Paid || o.payStatus == Failed)
    && (o.payStatus != Paid ==> o.paymentId.None?)
    && (o.payStatus == Paid ==>
          o.authority.Some? && Verdict(o.authority.value, o.totalPrice, o.paymentId) in s.verdicts)
    && AllKnown(s.db.products, o.lines)
  }

  /** What is true of every call, given where it stands. */
  ghost predicate CallOk(k: Call, s: State) {
    var orders := s.db.orders;
    match k
    case Requesting(id) =>
      id < |orders| && orders[id].authority.None? && orders[id].payMethod in {Zarinpal, NextPay}
    case Storing(id, _) => id < |orders| && orders[id].authority.None? && orders[id].payMethod == Zarinpal
    case Asking(id, a, amount) =>
      id < |orders| && orders[id].authority == Some(a) && amount == orders[id].totalPrice
    case Failing(id) => id < |orders| && orders[id].authority.Some?
    case Confirming(id, refId) =>
      id < |orders| && orders[id].authority.Some? &&
      Verdict(orders[id].authority.value, orders[id].totalPrice, refId) in s.verdicts
    case Rereading(id) => id < |orders| && orders[id].payStatus != Unpaid
    case Cancelling(id) => id < |orders|
    case Replied(reply) =>
      match reply
      case PaymentOk(id, refId) => id < |orders| && orders[id].payStatus == Paid && orders[id].paymentId == refId
      case _ => true
  }

  predicate CheckingOut(k: Call) { k.Requesting? || k.Storing? }

  ghost predicate AuthoritiesUnique(orders: seq<Order>) {
    forall i, j :: 0 <= i < j < |orders| && orders[i].authority.Some? ==> orders[i].authority != orders[j].authority
  }

  /** An order is being checked out by one call only: the one that created it. */
  ghost predicate OneCheckoutEach(calls: map<nat, Call>) {
    forall c, d :: c in calls && d in calls && c != d && CheckingOut(calls[c]) && CheckingOut(calls[d]) ==>
      calls[c].order != calls[d].order
  }

  ghost predicate Inv(s: State) {
    && (forall i :: 0 <= i < |s.db.orders| ==> OrderOk(s.db.orders[i], s))
    && (forall c :: c in s.calls ==> CallOk(s.calls[c], s))
    && AuthoritiesUnique(s.db.orders)
    && OneCheckoutEach(s.calls)
  }

  /** What time may do to an order: money facts are written once and then stay. */
  ghost predicate Settles(o: Order, o': Order) {
    && o'.lines == o.lines && o'.totalPrice == o.totalPrice && o'.payMethod == o.payMethod
    && o'.orderNumber == o.orderNumber && o'.createdOn == o.createdOn
    && (o.authority.Some? ==> o'.authority == o.authority)
    && (if o'.payStatus == o.payStatus then o'.paymentId == o.paymentId
        else o.payStatus == Unpaid && (o'.payStatus == Paid || o'.payStatus == Failed))
    && o.restocks <= o'.restocks
  }

  /** How a later state relates to an earlier one. */
  ghost predicate Evolves(s: State, s': State) {
    && s'.db.products.Keys == s.db.products.Keys
    && |s.db.orders| <= |s'.db.orders|
    && (forall i :: 0 <= i < |s.db.orders| ==> Settles(s.db.orders[i], s'.db.orders[i]))
    && (forall c :: c in s.calls ==> c in s'.calls)
    && (forall c :: c in s.calls && s.calls[c].Replied? ==> s'.calls[c] == s.calls[c])
    && s.verdicts <= s'.verdicts
  }

  lemma EvolvesTransitive(s: State, t: State, u: State)
    requires Evolves(s, t) && Evolves(t, u)
    ensures Evolves(s, u)
  {
    forall i | 0 <= i < |s.db.orders| ensures Settles(s.db.orders[i], u.db.orders[i]) {
      assert Settles(s.db.orders[i], t.db.orders[i]) && Settles(t.db.orders[i], u.db.orders[i]);
    }
  }

  /** A step that only moves one call. */
  lemma ResumeKeepsInv(s: State, c: nat, k: Call)
    requires Inv(s) && CallOk(k, s)
    requires c in s.calls ==> !s.calls[c].Replied?
    requires CheckingOut(k) ==>
               forall d :: d in s.calls && d != c && CheckingOut(s.calls[d]) ==> s.calls[d].order != k.order
    ensures Inv(Resume(s, c, k)) && Evolves(s, Resume(s, c, k))
  {
    var s' := Resume(s, c, k);
    forall i | 0 <= i < |s.db.orders| ensures OrderOk(s.db.orders[i], s') {
      assert OrderOk(s.db.orders[i], s);
    }
    forall d | d in s'.calls ensures CallOk(s'.calls[d], s') {
      assert d != c ==> CallOk(s.calls[d], s);
    }
  }

  /** A step that rewrites one order without touching its authority. */
  lemma WithOrderKeepsInv(s: State, id: nat, o: Order)
    requires Inv(s) && id < |s.db.orders| && OrderOk(o, s)
    requires Settles(s.db.orders[id], o) && o.authority == s.db.orders[id].authority
    ensures Inv(WithOrder(s, id, o)) && Evolves(s, WithOrder(s, id, o))
  {
    var s' := WithOrder(s, id, o);
    forall i | 0 <= i < |s'.db.orders| ensures OrderOk(s'.db.orders[i], s') {
      assert i != id ==> OrderOk(s.db.orders[i], s);
    }
    forall d | d in s'.calls ensures CallOk(s'.calls[d], s') {
      assert CallOk(s.calls[d], s);
    }
  }

  /** The gateway's history grows. */
  lemma VerdictKeepsInv(s: State, v: Verdict)
    requires Inv(s)
    ensures var s' := s.(verdicts := s.verdicts + [v]); Inv(s') && Evolves(s, s')
  {
    var s' := s.(verdicts := s.verdicts + [v]);
    forall i | 0 <= i < |s.db.orders| ensures OrderOk(s.db.orders[i], s') {
      assert OrderOk(s.db.orders[i], s);
    }
    forall d | d in s.calls ensures CallOk(s.calls[d], s') {
      assert CallOk(s.calls[d], s);
    }
  }

  /** An order is added, or only the shelves change; no product appears or disappears. */
  lemma GrowthKeepsInv(s: State, products: Products, added: seq<Order>)
    requires Inv(s) && products.Keys == s.db.products.Keys
    requires forall o :: o in added ==> OrderOk(o, s) && o.authority.None?
    ensures var s' := s.(db := Db(products, s.db.orders + added)); Inv(s') && Evolves(s, s')
  {
    var s' := s.(db := Db(products, s.db.orders + added));
    var n := |s.db.orders|;
    forall i | 0 <= i < |s'.db.orders| ensures OrderOk(s'.db.orders[i], s') {
      if i < n { assert OrderOk(s.db.orders[i], s); } else { assert s'.db.orders[i] == added[i - n]; }
    }
    forall d | d in s.calls ensures CallOk(s.calls[d], s') {
      assert CallOk(s.calls[d], s);
    }
    forall i, j | 0 <= i < j < |s'.db.orders| && s'.db.orders[i].authority.Some?
      ensures s'.db.orders[i].authority != s'.db.orders[j].authority
    {
      if j >= n { assert s'.db.orders[j] == added[j - n]; }
    }
  }

  lemma PlaceKeepsInv(s: State, c: nat, draft: Draft, createdOn: Date)
    requires Inv(s) && Idle(s, c)
    ensures var s' := DoPlace(s, c, draft, createdOn); Inv(s') && Evolves(s, s')
  {
    var (db, placed) := PlaceOrder(s.db, draft, createdOn);
    if placed.Failure? {
      ResumeKeepsInv(s, c, Replied(Refused));
    } else {
      var o := NewOrder(draft, createdOn);
      GrowthKeepsInv(s, db.products, [o]);
      var mid := s.(db := db);
      forall d | d in s.calls && CheckingOut(s.calls[d]) ensures s.calls[d].order < |s.db.orders| {
        assert CallOk(s.calls[d], s);
      }
      var k := if draft.payMethod == CashOnDelivery || draft.payMethod == BankTransfer
               then Replied(OrderPlaced(placed.value)) else Requesting(placed.value);
      ResumeKeepsInv(mid, c, k);
      EvolvesTransitive(s, mid, Resume(mid, c, k));
    }
  }

  /** An order gets its first authority: unused elsewhere, and its checkout is no longer in flight. */
  lemma WithAuthorityKeepsInv(s: State, id: nat, authority: string)
    requires Inv(s) && id < |s.db.orders|
    requires s.db.orders[id].authority.None? && s.db.orders[id].payMethod == Zarinpal
    requires forall i :: 0 <= i < |s.db.orders| ==> s.db.orders[i].authority != Some(authority)
    requires forall d :: d in s.calls && CheckingOut(s.calls[d]) ==> s.calls[d].order != id
    ensures var s' := WithOrder(s, id, s.db.orders[id].(authority := Some(authority))); Inv(s') && Evolves(s, s')
  {
    var s' := WithOrder(s, id, s.db.orders[id].(authority := Some(authority)));
    forall i | 0 <= i < |s'.db.orders| ensures OrderOk(s'.db.orders[i], s') {
      assert OrderOk(s.db.orders[i], s);
    }
    forall d | d in s'.calls ensures CallOk(s'.calls[d], s') {
      assert CallOk(s.calls[d], s);
    }
  }

  /** Storing an authority: the column's uniqueness and the single checkout of the order. */
  lemma StoreKeepsInv(s: State, c: nat)
    requires Inv(s) && Ready(s, c) && s.calls[c].Storing?
    ensures var s' := DoStore(s, c, s.calls[c].order, s.calls[c].authority); Inv(s') && Evolves(s, s')
  {
    assert CallOk(s.calls[c], s);
    var id, authority := s.calls[c].order, s.calls[c].authority;
    var s' := DoStore(s, c, id, authority);
    var mid := Resume(s, c, s'.calls[c]);
    ResumeKeepsInv(s, c, s'.calls[c]);
    if s' != mid {
      WithAuthorityKeepsInv(mid, id, authority);
      EvolvesTransitive(s, mid, s');
    }
  }

  lemma VerifyStepKeepsInv(s: State, a: Action)
    requires Inv(s)
    requires a.BeginVerify? || a.GatewayVerified? || a.WriteFailed? || a.WritePaid? || a.Reread?
    ensures Inv(Next(s, a)) && Evolves(s, Next(s, a))
  {
    if a.BeginVerify? {
      if Idle(s, a.call) {
        var found := FindByAuthority(s.db.orders, a.authority);
        if found.Some? { assert OrderOk(s.db.orders[found.value], s); }
        ResumeKeepsInv(s, a.call, Next(s, a).calls[a.call]);
      }
    } else if Next(s, a) != s {
      var c := a.call;
      assert CallOk(s.calls[c], s);
      var id := s.calls[c].order;
      assert OrderOk(s.db.orders[id], s);
      var k := Next(s, a).calls[c];
      if a.GatewayVerified? && a.verdict.Accepted? {
        var v := Verdict(s.calls[c].authority, s.calls[c].amount, a.verdict.refId);
        var mid := s.(verdicts := s.verdicts + [v]);
        VerdictKeepsInv(s, v);
        ResumeKeepsInv(mid, c, k);
        EvolvesTransitive(s, mid, Resume(mid, c, k));
      } else if (a.WriteFailed? || a.WritePaid?) && s.db.orders[id].payStatus == Unpaid {
        var mid := WithOrder(s, id, Next(s, a).db.orders[id]);
        WithOrderKeepsInv(s, id, Next(s, a).db.orders[id]);
        ResumeKeepsInv(mid, c, k);
        EvolvesTransitive(s, mid, Resume(mid, c, k));
      } else {
        ResumeKeepsInv(s, c, k);
      }
    }
  }

  lemma CancelKeepsInv(s: State, c: nat)
    requires Inv(s) && c in s.calls && s.calls[c].Cancelling? && s.calls[c].order < |s.db.orders|
    ensures var s' := DoWriteCancel(s, c, s.calls[c].order); Inv(s') && Evolves(s, s')
  {
    var id := s.calls[c].order;
    var o := s.db.orders[id];
    assert OrderOk(o, s);
    var o' := o.(status := Cancelled, restocks := o.restocks + 1);
    var mid := WithOrder(s, id, o');
    WithOrderKeepsInv(s, id, o');
    var products := Shift(s.db.products, o.lines, true);
    GrowthKeepsInv(mid, products, []);
    var late := s.(db := CommitCancel(s.db, id));
    assert mid.db.orders + [] == mid.db.orders;
    assert late == mid.(db := Db(products, mid.db.orders + []));
    EvolvesTransitive(s, mid, late);
    var k := Replied(OrderCancelled(id));
    ResumeKeepsInv(late, c, k);
    EvolvesTransitive(s, late, Resume(late, c, k));
  }

  /** Every step of every call keeps the invariant and lets the state only evolve. */
  lemma StepKeepsInv(s: State, a: Action)
    requires Inv(s)
    ensures Inv(Next(s, a)) && Evolves(s, Next(s, a))
  {
    match a
    case Place(c, draft, createdOn) => if Idle(s, c) { PlaceKeepsInv(s, c, draft, createdOn); }
    case GatewayRequested(c, _) =>
      if Next(s, a) != s {
        assert CallOk(s.calls[c], s);
        ResumeKeepsInv(s, c, Next(s, a).calls[c]);
      }
    case StoreAuthority(c) => if Ready(s, c) && s.calls[c].Storing? { StoreKeepsInv(s, c); }
    case BeginCancel(c, _) => if Idle(s, c) { ResumeKeepsInv(s, c, Next(s, a).calls[c]); }
    case WriteCancel(c) => if Ready(s, c) && s.calls[c].Cancelling? { CancelKeepsInv(s, c); }
    case SetStatus(id, status) =>
      if id < |s.db.orders| {
        assert OrderOk(s.db.orders[id], s);
        WithOrderKeepsInv(s, id, s.db.orders[id].(status := status));
      }
    case _ => VerifyStepKeepsInv(s, a);
  }

  /** The invariant holds along every interleaving, and a run only ever evolves the state. */
  lemma RunKeepsInv(s: State, actions: seq<Action>)
    requires Inv(s)
    ensures Inv(Run(s, actions)) && Evolves(s, Run(s, actions))
  {
    var holds := (t: State) => Inv(t) && Evolves(s, t);
    forall t, a | holds(t) ensures holds(Next(t, a)) {
      StepKeepsInv(t, a);
      EvolvesTransitive(s, t, Next(t, a));
    }
    FoldKeeps(Next, holds, s, actions);
  }

  lemma InitialInv(s: State)
    requires Initial(s)
    ensures Inv(s)
  {
  }

  // ---------- safety over all interleavings ----------

  /**
    Write once: `paymentStatus` leaves UNPAID at most once, to PAID or FAILED, and then neither
    it nor `paymentId`, nor the authority once set, nor the amount ever changes.
   */
  lemma PaymentWrittenOnce(s0: State, before: seq<Action>, after: seq<Action>, id: nat)
    requires Initial(s0) && id < |Run(s0, before).db.orders|
    ensures id < |Run(s0, before + after).db.orders|
    ensures var o, o' := Run(s0, before).db.orders[id], Run(s0, before + after).db.orders[id];
            && Settles(o, o')
            && o'.payStatus in {Unpaid, Paid, Failed}
            && (o.payStatus != Unpaid ==> o'.payStatus == o.payStatus && o'.paymentId == o.paymentId)
  {
    InitialInv(s0);
    RunKeepsInv(s0, before);
    FoldAppend(Next, s0, before, after);
    RunKeepsInv(Run(s0, before), after);
    assert OrderOk(Run(s0, before + after).db.orders[id], Run(s0, before + after));
  }

  /**
    Agreement: whichever way two calls came to answer "paid" for one order (early exit, winner
    or loser who looked again), at whatever moments, both name the refId stored in the order;
    and no call ever answers "paid" for an order that is, or ever becomes, anything but PAID.
   */
  lemma PaymentRepliesAgree(s0: State, before: seq<Action>, after: seq<Action>, c: nat, d: nat, id: nat,
                            r: Option<string>, r': Option<string>)
    requires Initial(s0)
    requires c in Run(s0, before).calls && Run(s0, before).calls[c] == Replied(PaymentOk(id, r))
    requires d in Run(s0, before + after).calls && Run(s0, before + after).calls[d] == Replied(PaymentOk(id, r'))
    ensures id < |Run(s0, before).db.orders| && Run(s0, before).db.orders[id].payStatus == Paid
    ensures id < |Run(s0, before + after).db.orders|
    ensures Run(s0, before + after).db.orders[id].payStatus == Paid
    ensures r == r' == Run(s0, before + after).db.orders[id].paymentId
  {
    InitialInv(s0);
    RunKeepsInv(s0, before);
    RunKeepsInv(s0, before + after);
    var s, s' := Run(s0, before), Run(s0, before + after);
    assert CallOk(s.calls[c], s) && CallOk(s'.calls[d], s');
    PaymentWrittenOnce(s0, before, after, id);
  }

  /** No step records a verdict and changes an order at the same time. */
  lemma VerdictsAndOrdersMoveApart(s: State, a: Action)
    ensures Next(s, a).verdicts == s.verdicts || Next(s, a).db == s.db
  {
    match a
    case GatewayVerified(_, _) =>
    case Place(_, _, _) =>
    case _ =>
  }

  /**
    Provenance: the step that makes an order PAID finds in the history a positive verdict of the
    gateway for exactly that order's authority and exactly its total.
   */
  lemma PaidOnlyAfterVerdict(s0: State, actions: seq<Action>, a: Action, id: nat)
    requires Initial(s0)
    requires id < |Run(s0, actions).db.orders| && Run(s0, actions).db.orders[id].payStatus != Paid
    requires id < |Next(Run(s0, actions), a).db.orders| && Next(Run(s0, actions), a).db.orders[id].payStatus == Paid
    ensures var s, o := Run(s0, actions), Next(Run(s0, actions), a).db.orders[id];
            o.authority.Some? && Verdict(o.authority.value, o.totalPrice, o.paymentId) in s.verdicts
  {
    var s := Run(s0, actions);
    InitialInv(s0);
    RunKeepsInv(s0, actions);
    StepKeepsInv(s, a);
    assert OrderOk(Next(s, a).db.orders[id], Next(s, a));
    VerdictsAndOrdersMoveApart(s, a);
  }

  /** In every reachable state a PAID order went through ZARINPAL and its verdict is still on record. */
  lemma PaidOrdersAreVerified(s0: State, actions: seq<Action>, id: nat)
    requires Initial(s0) && id < |Run(s0, actions).db.orders|
    ensures var s, o := Run(s0, actions), Run(s0, actions).db.orders[id];
            o.payStatus == Paid ==>
              && o.payMethod == Zarinpal && o.authority.Some?
              && Verdict(o.authority.value, o.totalPrice, o.paymentId) in s.verdicts
              && forall i :: 0 <= i < |s.db.orders| && s.db.orders[i].authority == o.authority ==> i == id
  {
    InitialInv(s0);
    RunKeepsInv(s0, actions);
    assert OrderOk(Run(s0, actions).db.orders[id], Run(s0, actions));
  }

  // ---------- what the answers of verify leave behind ----------

  /** Call `c` was told that the payment was cancelled or declined, and has not answered yet or the order is decided. */
  ghost predicate WillDecide(s: State, c: nat, id: nat) {
    && id < |s.db.orders| && c in s.calls
    && (s.db.orders[id].payStatus == Unpaid ==>
          s.calls[c] == Failing(id) || (s.calls[c].Confirming? && s.calls[c].order == id))
  }

  /** The guarded write of an UNPAID order decides it. */
  lemma WriteDecides(s: State, a: Action, id: nat)
    requires (a.WriteFailed? || a.WritePaid?) && WillDecide(s, a.call, id) && s.db.orders[id].payStatus == Unpaid
    ensures WillDecide(Next(s, a), a.call, id)
  {
  }

  /** A call that stands before a guarded write is moved by that write only. */
  lemma OtherStepsLeaveCall(s: State, a: Action, c: nat)
    requires c in s.calls && (s.calls[c].Failing? || s.calls[c].Confirming?)
    requires a.WriteFailed? || a.WritePaid? ==> a.call != c
    ensures c in Next(s, a).calls && Next(s, a).calls[c] == s.calls[c]
  {
    match a
    case Place(_, _, _) =>
    case GatewayRequested(_, _) =>
    case StoreAuthority(_) =>
    case BeginVerify(_, _, _) =>
    case GatewayVerified(_, _) =>
    case WriteFailed(_) =>
    case WritePaid(_) =>
    case _ =>
  }

  lemma StepKeepsWillDecide(s: State, a: Action, c: nat, id: nat)
    requires Inv(s) && WillDecide(s, c, id)
    ensures WillDecide(Next(s, a), c, id)
  {
    StepKeepsInv(s, a);
    assert Settles(s.db.orders[id], Next(s, a).db.orders[id]);
    if s.db.orders[id].payStatus == Unpaid {
      if (a.WriteFailed? || a.WritePaid?) && a.call == c {
        WriteDecides(s, a, id);
      } else {
        OtherStepsLeaveCall(s, a, c);
      }
    }
  }

  lemma {:induction false} RunKeepsWillDecide(s: State, actions: seq<Action>, c: nat, id: nat)
    requires Inv(s) && WillDecide(s, c, id)
    ensures WillDecide(Run(s, actions), c, id)
  {
    if actions != [] {
      RunKeepsInv(s, actions[..|actions| - 1]);
      RunKeepsWillDecide(s, actions[..|actions| - 1], c, id);
      StepKeepsWillDecide(Run(s, actions[..|actions| - 1]), actions[|actions| - 1], c, id);
    }
  }

  /**
    No verify call leaves its order open: once a call that was cancelled, declined or accepted for an order
    has answered, that order is PAID or FAILED, in every continuation and for ever.
   */
  lemma AnsweredIsDecided(s0: State, before: seq<Action>, after: seq<Action>, c: nat, id: nat)
    requires Initial(s0) && c in Run(s0, before).calls
    requires Run(s0, before).calls[c] == Failing(id) ||
             (Run(s0, before).calls[c].Confirming? && Run(s0, before).calls[c].order == id)
    requires c in Run(s0, before + after).calls && Run(s0, before + after).calls[c].Replied?
    ensures id < |Run(s0, before + after).db.orders|
    ensures Run(s0, before + after).db.orders[id].payStatus in {Paid, Failed}
  {
    InitialInv(s0);
    RunKeepsInv(s0, before);
    assert CallOk(Run(s0, before).calls[c], Run(s0, before));
    RunKeepsWillDecide(Run(s0, before), after, c, id);
    FoldAppend(Next, s0, before, after);
    RunKeepsInv(s0, before + after);
    assert OrderOk(Run(s0, before + after).db.orders[id], Run(s0, before + after));
  }

  /** Two calls accepted for one UNPAID order: the winner pays it with its refId, the loser looks again and says the same. */
  lemma LoserSaysTheSame(s: State, c: nat, d: nat, id: nat, r: string, r': string)
    requires Inv(s) && c != d && id < |s.db.orders| && s.db.orders[id].payStatus == Unpaid
    requires c in s.calls && s.calls[c] == Confirming(id, Some(r)) && d in s.calls && s.calls[d] == Confirming(id, Some(r'))
    ensures var t := Run(s, [WritePaid(c), WritePaid(d), Reread(d)]);
            && t.db == s.db.(orders := s.db.orders[id := s.db.orders[id].(
                 payStatus := Paid, status := Confirmed, paymentId := Some(r))])
            && c in t.calls && d in t.calls
            && t.calls[c] == t.calls[d] == Replied(PaymentOk(id, Some(r)))
  {
    var t := DoWritePaid(s, c, id, Some(r));
    var u := DoWritePaid(t, d, id, Some(r'));
    assert Next(s, WritePaid(c)) == t && Next(t, WritePaid(d)) == u;
    assert Next(u, Reread(d)) == DoReread(u, d, id);
    FoldThree(Next, s, WritePaid(c), t, WritePaid(d), u, Reread(d), DoReread(u, d, id));
  }

  // ---------- the stock ledger over all interleavings ----------

  /** Rewriting an order without touching its lines and returns leaves the ledger alone. */
  lemma SameShareSameLedger(s: State, id: nat, o: Order, p: string)
    requires id < |s.db.orders| && p in s.db.products
    requires o.lines == s.db.orders[id].lines && o.restocks == s.db.orders[id].restocks
    ensures Ledger(WithOrder(s, id, o).db, p) == Ledger(s.db, p)
  {
    NetUpdate(s.db.orders, id, o, p);
  }

  lemma StepKeepsLedger(s: State, a: Action, p: string)
    requires Inv(s) && p in s.db.products
    ensures p in Next(s, a).db.products && Ledger(Next(s, a).db, p) == Ledger(s.db, p)
  {
    var s' := Next(s, a);
    match a
    case Place(_, draft, createdOn) => PlaceKeepsLedger(s.db, draft, createdOn, p);
    case SetStatus(id, _) => if id < |s.db.orders| { SameShareSameLedger(s, id, s'.db.orders[id], p); }
    case WriteCancel(c) =>
      if Ready(s, c) && s.calls[c].Cancelling? {
        assert OrderOk(s.db.orders[s.calls[c].order], s);
        CancelKeepsLedger(s.db, s.calls[c].order, p);
      }
    case StoreAuthority(c) =>
      if Ready(s, c) && s.calls[c].Storing? {
        SameShareSameLedger(s, s.calls[c].order, s.db.orders[s.calls[c].order].(authority := Some(s.calls[c].authority)), p);
      }
    case WriteFailed(c) =>
      if Ready(s, c) && s.calls[c].Failing? {
        SameShareSameLedger(s, s.calls[c].order, s'.db.orders[s.calls[c].order], p);
      }
    case WritePaid(c) =>
      if Ready(s, c) && s.calls[c].Confirming? {
        SameShareSameLedger(s, s.calls[c].order, s'.db.orders[s.calls[c].order], p);
      }
    case _ =>
  }

  /**
    Conservation: at every moment of every interleaving a product's stock is what the shop opened
    with, minus everything placed, plus every committed return, repeated lines counted as often
    as they occur.
   */
  lemma {:induction false} StockLedger(s: State, actions: seq<Action>, p: string)
    requires Inv(s) && p in s.db.products
    ensures p in Run(s, actions).db.products && Ledger(Run(s, actions).db, p) == Ledger(s.db, p)
  {
    if actions != [] {
      RunKeepsInv(s, actions[..|actions| - 1]);
      StockLedger(s, actions[..|actions| - 1], p);
      StepKeepsLedger(Run(s, actions[..|actions| - 1]), actions[|actions| - 1], p);
    }
  }

  /**
    Shelf plus goods of uncancelled orders is constant exactly as long as no order holding the
    product was put back twice; every repeated return shows up as surplus.
   */
  lemma StockConservedIff(s0: State, actions: seq<Action>, p: string)
    requires Initial(s0) && p in s0.db.products
    requires forall i :: 0 <= i < |Run(s0, actions).db.orders| ==> Quantity(Run(s0, actions).db.orders[i].lines, p) >= 0
    ensures var db := Run(s0, actions).db;
            && p in db.products
            && db.products[p].stock + Held(db.orders, p) == s0.db.products[p].stock + Surplus(db.orders, p)
            && (db.products[p].stock + Held(db.orders, p) == s0.db.products[p].stock <==>
                forall i :: 0 <= i < |db.orders| && Quantity(db.orders[i].lines, p) > 0 ==> db.orders[i].restocks <= 1)
  {
    InitialInv(s0);
    StockLedger(s0, actions, p);
    NetIsHeldMinusSurplus(Run(s0, actions).db.orders, p);
    NoSurplusIff(Run(s0, actions).db.orders, p);
  }

  predicate NonNegativeLines(lines: seq<OrderItem>) {
    forall i :: 0 <= i < |lines| ==> lines[i].quantity >= 0
  }

  predicate FairPlacement(a: Action) { a.Place? ==> NonNegativeLines(a.draft.lines) }

  lemma {:induction false} NonNegativeQuantity(lines: seq<OrderItem>, p: string)
    requires NonNegativeLines(lines)
    ensures Quantity(lines, p) >= 0
  {
    if lines != [] { NonNegativeQuantity(lines[..|lines| - 1], p); }
  }

  /** The lines of every order are those of a placement of the run. */
  lemma {:induction false} RunKeepsFairLines(s: State, actions: seq<Action>)
    requires Inv(s) && forall i :: 0 <= i < |s.db.orders| ==> NonNegativeLines(s.db.orders[i].lines)
    requires forall i :: 0 <= i < |actions| ==> FairPlacement(actions[i])
    ensures forall i :: 0 <= i < |Run(s, actions).db.orders| ==> NonNegativeLines(Run(s, actions).db.orders[i].lines)
  {
    if actions != [] {
      var n := |actions| - 1;
      RunKeepsInv(s, actions[..n]);
      RunKeepsFairLines(s, actions[..n]);
      StepKeepsFairLines(Run(s, actions[..n]), actions[n]);
    }
  }

  lemma StepKeepsFairLines(s: State, a: Action)
    requires Inv(s) && forall i :: 0 <= i < |s.db.orders| ==> NonNegativeLines(s.db.orders[i].lines)
    requires FairPlacement(a)
    ensures forall i :: 0 <= i < |Next(s, a).db.orders| ==> NonNegativeLines(Next(s, a).db.orders[i].lines)
  {
    StepKeepsInv(s, a);
    OnlyPlaceAdds(s, a);
    forall i | 0 <= i < |Next(s, a).db.orders| ensures NonNegativeLines(Next(s, a).db.orders[i].lines) {
      if i < |s.db.orders| { assert Settles(s.db.orders[i], Next(s, a).db.orders[i]); }
    }
  }

  /** Orders come from placements, one at a time, with the lines of the draft. */
  lemma OnlyPlaceAdds(s: State, a: Action)
    ensures var n, orders := |s.db.orders|, Next(s, a).db.orders;
            |orders| == n || (a.Place? && |orders| == n + 1 && orders[n].lines == a.draft.lines)
  {
    match a
    case Place(_, _, _) =>
    case _ =>
  }

  /** Conservation over every run whose placements ask for no negative quantity. */
  lemma StockConservedOverRuns(s0: State, actions: seq<Action>, p: string)
    requires Initial(s0) && p in s0.db.products && forall i :: 0 <= i < |actions| ==> FairPlacement(actions[i])
    ensures var db := Run(s0, actions).db;
            && p in db.products
            && db.products[p].stock + Held(db.orders, p) == s0.db.products[p].stock + Surplus(db.orders, p)
            && (db.products[p].stock + Held(db.orders, p) == s0.db.products[p].stock <==>
                forall i :: 0 <= i < |db.orders| && Quantity(db.orders[i].lines, p) > 0 ==> db.orders[i].restocks <= 1)
  {
    InitialInv(s0);
    RunKeepsFairLines(s0, actions);
    forall i | 0 <= i < |Run(s0, actions).db.orders| ensures Quantity(Run(s0, actions).db.orders[i].lines, p) >= 0 {
      NonNegativeQuantity(Run(s0, actions).db.orders[i].lines, p);
    }
    StockConservedIff(s0, actions, p);
  }

  // ---------- cancellation against payment ----------

  /** No cancellation can touch order `id` any more: it is PAID and none is past its guards. */
  ghost predicate Sealed(s: State, id: nat) {
    && id < |s.db.orders| && s.db.orders[id].payStatus == Paid
    && forall c :: c in s.calls ==> s.calls[c] != Cancelling(id)
  }

  /** Only `WriteCancel`, on behalf of a call that is cancelling order `id`, returns its goods. */
  lemma OnlyCancelRestocks(s: State, a: Action, id: nat)
    requires id < |s.db.orders|
    requires a.WriteCancel? ==> a.call !in s.calls || s.calls[a.call] != Cancelling(id)
    ensures id < |Next(s, a).db.orders| && Next(s, a).db.orders[id].restocks == s.db.orders[id].restocks
  {
    match a
    case Place(_, _, _) =>
    case WriteCancel(_) =>
    case _ =>
  }

  /** No call gets past the guards of `cancel` for an order that is PAID. */
  lemma PaidStartsNoCancel(s: State, a: Action, id: nat)
    requires Sealed(s, id)
    ensures forall c :: c in Next(s, a).calls ==> Next(s, a).calls[c] != Cancelling(id)
  {
    match a
    case Place(c, draft, createdOn) =>
    case GatewayRequested(c, answer) =>
    case StoreAuthority(c) =>
    case BeginVerify(c, authority, ok) =>
    case GatewayVerified(c, verdict) =>
    case WriteFailed(c) =>
    case WritePaid(c) =>
    case Reread(c) =>
    case BeginCancel(c, order) => if order == id { assert CancelGuard(s.db.orders, id).Some?; }
    case WriteCancel(c) =>
    case SetStatus(order, status) =>
  }

  lemma StepKeepsSealed(s: State, a: Action, id: nat)
    requires Inv(s) && Sealed(s, id)
    ensures Sealed(Next(s, a), id) && Next(s, a).db.orders[id].restocks == s.db.orders[id].restocks
  {
    StepKeepsInv(s, a);
    assert Settles(s.db.orders[id], Next(s, a).db.orders[id]);
    OnlyCancelRestocks(s, a, id);
    PaidStartsNoCancel(s, a, id);
  }

  lemma {:induction false} RunKeepsSealed(s: State, actions: seq<Action>, id: nat)
    requires Inv(s) && Sealed(s, id)
    ensures Sealed(Run(s, actions), id) && Run(s, actions).db.orders[id].restocks == s.db.orders[id].restocks
  {
    if actions != [] {
      RunKeepsInv(s, actions[..|actions| - 1]);
      RunKeepsSealed(s, actions[..|actions| - 1], id);
      StepKeepsSealed(Run(s, actions[..|actions| - 1]), actions[|actions| - 1], id);
    }
  }

  lemma CancelAfterReopening(s: State, c: nat, id: nat)
    requires Idle(s, c) && id < |s.db.orders| && s.db.orders[id].payStatus != Paid
    requires AllKnown(s.db.products, s.db.orders[id].lines)
    ensures var t := Run(s, [SetStatus(id, Pending), BeginCancel(c, id), WriteCancel(c)]);
            id < |t.db.orders| && t.db.orders[id].restocks == s.db.orders[id].restocks + 1
  {
    var t := WithOrder(s, id, s.db.orders[id].(status := Pending));
    var u := Resume(t, c, Cancelling(id));
    FoldTwo(Next, s, SetStatus(id, Pending), BeginCancel(c, id));
    assert Next(t, BeginCancel(c, id)) == u;
    assert Next(u, WriteCancel(c)) == DoWriteCancel(u, c, id);
    assert [SetStatus(id, Pending), BeginCancel(c, id), WriteCancel(c)][..2] == [SetStatus(id, Pending), BeginCancel(c, id)];
  }

  /** An order that is not PAID can always be cancelled (again), after an administrator's status change at most. */
  lemma UnpaidCanBeRestocked(s: State, id: nat) returns (actions: seq<Action>)
    requires Inv(s) && id < |s.db.orders| && s.db.orders[id].payStatus != Paid
    ensures id < |Run(s, actions).db.orders| && Run(s, actions).db.orders[id].restocks > s.db.orders[id].restocks
  {
    var c := FreshKey(s.calls.Keys);
    assert OrderOk(s.db.orders[id], s);
    actions := [SetStatus(id, Pending), BeginCancel(c, id), WriteCancel(c)];
    CancelAfterReopening(s, c, id);
  }

  /** From a state that is not sealed some run puts the goods of the order back (once more). */
  lemma UnsealedCanRestock(s: State, id: nat) returns (actions: seq<Action>)
    requires Inv(s) && id < |s.db.orders| && !Sealed(s, id)
    ensures id < |Run(s, actions).db.orders| && Run(s, actions).db.orders[id].restocks > s.db.orders[id].restocks
  {
    if c :| c in s.calls && s.calls[c] == Cancelling(id) {
      assert OrderOk(s.db.orders[id], s);
      actions := [WriteCancel(c)];
      FoldTwo(Next, s, WriteCancel(c), WriteCancel(c));
      assert Next(s, WriteCancel(c)) == DoWriteCancel(s, c, id);
    } else {
      actions := UnpaidCanBeRestocked(s, id);
    }
  }

  /**
    The goods of an order stay where they are in every future exactly when the order is PAID and
    no cancellation is already past its guards. The status CANCELLED plays no part, so an unpaid
    order can be put back again and again.
   */
  lemma GoodsStayIff(s0: State, actions: seq<Action>, id: nat)
    requires Initial(s0) && id < |Run(s0, actions).db.orders|
    ensures var s := Run(s0, actions);
            (forall more: seq<Action> :: id < |Run(s, more).db.orders| &&
                                         Run(s, more).db.orders[id].restocks == s.db.orders[id].restocks)
            <==> Sealed(s, id)
  {
    var s := Run(s0, actions);
    InitialInv(s0);
    RunKeepsInv(s0, actions);
    if Sealed(s, id) {
      forall more: seq<Action>
        ensures id < |Run(s, more).db.orders| && Run(s, more).db.orders[id].restocks == s.db.orders[id].restocks
      {
        RunKeepsSealed(s, more, id);
      }
    } else {
      var more := UnsealedCanRestock(s, id);
    }
  }

  /**
    Whatever its status, CANCELLED included, an unpaid order that holds an authority can still
    become PAID and CONFIRMED, without any goods being taken for it again.
   */
  lemma UnpaidCanBePaid(s: State, id: nat, refId: Option<string>) returns (actions: seq<Action>)
    requires Inv(s) && id < |s.db.orders|
    requires s.db.orders[id].payStatus == Unpaid && s.db.orders[id].authority.Some?
    ensures Run(s, actions).db ==
            s.db.(orders := s.db.orders[id := s.db.orders[id].(payStatus := Paid, status := Confirmed, paymentId := refId)])
  {
    var c := FreshKey(s.calls.Keys);
    var o := s.db.orders[id];
    assert OrderOk(o, s);
    var found := FindByAuthority(s.db.orders, o.authority.value);
    assert found.Some? && found.value == id;
    actions := [BeginVerify(c, o.authority.value, true), GatewayVerified(c, Accepted(refId)), WritePaid(c)];
    FoldTwo(Next, s, actions[0], actions[1]);
    assert actions[..2] == [actions[0], actions[1]];
    var t := Next(s, actions[0]);
    assert t == Resume(s, c, Asking(id, o.authority.value, o.totalPrice));
    var u := Next(t, actions[1]);
    assert u.db == s.db && u.calls[c] == Confirming(id, refId);
  }

  /** The first order of a shop, placed and given its authority. */
  lemma FirstOrderAuthorised(s0: State, draft: Draft, day: Date) returns (actions: seq<Action>)
    requires Initial(s0) && AllKnown(s0.db.products, draft.lines)
    requires draft.payMethod == Zarinpal && IsInteger(Total(draft.lines))
    ensures var o := NewOrder(draft, day).(authority := Some("A"));
            Run(s0, actions) == State(Db(Shift(s0.db.products, draft.lines, false), [o]),
                                      map[0 := Replied(Redirect(0, "A"))], [])
  {
    actions := [Place(0, draft, day), GatewayRequested(0, Some("A")), StoreAuthority(0)];
    var o, taken := NewOrder(draft, day), Shift(s0.db.products, draft.lines, false);
    var s1 := State(Db(taken, [o]), map[0 := Requesting(0)], []);
    var s2 := State(Db(taken, [o]), map[0 := Storing(0, "A")], []);
    assert Next(s0, actions[0]) == s1 by {
      assert PlaceOrder(s0.db, draft, day) == (Db(taken, [] + [o]), Success(0));
    }
    assert Next(s1, actions[1]) == s2;
    assert FindByAuthority([o], "A").None?;
    assert Next(s2, actions[2]) == DoStore(s2, 0, 0, "A");
    FoldTwo(Next, s0, actions[0], actions[1]);
    assert actions[..2] == [actions[0], actions[1]];
  }

  /** An order nobody paid for is cancelled: its goods are back, it is still UNPAID. */
  lemma UnpaidCanBeCancelled(s: State, id: nat) returns (actions: seq<Action>)
    requires Inv(s) && id < |s.db.orders|
    requires s.db.orders[id].payStatus == Unpaid && s.db.orders[id].status == Pending
    ensures AllKnown(s.db.products, s.db.orders[id].lines)
    ensures Run(s, actions).db == CommitCancel(s.db, id)
  {
    assert OrderOk(s.db.orders[id], s);
    var c := FreshKey(s.calls.Keys);
    actions := [BeginCancel(c, id), WriteCancel(c)];
    FoldTwo(Next, s, actions[0], actions[1]);
  }

  const RING := [OrderItem("ring", 2, 100, 0.0)]

  /** A shop with five rings sells two of them. */
  lemma FirstRing() returns (s0: State, placed: seq<Action>)
    ensures Initial(s0) && Inv(Run(s0, placed))
    ensures AllKnown(s0.db.products, RING) && Quantity(RING, "ring") == 2
    ensures Run(s0, placed).db ==
            Db(Shift(s0.db.products, RING, false),
               [NewOrder(Draft("ORD-1", RING, Zarinpal), Date(2025, 1, 13)).(authority := Some("A"))])
  {
    assert RING[..0] == [] && Discount(RING) == 0.0;
    s0 := State(Db(map["ring" := Product(100, 0.0, 5, true)], []), map[], []);
    InitialInv(s0);
    placed := FirstOrderAuthorised(s0, Draft("ORD-1", RING, Zarinpal), Date(2025, 1, 13));
    RunKeepsInv(s0, placed);
  }

  /**
    A fault of the protocol: an order is PAID and CONFIRMED although all its goods are back on the
    shelf, because `verifyPayment` looks at `paymentStatus` and never at CANCELLED.
   */
  lemma CancelledOrderGetsPaid() returns (s0: State, actions: seq<Action>)
    ensures Initial(s0)
    ensures var db := Run(s0, actions).db;
            && |db.orders| == 1 && db.orders[0].payStatus == Paid && db.orders[0].status == Confirmed
            && Quantity(db.orders[0].lines, "ring") == 2 && db.products == s0.db.products
  {
    var placed;
    s0, placed := FirstRing();
    var cancelled := UnpaidCanBeCancelled(Run(s0, placed), 0);
    FoldAppend(Next, s0, placed, cancelled);
    RunKeepsInv(s0, placed + cancelled);
    TakeThenGiveBack(s0.db.products, RING);
    var paid := UnpaidCanBePaid(Run(s0, placed + cancelled), 0, Some("R"));
    FoldAppend(Next, s0, placed + cancelled, paid);
    actions := placed + cancelled + paid;
  }

  /** An order can be PAID and PENDING: the guide then allows a cancellation that the guards refuse. */
  lemma PaidOrderReopened() returns (s0: State, actions: seq<Action>)
    ensures Initial(s0)
    ensures var orders := Run(s0, actions).db.orders;
            |orders| == 1 && GuideAllowsCancel(orders[0]) && CancelGuard(orders, 0) == Some(AlreadyPaid)
  {
    var placed;
    s0, placed := FirstRing();
    var paid := UnpaidCanBePaid(Run(s0, placed), 0, Some("R"));
    FoldAppend(Next, s0, placed, paid);
    FoldSnoc(Next, s0, placed + paid, SetStatus(0, Pending));
    actions := placed + paid + [SetStatus(0, Pending)];
  }
}
