/**
  Which orders can still be paid (src/modules/checkout/checkout.service.ts): exactly the UNPAID ones
  that hold an authority or whose own checkout can still store one. Their status, CANCELLED included,
  does not matter.
 */
module Payability {
  import opened Prelude
  import opened Orders
  import opened Payments

  /** Call `k` can still give order `id` an authority. */
  predicate CanAuthorise(orders: seq<Order>, k: Call, id: nat)
    requires id < |orders|
  {
    || (k == Requesting(id) && orders[id].payMethod == Zarinpal)
    || (k.Storing? && k.order == id && FindByAuthority(orders, k.authority).None?)
  }

  ghost predicate Authorisable(s: State, id: nat)
    requires id < |s.db.orders|
  {
    exists c :: c in s.calls && CanAuthorise(s.db.orders, s.calls[c], id)
  }

  ghost predicate Payable(s: State, id: nat)
    requires id < |s.db.orders|
  {
    s.db.orders[id].payStatus == Unpaid && (s.db.orders[id].authority.Some? || Authorisable(s, id))
  }

  ghost predicate Hopeless(s: State, id: nat) {
    id < |s.db.orders| && s.db.orders[id].payStatus != Paid && !Payable(s, id)
  }

  // ---------- what is hopeless stays so ----------

  /** An order becomes PAID from UNPAID only, and with an authority already in place. */
  lemma PaymentHasCause(s: State, a: Action, id: nat)
    requires Inv(s) && id < |s.db.orders| && s.db.orders[id].payStatus != Paid
    requires id < |Next(s, a).db.orders| && Next(s, a).db.orders[id].payStatus == Paid
    ensures Payable(s, id)
  {
    match a
    case Place(_, _, _) =>
    case WritePaid(c) => assert CallOk(s.calls[c], s);
    case _ =>
  }

  /** Only a call that is checking the order out stores its authority, and only one that is free. */
  lemma AuthorityHasCause(s: State, a: Action, id: nat)
    requires Inv(s) && id < |s.db.orders| && s.db.orders[id].authority.None?
    requires id < |Next(s, a).db.orders| && Next(s, a).db.orders[id].authority.Some?
    ensures var authority := Next(s, a).db.orders[id].authority.value;
            && a.StoreAuthority? && a.call in s.calls && s.calls[a.call] == Storing(id, authority)
            && FindByAuthority(s.db.orders, authority).None?
    ensures Authorisable(s, id)
  {
    match a
    case Place(_, _, _) =>
    case StoreAuthority(c) => assert CanAuthorise(s.db.orders, s.calls[c], id);
    case _ =>
  }

  /** An authority that is taken stays taken. */
  lemma TakenStaysTaken(s: State, s': State, authority: string)
    requires Evolves(s, s') && FindByAuthority(s'.db.orders, authority).None?
    ensures FindByAuthority(s.db.orders, authority).None?
  {
    var found := FindByAuthority(s.db.orders, authority);
    if found.Some? {
      assert Settles(s.db.orders[found.value], s'.db.orders[found.value]);
    }
  }

  /** A call that is checking out an old order was doing so before the step. */
  lemma CheckoutHasCause(s: State, a: Action, c: nat, id: nat)
    requires id < |s.db.orders|
    requires c in Next(s, a).calls && CheckingOut(Next(s, a).calls[c]) && Next(s, a).calls[c].order == id
    ensures c in s.calls
    ensures Next(s, a).calls[c] == s.calls[c] ||
            (s.calls[c] == Requesting(id) && s.db.orders[id].payMethod != NextPay && Next(s, a).calls[c].Storing?)
  {
    match a
    case Place(_, _, _) =>
    case GatewayRequested(_, _) =>
    case StoreAuthority(_) =>
    case BeginVerify(_, _, _) =>
    case BeginCancel(_, _) =>
    case _ =>
  }

  lemma {:induction false} OnlyCreatorChecksOut(s: State, after: seq<Action>, c: nat, id: nat, d: nat)
    requires Inv(s) && id < |s.db.orders|
    requires forall e :: e in s.calls && CheckingOut(s.calls[e]) && s.calls[e].order == id ==> e == c
    requires d in Run(s, after).calls && CheckingOut(Run(s, after).calls[d]) && Run(s, after).calls[d].order == id
    ensures d == c
  {
    if after != [] {
      var n := |after| - 1;
      RunKeepsInv(s, after[..n]);
      CheckoutHasCause(Run(s, after[..n]), after[n], d, id);
      OnlyCreatorChecksOut(s, after[..n], c, id, d);
    }
  }

  /**
    An order gets its authority from the call that placed it and from no other, whatever happens in
    between, and only one that no order holds.
   */
  lemma AuthorityComesFromCreator(s0: State, before: seq<Action>, c: nat, draft: Draft, day: Date, after: seq<Action>, a: Action)
    requires Initial(s0) && |Next(Run(s0, before), Place(c, draft, day)).db.orders| > |Run(s0, before).db.orders|
    requires var id, t := |Run(s0, before).db.orders|, Run(Next(Run(s0, before), Place(c, draft, day)), after);
             && id < |t.db.orders| && t.db.orders[id].authority.None?
             && id < |Next(t, a).db.orders| && Next(t, a).db.orders[id].authority.Some?
    ensures a == StoreAuthority(c)
    ensures var id, t := |Run(s0, before).db.orders|, Run(Next(Run(s0, before), Place(c, draft, day)), after);
            FindByAuthority(t.db.orders, Next(t, a).db.orders[id].authority.value).None?
  {
    var s, id := Run(s0, before), |Run(s0, before).db.orders|;
    var placed := Next(s, Place(c, draft, day));
    InitialInv(s0);
    RunKeepsInv(s0, before);
    StepKeepsInv(s, Place(c, draft, day));
    forall e | e in placed.calls && CheckingOut(placed.calls[e]) && placed.calls[e].order == id ensures e == c {
      assert e != c ==> CallOk(s.calls[e], s);
    }
    RunKeepsInv(placed, after);
    AuthorityHasCause(Run(placed, after), a, id);
    OnlyCreatorChecksOut(placed, after, c, id, a.call);
  }

  lemma AuthoriserHasCause(s: State, a: Action, c: nat, id: nat)
    requires Inv(s) && id < |s.db.orders| && Evolves(s, Next(s, a))
    requires c in Next(s, a).calls && CanAuthorise(Next(s, a).db.orders, Next(s, a).calls[c], id)
    ensures Authorisable(s, id)
  {
    var s' := Next(s, a);
    CheckoutHasCause(s, a, c, id);
    assert Settles(s.db.orders[id], s'.db.orders[id]) && CallOk(s.calls[c], s);
    if s'.calls[c].Storing? {
      TakenStaysTaken(s, s', s'.calls[c].authority);
    }
    assert CanAuthorise(s.db.orders, s.calls[c], id);
  }

  lemma StepKeepsHopeless(s: State, a: Action, id: nat)
    requires Inv(s) && Hopeless(s, id)
    ensures Hopeless(Next(s, a), id)
  {
    var s' := Next(s, a);
    StepKeepsInv(s, a);
    assert Settles(s.db.orders[id], s'.db.orders[id]);
    if s'.db.orders[id].payStatus == Paid {
      PaymentHasCause(s, a, id);
    } else if Payable(s', id) {
      if s'.db.orders[id].authority.Some? {
        AuthorityHasCause(s, a, id);
      } else {
        var c :| c in s'.calls && CanAuthorise(s'.db.orders, s'.calls[c], id);
        AuthoriserHasCause(s, a, c, id);
      }
    }
  }

  lemma {:induction false} RunKeepsHopeless(s: State, actions: seq<Action>, id: nat)
    requires Inv(s) && Hopeless(s, id)
    ensures Hopeless(Run(s, actions), id)
  {
    if actions != [] {
      RunKeepsInv(s, actions[..|actions| - 1]);
      RunKeepsHopeless(s, actions[..|actions| - 1], id);
      StepKeepsHopeless(Run(s, actions[..|actions| - 1]), actions[|actions| - 1], id);
    }
  }

  // ---------- what is payable can be paid ----------

  /** The gateway can always come up with an authority nobody holds. */
  lemma FreshAuthority(orders: seq<Order>) returns (authority: string)
    ensures authority != "" && FindByAuthority(orders, authority).None?
  {
    var taken := set i | 0 <= i < |orders| && orders[i].authority.Some? :: orders[i].authority.value;
    authority := FreshString(taken + {""});
    forall i | 0 <= i < |orders| ensures orders[i].authority != Some(authority) {
      assert orders[i].authority.Some? ==> orders[i].authority.value in taken;
    }
  }

  lemma StoringGetsAuthority(s: State, c: nat, id: nat)
    requires id < |s.db.orders| && s.db.orders[id].payStatus == Unpaid
    requires c in s.calls && s.calls[c].Storing? && CanAuthorise(s.db.orders, s.calls[c], id)
    ensures var t := Next(s, StoreAuthority(c));
            id < |t.db.orders| && t.db.orders[id].payStatus == Unpaid && t.db.orders[id].authority.Some?
  {
    assert Next(s, StoreAuthority(c)) == DoStore(s, c, id, s.calls[c].authority);
  }

  /** An order whose checkout is in flight can get its authority. */
  lemma CheckoutCanFinish(s: State, id: nat) returns (actions: seq<Action>)
    requires id < |s.db.orders| && s.db.orders[id].payStatus == Unpaid && Authorisable(s, id)
    ensures var t := Run(s, actions);
            id < |t.db.orders| && t.db.orders[id].payStatus == Unpaid && t.db.orders[id].authority.Some?
  {
    var c :| c in s.calls && CanAuthorise(s.db.orders, s.calls[c], id);
    if s.calls[c].Storing? {
      actions := [StoreAuthority(c)];
      FoldTwo(Next, s, StoreAuthority(c), StoreAuthority(c));
      StoringGetsAuthority(s, c, id);
    } else {
      var authority := FreshAuthority(s.db.orders);
      var request := GatewayRequested(c, Some(authority));
      actions := [request, StoreAuthority(c)];
      FoldTwo(Next, s, request, StoreAuthority(c));
      assert Next(s, request) == Resume(s, c, Storing(id, authority));
      StoringGetsAuthority(Next(s, request), c, id);
    }
  }

  lemma PayableCanBePaid(s: State, id: nat) returns (actions: seq<Action>)
    requires Inv(s) && id < |s.db.orders| && Payable(s, id)
    ensures id < |Run(s, actions).db.orders| && Run(s, actions).db.orders[id].payStatus == Paid
  {
    var first: seq<Action> := [];
    if s.db.orders[id].authority.None? {
      first := CheckoutCanFinish(s, id);
    }
    RunKeepsInv(s, first);
    var rest := UnpaidCanBePaid(Run(s, first), id, None);
    FoldAppend(Next, s, first, rest);
    actions := first + rest;
  }

  /**
    From any reachable state an order that is not PAID can become PAID if and only if it is UNPAID and
    holds an authority, or its own checkout can still store one.
   */
  lemma CanBecomePaidIff(s0: State, actions: seq<Action>, id: nat)
    requires Initial(s0) && id < |Run(s0, actions).db.orders| && Run(s0, actions).db.orders[id].payStatus != Paid
    ensures var s := Run(s0, actions);
            (exists more: seq<Action> :: id < |Run(s, more).db.orders| && Run(s, more).db.orders[id].payStatus == Paid)
            <==> Payable(s, id)
  {
    var s := Run(s0, actions);
    InitialInv(s0);
    RunKeepsInv(s0, actions);
    if Payable(s, id) {
      var more := PayableCanBePaid(s, id);
    } else {
      forall more: seq<Action> ensures Hopeless(Run(s, more), id) {
        RunKeepsHopeless(s, more, id);
      }
    }
  }
}
