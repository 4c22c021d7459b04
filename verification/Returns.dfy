/**
  The returns of an order counted from outside (src/modules/orders/orders.service.ts, `cancel`): the
  history field `restocks` is the number of calls that answered that the order was cancelled.
 */
module Returns {
  import Orders
  import opened Payments

  /** The calls that cancelled order `id`. */
  ghost function Cancellers(calls: map<nat, Call>, id: nat): set<nat> {
    set c | c in calls && calls[c] == Replied(OrderCancelled(id))
  }

  function Restocks(orders: seq<Orders.Order>, id: nat): nat {
    if id < |orders| then orders[id].restocks else 0
  }

  ghost predicate Counted(s: State, id: nat) {
    Restocks(s.db.orders, id) == |Cancellers(s.calls, id)|
  }

  /** The calls after a step: the same, or one that had not answered yet has moved. */
  ghost predicate OneCallMoves(s: State, s': State, c: nat) {
    || s'.calls == s.calls
    || (c in s'.calls && s'.calls == s.calls[c := s'.calls[c]] && (c in s.calls ==> !s.calls[c].Replied?))
  }

  lemma MoveCounts(calls: map<nat, Call>, c: nat, k: Call, id: nat)
    requires c in calls ==> !calls[c].Replied?
    ensures |Cancellers(calls[c := k], id)| ==
            |Cancellers(calls, id)| + if k == Replied(OrderCancelled(id)) then 1 else 0
  {
    var before, after := Cancellers(calls, id), Cancellers(calls[c := k], id);
    if k == Replied(OrderCancelled(id)) {
      assert after == before + {c};
    } else {
      assert after == before;
    }
  }

  /** Every step but `WriteCancel` moves its call elsewhere than to the answer "cancelled", and returns nothing. */
  lemma OtherStepsCancelNothing(s: State, a: Action, id: nat)
    requires !a.WriteCancel? && !a.SetStatus?
    ensures OneCallMoves(s, Next(s, a), a.call)
    ensures Next(s, a).calls == s.calls || Next(s, a).calls[a.call] != Replied(OrderCancelled(id))
  {
    match a
    case Place(_, _, _) =>
    case GatewayRequested(_, _) =>
    case StoreAuthority(_) =>
    case BeginVerify(_, _, _) =>
    case GatewayVerified(_, _) =>
    case WriteFailed(_) =>
    case WritePaid(_) =>
    case _ =>
  }

  /** New orders start without returns, and only `WriteCancel` changes the returns of an old one. */
  lemma OtherStepsRestockNothing(s: State, a: Action, id: nat)
    requires !a.WriteCancel?
    ensures Restocks(Next(s, a).db.orders, id) == Restocks(s.db.orders, id)
  {
    match a
    case Place(_, _, _) =>
    case StoreAuthority(_) =>
    case WriteFailed(_) =>
    case WritePaid(_) =>
    case _ =>
  }

  lemma WriteCancelCounts(s: State, c: nat, id: nat)
    requires Inv(s) && Counted(s, id) && Ready(s, c) && s.calls[c].Cancelling?
    ensures Counted(DoWriteCancel(s, c, s.calls[c].order), id)
  {
    assert OrderOk(s.db.orders[s.calls[c].order], s);
    MoveCounts(s.calls, c, Replied(OrderCancelled(s.calls[c].order)), id);
  }

  lemma StepKeepsCount(s: State, a: Action, id: nat)
    requires Inv(s) && Counted(s, id)
    ensures Counted(Next(s, a), id)
  {
    if a.WriteCancel? {
      if Ready(s, a.call) && s.calls[a.call].Cancelling? { WriteCancelCounts(s, a.call, id); }
    } else {
      OtherStepsRestockNothing(s, a, id);
      if !a.SetStatus? {
        OtherStepsCancelNothing(s, a, id);
        if Next(s, a).calls != s.calls {
          MoveCounts(s.calls, a.call, Next(s, a).calls[a.call], id);
        }
      }
    }
  }

  /** In every interleaving an order's goods were put back once for each call that answered "cancelled". */
  lemma {:induction false} ReturnsAreAnswers(s0: State, actions: seq<Action>, id: nat)
    requires Initial(s0)
    ensures Restocks(Run(s0, actions).db.orders, id) == |Cancellers(Run(s0, actions).calls, id)|
  {
    InitialInv(s0);
    if actions == [] {
      assert Cancellers(s0.calls, id) == {};
    } else {
      var n := |actions| - 1;
      RunKeepsInv(s0, actions[..n]);
      ReturnsAreAnswers(s0, actions[..n], id);
      StepKeepsCount(Run(s0, actions[..n]), actions[n], id);
    }
  }
}
