/**
  One user's cart while several of the user's checkouts and edits interleave
  (src/modules/checkout/checkout.service.ts, `checkout` without explicit items). A checkout reads the
  cart, creates its order, and at the end clears the whole cart, whatever is in it by then; when the
  payment request fails in between, the order stays and the cart is not cleared.
 */
module CartRaces {
  import opened Prelude
  import Cart
  import Orders

  datatype Line = Line(productId: string, quantity: int)

  /** Where a checkout stands; it keeps the rows it read, by row id. */
  datatype Call =
    | Holding(read: map<nat, Line>)   // has read, will create its order
    | Ordered(read: map<nat, Line>)   // the order is in, will clear the cart
    | Abandoned(read: map<nat, Line>) // the order is in, the payment request failed
    | Cleared(read: map<nat, Line>)
    | Failed

  datatype State = State(rows: map<nat, Line>, nextId: nat, calls: map<nat, Call>)

  datatype Action =
    | AddRow(id: nat, line: Line)
    | SetRow(id: nat, quantity: int)
    | DropRow(id: nat)
    | Read(call: nat)
    | Create(call: nat, accepted: bool)
    | GiveUp(call: nat)
    | Clear(call: nat)

  function Next(s: State, a: Action): State {
    match a
    case AddRow(id, line) => if s.nextId <= id then s.(rows := s.rows[id := line], nextId := id + 1) else s
    case SetRow(id, quantity) => if id in s.rows then s.(rows := s.rows[id := s.rows[id].(quantity := quantity)]) else s
    case DropRow(id) => s.(rows := s.rows - {id})
    case Read(c) =>
      if c in s.calls then s else s.(calls := s.calls[c := if s.rows == map[] then Failed else Holding(s.rows)])
    case Create(c, accepted) =>
      if c in s.calls && s.calls[c].Holding?
      then s.(calls := s.calls[c := if accepted then Ordered(s.calls[c].read) else Failed]) else s
    case GiveUp(c) =>
      if c in s.calls && s.calls[c].Ordered? then s.(calls := s.calls[c := Abandoned(s.calls[c].read)]) else s
    case Clear(c) =>
      if c in s.calls && s.calls[c].Ordered?
      then s.(rows := map[], calls := s.calls[c := Cleared(s.calls[c].read)]) else s
  }

  ghost function Run(s: State, actions: seq<Action>): State {
    Fold(Next, s, actions)
  }

  predicate Initial(s: State) { s == State(map[], 0, map[]) }

  predicate InFlight(k: Call) { k.Holding? || k.Ordered? }

  predicate HasOrdered(k: Call, id: nat) { (k.Ordered? || k.Abandoned? || k.Cleared?) && id in k.read }

  /** The row is in the order of the call, or will be if it is accepted. */
  predicate Claims(k: Call, id: nat) { !k.Failed? && id in k.read }

  ghost predicate OrderedTwice(s: State, id: nat) {
    exists c, d :: c in s.calls && d in s.calls && c != d && HasOrdered(s.calls[c], id) && HasOrdered(s.calls[d], id)
  }

  ghost predicate OneClaim(s: State, id: nat) {
    forall c, d :: c in s.calls && d in s.calls && Claims(s.calls[c], id) && Claims(s.calls[d], id) ==> c == d
  }

  ghost predicate NoRead(actions: seq<Action>) {
    forall i :: 0 <= i < |actions| ==> !actions[i].Read?
  }

  // ---------- one cart, two orders ----------

  lemma StepKeepsOneClaim(s: State, a: Action, id: nat)
    requires OneClaim(s, id) && !a.Read?
    ensures OneClaim(Next(s, a), id)
  {
    var s' := Next(s, a);
    forall c | c in s'.calls && Claims(s'.calls[c], id) ensures c in s.calls && Claims(s.calls[c], id) {}
  }

  lemma {:induction false} RunKeepsOneClaim(s: State, actions: seq<Action>, id: nat)
    requires OneClaim(s, id) && NoRead(actions)
    ensures OneClaim(Run(s, actions), id)
  {
    if actions != [] {
      var n := |actions| - 1;
      RunKeepsOneClaim(s, actions[..n], id);
      StepKeepsOneClaim(Run(s, actions[..n]), actions[n], id);
    }
  }

  /** A call that claims a row has ordered it, or does when its order is accepted. */
  lemma ClaimBecomesOrder(s: State, c: nat, id: nat)
    requires c in s.calls && Claims(s.calls[c], id)
    ensures var s' := Next(s, Create(c, true));
            && c in s'.calls && HasOrdered(s'.calls[c], id)
            && forall d :: d in s.calls && d != c ==> d in s'.calls && s'.calls[d] == s.calls[d]
  {
  }

  /**
    The checkouts under way can lead to one cart row ordered twice if and only if two checkouts that have not
    failed read it.
   */
  lemma OrderedTwiceIff(s: State, id: nat)
    ensures (exists more: seq<Action> :: NoRead(more) && OrderedTwice(Run(s, more), id)) <==> !OneClaim(s, id)
  {
    if OneClaim(s, id) {
      forall more: seq<Action> | NoRead(more) ensures !OrderedTwice(Run(s, more), id) {
        RunKeepsOneClaim(s, more, id);
      }
    } else {
      var c, d :| c in s.calls && d in s.calls && Claims(s.calls[c], id) && Claims(s.calls[d], id) && c != d;
      ClaimBecomesOrder(s, c, id);
      ClaimBecomesOrder(Next(s, Create(c, true)), d, id);
      FoldTwo(Next, s, Create(c, true), Create(d, true));
      assert OrderedTwice(Run(s, [Create(c, true), Create(d, true)]), id);
    }
  }

  // ---------- when a new checkout is safe ----------

  /** No row of the cart is in an order, or in the hands of a checkout that may still create one. */
  ghost predicate Fresh(s: State) {
    forall c, id: nat :: c in s.calls && Claims(s.calls[c], id) ==> id !in s.rows
  }

  /** With no row claimed twice so far, a further checkout can lead to a row ordered twice exactly if the cart is not fresh. */
  lemma ReadIsSafeIff(s: State, c: nat)
    requires c !in s.calls && forall id :: OneClaim(s, id)
    ensures (exists more: seq<Action>, id: nat :: NoRead(more) && OrderedTwice(Run(Next(s, Read(c)), more), id)) <==> !Fresh(s)
  {
    var t := Next(s, Read(c));
    if Fresh(s) {
      forall more: seq<Action>, id: nat | NoRead(more) ensures !OrderedTwice(Run(t, more), id) {
        FreshReadKeepsOneClaim(s, c, id);
        OrderedTwiceIff(t, id);
      }
    } else {
      var d, id :| d in s.calls && Claims(s.calls[d], id) && id in s.rows;
      assert Claims(t.calls[c], id) && Claims(t.calls[d], id);
      OrderedTwiceIff(t, id);
    }
  }

  lemma FreshReadKeepsOneClaim(s: State, c: nat, id: nat)
    requires OneClaim(s, id) && Fresh(s)
    ensures OneClaim(Next(s, Read(c)), id)
  {
  }

  ghost predicate ReadsFresh(s: State, actions: seq<Action>) {
    forall i :: 0 <= i < |actions| && actions[i].Read? ==> Fresh(Run(s, actions[..i]))
  }

  /** When every checkout reads a fresh cart, every row is ordered at most once. */
  lemma {:induction false} FreshReadsOrderOnce(s0: State, actions: seq<Action>, id: nat)
    requires Initial(s0) && ReadsFresh(s0, actions)
    ensures OneClaim(Run(s0, actions), id) && !OrderedTwice(Run(s0, actions), id)
  {
    if actions != [] {
      var n := |actions| - 1;
      forall i | 0 <= i < n && actions[..n][i].Read? ensures Fresh(Run(s0, actions[..n][..i])) {
        assert actions[..n][..i] == actions[..i] && actions[i].Read?;
      }
      FreshReadsOrderOnce(s0, actions[..n], id);
      var s := Run(s0, actions[..n]);
      if actions[n].Read? {
        FreshReadKeepsOneClaim(s, actions[n].call, id);
      } else {
        StepKeepsOneClaim(s, actions[n], id);
      }
    }
  }

  ghost predicate IdsBelow(rows: map<nat, Line>, n: nat) {
    forall id :: id in rows ==> id < n
  }

  ghost predicate Gone(read: map<nat, Line>, rows: map<nat, Line>) {
    forall id :: id in read ==> id !in rows
  }

  /** What a call read has ids handed out already, and what a finished one ordered is gone from the cart for good. */
  ghost predicate CallOk(k: Call, s: State) {
    !k.Failed? ==> IdsBelow(k.read, s.nextId) && (k.Cleared? ==> Gone(k.read, s.rows))
  }

  ghost predicate Inv(s: State) {
    IdsBelow(s.rows, s.nextId) && forall c :: c in s.calls ==> CallOk(s.calls[c], s)
  }

  lemma StepKeepsInv(s: State, a: Action)
    requires Inv(s)
    ensures Inv(Next(s, a))
  {
    var s' := Next(s, a);
    forall c | c in s'.calls ensures CallOk(s'.calls[c], s') {
      if c in s.calls { assert CallOk(s.calls[c], s); }
    }
  }

  lemma RunKeepsInv(s0: State, actions: seq<Action>)
    requires Initial(s0)
    ensures Inv(Run(s0, actions))
  {
    forall t, a | Inv(t) ensures Inv(Next(t, a)) {
      StepKeepsInv(t, a);
    }
    FoldKeeps(Next, (t: State) => Inv(t), s0, actions);
  }

  /** In every reachable state: with no checkout under way and no abandoned order's row left in it, the cart is fresh. */
  lemma QuietCartIsFresh(s0: State, actions: seq<Action>)
    requires Initial(s0)
    requires var s := Run(s0, actions);
             && (forall c :: c in s.calls ==> !InFlight(s.calls[c]))
             && forall c :: c in s.calls && s.calls[c].Abandoned? ==> Gone(s.calls[c].read, s.rows)
    ensures Fresh(Run(s0, actions))
  {
    RunKeepsInv(s0, actions);
    var s := Run(s0, actions);
    forall c, id: nat | c in s.calls && Claims(s.calls[c], id) ensures id !in s.rows {
      assert CallOk(s.calls[c], s) && Gone(s.calls[c].read, s.rows);
    }
  }

  /** It happens without any overlap: the payment request fails, the user checks out again, and the row is in two orders. */
  lemma RetryOrdersTwice(line: Line) returns (actions: seq<Action>)
    ensures OrderedTwice(Run(State(map[], 0, map[]), actions), 0)
  {
    var cart := map[0 := line];
    var s0, s1 := State(map[], 0, map[]), State(cart, 1, map[]);
    var s2, s3 := s1.(calls := map[0 := Holding(cart)]), s1.(calls := map[0 := Ordered(cart)]);
    var s4 := s1.(calls := map[0 := Abandoned(cart)]);
    var s5, s6 := s4.(calls := s4.calls[1 := Holding(cart)]), s4.(calls := s4.calls[1 := Ordered(cart)]);
    assert Next(s0, AddRow(0, line)) == s1 && Next(s1, Read(0)) == s2 by { assert 0 in cart; }
    assert Next(s2, Create(0, true)) == s3 && Next(s3, GiveUp(0)) == s4;
    assert Next(s4, Read(1)) == s5 && Next(s5, Create(1, true)) == s6 by { assert 0 in cart; }
    var first, rest := [AddRow(0, line), Read(0), Create(0, true)], [GiveUp(0), Read(1), Create(1, true)];
    FoldThree(Next, s0, AddRow(0, line), s1, Read(0), s2, Create(0, true), s3);
    FoldThree(Next, s3, GiveUp(0), s4, Read(1), s5, Create(1, true), s6);
    FoldAppend(Next, s0, first, rest);
    actions := first + rest;
    assert HasOrdered(s6.calls[0], 0) && HasOrdered(s6.calls[1], 0);
  }

  // ---------- rows that are cleared without being ordered ----------

  predicate ClaimsLine(k: Call, id: nat, line: Line) { Claims(k, id) && k.read[id] == line }

  /** Some order has the row with exactly this quantity. */
  ghost predicate LineOrdered(s: State, id: nat, line: Line) {
    exists c :: c in s.calls && HasOrdered(s.calls[c], id) && s.calls[c].read[id] == line
  }

  predicate InCart(s: State, id: nat, line: Line) { id in s.rows && s.rows[id] == line }

  /** The row has gone from the cart although no order has it. */
  ghost predicate LineLost(s: State, id: nat, line: Line) {
    !InCart(s, id, line) && !LineOrdered(s, id, line)
  }

  /** Only checkouts go on: no edit, no new checkout. */
  ghost predicate Winding(actions: seq<Action>) {
    forall i :: 0 <= i < |actions| ==> actions[i].Create? || actions[i].GiveUp? || actions[i].Clear?
  }

  /** Every checkout under way holds the row as it is. */
  ghost predicate AllHold(s: State, id: nat, line: Line) {
    forall c :: c in s.calls && InFlight(s.calls[c]) ==> ClaimsLine(s.calls[c], id, line)
  }

  ghost predicate LineSafe(s: State, id: nat, line: Line) {
    LineOrdered(s, id, line) || (InCart(s, id, line) && AllHold(s, id, line))
  }

  lemma StepKeepsLineSafe(s: State, a: Action, id: nat, line: Line)
    requires LineSafe(s, id, line) && (a.Create? || a.GiveUp? || a.Clear?)
    ensures LineSafe(Next(s, a), id, line)
  {
    var s' := Next(s, a);
    if AllHold(s, id, line) && a.Clear? && s' != s {
      assert ClaimsLine(s.calls[a.call], id, line);
    }
    if LineOrdered(s, id, line) {
      var c :| c in s.calls && HasOrdered(s.calls[c], id) && s.calls[c].read[id] == line;
      assert HasOrdered(s'.calls[c], id) && s'.calls[c].read[id] == line;
    } else {
      forall c | c in s'.calls && InFlight(s'.calls[c]) ensures ClaimsLine(s'.calls[c], id, line) {
        assert ClaimsLine(s.calls[c], id, line);
      }
    }
  }

  lemma {:induction false} RunKeepsLineSafe(s: State, actions: seq<Action>, id: nat, line: Line)
    requires LineSafe(s, id, line) && Winding(actions)
    ensures LineSafe(Run(s, actions), id, line)
  {
    if actions != [] {
      var n := |actions| - 1;
      RunKeepsLineSafe(s, actions[..n], id, line);
      StepKeepsLineSafe(Run(s, actions[..n]), actions[n], id, line);
    }
  }

  /** A checkout that does not hold the row creates its order and clears the cart. */
  lemma StrangerLosesLine(s: State, c: nat, id: nat, line: Line) returns (actions: seq<Action>)
    requires c in s.calls && InFlight(s.calls[c]) && !ClaimsLine(s.calls[c], id, line) && !LineOrdered(s, id, line)
    ensures Winding(actions) && LineLost(Run(s, actions), id, line)
  {
    var t := Next(s, Create(c, true));
    var u := Next(t, Clear(c));
    FoldTwo(Next, s, Create(c, true), Clear(c));
    actions := [Create(c, true), Clear(c)];
    forall d | d in u.calls && HasOrdered(u.calls[d], id) ensures u.calls[d].read[id] != line {
      if d != c { assert u.calls[d] == s.calls[d]; }
    }
  }

  /**
    The checkouts under way can clear a cart row, with the quantity it has now, without any order having it
    if and only if no order has it yet and one of them did not read it so: it was added, or its quantity
    changed, after that checkout read the cart.
   */
  lemma LineLostIff(s: State, id: nat, line: Line)
    requires InCart(s, id, line)
    ensures (exists more: seq<Action> :: Winding(more) && LineLost(Run(s, more), id, line)) <==>
            !LineOrdered(s, id, line) && !AllHold(s, id, line)
  {
    if LineSafe(s, id, line) {
      forall more: seq<Action> | Winding(more) ensures !LineLost(Run(s, more), id, line) {
        RunKeepsLineSafe(s, more, id, line);
      }
    } else {
      var c :| c in s.calls && InFlight(s.calls[c]) && !ClaimsLine(s.calls[c], id, line);
      var more := StrangerLosesLine(s, c, id, line);
    }
  }

  /** It happens: a row added while a checkout is under way is lost if the checkout then goes through. */
  lemma AddedRowLost(s: State, c: nat, line: Line) returns (actions: seq<Action>)
    requires Inv(s) && c in s.calls && InFlight(s.calls[c])
    ensures Winding(actions) && LineLost(Run(Next(s, AddRow(s.nextId, line)), actions), s.nextId, line)
  {
    var t := Next(s, AddRow(s.nextId, line));
    assert CallOk(s.calls[c], s);
    forall d | d in s.calls ensures !Claims(s.calls[d], s.nextId) {
      assert CallOk(s.calls[d], s);
    }
    actions := StrangerLosesLine(t, c, s.nextId, line);
  }

  // ---------- the same cart as the service has ----------

  /** `rows` are the rows of user `u` in the table, by row id. */
  ghost predicate CartIs(rows: map<nat, Line>, t: Cart.Table, u: string) {
    && (forall i :: 0 <= i < |t.rows| && t.rows[i].userId == u ==>
          t.rows[i].id in rows && rows[t.rows[i].id] == Line(t.rows[i].productId, t.rows[i].quantity))
    && forall id: nat :: id in rows ==> exists i: nat :: Cart.Owns(t.rows, i, id, u)
  }

  /** An addition that `CartService.addToCart` accepts is one new row or one new quantity here. */
  lemma AddFollowsCart(s: State, products: Orders.Products, t: Cart.Table, u: string, productId: string, quantity: int)
    returns (a: Action)
    requires Cart.TableOk(t) && CartIs(s.rows, t, u) && s.nextId <= t.nextId
    requires Cart.AddToCart(products, t, u, productId, quantity).1.None?
    ensures a.AddRow? || a.SetRow?
    ensures var t' := Cart.AddToCart(products, t, u, productId, quantity).0;
            CartIs(Next(s, a).rows, t', u) && Next(s, a).nextId <= t'.nextId
  {
    var t' := Cart.AddToCart(products, t, u, productId, quantity).0;
    match Cart.FindRow(t.rows, u, productId)
    case None =>
      a := AddRow(t.nextId, Line(productId, quantity));
      assert Cart.Owns(t'.rows, |t.rows|, t.nextId, u);
      forall id: nat | id in s.rows ensures exists i: nat :: Cart.Owns(t'.rows, i, id, u) {
        var i: nat :| Cart.Owns(t.rows, i, id, u);
        assert Cart.Owns(t'.rows, i, id, u);
      }
    case Some(k) =>
      a := SetRow(t.rows[k].id, t'.rows[k].quantity);
      SetRowFollowsCart(s.rows, t, u, k, t'.rows[k].quantity);
  }

  lemma SetRowFollowsCart(rows: map<nat, Line>, t: Cart.Table, u: string, k: nat, quantity: int)
    requires Cart.TableOk(t) && CartIs(rows, t, u) && k < |t.rows| && t.rows[k].userId == u
    ensures t.rows[k].id in rows
    ensures CartIs(rows[t.rows[k].id := rows[t.rows[k].id].(quantity := quantity)],
                   t.(rows := t.rows[k := t.rows[k].(quantity := quantity)]), u)
  {
    var t' := t.(rows := t.rows[k := t.rows[k].(quantity := quantity)]);
    forall id: nat | id in rows ensures exists i: nat :: Cart.Owns(t'.rows, i, id, u) {
      var i: nat :| Cart.Owns(t.rows, i, id, u);
      assert Cart.Owns(t'.rows, i, id, u);
    }
  }

  /** An update that `CartService.updateCartItem` accepts. */
  lemma UpdateFollowsCart(s: State, products: Orders.Products, t: Cart.Table, u: string, id: nat, quantity: int)
    requires Cart.TableOk(t) && CartIs(s.rows, t, u) && Cart.UpdateCartItem(products, t, u, id, quantity).1.None?
    ensures CartIs(Next(s, SetRow(id, quantity)).rows, Cart.UpdateCartItem(products, t, u, id, quantity).0, u)
  {
    SetRowFollowsCart(s.rows, t, u, Cart.FindRowById(t.rows, id).value, quantity);
  }

  /** Where a row stands once row `k` has been taken out. */
  lemma OwnsAfterDrop(rows: seq<Cart.CartRow>, k: nat, i: nat, id: nat, u: string)
    requires k < |rows| && i != k && Cart.Owns(rows, i, id, u)
    ensures Cart.Owns(rows[..k] + rows[k + 1..], if i < k then i else i - 1, id, u)
  {
  }

  /** Every row that is left stands in the table without row `k`. */
  lemma RestAfterDrop(rows: map<nat, Line>, t: Cart.Table, u: string, k: nat, left: seq<Cart.CartRow>)
    requires Cart.TableOk(t) && CartIs(rows, t, u) && k < |t.rows| && left == t.rows[..k] + t.rows[k + 1..]
    ensures forall id: nat :: id in rows && id != t.rows[k].id ==> exists i: nat :: Cart.Owns(left, i, id, u)
  {
    forall id: nat | id in rows && id != t.rows[k].id ensures exists i: nat :: Cart.Owns(left, i, id, u) {
      var i: nat :| Cart.Owns(t.rows, i, id, u);
      OwnsAfterDrop(t.rows, k, i, id, u);
    }
  }

  /** Every row that stands in the table without row `k` stood there before. */
  lemma LeftAfterDrop(t: Cart.Table, k: nat, i: nat) returns (j: nat)
    requires Cart.TableOk(t) && k < |t.rows| && i < |t.rows| - 1
    ensures j < |t.rows| && (t.rows[..k] + t.rows[k + 1..])[i] == t.rows[j] && t.rows[j].id != t.rows[k].id
  {
    j := if i < k then i else i + 1;
  }

  lemma DropRowFollowsCart(rows: map<nat, Line>, t: Cart.Table, u: string, k: nat)
    requires Cart.TableOk(t) && CartIs(rows, t, u) && k < |t.rows|
    ensures CartIs(rows - {t.rows[k].id}, t.(rows := t.rows[..k] + t.rows[k + 1..]), u)
  {
    var left := t.rows[..k] + t.rows[k + 1..];
    RestAfterDrop(rows, t, u, k, left);
    forall i | 0 <= i < |left| && left[i].userId == u
      ensures left[i].id in rows - {t.rows[k].id} && rows[left[i].id] == Line(left[i].productId, left[i].quantity)
    {
      var j := LeftAfterDrop(t, k, i);
    }
  }

  /** A removal that `CartService.removeFromCart` accepts. */
  lemma RemoveFollowsCart(s: State, t: Cart.Table, u: string, id: nat)
    requires Cart.TableOk(t) && CartIs(s.rows, t, u) && Cart.RemoveFromCart(t, u, id).1.None?
    ensures CartIs(Next(s, DropRow(id)).rows, Cart.RemoveFromCart(t, u, id).0, u)
  {
    DropRowFollowsCart(s.rows, t, u, Cart.FindRowById(t.rows, id).value);
  }

  /** What a checkout reads and what it clears at its end is the user's cart. */
  lemma CheckoutFollowsCart(s: State, c: nat, t: Cart.Table, u: string)
    requires CartIs(s.rows, t, u) && c in s.calls && s.calls[c].Ordered?
    ensures Cart.RowsOf(t.rows, u) == [] <==> s.rows == map[]
    ensures CartIs(Next(s, Clear(c)).rows, Cart.ClearCart(t, u), u)
  {
    var mine, others := Cart.FiltersAreSubsequences(t.rows, u);
    EmptyCartIff(t.rows, u);
    if s.rows == map[] {
      forall i | 0 <= i < |t.rows| ensures t.rows[i].userId != u {}
    } else {
      var id :| id in s.rows;
      var i: nat :| Cart.Owns(t.rows, i, id, u);
    }
  }

  lemma {:induction false} EmptyCartIff(rows: seq<Cart.CartRow>, u: string)
    ensures Cart.RowsOf(rows, u) == [] <==> forall i :: 0 <= i < |rows| ==> rows[i].userId != u
  {
    if rows != [] { EmptyCartIff(rows[..|rows| - 1], u); }
  }
}
