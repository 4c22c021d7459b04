/** Cart rows and what the cart service does with them (src/modules/cart/cart.service.ts). */
module Cart {
  import opened Prelude
  import opened Orders

  /** A row of `cart_items`; a user has one cart, so the row names the user directly. */
  datatype CartRow = CartRow(id: nat, userId: string, productId: string, quantity: int)

  datatype CartRefusal = QuantityTooSmall | ProductUnavailable | NotEnoughStock | RowNotFound | NotYourCart

  /** The table; ids are handed out in order and never again. */
  datatype Table = Table(rows: seq<CartRow>, nextId: nat)

  function FindRow(rows: seq<CartRow>, userId: string, productId: string): (r: Option<nat>)
    ensures r.Some? ==> r.value < |rows| && rows[r.value].userId == userId && rows[r.value].productId == productId
    ensures r.None? ==> forall i :: 0 <= i < |rows| ==> rows[i].userId != userId || rows[i].productId != productId
  {
    if rows == [] then None
    else
      var n := |rows| - 1;
      if rows[n].userId == userId && rows[n].productId == productId then Some(n)
      else FindRow(rows[..n], userId, productId)
  }

  function FindRowById(rows: seq<CartRow>, id: nat): (r: Option<nat>)
    ensures r.Some? ==> r.value < |rows| && rows[r.value].id == id
    ensures r.None? ==> forall i :: 0 <= i < |rows| ==> rows[i].id != id
  {
    if rows == [] then None
    else
      var n := |rows| - 1;
      if rows[n].id == id then Some(n) else FindRowById(rows[..n], id)
  }

  function RowsOf(rows: seq<CartRow>, userId: string): seq<CartRow> {
    if rows == [] then []
    else
      var n := |rows| - 1;
      RowsOf(rows[..n], userId) + if rows[n].userId == userId then [rows[n]] else []
  }

  function RowsNotOf(rows: seq<CartRow>, userId: string): seq<CartRow> {
    if rows == [] then []
    else
      var n := |rows| - 1;
      RowsNotOf(rows[..n], userId) + if rows[n].userId == userId then [] else [rows[n]]
  }

  function AddToCart(products: Products, t: Table, userId: string, productId: string, quantity: int)
    : (Table, Option<CartRefusal>)
  {
    if quantity < 1 then (t, Some(QuantityTooSmall))
    else if productId !in products || !products[productId].isActive then (t, Some(ProductUnavailable))
    else if !CheckStock(products, productId, quantity) then (t, Some(NotEnoughStock))
    else
      match FindRow(t.rows, userId, productId)
      case None => (Table(t.rows + [CartRow(t.nextId, userId, productId, quantity)], t.nextId + 1), None)
      case Some(i) =>
        var newQuantity := t.rows[i].quantity + quantity;
        if !CheckStock(products, productId, newQuantity) then (t, Some(NotEnoughStock))
        else (t.(rows := t.rows[i := t.rows[i].(quantity := newQuantity)]), None)
  }

  function UpdateCartItem(products: Products, t: Table, userId: string, id: nat, quantity: int)
    : (Table, Option<CartRefusal>)
  {
    if quantity < 1 then (t, Some(QuantityTooSmall))
    else
      match FindRowById(t.rows, id)
      case None => (t, Some(RowNotFound))
      case Some(i) =>
        if t.rows[i].userId != userId then (t, Some(NotYourCart))
        else if !CheckStock(products, t.rows[i].productId, quantity) then (t, Some(NotEnoughStock))
        else (t.(rows := t.rows[i := t.rows[i].(quantity := quantity)]), None)
  }

  function RemoveFromCart(t: Table, userId: string, id: nat): (Table, Option<CartRefusal>) {
    match FindRowById(t.rows, id)
    case None => (t, Some(RowNotFound))
    case Some(i) =>
      if t.rows[i].userId != userId then (t, Some(NotYourCart))
      else (t.(rows := t.rows[..i] + t.rows[i + 1..]), None)
  }

  function ClearCart(t: Table, userId: string): Table {
    t.(rows := RowsNotOf(t.rows, userId))
  }

  lemma RowsOfTwo(first: CartRow, second: CartRow, userId: string)
    requires first.userId != second.userId
    ensures first.userId == userId ==> RowsOf([first, second], userId) == [first]
    ensures second.userId == userId ==> RowsOf([first, second], userId) == [second]
  {
    assert [first, second][..1] == [first] && [first][..0] == [];
    assert RowsOf([first], userId) == [] + if first.userId == userId then [first] else [];
  }

  // ---------- the invariant of the table ----------

  /** One row per user and product (the unique key of the schema), positive quantities, fresh ids. */
  ghost predicate TableOk(t: Table) {
    && (forall i :: 0 <= i < |t.rows| ==> t.rows[i].quantity >= 1 && t.rows[i].id < t.nextId)
    && (forall i, j :: 0 <= i < j < |t.rows| ==>
          t.rows[i].id != t.rows[j].id &&
          (t.rows[i].userId != t.rows[j].userId || t.rows[i].productId != t.rows[j].productId))
  }

  /** `kept` is `rows` with some rows left out, in order. */
  ghost predicate Subsequence(kept: seq<CartRow>, rows: seq<CartRow>, at: seq<nat>) {
    && |at| == |kept|
    && (forall i :: 0 <= i < |at| ==> at[i] < |rows| && kept[i] == rows[at[i]])
    && (forall i, j :: 0 <= i < j < |at| ==> at[i] < at[j])
  }

  lemma SubsequenceKeepsTable(t: Table, kept: seq<CartRow>, at: seq<nat>)
    requires TableOk(t) && Subsequence(kept, t.rows, at)
    ensures TableOk(t.(rows := kept))
  {
  }

  lemma {:induction false} FiltersAreSubsequences(rows: seq<CartRow>, userId: string) returns (mine: seq<nat>, others: seq<nat>)
    ensures Subsequence(RowsOf(rows, userId), rows, mine) && Subsequence(RowsNotOf(rows, userId), rows, others)
    ensures forall i :: 0 <= i < |mine| ==> RowsOf(rows, userId)[i].userId == userId
    ensures forall i :: 0 <= i < |others| ==> RowsNotOf(rows, userId)[i].userId != userId
    ensures |mine| + |others| == |rows|
  {
    if rows == [] {
      mine, others := [], [];
    } else {
      var n := |rows| - 1;
      mine, others := FiltersAreSubsequences(rows[..n], userId);
      if rows[n].userId == userId { mine := mine + [n]; } else { others := others + [n]; }
    }
  }

  lemma AddKeepsTable(products: Products, t: Table, userId: string, productId: string, quantity: int)
    requires TableOk(t)
    ensures TableOk(AddToCart(products, t, userId, productId, quantity).0)
  {
  }

  lemma UpdateKeepsTable(products: Products, t: Table, userId: string, id: nat, quantity: int)
    requires TableOk(t)
    ensures TableOk(UpdateCartItem(products, t, userId, id, quantity).0)
  {
  }

  lemma RemoveKeepsTable(t: Table, userId: string, id: nat)
    requires TableOk(t)
    ensures TableOk(RemoveFromCart(t, userId, id).0)
  {
    var i := FindRowById(t.rows, id);
    if i.Some? && t.rows[i.value].userId == userId {
      var n := |t.rows| - 1;
      SubsequenceKeepsTable(t, t.rows[..i.value] + t.rows[i.value + 1..],
                            seq(n, (k: nat) => if k < i.value then k else k + 1));
    }
  }

  lemma ClearKeepsTable(t: Table, userId: string)
    requires TableOk(t)
    ensures TableOk(ClearCart(t, userId)) && RowsOf(ClearCart(t, userId).rows, userId) == []
  {
    var mine, others := FiltersAreSubsequences(t.rows, userId);
    SubsequenceKeepsTable(t, RowsNotOf(t.rows, userId), others);
    ClearedCart(t.rows, userId, userId);
  }

  /** Clearing a cart takes all of its owner's rows and nobody else's. */
  lemma {:induction false} ClearedCart(rows: seq<CartRow>, userId: string, other: string)
    ensures RowsOf(RowsNotOf(rows, userId), other) == if other == userId then [] else RowsOf(rows, other)
  {
    if rows != [] {
      var n := |rows| - 1;
      ClearedCart(rows[..n], userId, other);
      var front := RowsNotOf(rows[..n], userId);
      if rows[n].userId == userId {
        assert front + [] == front;
      } else {
        assert (front + [rows[n]])[..|front|] == front;
      }
    }
  }

  // ---------- what the edits mean ----------

  /** How much of product `p` user `u` has in the cart. */
  function InCart(rows: seq<CartRow>, u: string, p: string): int {
    if rows == [] then 0
    else
      var n := |rows| - 1;
      InCart(rows[..n], u, p) + if rows[n].userId == u && rows[n].productId == p then rows[n].quantity else 0
  }

  lemma {:induction false} InCartConcat(a: seq<CartRow>, b: seq<CartRow>, u: string, p: string)
    ensures InCart(a + b, u, p) == InCart(a, u, p) + InCart(b, u, p)
  {
    if b == [] {
      assert a + b == a;
    } else {
      assert (a + b)[..|a + b| - 1] == a + b[..|b| - 1];
      InCartConcat(a, b[..|b| - 1], u, p);
    }
  }

  /** Replacing row `i` by the rows `instead`, which may be none. */
  lemma InCartReplace(rows: seq<CartRow>, i: nat, instead: seq<CartRow>, u: string, p: string)
    requires i < |rows|
    ensures InCart(rows[..i] + instead + rows[i + 1..], u, p) ==
            InCart(rows, u, p) - InCart([rows[i]], u, p) + InCart(instead, u, p)
  {
    assert rows == rows[..i] + [rows[i]] + rows[i + 1..];
    InCartConcat(rows[..i] + [rows[i]], rows[i + 1..], u, p);
    InCartConcat(rows[..i], [rows[i]], u, p);
    InCartConcat(rows[..i] + instead, rows[i + 1..], u, p);
    InCartConcat(rows[..i], instead, u, p);
  }

  lemma {:induction false} InCartNone(rows: seq<CartRow>, u: string, p: string)
    requires forall k :: 0 <= k < |rows| ==> rows[k].userId != u || rows[k].productId != p
    ensures InCart(rows, u, p) == 0
  {
    if rows != [] { InCartNone(rows[..|rows| - 1], u, p); }
  }

  /** With one row per user and product that row holds the whole quantity. */
  lemma InCartIsRow(t: Table, i: nat)
    requires TableOk(t) && i < |t.rows|
    ensures InCart(t.rows, t.rows[i].userId, t.rows[i].productId) == t.rows[i].quantity
  {
    var row := t.rows[i];
    InCartReplace(t.rows, i, [], row.userId, row.productId);
    var others := t.rows[..i] + [] + t.rows[i + 1..];
    forall k | 0 <= k < |others| ensures others[k].userId != row.userId || others[k].productId != row.productId {
      assert others[k] == if k < i then t.rows[k] else t.rows[k + 1];
    }
    InCartNone(others, row.userId, row.productId);
    assert [row][..0] == [];
  }

  /** Rewriting the quantity of one row. */
  lemma SetQuantity(t: Table, i: nat, quantity: int, u: string, p: string)
    requires TableOk(t) && i < |t.rows|
    ensures InCart(t.rows[i := t.rows[i].(quantity := quantity)], u, p) ==
            if u == t.rows[i].userId && p == t.rows[i].productId then quantity else InCart(t.rows, u, p)
  {
    var row := t.rows[i].(quantity := quantity);
    assert t.rows[i := row] == t.rows[..i] + [row] + t.rows[i + 1..];
    InCartReplace(t.rows, i, [row], u, p);
    InCartIsRow(t, i);
    assert [row][..0] == [] && [t.rows[i]][..0] == [];
  }

  /** Taking one row out. */
  lemma DropRow(t: Table, i: nat, u: string, p: string)
    requires TableOk(t) && i < |t.rows|
    ensures InCart(t.rows[..i] + t.rows[i + 1..], u, p) ==
            if u == t.rows[i].userId && p == t.rows[i].productId then 0 else InCart(t.rows, u, p)
  {
    var row, others := t.rows[i], t.rows[..i] + t.rows[i + 1..];
    assert t.rows[..i] + [] + t.rows[i + 1..] == others;
    InCartReplace(t.rows, i, [], u, p);
    InCartIsRow(t, i);
    assert InCart([row], u, p) == if u == row.userId && p == row.productId then row.quantity else 0 by {
      assert [row][..0] == [];
    }
  }

  /**
    Adding is accepted exactly when the stock covers what is in the cart already plus what is added,
    so the two checks on the way amount to this one; then that much more is in this cart and nothing
    else has changed.
   */
  lemma AddMeaning(products: Products, t: Table, userId: string, productId: string, quantity: int, u: string, p: string)
    requires TableOk(t)
    ensures var (t', refused) := AddToCart(products, t, userId, productId, quantity);
            && (refused.None? <==>
                quantity >= 1 && productId in products && products[productId].isActive &&
                products[productId].stock >= InCart(t.rows, userId, productId) + quantity)
            && (refused.Some? ==> t' == t)
            && (refused == Some(QuantityTooSmall) <==> quantity < 1)
            && (refused == Some(ProductUnavailable) <==>
                quantity >= 1 && (productId !in products || !products[productId].isActive))
            && refused != Some(RowNotFound) && refused != Some(NotYourCart)
            && (refused.None? ==>
                InCart(t'.rows, u, p) == InCart(t.rows, u, p) + if u == userId && p == productId then quantity else 0)
  {
    var found := FindRow(t.rows, userId, productId);
    if found.Some? {
      InCartIsRow(t, found.value);
      SetQuantity(t, found.value, t.rows[found.value].quantity + quantity, u, p);
    } else {
      InCartNone(t.rows, userId, productId);
      var added := [CartRow(t.nextId, userId, productId, quantity)];
      InCartConcat(t.rows, added, u, p);
      assert added[..0] == [];
    }
  }

  /** Row `id` of the table belongs to user `u`. */
  predicate Owns(rows: seq<CartRow>, i: nat, id: nat, u: string) {
    i < |rows| && rows[i].id == id && rows[i].userId == u
  }

  /**
    Updating is accepted exactly for an id that names a row of one's own whose new quantity is in stock, and
    sets that product's quantity; otherwise, an id that names no row included, nothing changes.
   */
  lemma UpdateMeaning(products: Products, t: Table, userId: string, id: nat, quantity: int, u: string, p: string)
    requires TableOk(t)
    ensures var (t', refused) := UpdateCartItem(products, t, userId, id, quantity);
            && (refused.None? <==>
                quantity >= 1 &&
                exists i: nat :: Owns(t.rows, i, id, userId) && CheckStock(products, t.rows[i].productId, quantity))
            && (refused.Some? ==> t' == t)
            && (refused == Some(QuantityTooSmall) <==> quantity < 1)
            && (refused == Some(RowNotFound) <==> quantity >= 1 && forall i :: 0 <= i < |t.rows| ==> t.rows[i].id != id)
            && (refused == Some(NotYourCart) ==> forall i: nat :: !Owns(t.rows, i, id, userId))
            && (refused == Some(NotEnoughStock) ==> exists i: nat :: Owns(t.rows, i, id, userId))
            && refused != Some(ProductUnavailable)
            && (refused.None? ==> forall i: nat :: Owns(t.rows, i, id, userId) ==>
                  InCart(t'.rows, u, p) ==
                  if u == userId && p == t.rows[i].productId then quantity else InCart(t.rows, u, p))
  {
    var found := FindRowById(t.rows, id);
    if found.Some? {
      SetQuantity(t, found.value, quantity, u, p);
      assert forall i: nat :: Owns(t.rows, i, id, userId) ==> i == found.value;
      assert t.rows[found.value].userId == userId ==> Owns(t.rows, found.value, id, userId);
    }
  }

  /**
    Removing is accepted exactly for an id that names a row of one's own, and leaves nothing of that product
    in the cart; otherwise, an id that names no row included, nothing changes.
   */
  lemma RemoveMeaning(t: Table, userId: string, id: nat, u: string, p: string)
    requires TableOk(t)
    ensures var (t', refused) := RemoveFromCart(t, userId, id);
            && (refused.None? <==> exists i: nat :: Owns(t.rows, i, id, userId))
            && (refused.Some? ==> t' == t)
            && (refused == Some(RowNotFound) <==> forall i :: 0 <= i < |t.rows| ==> t.rows[i].id != id)
            && (refused.Some? ==> refused == Some(RowNotFound) || refused == Some(NotYourCart))
            && (refused.None? ==> forall i: nat :: Owns(t.rows, i, id, userId) ==>
                  InCart(t'.rows, u, p) ==
                  if u == userId && p == t.rows[i].productId then 0 else InCart(t.rows, u, p))
  {
    var found := FindRowById(t.rows, id);
    if found.Some? {
      DropRow(t, found.value, u, p);
      assert forall i: nat :: Owns(t.rows, i, id, userId) ==> i == found.value;
      assert t.rows[found.value].userId == userId ==> Owns(t.rows, found.value, id, userId);
    }
  }

  // ---------- from cart to order ----------

  function ItemsOf(rows: seq<CartRow>): (r: seq<Item>)
    ensures |r| == |rows|
    ensures forall i :: 0 <= i < |rows| ==> r[i] == Item(rows[i].productId, rows[i].quantity)
  {
    seq(|rows|, (i: nat) requires i < |rows| => Item(rows[i].productId, rows[i].quantity))
  }

  /** The rows of one user name every product at most once, each with a positive quantity. */
  lemma CartItemsDistinct(t: Table, userId: string)
    requires TableOk(t)
    ensures DistinctProducts(ItemsOf(RowsOf(t.rows, userId)))
    ensures forall i :: 0 <= i < |RowsOf(t.rows, userId)| ==> ItemsOf(RowsOf(t.rows, userId))[i].quantity >= 1
  {
    var mine, _ := FiltersAreSubsequences(t.rows, userId);
  }

  ghost predicate RowsKnown(products: Products, rows: seq<CartRow>) {
    forall i :: 0 <= i < |rows| ==> rows[i].productId in products
  }

  /** The two `reduce` sums of `getCart`. */
  function CartSubtotal(products: Products, rows: seq<CartRow>): int
    requires RowsKnown(products, rows)
  {
    if rows == [] then 0
    else
      var row := rows[|rows| - 1];
      CartSubtotal(products, rows[..|rows| - 1]) + products[row.productId].price * row.quantity
  }

  function CartDiscount(products: Products, rows: seq<CartRow>): real
    requires RowsKnown(products, rows)
  {
    if rows == [] then 0.0
    else
      var row := rows[|rows| - 1];
      var discountAmount := (products[row.productId].price as real * products[row.productId].discount) / 100.0;
      CartDiscount(products, rows[..|rows| - 1]) + discountAmount * row.quantity as real
  }

  /** What the cart showed is what the order charges. */
  lemma {:induction false} CartShowsWhatIsCharged(products: Products, rows: seq<CartRow>)
    requires Price(products, ItemsOf(rows)).Success?
    ensures RowsKnown(products, rows)
    ensures Subtotal(Price(products, ItemsOf(rows)).value) == CartSubtotal(products, rows)
    ensures Discount(Price(products, ItemsOf(rows)).value) == CartDiscount(products, rows)
  {
    if rows != [] {
      var n := |rows| - 1;
      assert ItemsOf(rows)[..n] == ItemsOf(rows[..n]);
      CartShowsWhatIsCharged(products, rows[..n]);
      var lines := Price(products, ItemsOf(rows)).value;
      assert lines[..n] == Price(products, ItemsOf(rows[..n])).value;
    }
  }

  /** An order made from cart rows stores what the cart showed: subtotal, rounded discount, and the total. */
  lemma CartOrderCharges(db: Db, rows: seq<CartRow>, payMethod: PaymentMethod, today: Date, createdOn: Date)
    requires CreateOrder(db, true, ItemsOf(rows), payMethod, today, createdOn).1.Success?
    ensures RowsKnown(db.products, rows)
    ensures var orders := CreateOrder(db, true, ItemsOf(rows), payMethod, today, createdOn).0.orders;
            && |orders| == |db.orders| + 1
            && orders[|db.orders|].subtotal == CartSubtotal(db.products, rows)
            && orders[|db.orders|].discount == Round(CartDiscount(db.products, rows))
            && orders[|db.orders|].totalPrice as real ==
               CartSubtotal(db.products, rows) as real - CartDiscount(db.products, rows)
  {
    CartShowsWhatIsCharged(db.products, rows);
    CreateEffect(db, ItemsOf(rows), payMethod, today, createdOn);
  }
}
