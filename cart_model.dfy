/**
 * What the cart endpoints do to the tables, as functions of the tables
 * before the call, and the properties those functions have.
 */
module CartModel {
  import opened Store

  /** `quantity > 1 ? quantity : 1`; an absent or non-numeric quantity compares false. */
  function Clamp(quantity: Option<int>): (q: int)
    ensures q >= 1
    ensures quantity.Some? && quantity.value >= 1 ==> q == quantity.value
    ensures quantity.None? ==> q == 1
    ensures quantity.Some? && quantity.value < 1 ==> q == 1
  {
    if quantity.Some? && quantity.value > 1 then quantity.value else 1
  }

  /**
   * The spell condition of addToCart's where clause. `if (spellId)` tests
   * JavaScript truthiness, so an absent spellId and a spellId of 0 add none.
   */
  function SpellCondition(spellId: Option<int>): Option<int> {
    if spellId.Some? && spellId.value != 0 then spellId else None
  }

  /** The where clause of addToCart's findOrCreate on a given cart. */
  function LineWhere(cartId: int, productId: int, spellId: Option<int>): Where {
    Where(cartId, Some(productId), SpellCondition(spellId))
  }

  /** The cart addToCart works on: the user's cart, or the one it creates. */
  function CartFor(t: Tables, newCartId: int, userId: int): int {
    if userId in t.carts then t.carts[userId] else newCartId
  }

  /**
   * addToCart: find the user's cart or create it with the next cart id, then
   * findOrCreate the line under LineWhere with the clamped quantity as
   * default; on a cart that already existed, a line that was found has its
   * quantity overwritten with the clamped one.
   */
  function AddedToCart(t: Tables, newCartId: int, newItemId: int, userId: int, productId: int,
                       quantity: Option<int>, spellId: Option<int>): (r: Tables)
    ensures userId in r.carts && r.carts.Keys == t.carts.Keys + {userId}
    ensures r.products == t.products && r.orders == t.orders && r.orderItems == t.orderItems
  {
    var cartId := CartFor(t, newCartId, userId);
    var created := CartItem(newItemId, cartId, productId, SpellCondition(spellId), Clamp(quantity));
    match FindFirst(t.cartItems, LineWhere(cartId, productId, spellId))
    case None =>
      t.(carts := t.carts[userId := cartId], cartItems := t.cartItems + [created])
    case Some(i) =>
      if userId in t.carts then t.(cartItems := t.cartItems[i := t.cartItems[i].(quantity := Clamp(quantity))])
      else t.(carts := t.carts[userId := cartId])
  }

  /**
   * After addToCart the user has a cart (a new one only if there was none),
   * the line its key selects holds the clamped quantity, at most one line
   * was added, and every other line and table is as it was.
   */
  lemma AddToCartUpserts(t: Tables, newCartId: int, newItemId: int, userId: int, productId: int,
                         quantity: Option<int>, spellId: Option<int>)
    requires FreshCartId(t, newCartId)
    ensures var r := AddedToCart(t, newCartId, newItemId, userId, productId, quantity, spellId);
            var found := FindFirst(t.cartItems, LineWhere(CartFor(t, newCartId, userId), productId, spellId));
      && userId in r.carts
      && r.carts == (if userId in t.carts then t.carts else t.carts[userId := newCartId])
      && (userId !in t.carts ==> found.None?)
      && (var k := FindFirst(r.cartItems, LineWhere(r.carts[userId], productId, spellId));
          k.Some? && r.cartItems[k.value].quantity == Clamp(quantity) >= 1)
      && |r.cartItems| == |t.cartItems| + (if found.None? then 1 else 0)
      && (found.Some? ==> r.cartItems[found.value] == t.cartItems[found.value].(quantity := Clamp(quantity)))
      && (found.None? ==>
            r.cartItems[|t.cartItems|] == CartItem(newItemId, r.carts[userId], productId, SpellCondition(spellId), Clamp(quantity)))
      && (forall j :: 0 <= j < |t.cartItems| && found != Some(j) ==> r.cartItems[j] == t.cartItems[j])
      && r.products == t.products && r.orders == t.orders && r.orderItems == t.orderItems
  {
    var cartId := CartFor(t, newCartId, userId);
    var w := LineWhere(cartId, productId, spellId);
    var r := AddedToCart(t, newCartId, newItemId, userId, productId, quantity, spellId);
    var found := FindFirst(t.cartItems, w);
    match found
    case None =>
      FindFirstIs(r.cartItems, w, |t.cartItems|);
    case Some(i) =>
      FindFirstIs(r.cartItems, w, i);
  }

  /** Repeating the same addToCart call leaves the tables as the first call left them. */
  lemma AddToCartIdempotent(t: Tables, newCartId: int, newItemId: int, laterCartId: int, laterItemId: int,
                            userId: int, productId: int, quantity: Option<int>, spellId: Option<int>)
    requires FreshCartId(t, newCartId)
    ensures var r := AddedToCart(t, newCartId, newItemId, userId, productId, quantity, spellId);
            AddedToCart(r, laterCartId, laterItemId, userId, productId, quantity, spellId) == r
  {
    var r := AddedToCart(t, newCartId, newItemId, userId, productId, quantity, spellId);
    AddToCartUpserts(t, newCartId, newItemId, userId, productId, quantity, spellId);
    var k := FindFirst(r.cartItems, LineWhere(r.carts[userId], productId, spellId)).value;
    assert r.cartItems[k := r.cartItems[k].(quantity := Clamp(quantity))] == r.cartItems;
  }

  /**
   * addToCart keeps the tables well formed; it uses up a cart id only when
   * it creates a cart, and a line id only when it creates a line.
   */
  lemma AddToCartWellFormed(t: Tables, newCartId: int, newItemId: int, nextOrderId: int, userId: int,
                            productId: int, quantity: Option<int>, spellId: Option<int>)
    requires WellFormed(t, newCartId, newItemId, nextOrderId)
    ensures var r := AddedToCart(t, newCartId, newItemId, userId, productId, quantity, spellId);
            WellFormed(r, if userId in t.carts then newCartId else newCartId + 1,
                       newItemId + (|r.cartItems| - |t.cartItems|), nextOrderId)
  {
    var r := AddedToCart(t, newCartId, newItemId, userId, productId, quantity, spellId);
    var cartId := CartFor(t, newCartId, userId);
    var w := LineWhere(cartId, productId, spellId);
    match FindFirst(t.cartItems, w)
    case None =>
      var created := CartItem(newItemId, cartId, productId, SpellCondition(spellId), Clamp(quantity));
      forall x | x in t.cartItems ensures LineKey(x) != LineKey(created) {
        assert !Matches(x, w);
      }
      AppendKeepsLinesUnique(t.cartItems, created);
    case Some(i) =>
      if userId in t.carts {
        SetQuantityKeepsLinesUnique(t.cartItems, i, Clamp(quantity));
      }
  }

  /**
   * reduceQuantity: the first line of the cart with that product, whatever its
   * spell, gets exactly the given quantity. When there is none, `item` is null,
   * the assignment throws and the reply is 500 (None here).
   */
  function QuantityReduced(t: Tables, cartId: int, quantity: int, productId: int): (r: Option<Tables>)
    ensures r.Some? ==> r.value.carts == t.carts && |r.value.cartItems| == |t.cartItems|
    ensures r.Some? ==> r.value.products == t.products && r.value.orders == t.orders && r.value.orderItems == t.orderItems
  {
    match FindFirst(t.cartItems, Where(cartId, Some(productId), None))
    case None => None
    case Some(i) => Some(t.(cartItems := t.cartItems[i := t.cartItems[i].(quantity := quantity)]))
  }

  /**
   * reduceQuantity fails exactly when no line of the cart has the product;
   * otherwise it sets that line's quantity to the given value, unclamped,
   * and changes nothing else.
   */
  lemma ReduceQuantityOverwrites(t: Tables, cartId: int, quantity: int, productId: int)
    ensures var r := QuantityReduced(t, cartId, quantity, productId);
            var w := Where(cartId, Some(productId), None);
      && (r.None? <==> forall x :: x in t.cartItems ==> !Matches(x, w))
      && (r.Some? ==>
            var k := FindFirst(t.cartItems, w).value;
            && r.value == t.(cartItems := r.value.cartItems)
            && |r.value.cartItems| == |t.cartItems|
            && r.value.cartItems[k] == t.cartItems[k].(quantity := quantity)
            && (forall j :: 0 <= j < |t.cartItems| && j != k ==> r.value.cartItems[j] == t.cartItems[j]))
  {
    var w := Where(cartId, Some(productId), None);
    var found := FindFirst(t.cartItems, w);
    if found.Some? {
      assert t.cartItems[found.value] in t.cartItems;
    }
  }

  /** Repeating the same reduceQuantity call changes nothing more. */
  lemma ReduceQuantityIdempotent(t: Tables, cartId: int, quantity: int, productId: int)
    ensures var r := QuantityReduced(t, cartId, quantity, productId);
            r.Some? ==> QuantityReduced(r.value, cartId, quantity, productId) == r
  {
    var w := Where(cartId, Some(productId), None);
    var r := QuantityReduced(t, cartId, quantity, productId);
    if r.Some? {
      var k := FindFirst(t.cartItems, w).value;
      FindFirstIs(r.value.cartItems, w, k);
      assert r.value.cartItems[k := r.value.cartItems[k].(quantity := quantity)] == r.value.cartItems;
    }
  }

  /** reduceQuantity keeps the tables well formed. */
  lemma ReduceQuantityWellFormed(t: Tables, nextCartId: int, nextItemId: int, nextOrderId: int,
                                 cartId: int, quantity: int, productId: int)
    requires WellFormed(t, nextCartId, nextItemId, nextOrderId)
    ensures var r := QuantityReduced(t, cartId, quantity, productId);
            r.Some? ==> WellFormed(r.value, nextCartId, nextItemId, nextOrderId)
  {
    var r := QuantityReduced(t, cartId, quantity, productId);
    if r.Some? {
      var k := FindFirst(t.cartItems, Where(cartId, Some(productId), None)).value;
      SetQuantityKeepsLinesUnique(t.cartItems, k, quantity);
      forall x | x in r.value.cartItems ensures x.cartId < nextCartId && x.itemId < nextItemId {
        var j :| 0 <= j < |r.value.cartItems| && r.value.cartItems[j] == x;
        assert t.cartItems[j] in t.cartItems;
      }
    }
  }

  /** `Cart.destroy({where: {cartId}})`: the cart with that id goes, whoever owns it. */
  function DestroyCart(carts: map<int, int>, cartId: int): (r: map<int, int>)
    ensures forall u :: u in r <==> u in carts && carts[u] != cartId
    ensures forall u :: u in r ==> r[u] == carts[u]
  {
    map u | u in carts && carts[u] != cartId :: carts[u]
  }

  /**
   * removeFromCart: delete the cart's lines of the product, whatever their
   * spell, then count the cart's lines and delete the cart when none remain.
   */
  function RemovedFromCart(t: Tables, cartId: int, productId: int): (r: Tables)
    ensures r.carts.Keys <= t.carts.Keys && |r.cartItems| <= |t.cartItems|
    ensures r.products == t.products && r.orders == t.orders && r.orderItems == t.orderItems
  {
    var items := Destroy(t.cartItems, Where(cartId, Some(productId), None));
    if Count(items, Where(cartId, None, None)) == 0 then t.(cartItems := items, carts := DestroyCart(t.carts, cartId))
    else t.(cartItems := items)
  }

  /**
   * After removeFromCart no line of the cart has the product, every other
   * line is kept, the cart survives if and only if it still has a line, and
   * every other cart is untouched.
   */
  lemma RemoveFromCartDeletes(t: Tables, cartId: int, productId: int)
    ensures var r := RemovedFromCart(t, cartId, productId);
      && (forall x :: x in r.cartItems <==> x in t.cartItems && !(x.cartId == cartId && x.productId == productId))
      && (cartId in r.carts.Values <==> cartId in t.carts.Values && exists x :: x in r.cartItems && x.cartId == cartId)
      && (forall u :: u in t.carts && t.carts[u] != cartId ==> u in r.carts && r.carts[u] == t.carts[u])
      && (forall u :: u in r.carts ==> u in t.carts)
      && r.products == t.products && r.orders == t.orders && r.orderItems == t.orderItems
  {
    var r := RemovedFromCart(t, cartId, productId);
    var items := Destroy(t.cartItems, Where(cartId, Some(productId), None));
    if Count(items, Where(cartId, None, None)) == 0 {
      assert !exists x :: x in r.cartItems && x.cartId == cartId by {
        forall x | x in r.cartItems ensures x.cartId != cartId {
          assert !Matches(x, Where(cartId, None, None));
        }
      }
      assert cartId !in r.carts.Values;
    } else {
      var x :| x in items && Matches(x, Where(cartId, None, None));
      assert x in r.cartItems && x.cartId == cartId;
    }
  }

  /** Repeating the same removeFromCart call changes nothing more. */
  lemma RemoveFromCartIdempotent(t: Tables, cartId: int, productId: int)
    ensures RemovedFromCart(RemovedFromCart(t, cartId, productId), cartId, productId)
         == RemovedFromCart(t, cartId, productId)
  {
    var w := Where(cartId, Some(productId), None);
    var r := RemovedFromCart(t, cartId, productId);
    DestroyIdempotent(t.cartItems, w);
    if Count(r.cartItems, Where(cartId, None, None)) == 0 {
      assert DestroyCart(DestroyCart(t.carts, cartId), cartId) == DestroyCart(t.carts, cartId);
    }
  }

  /** removeFromCart keeps the tables well formed. */
  lemma RemoveFromCartWellFormed(t: Tables, nextCartId: int, nextItemId: int, nextOrderId: int,
                                 cartId: int, productId: int)
    requires WellFormed(t, nextCartId, nextItemId, nextOrderId)
    ensures WellFormed(RemovedFromCart(t, cartId, productId), nextCartId, nextItemId, nextOrderId)
  {
    DestroyKeepsLinesUnique(t.cartItems, Where(cartId, Some(productId), None));
  }

  /**
   * One row of getCart's query: the user's cart LEFT JOINed with its lines,
   * their products, the products' images and the lines' spells. Every column
   * after userId is null when the join found nothing.
   */
  datatype CartViewRow = CartViewRow(
    cartId: int, userId: int,
    itemCartId: Option<int>, quantity: Option<int>,
    productId: Option<int>, productName: Option<string>, productPrice: Option<int>,
    imageURL: Option<string>,
    spellId: Option<int>, spellName: Option<string>)

  datatype ViewProduct = ViewProduct(productId: Option<int>, name: Option<string>, price: Option<int>, images: seq<Option<string>>)
  datatype ViewSpell = ViewSpell(spellId: Option<int>, name: Option<string>)

  /** One entry of a group's `cartitems` in getCart's reply. */
  datatype ViewItem = ViewItem(cartId: int, product: ViewProduct, quantity: Option<int>, spell: ViewSpell)

  /** One group of getCart's reply: a cart and its entries. */
  datatype ViewCart = ViewCart(cartId: int, userId: int, cartitems: seq<ViewItem>)

  /** getCart's reply: 404 when the query returned no row, otherwise 200 with the groups. */
  datatype CartView = CartNotFoundForUser | CartFound(carts: seq<ViewCart>)
  {
    function Status(): int {
      if CartNotFoundForUser? then 404 else 200
    }
  }

  /** The entry a row contributes: its product, a one-image list, its quantity and its spell. */
  function Nested(row: CartViewRow): ViewItem {
    ViewItem(row.cartId,
             ViewProduct(row.productId, row.productName, row.productPrice, [row.imageURL]),
             row.quantity,
             ViewSpell(row.spellId, row.spellName))
  }

  function NestedAll(rows: seq<CartViewRow>): seq<ViewItem> {
    seq(|rows|, i requires 0 <= i < |rows| => Nested(rows[i]))
  }

  /**
   * `acc.find(cartItem => cartItem.cartId === item['cartitems.cartId'])`: the
   * first group whose cart id equals the row's line cart id; a null line cart
   * id equals no group's.
   */
  function FindGroup(acc: seq<ViewCart>, key: Option<int>): (r: Option<nat>)
    ensures r.Some? ==> r.value < |acc| && key == Some(acc[r.value].cartId)
    ensures r.Some? ==> forall j :: 0 <= j < r.value ==> key != Some(acc[j].cartId)
    ensures r.None? ==> forall j :: 0 <= j < |acc| ==> key != Some(acc[j].cartId)
  {
    if |acc| == 0 then None
    else if key == Some(acc[0].cartId) then Some(0)
    else match FindGroup(acc[1..], key)
      case None => None
      case Some(k) => Some(k + 1)
  }

  /** One step of the reduce: push the row's entry into the group found, or open a new group for it. */
  function AddRow(acc: seq<ViewCart>, row: CartViewRow): (r: seq<ViewCart>)
    ensures |acc| <= |r| <= |acc| + 1
    ensures EntryCount(r) == EntryCount(acc) + 1
  {
    match FindGroup(acc, row.itemCartId)
    case Some(k) =>
      var grown := acc[k].(cartitems := acc[k].cartitems + [Nested(row)]);
      EntryCountUpdate(acc, k, grown);
      acc[k := grown]
    case None =>
      var group := ViewCart(row.cartId, row.userId, [Nested(row)]);
      assert (acc + [group])[..|acc|] == acc;
      acc + [group]
  }

  /** The reduce over the rows, in row order, from an empty accumulator. */
  function Grouped(rows: seq<CartViewRow>): (r: seq<ViewCart>)
    ensures |r| <= |rows|
    ensures |r| == 0 <==> |rows| == 0
  {
    if |rows| == 0 then [] else AddRow(Grouped(rows[..|rows| - 1]), rows[|rows| - 1])
  }

  /** The number of entries over all groups. */
  function EntryCount(groups: seq<ViewCart>): nat {
    if |groups| == 0 then 0 else EntryCount(groups[..|groups| - 1]) + |groups[|groups| - 1].cartitems|
  }

  lemma {:induction false} EntryCountUpdate(groups: seq<ViewCart>, k: nat, g: ViewCart)
    requires k < |groups|
    ensures EntryCount(groups[k := g]) == EntryCount(groups) - |groups[k].cartitems| + |g.cartitems|
  {
    var n := |groups|;
    if k == n - 1 {
      assert groups[k := g][..n - 1] == groups[..n - 1];
    } else {
      EntryCountUpdate(groups[..n - 1], k, g);
      assert groups[k := g][..n - 1] == groups[..n - 1][k := g];
    }
  }

  /** The reduce adds one entry per row, so the entries over all groups number the rows. */
  lemma {:induction false} GroupedKeepsEveryRow(rows: seq<CartViewRow>)
    ensures EntryCount(Grouped(rows)) == |rows|
  {
    if |rows| > 0 {
      GroupedKeepsEveryRow(rows[..|rows| - 1]);
    }
  }

  /**
   * When every row is a line of the same cart of the same user, the reply is
   * that one cart with one entry per row, in row order.
   */
  lemma {:induction false} GroupedOneCart(rows: seq<CartViewRow>, cartId: int, userId: int)
    requires |rows| > 0
    requires forall i :: 0 <= i < |rows| ==>
               rows[i].cartId == cartId && rows[i].userId == userId && rows[i].itemCartId == Some(cartId)
    ensures Grouped(rows) == [ViewCart(cartId, userId, NestedAll(rows))]
  {
    var n := |rows|;
    if n == 1 {
      assert NestedAll(rows) == [Nested(rows[0])];
    } else {
      var prefix := rows[..n - 1];
      GroupedOneCart(prefix, cartId, userId);
      assert NestedAll(rows) == NestedAll(prefix) + [Nested(rows[n - 1])];
    }
  }
}
