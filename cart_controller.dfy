/**
 * The cart endpoints as methods on the database. Each does the reads and
 * writes of its handler in the handler's order and is proved to leave the
 * tables as the matching function of CartModel says.
 */
module CartController {
  import opened Store
  import opened CartModel

  /**
   * addToCart: find the user's cart or create it, findOrCreate the line with
   * the clamped quantity and, on a cart that already existed, overwrite the
   * quantity of a line that was found.
   */
  method AddToCart(db: Db, userId: int, productId: int, quantity: Option<int>, spellId: Option<int>)
    returns (reply: Reply)
    requires db.Valid()
    modifies db
    ensures db.Valid()
    ensures db.Contents()
         == AddedToCart(old(db.Contents()), old(db.nextCartId), old(db.nextItemId), userId, productId, quantity, spellId)
    ensures db.nextCartId == old(db.nextCartId) + (if userId in old(db.carts) then 0 else 1)
    ensures db.nextItemId == old(db.nextItemId) + (|db.cartItems| - |old(db.cartItems)|)
    ensures db.nextOrderId == old(db.nextOrderId)
    ensures reply == Reply(200, "Added to cart")
  {
    ghost var before := db.Contents();
    AddToCartWellFormed(before, db.nextCartId, db.nextItemId, db.nextOrderId, userId, productId, quantity, spellId);
    AddToCartUpserts(before, db.nextCartId, db.nextItemId, userId, productId, quantity, spellId);
    var spell := SpellCondition(spellId);
    var q := Clamp(quantity);
    if userId !in db.carts {
      // Cart.create draws the next cart id.
      var cartId := db.nextCartId;
      db.nextCartId := db.nextCartId + 1;
      db.carts := db.carts[userId := cartId];
      var found := FindFirst(db.cartItems, Where(cartId, Some(productId), spell));
      if found.None? {
        db.cartItems := db.cartItems + [CartItem(db.nextItemId, cartId, productId, spell, q)];
        db.nextItemId := db.nextItemId + 1;
      }
    } else {
      var cartId := db.carts[userId];
      var found := FindFirst(db.cartItems, Where(cartId, Some(productId), spell));
      if found.None? {
        db.cartItems := db.cartItems + [CartItem(db.nextItemId, cartId, productId, spell, q)];
        db.nextItemId := db.nextItemId + 1;
      } else {
        // The line was not new: cartItem.update({quantity}).
        var i := found.value;
        db.cartItems := db.cartItems[i := db.cartItems[i].(quantity := q)];
      }
    }
    reply := Reply(200, "Added to cart");
  }

  /**
   * reduceQuantity: findOne the cart's line of the product and save the
   * given quantity into it; with no such line the assignment throws and the
   * handler answers 500.
   */
  method ReduceQuantity(db: Db, cartId: int, quantity: int, productId: int) returns (reply: Reply)
    requires db.Valid()
    modifies db
    ensures db.Valid()
    ensures var r := QuantityReduced(old(db.Contents()), cartId, quantity, productId);
            if r.Some? then db.Contents() == r.value && reply == Reply(200, "changed the quantity")
            else db.Contents() == old(db.Contents()) && reply == Reply(500, "Internal Server Error")
    ensures db.nextCartId == old(db.nextCartId) && db.nextItemId == old(db.nextItemId)
    ensures db.nextOrderId == old(db.nextOrderId)
  {
    ReduceQuantityWellFormed(db.Contents(), db.nextCartId, db.nextItemId, db.nextOrderId, cartId, quantity, productId);
    var item := FindFirst(db.cartItems, Where(cartId, Some(productId), None));
    if item.None? {
      return Reply(500, "Internal Server Error");
    }
    var i := item.value;
    db.cartItems := db.cartItems[i := db.cartItems[i].(quantity := quantity)];
    reply := Reply(200, "changed the quantity");
  }

  /**
   * removeFromCart: destroy the cart's lines of the product, count the lines
   * left in the cart and destroy the cart when the count is 0.
   */
  method RemoveFromCart(db: Db, cartId: int, productId: int) returns (reply: Reply)
    requires db.Valid()
    modifies db
    ensures db.Valid()
    ensures db.Contents() == RemovedFromCart(old(db.Contents()), cartId, productId)
    ensures db.nextCartId == old(db.nextCartId) && db.nextItemId == old(db.nextItemId)
    ensures db.nextOrderId == old(db.nextOrderId)
    ensures reply == Reply(200, "item removed from cart")
  {
    RemoveFromCartWellFormed(db.Contents(), db.nextCartId, db.nextItemId, db.nextOrderId, cartId, productId);
    db.cartItems := Destroy(db.cartItems, Where(cartId, Some(productId), None));
    var cnt := Count(db.cartItems, Where(cartId, None, None));
    if cnt == 0 {
      db.carts := DestroyCart(db.carts, cartId);
    }
    reply := Reply(200, "item removed from cart");
  }

  /**
   * getCart: 404 when the query returned no row; otherwise the rows folded
   * into groups, each row's entry pushed onto the group found for it or onto
   * a new group.
   */
  method GetCart(rows: seq<CartViewRow>) returns (reply: CartView)
    ensures reply.CartNotFoundForUser? <==> |rows| == 0
    ensures reply.Status() == 404 <==> |rows| == 0
    ensures reply.CartFound? ==> reply.carts == Grouped(rows) && EntryCount(reply.carts) == |rows|
  {
    if |rows| == 0 {
      return CartNotFoundForUser;
    }
    var acc: seq<ViewCart> := [];
    var i := 0;
    while i < |rows|
      invariant 0 <= i <= |rows|
      invariant acc == Grouped(rows[..i])
    {
      var item := rows[i];
      assert rows[..i + 1][..i] == rows[..i];
      assert Grouped(rows[..i + 1]) == AddRow(acc, item);
      var existing := FindGroup(acc, item.itemCartId);
      if existing.Some? {
        var k := existing.value;
        acc := acc[k := acc[k].(cartitems := acc[k].cartitems + [Nested(item)])];
      } else {
        acc := acc + [ViewCart(item.cartId, item.userId, [Nested(item)])];
      }
      i := i + 1;
    }
    assert rows[..i] == rows;
    GroupedKeepsEveryRow(rows);
    reply := CartFound(acc);
  }
}
