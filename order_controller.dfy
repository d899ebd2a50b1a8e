/**
 * The checkout endpoint as a method on the database. Its writes go to the
 * transaction's own copies of the tables; only the commit at the end puts
 * them into the database.
 */
module OrderController {
  import opened Store
  import opened OrderModel

  /**
   * The loop of addOrder: for each row in order, re-read the product, stop
   * at the first row whose product is missing or whose snapshot stock is
   * below the line's quantity, otherwise set the stock in the transaction,
   * write the order line and push the payment entry. None is the early
   * 400 return.
   */
  method ReserveLines(db: Db, orderId: int, cartRows: seq<CartRow>) returns (r: Option<Assembly>)
    ensures r == Assemble(db.products, orderId, cartRows)
  {
    var txProducts := db.products;
    var txOrderItems: seq<OrderItem> := [];
    var lineItems: seq<LineItem> := [];
    var i := 0;
    while i < |cartRows|
      invariant 0 <= i <= |cartRows|
      invariant Assemble(db.products, orderId, cartRows[..i]) == Some(Assembly(txProducts, txOrderItems, lineItems))
    {
      var item := cartRows[i];
      // findByPk is not bound to the transaction: it reads the committed row.
      var product: Option<Product> :=
        if item.product.Some? && item.product.value.productId in db.products
        then Some(db.products[item.product.value.productId]) else None;
      assert cartRows[..i + 1][..i] == cartRows[..i];
      if product.None? || item.product.value.quantity < item.quantity {
        assert !Passes(db.products, cartRows[i]);
        return None;
      }
      var snap := item.product.value;
      txProducts := SetStock(txProducts, snap.productId, snap.quantity - item.quantity);
      txOrderItems := txOrderItems + [OrderItem(orderId, snap.productId, item.quantity, snap.price, item.spellId)];
      lineItems := lineItems + [PaymentLine(item.quantity, product.value)];
      i := i + 1;
    }
    assert cartRows[..i] == cartRows;
    r := Some(Assembly(txProducts, txOrderItems, lineItems));
  }

  /**
   * addOrder: look up the user's cart, create the order, walk the rows of
   * the cart query reserving stock and writing order lines, ask the gateway
   * for a session, record its id, destroy the cart and commit. `cartRows`
   * is what the cart query returned; `createSession` is the gateway, None
   * standing for a call that throws.
   */
  method AddOrder(db: Db, userId: int, cartRows: seq<CartRow>,
                  createSession: (seq<LineItem>, int) -> Option<Session>)
    returns (reply: CheckoutReply)
    requires db.Valid()
    modifies db
    ensures db.Valid()
    ensures var out := Checkout(old(db.Contents()), userId, cartRows, old(db.nextOrderId), createSession);
            db.Contents() == out.tables && reply == out.reply
    ensures db.nextOrderId == old(db.nextOrderId) + (if userId in old(db.carts) then 1 else 0)
    ensures db.nextCartId == old(db.nextCartId) && db.nextItemId == old(db.nextItemId)
  {
    var committed := db.Contents();
    ghost var out := Checkout(committed, userId, cartRows, db.nextOrderId, createSession);
    CheckoutWellFormed(committed, db.nextCartId, db.nextItemId, userId, cartRows, db.nextOrderId, createSession);
    if userId !in db.carts {
      assert out == Outcome(committed, CartNotFound);
      return CartNotFound;
    }
    var cartId := db.carts[userId];

    // Order.create draws the order id; its row stays in the transaction until the commit.
    var orderId := db.nextOrderId;
    db.nextOrderId := db.nextOrderId + 1;

    var assembled := ReserveLines(db, orderId, cartRows);
    if assembled.None? {
      assert out == Outcome(committed, InsufficientQuantity);
      return InsufficientQuantity;
    }
    var session := createSession(assembled.value.lineItems, orderId);
    if session.None? {
      assert out == Outcome(committed, InternalServerError);
      return InternalServerError;
    }
    // Order.update records the session id and Cart.destroy drops the cart, in the transaction.
    var tx := Tables(assembled.value.products, committed.carts - {userId},
                     Destroy(committed.cartItems, Where(cartId, None, None)),
                     committed.orders[orderId := Order(userId, Some(session.value.id))],
                     committed.orderItems + assembled.value.orderItems);
    assert out == Outcome(tx, OrderPlaced(session.value.url, orderId));

    // t.commit()
    db.products, db.carts, db.cartItems, db.orders, db.orderItems :=
      tx.products, tx.carts, tx.cartItems, tx.orders, tx.orderItems;
    reply := OrderPlaced(session.value.url, orderId);
  }
}
