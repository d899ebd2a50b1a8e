/**
 * Checkout (addOrder) as a function of the committed tables, the rows of
 * the cart query and the payment gateway, and what it promises.
 */
module OrderModel {
  import opened Store

  /** The product columns of a cart-query row; all null when the LEFT JOIN found no product. */
  datatype ProductSnapshot = ProductSnapshot(productId: int, name: string, quantity: int, price: int)

  /** One row of the checkout's cart query: a cart line and its product as the transaction read it. */
  datatype CartRow = CartRow(itemId: int, cartId: int, quantity: int, product: Option<ProductSnapshot>, spellId: Option<int>)

  /** One entry of the payment list handed to the gateway. */
  datatype LineItem = LineItem(quantity: int, currency: string, productName: string, taxBehavior: string,
                               unitAmountDecimal: int)

  /** What the gateway returns for a session it created: the redirect url and the session id. */
  datatype Session = Session(url: string, id: string)

  /** addOrder's replies. */
  datatype CheckoutReply =
    | CartNotFound
    | InsufficientQuantity
    | InternalServerError
    | OrderPlaced(url: string, orderId: int)
  {
    function Status(): int {
      match this
      case CartNotFound => 404
      case InsufficientQuantity => 400
      case InternalServerError => 500
      case OrderPlaced(_, _) => 200
    }

    function Message(): string {
      match this
      case CartNotFound => "cart not found"
      case InsufficientQuantity => "insufficient quantity"
      case InternalServerError => "Internal Server Error"
      case OrderPlaced(_, _) => "order placed"
    }
  }

  /** The payment entry of a line: the cart quantity, and the name and price of the product as re-read. */
  function PaymentLine(quantity: int, product: Product): LineItem {
    LineItem(quantity, "inr", product.name, "inclusive", product.price * 100)
  }

  /**
   * The test at the top of the loop: `!product || item.productquantity <
   * item.quantity` fails the checkout. `product` is the committed row the
   * re-read found (a row whose product the join missed has a null productId,
   * which findByPk answers with null); the stock compared is the snapshot's.
   */
  predicate Passes(committed: map<int, Product>, row: CartRow) {
    && row.product.Some?
    && row.product.value.productId in committed
    && row.quantity <= row.product.value.quantity
  }

  /** The checkout transaction's own writes so far, and the payment list built so far. */
  datatype Assembly = Assembly(products: map<int, Product>, orderItems: seq<OrderItem>, lineItems: seq<LineItem>)

  /** `Product.update({quantity}, {where: {productId}})`. */
  function SetStock(products: map<int, Product>, productId: int, quantity: int): (r: map<int, Product>)
    ensures r.Keys == products.Keys
    ensures productId in products ==> r[productId] == products[productId].(quantity := quantity)
    ensures forall p :: p in products && p != productId ==> r[p] == products[p]
  {
    if productId in products then products[productId := products[productId].(quantity := quantity)] else products
  }

  /**
   * One passing iteration: the stock becomes snapshot stock minus the line's
   * quantity, the order line records the snapshot price, and the payment
   * entry takes the re-read product's name and price.
   */
  function Reserve(committed: map<int, Product>, orderId: int, a: Assembly, row: CartRow): (r: Assembly)
    requires Passes(committed, row)
    ensures r.products.Keys == a.products.Keys
    ensures var p := row.product.value.productId;
            p in a.products ==> r.products[p].quantity == row.product.value.quantity - row.quantity
    ensures |r.orderItems| == |a.orderItems| + 1 && r.orderItems[..|a.orderItems|] == a.orderItems
    ensures |r.lineItems| == |a.lineItems| + 1 && r.lineItems[..|a.lineItems|] == a.lineItems
  {
    var snap := row.product.value;
    Assembly(
      SetStock(a.products, snap.productId, snap.quantity - row.quantity),
      a.orderItems + [OrderLine(orderId, row)],
      a.lineItems + [PaymentLine(row.quantity, committed[snap.productId])])
  }

  /**
   * The loop over the rows in order, starting from the committed stock;
   * None when some row fails the test (the 400 return).
   */
  function Assemble(committed: map<int, Product>, orderId: int, rows: seq<CartRow>): (r: Option<Assembly>)
    ensures r.None? <==> exists i :: 0 <= i < |rows| && !Passes(committed, rows[i])
    ensures r.Some? ==> |r.value.orderItems| == |rows| && |r.value.lineItems| == |rows|
    ensures r.Some? ==> r.value.products.Keys == committed.Keys
  {
    if |rows| == 0 then Some(Assembly(committed, [], []))
    else
      var prefix := Assemble(committed, orderId, rows[..|rows| - 1]);
      var row := rows[|rows| - 1];
      if prefix.None? || !Passes(committed, row) then None
      else Some(Reserve(committed, orderId, prefix.value, row))
  }

  /** The order line checkout writes for a passing row. */
  function OrderLine(orderId: int, row: CartRow): OrderItem
    requires row.product.Some?
  {
    OrderItem(orderId, row.product.value.productId, row.quantity, row.product.value.price, row.spellId)
  }

  /** The payment list of rows that all pass: one entry per row, in row order. */
  function Payments(committed: map<int, Product>, rows: seq<CartRow>): (r: seq<LineItem>)
    requires forall i :: 0 <= i < |rows| ==> Passes(committed, rows[i])
    ensures |r| == |rows|
    ensures forall i :: 0 <= i < |rows| ==>
              && Passes(committed, rows[i])
              && r[i].quantity == rows[i].quantity && r[i].currency == "inr" && r[i].taxBehavior == "inclusive"
              && r[i].productName == committed[rows[i].product.value.productId].name
              && r[i].unitAmountDecimal == committed[rows[i].product.value.productId].price * 100
  {
    seq(|rows|, i requires 0 <= i < |rows| && Passes(committed, rows[i]) =>
      PaymentLine(rows[i].quantity, committed[rows[i].product.value.productId]))
  }

  /**
   * A successful loop writes one order line per row and builds one payment
   * entry per row, in row order: the order line with the snapshot price,
   * the payment entry with the re-read price times 100, currency "inr" and
   * inclusive tax.
   */
  lemma {:induction false} AssembleLines(committed: map<int, Product>, orderId: int, rows: seq<CartRow>)
    requires Assemble(committed, orderId, rows).Some?
    ensures var a := Assemble(committed, orderId, rows).value;
      && (forall i :: 0 <= i < |rows| ==> Passes(committed, rows[i]))
      && (forall i :: 0 <= i < |rows| ==> a.orderItems[i] == OrderLine(orderId, rows[i]))
      && a.lineItems == Payments(committed, rows)
  {
    if |rows| > 0 {
      var n := |rows|;
      var prefix := rows[..n - 1];
      AssembleLines(committed, orderId, prefix);
      var a := Assemble(committed, orderId, rows).value;
      var p := Assemble(committed, orderId, prefix).value;
      assert a.orderItems == p.orderItems + [OrderLine(orderId, rows[n - 1])];
      forall i | 0 <= i < n ensures a.orderItems[i] == OrderLine(orderId, rows[i]) {
        if i < n - 1 {
          assert prefix[i] == rows[i];
        }
      }
      assert Payments(committed, rows) == Payments(committed, prefix) + [PaymentLine(rows[n - 1].quantity, committed[rows[n - 1].product.value.productId])];
    }
  }

  /** The product a row names, if the join found one. */
  function ProductOf(row: CartRow): Option<int> {
    if row.product.Some? then Some(row.product.value.productId) else None
  }

  /** The last row that names the product. */
  function LastRowFor(rows: seq<CartRow>, productId: int): (r: Option<nat>)
    ensures r.Some? ==> r.value < |rows| && ProductOf(rows[r.value]) == Some(productId)
    ensures r.Some? ==> forall j :: r.value < j < |rows| ==> ProductOf(rows[j]) != Some(productId)
    ensures r.None? ==> forall j :: 0 <= j < |rows| ==> ProductOf(rows[j]) != Some(productId)
  {
    if |rows| == 0 then None
    else if ProductOf(rows[|rows| - 1]) == Some(productId) then Some(|rows| - 1)
    else LastRowFor(rows[..|rows| - 1], productId)
  }

  /**
   * After a successful loop a product no row names keeps its committed row;
   * a product some rows name has its committed row with the stock set to
   * the LAST such row's snapshot stock minus that row's quantity, which the
   * test makes non-negative. Earlier rows of the same product leave no trace
   * in the stock: the decrements do not add up.
   */
  lemma {:induction false} AssembleSetsStock(committed: map<int, Product>, orderId: int, rows: seq<CartRow>)
    requires Assemble(committed, orderId, rows).Some?
    ensures var a := Assemble(committed, orderId, rows).value;
      forall p :: p in committed ==>
           a.products[p] == match LastRowFor(rows, p)
                            case None => committed[p]
                            case Some(i) => committed[p].(quantity := rows[i].product.value.quantity - rows[i].quantity)
  {
    if |rows| > 0 {
      var n := |rows|;
      var prefix := rows[..n - 1];
      AssembleSetsStock(committed, orderId, prefix);
      forall p | p in committed
        ensures LastRowFor(rows, p) == (if ProductOf(rows[n - 1]) == Some(p) then Some(n - 1) else LastRowFor(prefix, p))
      {
      }
    }
  }

  /** Stock stays non-negative through a successful loop. */
  lemma StockStaysNonNegative(committed: map<int, Product>, orderId: int, rows: seq<CartRow>)
    requires Assemble(committed, orderId, rows).Some?
    requires forall p :: p in committed ==> committed[p].quantity >= 0
    ensures var a := Assemble(committed, orderId, rows).value;
            forall p :: p in a.products ==> a.products[p].quantity >= 0
  {
    AssembleSetsStock(committed, orderId, rows);
    var a := Assemble(committed, orderId, rows).value;
    forall p | p in a.products ensures a.products[p].quantity >= 0 {
      match LastRowFor(rows, p)
      case None =>
      case Some(i) =>
        assert Passes(committed, rows[i]);
    }
  }

  /** The committed tables and the reply after one checkout. */
  datatype Outcome = Outcome(tables: Tables, reply: CheckoutReply)

  /**
   * addOrder for the user, given the committed tables, the rows the cart
   * query returned, the id the orders sequence hands out and the gateway's
   * createSession (None when it throws). Every write goes to the transaction;
   * only the success path commits, so every other reply leaves the tables as
   * they were. Destroying the cart takes its lines with it.
   */
  function Checkout(t: Tables, userId: int, rows: seq<CartRow>, orderId: int,
                    createSession: (seq<LineItem>, int) -> Option<Session>): (out: Outcome)
    ensures !out.reply.OrderPlaced? ==> out.tables == t
    ensures out.reply.OrderPlaced? ==> out.reply.orderId == orderId && userId in t.carts && userId !in out.tables.carts
  {
    if userId !in t.carts then Outcome(t, CartNotFound)
    else match Assemble(t.products, orderId, rows)
      case None => Outcome(t, InsufficientQuantity)
      case Some(a) =>
        match createSession(a.lineItems, orderId)
        case None => Outcome(t, InternalServerError)
        case Some(session) =>
          Outcome(
            Tables(a.products,
                   t.carts - {userId},
                   Destroy(t.cartItems, Where(t.carts[userId], None, None)),
                   t.orders[orderId := Order(userId, Some(session.id))],
                   t.orderItems + a.orderItems),
            OrderPlaced(session.url, orderId))
  }

  /**
   * Which reply checkout gives: 404 exactly when the user has no cart, 400
   * exactly when the cart exists and some row fails the test, 500 exactly
   * when every row passes and the gateway fails on the payment list, 200
   * otherwise; every reply but 200 leaves the tables unchanged.
   */
  lemma CheckoutReplies(t: Tables, userId: int, rows: seq<CartRow>, orderId: int,
                        createSession: (seq<LineItem>, int) -> Option<Session>)
    ensures var out := Checkout(t, userId, rows, orderId, createSession);
      && (out.reply == CartNotFound <==> userId !in t.carts)
      && (out.reply == InsufficientQuantity <==>
            userId in t.carts && exists i :: 0 <= i < |rows| && !Passes(t.products, rows[i]))
      && (out.reply == InternalServerError <==>
            && userId in t.carts
            && (forall i :: 0 <= i < |rows| ==> Passes(t.products, rows[i]))
            && createSession(Payments(t.products, rows), orderId).None?)
      && (!out.reply.OrderPlaced? ==> out.tables == t)
      && (out.reply.Status() == 404 <==> userId !in t.carts)
      && (out.reply.Status() == 400 <==>
            userId in t.carts && exists i :: 0 <= i < |rows| && !Passes(t.products, rows[i]))
      && (out.reply.Status() == 500 ==> out.reply.Message() == "Internal Server Error" && out.tables == t)
      && (out.reply.Status() == 200 <==> out.reply.OrderPlaced?)
      && (out.reply.OrderPlaced? ==> out.reply.Message() == "order placed")
  {
    if userId in t.carts && Assemble(t.products, orderId, rows).Some? {
      AssembleLines(t.products, orderId, rows);
    }
  }

  /**
   * A successful checkout: every row passed, the gateway got the payment
   * list, the reply carries its url and the new order id, the order records
   * the session id, the user's cart and its lines are gone, the order lines
   * are appended one per row in row order at the snapshot price, and the
   * stock is as AssembleSetsStock says.
   */
  lemma CheckoutCommits(t: Tables, userId: int, rows: seq<CartRow>, orderId: int,
                        createSession: (seq<LineItem>, int) -> Option<Session>)
    requires Checkout(t, userId, rows, orderId, createSession).reply.OrderPlaced?
    ensures var out := Checkout(t, userId, rows, orderId, createSession);
      && userId in t.carts
      && (forall i :: 0 <= i < |rows| ==> Passes(t.products, rows[i]))
      && createSession(Payments(t.products, rows), orderId).Some?
      && var session := createSession(Payments(t.products, rows), orderId).value;
      && out.reply == OrderPlaced(session.url, orderId)
      && out.tables.orders == t.orders[orderId := Order(userId, Some(session.id))]
      && out.tables.carts == t.carts - {userId}
      && (forall x :: x in out.tables.cartItems <==> x in t.cartItems && x.cartId != t.carts[userId])
      && |out.tables.orderItems| == |t.orderItems| + |rows|
      && out.tables.orderItems[..|t.orderItems|] == t.orderItems
      && (forall i :: 0 <= i < |rows| ==> out.tables.orderItems[|t.orderItems| + i] == OrderLine(orderId, rows[i]))
      && out.tables.products == Assemble(t.products, orderId, rows).value.products
  {
    AssembleLines(t.products, orderId, rows);
    var out := Checkout(t, userId, rows, orderId, createSession);
    var a := Assemble(t.products, orderId, rows).value;
    assert out.tables.orderItems == t.orderItems + a.orderItems;
    forall i | 0 <= i < |rows| ensures out.tables.orderItems[|t.orderItems| + i] == OrderLine(orderId, rows[i]) {
      assert out.tables.orderItems[|t.orderItems| + i] == a.orderItems[i];
    }
  }

  /** Checkout keeps the tables well formed; a successful one uses up the order id. */
  lemma CheckoutWellFormed(t: Tables, nextCartId: int, nextItemId: int, userId: int, rows: seq<CartRow>, orderId: int,
                           createSession: (seq<LineItem>, int) -> Option<Session>)
    requires WellFormed(t, nextCartId, nextItemId, orderId)
    ensures WellFormed(Checkout(t, userId, rows, orderId, createSession).tables, nextCartId, nextItemId, orderId + 1)
  {
    var out := Checkout(t, userId, rows, orderId, createSession);
    if out.reply.OrderPlaced? {
      StockStaysNonNegative(t.products, orderId, rows);
      DestroyKeepsLinesUnique(t.cartItems, Where(t.carts[userId], None, None));
    }
  }

  /**
   * A cart that exists but whose query returned no row still places an
   * order: the gateway is called with an empty payment list, and on success
   * an order with no lines is committed.
   */
  lemma EmptyCartPlacesEmptyOrder(t: Tables, userId: int, orderId: int,
                                  createSession: (seq<LineItem>, int) -> Option<Session>)
    requires userId in t.carts && createSession([], orderId).Some?
    ensures var out := Checkout(t, userId, [], orderId, createSession);
      && out.reply == OrderPlaced(createSession([], orderId).value.url, orderId)
      && out.tables.orders[orderId] == Order(userId, Some(createSession([], orderId).value.id))
      && out.tables.orderItems == t.orderItems
  {
  }

  /**
   * Two lines of one product (two spells) that each pass against the same
   * snapshot stock leave the stock at snapshot minus the second line's
   * quantity, although both lines are ordered.
   */
  lemma SameProductTwiceSetsStockOnce(committed: map<int, Product>, orderId: int, first: CartRow, second: CartRow)
    requires Passes(committed, first) && Passes(committed, second)
    requires first.product == second.product
    ensures var a := Assemble(committed, orderId, [first, second]).value;
            var p := first.product.value;
      && a.products[p.productId].quantity == p.quantity - second.quantity
      && a.orderItems == [OrderLine(orderId, first), OrderLine(orderId, second)]
  {
    var rows := [first, second];
    assert rows[..1] == [first];
    assert [first][..0] == [];
    var p := first.product.value;
    var a0 := Assembly(committed, [], []);
    var a1 := Reserve(committed, orderId, a0, first);
    assert Assemble(committed, orderId, [first]) == Some(a1);
    assert p.productId in a1.products;
    assert Assemble(committed, orderId, rows) == Some(Reserve(committed, orderId, a1, second));
  }
}
