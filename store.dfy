/**
 * The relational store behind the cart and order controllers, as an
 * in-memory model: one table per model the two controllers touch, and the
 * id sequences that hand out primary keys.
 */
module Store {

  datatype Option<T> = None | Some(value: T)

  /** A plain `res.status(status).json(body)` reply. */
  datatype Reply = Reply(status: int, body: string)

  /** A row of `products`; `quantity` is the stock counter. */
  datatype Product = Product(name: string, price: int, quantity: int)

  /** A row of `cartitems`; `spellId` is null for a line added without a spell. */
  datatype CartItem = CartItem(itemId: int, cartId: int, productId: int, spellId: Option<int>, quantity: int)

  /** A row of `orders`, as far as checkout writes it. */
  datatype Order = Order(userId: int, stripePaymentId: Option<string>)

  /** A row of `orderitems`; `price` is the price captured at checkout. */
  datatype OrderItem = OrderItem(orderId: int, productId: int, quantity: int, price: int, spellId: Option<int>)

  /**
   * What a read outside any open transaction sees. `carts` maps a user to
   * the id of the one cart that user may have.
   */
  datatype Tables = Tables(
    products: map<int, Product>,
    carts: map<int, int>,
    cartItems: seq<CartItem>,
    orders: map<int, Order>,
    orderItems: seq<OrderItem>)

  /** A where clause over `cartitems`: cartId always, productId and spellId only when given. */
  datatype Where = Where(cartId: int, productId: Option<int>, spellId: Option<int>)

  predicate Matches(item: CartItem, w: Where) {
    && item.cartId == w.cartId
    && (w.productId.None? || item.productId == w.productId.value)
    && (w.spellId.None? || item.spellId == w.spellId)
  }

  /** `findOne`: the first row, in table order, that the where clause selects. */
  function FindFirst(items: seq<CartItem>, w: Where): (r: Option<nat>)
    ensures r.Some? ==> r.value < |items| && Matches(items[r.value], w)
    ensures r.Some? ==> forall j :: 0 <= j < r.value ==> !Matches(items[j], w)
    ensures r.None? ==> forall j :: 0 <= j < |items| ==> !Matches(items[j], w)
  {
    if |items| == 0 then None
    else if Matches(items[0], w) then Some(0)
    else match FindFirst(items[1..], w)
      case None => None
      case Some(k) => Some(k + 1)
  }

  /** The first-match property determines `findOne`'s answer. */
  lemma FindFirstIs(items: seq<CartItem>, w: Where, k: nat)
    requires k < |items| && Matches(items[k], w)
    requires forall j :: 0 <= j < k ==> !Matches(items[j], w)
    ensures FindFirst(items, w) == Some(k)
  {
  }

  /** `destroy`: every row the where clause selects goes, the others keep their order. */
  function Destroy(items: seq<CartItem>, w: Where): (r: seq<CartItem>)
    ensures |r| <= |items|
    ensures forall x :: x in r <==> x in items && !Matches(x, w)
  {
    if |items| == 0 then []
    else if Matches(items[0], w) then Destroy(items[1..], w)
    else [items[0]] + Destroy(items[1..], w)
  }

  /** `count`: how many rows the where clause selects. */
  function Count(items: seq<CartItem>, w: Where): (n: nat)
    ensures n <= |items|
    ensures n == 0 <==> forall x :: x in items ==> !Matches(x, w)
  {
    if |items| == 0 then 0
    else (if Matches(items[0], w) then 1 else 0) + Count(items[1..], w)
  }

  /** Deleting when nothing is selected leaves the table as it is. */
  lemma {:induction false} DestroyNothing(items: seq<CartItem>, w: Where)
    requires forall x :: x in items ==> !Matches(x, w)
    ensures Destroy(items, w) == items
  {
    if |items| > 0 {
      assert items[0] in items;
      forall x | x in items[1..] ensures !Matches(x, w) {
        assert x in items;
      }
      DestroyNothing(items[1..], w);
      assert items == [items[0]] + items[1..];
    }
  }

  /** The same delete run twice deletes nothing the second time. */
  lemma DestroyIdempotent(items: seq<CartItem>, w: Where)
    ensures Destroy(Destroy(items, w), w) == Destroy(items, w)
  {
    DestroyNothing(Destroy(items, w), w);
  }

  /** The key under which a cart line is unique: (cart, product, spell). */
  function LineKey(item: CartItem): (int, int, Option<int>) {
    (item.cartId, item.productId, item.spellId)
  }

  ghost predicate UniqueLines(items: seq<CartItem>) {
    forall i, j :: 0 <= i < j < |items| ==> LineKey(items[i]) != LineKey(items[j])
  }

  /** Deleting rows never creates two lines with the same key. */
  lemma {:induction false} DestroyKeepsLinesUnique(items: seq<CartItem>, w: Where)
    requires UniqueLines(items)
    ensures UniqueLines(Destroy(items, w))
  {
    if |items| > 0 {
      var rest := Destroy(items[1..], w);
      assert UniqueLines(items[1..]) by {
        forall i, j | 0 <= i < j < |items[1..]|
          ensures LineKey(items[1..][i]) != LineKey(items[1..][j])
        {
          assert items[1..][i] == items[i + 1] && items[1..][j] == items[j + 1];
        }
      }
      DestroyKeepsLinesUnique(items[1..], w);
      if !Matches(items[0], w) {
        var r := [items[0]] + rest;
        forall i, j | 0 <= i < j < |r| ensures LineKey(r[i]) != LineKey(r[j]) {
          if i == 0 {
            assert r[j] in rest;
            assert r[j] in items[1..];
            var k :| 0 <= k < |items[1..]| && items[1..][k] == r[j];
            assert items[k + 1] == r[j];
          } else {
            assert r[i] == rest[i - 1] && r[j] == rest[j - 1];
          }
        }
      }
    }
  }

  /** Appending a line whose key no line has keeps the keys unique. */
  lemma AppendKeepsLinesUnique(items: seq<CartItem>, x: CartItem)
    requires UniqueLines(items)
    requires forall y :: y in items ==> LineKey(y) != LineKey(x)
    ensures UniqueLines(items + [x])
  {
    var r := items + [x];
    forall i, j | 0 <= i < j < |r| ensures LineKey(r[i]) != LineKey(r[j]) {
      if j == |items| {
        assert r[i] in items;
      }
    }
  }

  /** Changing a line's quantity keeps the keys unique. */
  lemma SetQuantityKeepsLinesUnique(items: seq<CartItem>, k: nat, quantity: int)
    requires UniqueLines(items) && k < |items|
    ensures UniqueLines(items[k := items[k].(quantity := quantity)])
  {
    var r := items[k := items[k].(quantity := quantity)];
    assert forall j :: 0 <= j < |r| ==> LineKey(r[j]) == LineKey(items[j]);
  }

  /** Whether no id in the tables has reached the next value of the carts' sequence. */
  ghost predicate FreshCartId(t: Tables, nextCartId: int) {
    && (forall u :: u in t.carts ==> t.carts[u] < nextCartId)
    && (forall x :: x in t.cartItems ==> x.cartId < nextCartId)
  }

  /**
   * The invariant every controller keeps: stock is never negative, the id
   * sequences of carts, cart lines and orders are ahead of every id in use,
   * and no two cart lines share a key.
   */
  ghost predicate WellFormed(t: Tables, nextCartId: int, nextItemId: int, nextOrderId: int) {
    && (forall p :: p in t.products ==> t.products[p].quantity >= 0)
    && FreshCartId(t, nextCartId)
    && (forall x :: x in t.cartItems ==> x.itemId < nextItemId)
    && (forall o :: o in t.orders ==> o < nextOrderId)
    && UniqueLines(t.cartItems)
  }

  /** The database: its tables and the sequences that number new carts, cart lines and orders. */
  class Db {
    var products: map<int, Product>
    var carts: map<int, int>
    var cartItems: seq<CartItem>
    var orders: map<int, Order>
    var orderItems: seq<OrderItem>
    /**
     * The next values of the id sequences. A sequence is not transactional:
     * a value once drawn is not handed out again, even when the transaction
     * that drew it never commits.
     */
    var nextCartId: int
    var nextItemId: int
    var nextOrderId: int

    constructor ()
      ensures Valid()
      ensures Contents() == Tables(map[], map[], [], map[], [])
      ensures nextCartId == 1 && nextItemId == 1 && nextOrderId == 1
    {
      products, carts, cartItems, orders, orderItems := map[], map[], [], map[], [];
      nextCartId, nextItemId, nextOrderId := 1, 1, 1;
    }

    function Contents(): Tables
      reads this
    {
      Tables(products, carts, cartItems, orders, orderItems)
    }

    ghost predicate Valid()
      reads this
    {
      WellFormed(Contents(), nextCartId, nextItemId, nextOrderId)
    }
  }
}
