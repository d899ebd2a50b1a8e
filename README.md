# Cart and checkout of the e-commerce backend, in Dafny

This project models the part of the shop's backend that changes carts and turns a cart into an order.

- **Cart endpoints** (`controllers/cart.js`):
  - `addToCart` finds or creates the user's cart, then finds or creates the line with a clamped quantity and overwrites the quantity of a line that already existed.
  - `reduceQuantity` sets a line's quantity.
  - `removeFromCart` deletes a product's lines and deletes the cart once it is empty.
  - `getCart` folds the rows of its query into groups.
- **Checkout** (`addOrder` in `controllers/order.js`) runs as one transaction:
  - it looks up the cart, creates the order and walks the cart's lines;
  - for each line it re-reads the product, checks the stock, sets the new stock and writes an order line, then pushes a payment entry;
  - it asks the payment gateway for a session, records the session id, destroys the cart and commits.
- **Page arithmetic** of `getAllOrdersForAUser`: `parseInt` with `||` defaults, the offset and the page count.

The files, one module each:

- `store.dfy` (`Store`): the tables as values (`Tables`), and the Sequelize `findOne`/`destroy`/`count` over cart lines as functions of a where clause (`FindFirst`, `Destroy`, `Count`).
  - The database itself is the class `Db`, whose fields are the tables and the id sequences of carts, cart lines and orders.
  - `WellFormed` is the invariant every endpoint keeps:
    - stock is never negative;
    - each of the three sequences is ahead of the ids in use: cart ids, cart-line ids and order ids;
    - no two lines of a cart share (cart, product, spell).
- `cart_model.dfy` (`CartModel`): each cart endpoint as a function from the tables before to the tables after, and the lemmas about those functions.
- `cart_controller.dfy` (`CartController`): the cart endpoints as methods on `Db` that do the handler's reads and writes in the handler's order. Each method is proved to leave exactly the tables the matching `CartModel` function gives. `GetCart` is the `reduce` loop, proved against `Grouped`.
- `order_model.dfy` (`OrderModel`): checkout as the function `Checkout` of the committed tables, the rows of the cart query, the order id and the gateway, and the lemmas about it.
- `order_controller.dfy` (`OrderController`):
  - `AddOrder` is a method on `Db` whose writes go to the transaction's copies of the tables and reach the database only at the commit.
  - `ReserveLines` is its loop over the cart rows.
- `order_pages.dfy` (`OrderPages`): JavaScript `parseInt`, the `||` defaults, the offset, `Math.ceil(count / pageSize)` and the reply of `getAllOrdersForAUser` over the list of the user's completed orders.

Modelling choices:

- **Query results are inputs.** The result of a raw SQL query is a sequence of rows (`CartRow`, `CartViewRow`, the list of completed orders).
- **Stripe is an input.** The payment gateway is a function from the payment list and the order id to a session, where `None` stands for a call that throws.
- **Two reads per checkout line.** Checkout reads each product twice, and the model keeps both reads:
  - The snapshot comes from the transaction's query. It supplies the stock that is checked, the base of the new stock and the price of the order line.
  - `Product.findByPk` is not bound to the transaction, so it sees the committed row. That row decides whether the product exists and supplies the name and the `price * 100` of the payment entry.
- **Id sequences.** They advance when an id is drawn, and a rollback does not give the id back. So `nextOrderId` moves on every checkout that found a cart, whether or not the checkout commits.
- **Quantity clamp.** `quantity > 1 ? quantity : 1` compares an absent or non-numeric quantity as false, so such a quantity becomes 1.
- **Spell test.** `if (spellId)` is JavaScript truthiness, so an absent spellId or a spellId of 0 adds no spell condition.
- **Checkout's `Cart.destroy` takes the cart's lines with it.** The model assumes the cart-lines table references `carts` with ON DELETE CASCADE. That is an assumption against the declarations in view: `Cart.hasMany(CartItems, {foreignKey: 'cartId'})` (controllers/cart.js:13) declares no `onDelete`, while only User→Cart declares CASCADE (controllers/cart.js:10). The table's schema is not part of this model. Under SET NULL, or with no foreign key, checkout's `Cart.destroy` would leave the lines in place, detached from the cart.
- **Several matching rows.** `findOne`/`findOrCreate` pick the first matching row in table order. The database leaves that order unspecified.

## Model

| member | source | states |
|---|---|---|
| Store.FindFirst | controllers/cart.js:218-221 | `findOne` answers the first row the where clause selects, or nothing exactly when no row matches |
| Store.Destroy | controllers/cart.js:234-239 | `destroy` keeps exactly the rows the where clause does not select |
| Store.Count | controllers/cart.js:241-245 | `count` is 0 exactly when no row of the table matches the where clause |
| Store.DestroyIdempotent | controllers/cart.js:234-239 | running the same delete twice deletes nothing the second time |
| Store.DestroyKeepsLinesUnique | controllers/cart.js:234-239 | deleting rows never makes two lines share (cart, product, spell) |
| CartModel.Clamp | controllers/cart.js:44 | the quantity written is at least 1, equals the requested quantity when that is at least 1, and is 1 when none was given or it is below 1 |
| CartModel.AddedToCart | controllers/cart.js:19-120 | addToCart leaves the user with a cart, the cart keys grow by at most that user, and products, orders and order lines are untouched; the line contents are stated by AddToCartUpserts |
| CartModel.AddToCartUpserts | controllers/cart.js:19-120 | the user ends with a cart, newly created only if there was none; the line under the key (cart, product, spell when truthy) holds the clamped quantity; a line found keeps everything but its quantity, which becomes the clamped one; when none was found exactly one line is appended, with the new line id, the user's cart, the product, the spell condition and the clamped quantity; other lines and tables are unchanged |
| CartModel.AddToCartIdempotent | controllers/cart.js:87-91 | repeating the same addToCart call leaves the tables as the first call left them, since an existing line's quantity is replaced rather than added to |
| CartModel.AddToCartWellFormed | controllers/cart.js:31-112 | addToCart keeps stock, the freshness of cart, cart-line and order ids, and line-key uniqueness; it uses up a cart id only when it creates a cart and a line id only when it creates a line |
| CartModel.QuantityReduced | controllers/cart.js:215-229 | a successful reduceQuantity keeps the carts, the number of lines and every other table; which line changes is stated by ReduceQuantityOverwrites |
| CartModel.ReduceQuantityOverwrites | controllers/cart.js:215-229 | reduceQuantity fails exactly when no line of the cart has the product; otherwise the first such line gets exactly the given quantity, unclamped, and every other line is unchanged |
| CartModel.ReduceQuantityIdempotent | controllers/cart.js:217-224 | repeating the same reduceQuantity call changes nothing more |
| CartModel.ReduceQuantityWellFormed | controllers/cart.js:217-224 | reduceQuantity keeps the tables well formed |
| CartModel.DestroyCart | controllers/cart.js:247-253 | exactly the carts with that cart id are gone; the others keep their owner and id |
| CartModel.RemovedFromCart | controllers/cart.js:231-259 | removeFromCart only ever drops carts and lines, and leaves products, orders and order lines untouched; which ones go is stated by RemoveFromCartDeletes |
| CartModel.RemoveFromCartDeletes | controllers/cart.js:231-259 | every line of the cart with the product goes, whatever its spell, and every other line stays; the cart survives exactly when it still has a line; other carts and tables are unchanged |
| CartModel.RemoveFromCartIdempotent | controllers/cart.js:231-259 | repeating the same removeFromCart call changes nothing more |
| CartModel.RemoveFromCartWellFormed | controllers/cart.js:234-253 | removeFromCart keeps the tables well formed |
| CartModel.FindGroup | controllers/cart.js:165 | `acc.find` answers the first group whose cart id equals the row's line cart id, and nothing exactly when no group matches (a null id matches none) |
| CartModel.Nested | controllers/cart.js:167-180 | the entry a row contributes: the row's cart id, its product with a one-image list, its quantity and its spell; GroupedOneCart states the entries are these, in row order |
| CartModel.AddRow | controllers/cart.js:165-203 | one step of the reduce adds exactly one entry and at most one group |
| CartModel.Grouped | controllers/cart.js:164-204 | the reduce yields no more groups than rows, and no group exactly when there is no row; GroupedKeepsEveryRow and GroupedOneCart state its entries |
| CartModel.GroupedKeepsEveryRow | controllers/cart.js:164-204 | the entries over all groups number exactly the rows: each row adds one entry, to the group it joins or to the group it opens |
| CartModel.GroupedOneCart | controllers/cart.js:164-204 | rows that are all lines of one cart become that one cart with one entry per row, in row order |
| CartController.AddToCart | controllers/cart.js:19-120 | the tables become `AddedToCart` of the old tables; the cart sequence advances exactly when a cart is created and the line sequence exactly when a line is; the reply is 200 "Added to cart"; the tables stay well formed |
| CartController.ReduceQuantity | controllers/cart.js:215-229 | the tables become `QuantityReduced` of the old tables with reply 200 "changed the quantity", or stay as they were with reply 500 when no line matches |
| CartController.RemoveFromCart | controllers/cart.js:231-259 | the tables become `RemovedFromCart` of the old tables; the reply is 200 "item removed from cart" |
| CartController.GetCart | controllers/cart.js:159-206 | the status is 404 exactly when the query returned no row; otherwise the groups are `Grouped(rows)` and hold one entry per row |
| OrderModel.Assemble | controllers/order.js:67-105 | the loop fails exactly when some row's product is missing or its snapshot stock is below the line's quantity; otherwise it writes one order line and one payment entry per row, and it changes no product's existence |
| OrderModel.Passes | controllers/order.js:70-77 | a row passes when the product re-read by id exists and the snapshot stock is at least the line's quantity; Assemble and CheckoutReplies state that any failing row gives the 400 |
| OrderModel.SetStock | controllers/order.js:79-82 | the update changes only the stock of that product, keeps every other product, and adds no product |
| OrderModel.OrderLine | controllers/order.js:86-92 | the order line of a row: the order id and the row's product, quantity, snapshot price and spell; AssembleLines states each written line is this |
| OrderModel.PaymentLine | controllers/order.js:94-104 | the payment entry of a row: the cart quantity, "inr", the re-read name, "inclusive" and the re-read price times 100; Payments and AssembleLines state the list is made of these |
| OrderModel.Reserve | controllers/order.js:74-104 | one passing row sets its product's stock to snapshot stock minus the line's quantity, keeps the set of products, and appends exactly one order line and one payment entry |
| OrderModel.Payments | controllers/order.js:94-104 | one payment entry per row in row order, with the row's quantity, currency "inr", inclusive tax, the re-read product name and the re-read price times 100 as the amount |
| OrderModel.AssembleLines | controllers/order.js:84-104 | after a successful loop, order line i records the order id and row i's product, quantity, spell and snapshot price; the payment list has one entry per row in row order, with the cart quantity, "inr", "inclusive" and the re-read price times 100 |
| OrderModel.LastRowFor | controllers/order.js:79-82 | finds the last row that names the product, and says no row names it when there is none |
| OrderModel.AssembleSetsStock | controllers/order.js:74-82 | after a successful loop a product no row names keeps its row; any other product's stock is the snapshot stock minus the quantity of the last row naming it, so repeated lines of one product do not add up |
| OrderModel.StockStaysNonNegative | controllers/order.js:74-82 | the check keeps every new stock at or above 0 |
| OrderModel.SameProductTwiceSetsStockOnce | controllers/order.js:74-92 | two passing lines of the same product leave the stock at snapshot minus the second line's quantity, while both lines are ordered |
| OrderModel.Checkout | controllers/order.js:23-120 | every reply but 200 leaves the tables as they were; a 200 carries the new order id and removes the user's cart |
| OrderModel.CheckoutReplies | controllers/order.js:29-118 | 404 exactly when the user has no cart, 400 exactly when some row fails the check, 500 exactly when all rows pass and the gateway fails on the payment list; none of these changes the tables; the status is 200 exactly for a placed order, whose message is "order placed", and a 500 says "Internal Server Error" |
| OrderModel.CheckoutCommits | controllers/order.js:107-115 | on 200 every row passed; the reply carries the gateway url and the order id; the order records the session id; the cart and its lines are gone; one order line per row is appended in row order; the stock is the loop's |
| OrderModel.CheckoutWellFormed | controllers/order.js:63-114 | checkout keeps the tables well formed with the order sequence moved past the order id |
| OrderModel.EmptyCartPlacesEmptyOrder | controllers/order.js:67-115 | a cart whose query returns no row still places an order, with an empty payment list and no order line |
| OrderController.ReserveLines | controllers/order.js:67-105 | the loop returns exactly `Assemble` of the committed products and the rows |
| OrderController.AddOrder | controllers/order.js:23-120 | the tables and the reply are those of `Checkout`; the order sequence advances exactly when the user has a cart; the other sequences are unchanged; the tables stay well formed |
| OrderPages.TrimStart | controllers/order.js:126-127 | parseInt's leading white space is skipped and the rest starts with a non-space |
| OrderPages.DigitRun | controllers/order.js:126-127 | parseInt reads the longest run of digits of the radix |
| OrderPages.ParseMagnitude | controllers/order.js:126-127 | the unsigned part is never negative, and a string that does not start with a decimal digit is NaN |
| OrderPages.ParseInt | controllers/order.js:126-127 | an empty or all-white-space string is NaN, and a negative result needs a leading '-' after the white space |
| OrderPages.ParseIntSkipsSpace | controllers/order.js:126-127 | a leading white-space character does not change what parseInt reads, so " 7" reads as 7 |
| OrderPages.ParseIntSkipsPlus | controllers/order.js:126-127 | a plus sign before the digits is taken, so "+7" reads as 7 |
| OrderPages.ParseIntHex | controllers/order.js:126-127 | after "0x" the digits are read in base 16, so a page size written "0x10" is 16 |
| OrderPages.ParseIntNoDigit | controllers/order.js:126-127 | a parameter that starts with no digit, sign or white space, such as "abc", is NaN and yields the default |
| OrderPages.NegativeZeroFallsBack | controllers/order.js:126-127 | "-0" parses to zero, which is falsy, so the default applies |
| OrderPages.OrDefault | controllers/order.js:126-127 | `parseInt(param) \|\| fallback` is the parsed number exactly when the parameter is present and parses to a nonzero number, and the fallback when it is absent, NaN or 0 |
| OrderPages.ParseIntDecimal | controllers/order.js:126-127 | parseInt reads back every integer written in decimal, and stops where the digits stop ("7abc" reads 7) |
| OrderPages.ParameterDefaults | controllers/order.js:126-127 | an absent parameter yields the default; a decimal parameter yields its value unless it is 0 |
| OrderPages.CeilDiv | controllers/order.js:166 | the page count is the least number of pages of the given size that holds every order |
| OrderPages.Offset | controllers/order.js:128 | for a positive page size the offset is non-negative exactly when the page is at least 1 |
| OrderPages.PageOf | controllers/order.js:158-159 | a page holds at most pageSize orders, is empty past the end, and is not empty when it starts before the end |
| OrderPages.Paginate | controllers/order.js:122-184 | a 200 reply has page and page size at least 1, the number of orders as its total, at most page-size orders, and orders exactly when the page is not past the page count |
| OrderPages.PaginateReplies | controllers/order.js:122-184 | the page size is never 0; status 500 exactly when the page size is negative or the page is below 1; 400 exactly when the query runs and there is no order; 200 otherwise, with the page's orders and the page, size, count and page count |
| OrderPages.FirstPageByDefault | controllers/order.js:126-128 | without parameters the reply is page 1 of size 6, holding the first six orders |
| OrderPages.PageNonEmptyIff | controllers/order.js:158-166 | a page from 1 on holds an order exactly when it is not past the page count |
| OrderPages.PagesCoverAllOrders | controllers/order.js:158-166 | pages 1 to the page count, one after another, list every order once and in order |

## Left out

- SQL text and joins: the cart query of checkout, the grouping query of getCart and the order query are given as their result rows. Their joins are not modelled.
- The count of `findAndCountAll` is modelled as the number of the user's completed orders. With a `hasMany` include, Sequelize may count joined rows instead; that is not modelled.
- The Stripe calls: `createSession` is an input function. `stripe.checkout.sessions.retrieve` belongs to `success`.
- Other handlers are not part of this model:
  - `success`: gateway reconciliation with floating-point `/100` conversions;
  - `test`: a non-transactional copy of checkout;
  - `getOrderDetails` and `getAllOrdersForAdmin`: reads only.
- Concurrency:
  - SERIALIZABLE isolation is not modelled; a checkout runs alone.
  - `LOCK.UPDATE` on the unbound `findByPk` is not modelled. No CLS namespace is set up, so that read runs outside the transaction. For the second line of a product the transaction has already updated, the read waits on the transaction's own row lock while the transaction waits on the read, so the source as written never places an order with two lines of one product. OrderModel.SameProductTwiceSetsStockOnce and the last clause of OrderModel.AssembleSetsStock state the outcome without the lock.
- The open transaction after the 404 and 400 returns, and after the 500 when the gateway call throws (controllers/order.js:107, caught at 116-118): none of these paths commits or rolls back, and the model treats the transaction as rolled back since it never commits.
- Database errors other than a negative LIMIT/OFFSET are not modelled; every such error would be a 500 reply.
- Sequelize model validations and column types are not modelled.
- The `if (!cartItem)` 500 branches of addToCart: `findOrCreate` always returns a row, so the model has no such path.
- Prices and quantities are integers. Decimal prices, and `price * 100` as a float, are not modelled.
- OrderPages.ParseInt: the JavaScript number limits are not modelled, so huge numbers are exact and not rounded to a double. A query parameter given twice (an array) is not modelled.
- OrderPages.IsSpace: covers the ASCII white space, no-break space and the byte-order mark, not every Unicode white space or line terminator parseInt skips (for example U+2028, U+2029 and the other space separators).
- All console logging.
- Express routing, authentication middleware, the database connection setup and the migrations.
