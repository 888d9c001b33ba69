# A verified model of the shop's orders, carts, admin routes and auth middleware

This project models the core of a small Express/React e-commerce application in Dafny:

- **Checkout.** `POST /api/orders/create` runs one transaction. It inserts a pending order, then for each checkout item inserts one order line and decrements that product's stock. It clears the caller's cart and commits. Any failure rolls every table back and answers 500.
- **Order history.** `GET /api/orders` and `GET /api/orders/:id` show only the caller's orders.
- **Server-side cart.** The `/api/cart` routes keep a `cart_items` table keyed by (user, product). `/add` upserts, `/update` sets a quantity, `/remove` deletes one row, `/clear` deletes a user's rows, and `GET /` joins the rows with products, newest first.
- **Browser-side cart.** The reducer in the React cart context handles add, remove, update and clear, and computes the unit count and the total.
- **Admin routes.** They cover the order-status whitelist and update, product delete and update with 404, and the dashboard aggregates: revenue from completed orders, the pending count, and the five newest orders.
- **Middleware.** `authenticateToken` extracts the bearer token (401), verifies it (403) and passes on the decoded claims. `requireAdmin` runs the 401 / 500 / 404 / 403 / next ladder.

The database is one `Tables.Database` object whose fields are the tables. `orders`, `order_items` and `cart_items` are sequences of rows in insertion order. `products` and `users` are maps from id. The handlers are methods that take the store and say exactly which tables they may change. `Database.Valid()` is the store invariant the write handlers keep:

- unique keys;
- id counters ahead of every issued id;
- every order line belongs to an issued order;
- every order total equals the sum of its lines.

The SQL building blocks (WHERE, SUM, ORDER BY ... DESC, LIMIT) are the generic functions of module `Query`.

The checkout loop is proved against the pure function `Orders.Decrement`. Its properties are proved as lemmas: what the stock becomes, when the loop succeeds, and which error stops it. Rollback is modelled as restoring a snapshot of every table, and the contract says that a failed checkout leaves the store unchanged. The route reads are functions over the store. The middleware are pure decision functions. Token verification and the admin lookup query are function parameters.

Money is in integer cents. Timestamps (`created_at`, `CURRENT_TIMESTAMP`) are integer parameters.

## Model

| member | source | states |
|---|---|---|
| Orders.PlaceOrder | server/orders.js:13-101 | A missing or empty item list answers 500 "Cart is empty". A failing stock step answers 500 with that step's message. Every failure leaves every table unchanged. On success the reply is 201 "Order created successfully" with a pending order for the list total and the number of items. One new order row and one line per item are appended, stock drops per `Decrement`, the caller's cart rows are deleted, and the store invariant is kept. |
| Orders.InsertLinesAndDecrement | server/orders.js:48-69 | The loop ends with the error of the first failing item, or with the products table equal to `Decrement` of the old one and the lines appended in item order. |
| Orders.Total | server/orders.js:31-33 | The `reduce` running total from 0 equals the sum of price times quantity over the items. |
| Orders.DecrementOne | server/orders.js:57-68 | A missing product row fails with a storage failure. Otherwise the step succeeds iff the stock covers the quantity, and fails with "Insufficient stock for <name>" if not. On success only that product's stock drops by the quantity; no other column or row changes. |
| Orders.Decrement | server/orders.js:48-69 | The loop never adds or removes a product row, and it never fails with the empty-cart error. |
| Orders.LinesFor | server/orders.js:50-54 | One order line per item, in order, with the item's product id, quantity and client-sent price. |
| Orders.LinesForTotal | server/orders.js:31-33 | The inserted lines' price times quantity sums to the order's `total_amount`. |
| Orders.DecrementStock | server/orders.js:57-63 | After a successful loop each product's stock is its old stock minus the total quantity ordered for it, duplicates included. No other column or row changes. |
| Orders.DecrementSucceedsIff | server/orders.js:57-68 | The loop succeeds iff every item finds its product and leaves it with non-negative stock, counting earlier items for the same product. |
| Orders.DecrementFailsAtFirst | server/orders.js:66-68 | The first item that fails its check decides the error. A shortfall gives "Insufficient stock for <name>"; a missing product row gives a storage failure. |
| Orders.DecrementFailurePersists | server/orders.js:48-69 | Once an item has failed, later items cannot change the outcome: the loop stops there. |
| Orders.AppendedOrderKeepsTotals | server/orders.js:36-54 | Adding the new order with its lines keeps every order's total equal to the sum of its lines. |
| Orders.CommitKeepsValid | server/orders.js:36-78 | The committed tables keep the store invariant: unique ids, lines of issued orders, matching totals, and a unique cart key. |
| Orders.JoinProducts | server/orders.js:170-179 | An order line is shown, with its product's name, description and image, exactly when its product row exists. There are never more views than lines. |
| Orders.JoinProductsAppend | server/orders.js:170-179 | The join goes line by line: one view per line whose product exists, none otherwise, in line order. Two identical lines give two views. |
| Orders.Views | server/orders.js:123-142 | Each listed order is paired with its own items, in order. |
| Orders.ListOrders | server/orders.js:104-150 | The listed orders are a permutation of the caller's orders: each appears exactly once. They are ordered by `created_at` descending, each with its items. |
| Orders.GetOrder | server/orders.js:153-192 | 200 iff an order with that id belongs to the caller, with that order and its items. Otherwise 404 "Order not found", including for another user's order. |
| Tables.WithoutUser | server/orders.js:72-75 | After `DELETE FROM cart_items WHERE user_id = u`, exactly the rows of other users remain. |
| Tables.WithoutUserKeepsOthers | server/cart.js:141-144 | Deleting one user's rows keeps the (user, product) key unique and keeps the other rows in their order. |
| Tables.WithoutUserKeepsValid | server/orders.js:72-75 | Deleting a user's cart rows keeps the cart keys and row ids unique and the id counter ahead. |
| CartRoutes.Upsert | server/cart.js:64-79 | The table grows by one row only when the key had none, and the new last row is `(id, user, product, quantity, now)`. Every existing row keeps its position and every column but its quantity. Rows of other keys are unchanged. |
| CartRoutes.RemoveRow | server/cart.js:120-123 | The table loses exactly one copy of the deleted row and nothing else. |
| CartRoutes.FindRow | server/cart.js:59-62 | The position of the row with key (user, product), or none when no row has that key. |
| CartRoutes.LookupAt | server/cart.js:59-62 | With unique keys, the row at a position is the one its key finds. |
| CartRoutes.ReplaceEffect | server/cart.js:67-70 | Rewriting a row in place without changing its key changes only that key's row. |
| CartRoutes.AppendEffect | server/cart.js:74-77 | Inserting a row for an absent key adds exactly that key. |
| CartRoutes.UpsertEffect | server/cart.js:58-79 | `/add`: the key's row gains `quantity` units, or is inserted with `quantity` units. Every other key's row is unchanged and the key stays unique. |
| CartRoutes.UpsertKeepsValid | server/cart.js:58-79 | `/add` keeps the key and row id unique and the id counter ahead. |
| CartRoutes.SetQuantityEffect | server/cart.js:98-101 | `/update`: the key's row takes the new quantity. Every other key's row is unchanged. |
| CartRoutes.RemoveRowDistinct | server/cart.js:120-123 | Deleting one row keeps every key unique and keeps the remaining rows in their order. |
| CartRoutes.RemoveRowEffect | server/cart.js:120-127 | `/remove`: the key has no row afterwards. Every other key's row is unchanged. |
| CartRoutes.RemoveRowKeepsValid | server/cart.js:120-123 | `/remove` keeps the cart part of the store invariant. |
| CartRoutes.WithoutUserEffect | server/cart.js:141-144 | `/clear`: the user has no row for any product. Every other user's rows are unchanged. |
| CartRoutes.AddItem | server/cart.js:48-83 | A falsy `productId` or `quantity` (missing or 0) answers 400 and changes nothing. Otherwise the table is the upsert. The reply is 200 for an existing row and 201 for a new one, and carries the row the key now maps to. The id counter advances only on insert. |
| CartRoutes.UpdateItem | server/cart.js:86-111 | A quantity below 1 answers 400 and a missing row answers 404; both change nothing. Otherwise only that row's quantity is replaced, and the reply carries the updated row. |
| CartRoutes.RemoveItem | server/cart.js:114-133 | A missing row answers 404 and changes nothing. Otherwise exactly that row is deleted, and the reply is "Item removed from cart" with the deleted row. |
| CartRoutes.ClearCart | server/cart.js:136-150 | Exactly the caller's rows are deleted, with reply "Cart cleared successfully". |
| CartRoutes.JoinProducts | server/cart.js:32-35 | A cart row is shown, with its product, exactly when its product row exists. There are never more views than rows. |
| CartRoutes.JoinProductsAppend | server/cart.js:32-35 | The join goes row by row: one view per row whose product exists, none otherwise, in row order. |
| CartRoutes.ListCart | server/cart.js:13-45 | The result is a permutation of the join of the caller's rows with products: each row whose product exists appears exactly once, with its product row. Rows are ordered by `created_at` descending. |
| CartReducer.Find | client/src/context/CartContext.jsx:41 | `find` returns an entry iff the product is in the cart, and what it returns is an entry of the cart with that id. |
| CartReducer.Bumped | client/src/context/CartContext.jsx:45-49 | The `map` keeps every product and position and adds one unit to exactly the entries with the id. |
| CartReducer.WithQuantity | client/src/context/CartContext.jsx:72-78 | The `map` keeps every product and position and sets the quantity of exactly the entries with the id. |
| CartReducer.AddToCart | client/src/context/CartContext.jsx:38-55 | The product is in the cart afterwards. A new product is appended with quantity 1. An existing one gains one unit in place, and nothing else changes. |
| CartReducer.RemoveFromCart | client/src/context/CartContext.jsx:58-62 | Exactly the entries with the id are dropped. |
| CartReducer.UpdateQuantity | client/src/context/CartContext.jsx:65-79 | A quantity of 0 or less is a removal. A positive one replaces the product's quantity in place and touches nothing else; for a product not in the cart it changes nothing. |
| CartReducer.CartCount | client/src/context/CartContext.jsx:87-89 | `getCartCount`'s `reduce` running total from 0 equals the sum of the entries' quantities: units, not entries. |
| CartReducer.CartTotal | client/src/context/CartContext.jsx:92-96 | `getCartTotal`'s `reduce` running total from 0 equals the sum of price times quantity over the entries. |
| CartReducer.ClearCart | client/src/context/CartContext.jsx:82-84 | The cart is empty, with count 0 and total 0. |
| CartReducer.OperationsKeepIdsDistinct | client/src/context/CartContext.jsx:38-79 | Add, remove and update never produce two entries for one product. |
| CartReducer.OnlyEntry | client/src/context/CartContext.jsx:41-49 | With distinct ids, the entries the `map` bumps are exactly the one `find` returned. |
| CartReducer.BumpedSums | client/src/context/CartContext.jsx:45-49 | Bumping adds one unit to the count and one unit price to the total per matching entry. |
| CartReducer.AddToCartSums | client/src/context/CartContext.jsx:38-55 | `getCartCount` rises by exactly 1. `getCartTotal` rises by the price of the entry that got the unit: the stored price for an existing product, the new product's price otherwise. |
| CartReducer.RemoveFromCartSums | client/src/context/CartContext.jsx:58-62 | The count and total drop by the removed entries' units and subtotals. Removing an absent product is the identity. |
| CartReducer.RemoveFromCartKeepsOrder | client/src/context/CartContext.jsx:58-62 | `filter` keeps the relative order of the remaining entries. |
| CartReducer.WithQuantityCount | client/src/context/CartContext.jsx:72-78 | The count trades the product's old quantity for the new one, or is unchanged when the product is absent. |
| CartReducer.UpdateQuantityCount | client/src/context/CartContext.jsx:65-79 | `updateQuantity` with a positive quantity moves `getCartCount` from the old quantity to the new one. |
| Admin.ParseStatus | server/admin.js:86-89 | A status is accepted iff it is one of "pending", "completed", "cancelled". A missing one is refused. |
| Admin.ParseStatusName | server/admin.js:86-89 | Every order status, written out, passes the whitelist as itself. |
| Admin.FindOrder | server/admin.js:91-98 | The position of the order with that id, or none when no order has it. |
| Admin.StatusChangeKeepsValid | server/admin.js:91-94 | Changing a status keeps the store invariant. |
| Admin.UpdateOrderStatus | server/admin.js:80-107 | A status outside the whitelist answers 400 "Invalid status". A missing order answers 404 "Order not found". Both change nothing. Otherwise only that order's status changes, and the reply is "Order status updated" with the row. |
| Admin.DeleteProduct | server/admin.js:126-146 | A missing id answers 404 "Product not found" and changes nothing. Otherwise exactly that product is removed, and the reply carries the deleted row. |
| Admin.ApplyEdit | server/admin.js:154-158 | The updated row holds all six editable columns exactly as sent, and `updated_at` is the current time. |
| Admin.UpdateProduct | server/admin.js:149-174 | A missing id answers 404 "Product not found" and changes nothing. Otherwise only that product's row becomes the edit stamped with the current time. |
| Admin.Revenue | server/admin.js:29-32 | `SUM(total_amount) WHERE status = 'completed'`, with an empty sum read as 0 as the default at line 54 does, equals the sum over all orders of the completed ones' amounts. |
| Admin.PendingCount | server/admin.js:35-38 | The pending count never exceeds the number of orders. |
| Admin.RevenueWithoutCompleted | server/admin.js:29-32 | With no completed order the revenue is 0: the SQL NULL of an empty sum is read as 0. |
| Admin.RevenueBounded | server/admin.js:29-32 | With non-negative totals, revenue lies between 0 and the sum of all order totals. |
| Admin.RevenueAfterStatusChange | server/admin.js:29-32 | A status change moves the revenue by the order's amount exactly when the order enters or leaves "completed". |
| Admin.PendingAfterStatusChange | server/admin.js:35-38 | A status change moves the pending count by one exactly when the order enters or leaves "pending". |
| Admin.JoinUsers | server/admin.js:42-45 | An order appears, with its customer's name and email, exactly when its user row exists. There are never more rows than orders. |
| Admin.JoinUsersAppend | server/admin.js:42-45 | The join goes order by order: one row per order whose user exists, none otherwise, in order. |
| Admin.RecentOrders | server/admin.js:41-48 | The list has min(5, number of joined orders) rows. It is a sub-multiset of the join, so no joined order appears more often than it does there. It is ordered by `created_at` descending, and no joined order left out is newer than one kept. |
| Admin.Dashboard | server/admin.js:17-61 | `totalUsers`, `totalProducts` and `totalOrders` are the row counts. `totalRevenue` is `Revenue`, `pendingOrders` is `PendingCount` and `recentOrders` is `RecentOrders` of the orders table, so their lemmas hold of the reply. Pending orders never outnumber orders, and `recentOrders` has at most 5 rows, newest first. |
| Auth.Split | server/middleware/auth.js:10 | `split(' ')` gives at least one field and no field holds a space. A header without a space is a single field. |
| Auth.JoinSplit | server/middleware/auth.js:10 | Splitting loses nothing: joining the fields with spaces gives back the header. |
| Auth.SplitJoin | server/middleware/auth.js:10 | Space-free fields joined with spaces split back into the same fields. |
| Auth.BearerToken | server/middleware/auth.js:7-10 | The token is the second space-separated field. It never holds a space. There is none for a missing header or one without a space. |
| Auth.BearerTokenOf | server/middleware/auth.js:9-10 | A header `<scheme> <token>` with space-free parts yields exactly `<token>`. |
| Auth.AuthenticateToken | server/middleware/auth.js:5-31 | No token, or an empty one, answers 401 "No token provided". A token that fails verification answers 403 "Invalid or expired token". The request proceeds iff verification succeeds, carrying exactly the decoded claims. |
| Auth.AuthenticateBearer | server/middleware/auth.js:9-29 | `Bearer <token>` proceeds with the token's claims iff the token verifies, and is answered 403 otherwise. |
| AdminAuth.RequireAdmin | server/middleware/adminAuth.js:12-38 | A request without claims or user id answers 401 "Authentication required". A lookup failure answers 500 with its message, no row answers 404 "User not found", and a non-admin answers 403 "Admin access required". The request proceeds iff the user row says admin, with `req.user` unchanged. |
| AdminAuth.AnonymousNeedsNoLookup | server/middleware/adminAuth.js:15-17 | The 401 answer does not depend on the users table: it is decided before any lookup. |
| AdminAuth.OnlyCallerRowMatters | server/middleware/adminAuth.js:20-34 | The verdict depends only on the caller's own user row. |
| AdminAuth.AdminGate | server/admin.js:80 | The `authenticateToken, requireAdmin` chain of every admin route lets a request through iff its bearer token verifies to claims with a non-zero user id whose row says admin. |

## Left out

- Floating point: prices and totals are integer cents. The `parseFloat`, `toFixed(2)` and `parseInt` conversions and their rounding are not modelled.
- Concurrency: one request runs at a time. Row locking and isolation between simultaneous checkouts are not modelled.
- Only a missing product row is modelled as a storage failure inside the checkout transaction. Any other database error (lost connection, constraint violation) is not modelled. The message of that failure is a placeholder; the JavaScript error text is not modelled.
- Orders.PlaceOrder: the order-id sequence is restored on rollback. A real sequence is not transactional and skips the failed id.
- The schema file is not part of this model, so foreign keys, UNIQUE and CHECK constraints are unknown. Cart key uniqueness is kept as an invariant of the routes' own writes. Deleting a product does not cascade: the joins simply drop rows whose product is gone.
- Orders.ListOrders: each item carries the product description too. The list route selects only name and image; the single-order route also selects description.
- Request bodies are typed. Fields missing from a body are `None` only where the code tests them: checkout `items`, cart `/add`, status. A missing or non-numeric field elsewhere (a NULL column in an INSERT or UPDATE, or `undefined < 1` passing the `/update` check) is not modelled. Neither is a non-numeric URL id, which makes the query fail with 500. The unused `phone` field of checkout is dropped.
- The `/api/admin/orders` and `/api/admin/users` listings are not modelled: they are plain ordered selects.
- Ties in `ORDER BY created_at DESC` are broken by the sort used here. The database's tie order is unspecified.
- Signed-token verification and the `SELECT is_admin` query are function parameters. The token library, the secret and the database driver are not part of this model.
- The cart context's localStorage load and save effects and all React components are browser I/O and rendering, and are left out. server/auth.js, server/products.js, server/server.js and the migration scripts are not part of this model. The admin router is modelled even though server/server.js does not mount it.
- Express itself (routing, `next`, JSON serialisation) is reduced to a reply value or a `Next` verdict. "Calls next exactly once" is the `Next` verdict being produced exactly once.
