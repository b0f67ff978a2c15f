# Micro-commerce: cart and catalogue rules, admin promotion, credential store

A Dafny model of the business rules of a small storefront:

- the server's **cart service** and its cart-item repository;
- the **product catalogue** service and its product repository;
- the **authorization dependencies**: token subject to user (401), and the admin gate (403);
- the **create_admin script**, which creates or promotes an admin account;
- the mobile client's **credential store**, which keeps two tokens and a user record in device storage.

Each database table is a sequence of rows held by a repository class. The services hold
their repository and change its `rows` in place, following the source's object structure.
`CartItemService` also holds the product repository, but only reads it. The repository
queries are pure functions of the table.

Modelling choices:

- **Prices are integer cents.** The column is DECIMAL(10, 2), and the service's float
  arithmetic is replaced by exact integers.
- **Generated values are parameters.** New primary keys (`freshId`), `created_at` (`now`) and
  `password_utils.hash_password` (`hash`) come from the database, the clock and a hashing
  library.
- **BaseRepository filters are parameters.** `search_by_name` and `filter_by_stock` are not
  part of this model, so `ListProducts` takes them as predicates.
- **Constraint violations are modelled.** The database refuses a commit that breaks
  UNIQUE(name) or writes NULL into a NOT NULL column. `update_product` can reach both cases:
  - a request field sent as `null`;
  - an empty name, which skips the service's name check.

  The service answers these with a 500, and the model says so.
- **Uniqueness invariants.** Every table keeps its primary key distinct. The cart service
  also preserves "at most one row per (user, product)" across requests that run one after
  another. The schema does not enforce this second property, so each cart method proves
  that it keeps it. Two concurrent adds of the same product could both find no row and
  both insert; concurrency is not modelled.
- **Stock is checked only when a quantity is written.** `update_product` may lower a
  product's stock below quantities already in carts, so "quantity <= stock" is proved only
  at the moment a cart row is written. It is not a table invariant.

Where the code disagrees with what the rest of the repository expects, the model follows
the intended behaviour and records the code as written (see "## Findings"):

- `list_products` calls `get_by_price_range` (price-range query) with the wrong arity.
- The cart service builds response classes that its schema module does not define. The
  response shape used here is the client's (`client/types/cart.ts`). The missing classes
  are also named in the return annotations of `add_item_to_cart`, `get_user_cart` and
  `update_cart_item` (server/app/api/services/cart_item.py:24, 115 and 158), and the module
  does not postpone annotations. Which of two failures happens depends on the Python
  version, which the repository does not pin:
  - before Python 3.14, annotations are evaluated when the class is defined, so importing
    the module fails and no cart method ever runs;
  - from Python 3.14, annotations are evaluated lazily, so the bodies run. Every
    successful add or update then writes its row and ends in an AttributeError, and so
    does every call of `get_user_cart`, even on an empty cart. The 404 and 400 paths
    raise before the response is built and are unaffected.

  The as-written members model the second case.
- The cart router is not mounted in `server/app/api/v1/__init__.py`, so the cart endpoints
  are unreachable over HTTP. The model covers the service itself.

## Model

| member | source | states |
|---|---|---|
| `ProductQueries.GetById` | server/app/api/services/product.py:53-54 | the product found has the requested id and is in the table; none is found exactly when no product has that id |
| `ProductQueries.GetByIdIsUnique` | server/app/api/models/product.py:7 | with distinct primary keys, looking up any stored product's id yields that very product |
| `ProductQueries.GetByName` | server/app/api/repositories/product.py:18-27 | the product found is in the table and has exactly that name; none is found exactly when no product has it |
| `ProductQueries.GetByNameIsUnique` | server/app/api/models/product.py:10 | with unique names, the product found for a name is the only one holding it |
| `ProductQueries.GetInStock` | server/app/api/repositories/product.py:29-35 | a product is in the result exactly when it is in the table with stock > 0 |
| `ProductQueries.GetByPriceRange` | server/app/api/repositories/product.py:37-51 | a product is in the result exactly when it is in the table with min <= price <= max, both bounds inclusive |
| `ProductQueries.ProductRepository.Create` | server/app/api/services/product.py:34-38 | the row is appended exactly when no product already has its name (UNIQUE name); otherwise the table is unchanged; keys stay distinct |
| `ProductQueries.ProductRepository.Update` | server/app/api/services/product.py:86-92 | the row with the product's id is overwritten exactly when no other product holds the new name; the other rows are kept |
| `ProductQueries.ProductRepository.Delete` | server/app/api/services/product.py:114-116 | the rows left are those with a different id |
| `CartItemQueries.GetUserCartItems` | server/app/api/repositories/cart_item.py:21-35 | every pair is a row of this user joined to the product whose id is the row's product id; no more pairs than rows |
| `CartItemQueries.GetUserCartItemsComplete` | server/app/api/repositories/cart_item.py:30-35 | every row of the user whose product still exists appears in the join (only rows with a missing product are dropped) |
| `CartItemQueries.GetUserCartItemsRows` | server/app/api/repositories/cart_item.py:21-35 | the join's cart rows are exactly the table filtered to the user's rows whose product is stored: each such row once, in table order, and nothing else |
| `CartItemQueries.GetProductFromUserCart` | server/app/api/repositories/cart_item.py:37-56 | the row found matches both user and product; none is found exactly when no row matches both |
| `CartItemQueries.GetUserCartItem` | server/app/api/repositories/cart_item.py:58-75 | a row is found only when both its id and its owner match; none exactly when no row matches both |
| `CartItemQueries.ReflushUnchanged` | server/app/api/services/cart_item.py:202-208 | flushing an unchanged row over its own id leaves the table as it was |
| `CartItemQueries.RequantifyDistinct` | server/app/api/services/cart_item.py:66-69 | changing one row's quantity keeps ids distinct and keeps at most one row per (user, product) |
| `CartItemQueries.CartItemRepository.Create` | server/app/api/services/cart_item.py:84-91 | the new row is appended and ids stay distinct |
| `CartItemQueries.CartItemRepository.Update` | server/app/api/services/cart_item.py:202-208 | the row with the item's id is overwritten by it; all other rows are kept |
| `CartItemQueries.CartItemRepository.Delete` | server/app/api/services/cart_item.py:249-251 | exactly the rows with that id are removed |
| `CartItemQueries.CartItemRepository.UpdateCartItemQuantity` | server/app/api/repositories/cart_item.py:77-98 | an owned row gets the new quantity and is returned; when the row is not owned, None is returned and nothing changes |
| `CartItemQueries.CartItemRepository.DeleteCartItemsByUserId` | server/app/api/repositories/cart_item.py:100-107 | a row remains exactly when it was there and belongs to another user |
| `Products.ApplyUpdate` | server/app/api/services/product.py:86-88 | fields left unset keep their values and fields sent with a value take it; the id never changes; a NULL on name, price or stock is refused |
| `Products.EmptyUpdateIsIdentity` | server/app/api/services/product.py:86-88 | a request that sets no field leaves the product unchanged |
| `Products.PriceFilter` | server/app/api/services/product.py:151-157 | for every price: it passes exactly when it meets each given bound inclusively, and is >= 0 when only a maximum is given |
| `Products.RestrictPrice` | server/app/api/services/product.py:152-157 | a product is kept exactly when it is in the already filtered query and its price passes the bound |
| `Products.ListProducts` | server/app/api/services/product.py:145-157 | a product is listed exactly when it is in the table and passes the name filter, the stock filter and the price rule (their conjunction) |
| `Products.ListProductsAsWritten` | server/app/api/services/product.py:152-157 | as written, the listing fails with 500 exactly when a price bound is given; otherwise it applies the name and stock filters |
| `Products.PriceFilterAsWrittenFails` | server/app/api/services/product.py:156-157 | one table and a max-price query where the as-written listing fails and the intended one returns the product |
| `Products.ProductService.CreateProduct` | server/app/api/services/product.py:27-38 | a taken name gives 400 and no change; otherwise exactly one product with the request's fields is appended |
| `Products.ProductService.RetrieveProduct` | server/app/api/services/product.py:53-59 | returns a stored product with that id, or 404 exactly when no product has the id |
| `Products.ProductService.UpdateProduct` | server/app/api/services/product.py:71-92 | an absent id gives 404; renaming onto another product's non-empty name gives 400; keeping the name is allowed; otherwise only the set fields change; every failure leaves the table unchanged |
| `Products.ProductService.DeleteProduct` | server/app/api/services/product.py:107-116 | an absent id gives 404 and no change; otherwise exactly that product is removed |
| `CartItems.ItemView` | server/app/api/services/cart_item.py:99-112 | the ids, quantity and creation time are the row's; the product part is the product's id, name, price and stock; total_price is `LineTotal`, unit price x quantity |
| `CartItems.CartTotalAppend` | server/app/api/services/cart_item.py:126-131 | the cart total of a concatenation is the sum of the two totals |
| `CartItems.CartTotalNonNegative` | server/app/api/services/cart_item.py:126-131 | a cart whose lines have non-negative totals has a non-negative total |
| `CartItems.CartLinesFacts` | server/app/api/services/cart_item.py:129-153 | lines built from the join belong to the user, have total unit price x quantity, and correspond one to one, in order, to the user's rows whose product is stored; with no negative price or quantity the cart total is not negative |
| `CartItems.CartItemService.AddItemToCart` | server/app/api/services/cart_item.py:35-99 | a missing product gives 404 before the quantity check; quantity <= 0 gives 400; an existing row's quantity becomes old + requested and no second row is made; otherwise one row with the user's id, product id and quantity is added; a resulting quantity above stock gives 400; every failure leaves the cart unchanged; at most one row per (user, product) is kept |
| `CartItems.CartItemService.MergeIntoRow` | server/app/api/services/cart_item.py:55-75 | the existing row takes quantity old + requested, or 400 with nothing changed when that exceeds stock; the row count and the (user, product) uniqueness are kept |
| `CartItems.CartItemService.CreateRow` | server/app/api/services/cart_item.py:76-91 | one row with the user, product and requested quantity is appended, or 400 with nothing changed when the quantity exceeds stock; the (user, product) uniqueness is kept |
| `CartItems.CartItemService.GetUserCart` | server/app/api/services/cart_item.py:125-154 | one line per joined row, each belonging to the user with total = unit price x quantity; the lines follow the user's rows whose product is stored, one each and in table order, so items_count is their number; total_cart_value is the sum of the line totals; when no price and no quantity in the tables is negative, the cart total is not negative |
| `CartItems.CartItemService.UpdateCartItem` | server/app/api/services/cart_item.py:171-216 | an item not owned gives 404; quantity <= 0 gives 400; a vanished product gives 404; quantity > stock gives 400; no quantity leaves the row unchanged; otherwise the quantity is replaced, not added; failures change nothing |
| `CartItems.CartItemService.RemoveCartItem` | server/app/api/services/cart_item.py:241-251 | an item not owned by the user (another user's id included) gives 404 and no change; otherwise exactly that item is deleted |
| `CartItems.CartItemService.ClearUserCart` | server/app/api/services/cart_item.py:266-268 | deletes all of, and only, this user's rows |
| `CartItems.CartItemService.AddItemToCartAsWritten` | server/app/api/services/cart_item.py:22-113 | as written, with lazily evaluated annotations: the 404 and the two 400 outcomes of add_item_to_cart are kept with no change; a merged add rewrites the row to old + requested quantity, and a fresh add appends one row, before both are answered 500 |
| `CartItems.CartItemService.GetUserCartAsWritten` | server/app/api/services/cart_item.py:133-154 | as written, with lazily evaluated annotations, every call answers 500 and changes nothing |
| `CartItems.CartItemService.UpdateCartItemAsWritten` | server/app/api/services/cart_item.py:171-217 | as written, with lazily evaluated annotations, the 404 and 400 outcomes of update_cart_item are kept with no change; every update that passes them is written as UpdateCartItem writes it and then answered 500 |
| `Security.CredentialsException` | server/app/core/dependencies/security.py:32-36 | status 401, the invalid-credentials detail, and exactly one header, `WWW-Authenticate: Bearer` |
| `Security.GetCurrentUser` | server/app/core/dependencies/security.py:32-47 | succeeds exactly when the token's subject is a stored user's id, returning that user; every failure is 401 with `WWW-Authenticate: Bearer` |
| `Security.GetCurrentAdminUser` | server/app/core/dependencies/security.py:63-69 | fails with 403 exactly when the role is not "admin"; an admin is returned unchanged |
| `Security.RequireAdmin` | server/app/core/dependencies/security.py:49-69 | a user that passes the admin chain is stored and has role "admin" |
| `Security.RequireAdminOutcomes` | server/tests/test_products.py:12-29 | an unknown subject gives the 401 credentials error; a stored non-admin (such as a freshly registered user) gives 403; a stored admin is returned |
| `AdminScript.GetByEmail` | server/scripts/create_admin.py:33 | the user found has that email; none exactly when no user has it |
| `AdminScript.UserTable.CreateOrPromoteAdmin` | server/scripts/create_admin.py:33-50 | an existing admin means no change, even with a password; a non-admin is promoted, and their password is replaced by the hash only when a non-empty password is given; no user and no password is an error with no change; otherwise exactly one admin with that email and the hashed password is added; after any success the email's user is an admin |
| `AdminScript.UserTable.CreateOrPromoteTwice` | server/scripts/create_admin.py:35-38 | after a successful run, a second run reports "already an admin" and changes nothing |
| `AdminScript.PromoteKeepsKeys` | server/scripts/create_admin.py:39-43 | promoting keeps ids and emails distinct, and get_by_email then finds the promoted row |
| `AdminScript.GetByEmailOfAppended` | server/scripts/create_admin.py:48-50 | a created admin is what get_by_email finds for the new email |
| `Storage.KeysDistinct` | client/utils/storage.ts:3-5 | the three storage keys are pairwise distinct |
| `Storage.CredentialStore.SaveTokens` | client/utils/storage.ts:8-13 | both token keys hold the given tokens; every other key, the user record's included, is unchanged |
| `Storage.CredentialStore.GetAccessToken` | client/utils/storage.ts:15-17 | returns the stored access token, or null when none is stored |
| `Storage.CredentialStore.GetRefreshToken` | client/utils/storage.ts:19-21 | returns the stored refresh token, or null when none is stored |
| `Storage.CredentialStore.SaveUser` | client/utils/storage.ts:23-25 | writes only the user key; both token keys and all other keys are unchanged |
| `Storage.CredentialStore.GetUser` | client/utils/storage.ts:27-30 | null when no record is stored, or when the stored text is empty (JavaScript falsy); otherwise the stored record |
| `Storage.CredentialStore.ClearAll` | client/utils/storage.ts:32-34 | the three keys are gone and every other key is untouched |
| `Storage.SessionRoundTrip` | client/utils/storage.ts:8-34 | saveTokens(a, b) then the getters give a and b; a saved record is read back; after clearAll all three getters give null |

## Left out

- The `try/except` branches that turn an unexpected repository exception into a 500 are not modelled. The model keeps only the deterministic 500 caused by a rejected commit in `update_product`.
- SQLAlchemy sessions, `commit`/`refresh`, and the `updated_at` timestamp are left out: tables are in-memory sequences kept in insertion order.
- Row order is left out: SQL without ORDER BY does not fix it, and the model uses table order.
- Pagination is left out. `paginate`, `base_query`, `search_by_name` and `filter_by_stock` live in BaseRepository, which is not part of this model. The listing is modelled up to the point where it paginates; the defaults page 1 and page size 10 appear only as `DefaultListQuery`.
- BaseRepository's `get`, `create`, `update` and `delete` are not part of this model either. They are modelled as lookup by primary key, append, overwrite by primary key and delete by primary key.
- `CartItems.CartItemService.AddItemToCartAsWritten`, `CartItems.CartItemService.GetUserCartAsWritten` and `CartItems.CartItemService.UpdateCartItemAsWritten` assume lazily evaluated annotations (Python 3.14 and later). Under eager evaluation the cart service module fails at import (server/app/api/services/cart_item.py:24, 115 and 158), so no cart method runs and no row is written; that import failure is not modelled.
- Concurrent requests are left out: server requests are modelled one at a time. So "at most one row per (user, product)" is proved only for sequential requests. `add_item_to_cart` checks, then inserts, and no UNIQUE constraint backs the check, so two concurrent adds could insert two rows.
- `CartItems.CartItemService.GetUserCart`: the cart total is proved non-negative only under the hypothesis that no price or quantity is negative, because neither the product service nor the schema validates prices, and stock is not range-checked.
- `Products.ListProducts`: the name and stock filters are only the parameters `searchByName` and `filterByStock`, because their code is not shown.
- Float arithmetic in `total_price` and `unit_price`, and `float("inf")`, are left out. Prices are exact cents, and an absent upper bound is `AtLeast`.
- The DECIMAL(10, 2) precision limit and the 32-bit range of INTEGER columns are left out. Integers are unbounded.
- JWT decoding (`verify_jwt_token`) is left out: it is not part of this model. `Security.GetCurrentUser` takes the token's subject, with None standing for a token that the decoder rejects with the credentials exception.
- The text of `response_messages.INVALID_CREDENTIALS` and `ADMIN_PRIVILEGES_REQUIRED` is left out: that module is not part of this model, so those details are symbolic.
- Password hashing and `UserRepository` are left out: hashing is the parameter `hash`, and `get_by_email` is modelled as the first user with that exact email.
- In the admin script, argument parsing, logging and the session lifecycle are left out. `parser.error` is the `PasswordRequired` result.
- JSON serialisation in `saveUser`/`getUser` is left out: the user record is an opaque string.
- AsyncStorage's asynchrony is left out: each call is one atomic map update.
- Pydantic request validation is left out: types, and name length <= 255, are checked before the services run.
- FastAPI routes, dependency injection and response envelopes are left out.
- Foreign-key behaviour when a product that carts still reference is deleted is left out: it depends on the database engine. The join in `GetUserCartItems` drops such rows.
- The client's HTTP wrapper, its screens and its type declarations are left out: they are I/O and view code.

## Findings

| source | as written | input that shows it | evidently intended | confidence | as-written member | corrected member |
|---|---|---|---|---|---|---|
| server/app/api/services/product.py:153 | `get_by_price_range(query, min_price, max_price)` is called with three arguments, but the repository method at server/app/api/repositories/product.py:37 takes two, so Python raises a TypeError and the request ends in a 500 | a listing with `max_price=10.00` over a table holding a 5.00 product | the price rule narrows the already filtered query | not executed | `Products.ListProductsAsWritten`, `Products.PriceFilterAsWrittenFails` | `Products.ListProducts` |
| server/app/api/services/cart_item.py:100 | the response is built from `schemas.CartItemResponseData`, which server/app/api/v1/cart_items/schemas.py does not define; with lazily evaluated annotations (Python 3.14 and later) the AttributeError happens after the row was committed; with eager annotations the return annotation at line 24 already fails when the class is defined | adding 1 unit of an in-stock product that is not yet in the user's cart | answer with the cart item in the client's shape (client/types/cart.ts:8-16) | not executed | `CartItems.CartItemService.AddItemToCartAsWritten` | `CartItems.CartItemService.AddItemToCart` |
| server/app/api/services/cart_item.py:150 | the cart is built from `schemas.CartItemListResponseData` (and each line from `schemas.CartItemResponseData`, line 133), neither of which server/app/api/v1/cart_items/schemas.py defines; with lazily evaluated annotations (Python 3.14 and later) every call fails here or at line 133, and with eager annotations the return annotation at line 115 already fails when the class is defined | reading the cart of a user whose cart is empty | answer with the cart in the client's shape (client/types/cart.ts:18-22) | not executed | `CartItems.CartItemService.GetUserCartAsWritten` | `CartItems.CartItemService.GetUserCart` |
| server/app/api/services/cart_item.py:217 | after a successful update the response is built from `schemas.CartItemResponseData`, which the cart schema module does not define; with lazily evaluated annotations (Python 3.14 and later) the AttributeError happens after the row was written; with eager annotations the return annotation at line 158 already fails when the class is defined | setting quantity 1 on an owned item whose product is in stock | answer with the updated cart item in the client's shape | not executed | `CartItems.CartItemService.UpdateCartItemAsWritten` | `CartItems.CartItemService.UpdateCartItem` |
