/** CartItemService: adding to, reading, updating, removing from and clearing the
    current user's cart, over the cart table and a read-only view of the product table. */
module CartItems {
  import opened Wrappers
  import opened Http
  import opened Models
  import opened Seqs
  import opened CartItemQueries
  import ProductQueries

  datatype CartItemCreateRequest = CartItemCreateRequest(productId: Id, quantity: int)
  datatype CartItemUpdateRequest = CartItemUpdateRequest(quantity: Option<int>)

  /** The response shapes the client declares for a cart item and a cart. */
  datatype CartProduct = CartProduct(id: Id, name: string, unitPrice: int, stock: int)
  datatype CartItemView = CartItemView(
    id: Id, userId: Id, productId: Id, quantity: int, totalPrice: int,
    product: CartProduct, createdAt: string)
  datatype CartView = CartView(totalCartValue: int, itemsCount: int, items: seq<CartItemView>)

  /** A line's total: unit price times quantity. */
  function LineTotal(unitPrice: int, quantity: int): int {
    unitPrice * quantity
  }

  /** The response for one row and its product: the line total is unit price times quantity. */
  function ItemView(c: CartItem, p: Product): (r: CartItemView)
    ensures r.id == c.id && r.userId == c.userId && r.productId == c.productId
    ensures r.quantity == c.quantity && r.createdAt == c.createdAt
    ensures r.product.id == p.id && r.product.name == p.name && r.product.stock == p.stock
    ensures r.product.unitPrice == p.price && r.totalPrice == LineTotal(p.price, c.quantity)
  {
    CartItemView(c.id, c.userId, c.productId, c.quantity, LineTotal(p.price, c.quantity),
                 CartProduct(p.id, p.name, p.price, p.stock), c.createdAt)
  }

  /** The sum of the line totals. */
  function CartTotal(items: seq<CartItemView>): int {
    if items == [] then 0 else CartTotal(items[..|items| - 1]) + items[|items| - 1].totalPrice
  }

  /** The cart total is additive over any split of the cart. */
  lemma {:induction false} CartTotalAppend(a: seq<CartItemView>, b: seq<CartItemView>)
    ensures CartTotal(a + b) == CartTotal(a) + CartTotal(b)
  {
    if b == [] {
      assert a + b == a;
    } else {
      var b' := b[..|b| - 1];
      assert (a + b)[..|a + b| - 1] == a + b';
      CartTotalAppend(a, b');
    }
  }

  /** No line has a negative total, so neither has the cart. */
  lemma {:induction false} CartTotalNonNegative(items: seq<CartItemView>)
    requires forall k :: 0 <= k < |items| ==> items[k].totalPrice >= 0
    ensures CartTotal(items) >= 0
  {
    if items != [] {
      CartTotalNonNegative(items[..|items| - 1]);
    }
  }

  lemma NonNegativeProduct(a: int, b: int)
    requires a >= 0 && b >= 0
    ensures LineTotal(a, b) >= 0
  {
  }

  /** What the cart's lines say about the join they were built from: each line belongs
      to the user and has total unit price times quantity; the lines follow the user's rows
      whose product is stored, one each and in table order; and with no negative price or
      quantity in the tables the cart total is not negative. */
  lemma CartLinesFacts(items: seq<CartItemView>, rows: seq<CartItem>, products: seq<Product>, userId: Id)
    requires var joined := GetUserCartItems(rows, products, userId);
      |items| == |joined| && forall k :: 0 <= k < |joined| ==> items[k] == ItemView(joined[k].0, joined[k].1)
    ensures forall k :: 0 <= k < |items| ==>
      items[k].userId == userId && items[k].totalPrice == LineTotal(items[k].product.unitPrice, items[k].quantity)
    ensures var kept := Filter(rows, InJoin(products, userId));
      |items| == |kept|
      && forall k :: 0 <= k < |kept| ==> items[k].id == kept[k].id && items[k].quantity == kept[k].quantity
    ensures (forall p :: p in products ==> p.price >= 0) ==>
      (forall c :: c in rows ==> c.quantity >= 0) ==> CartTotal(items) >= 0
  {
    GetUserCartItemsRows(rows, products, userId);
    if (forall p :: p in products ==> p.price >= 0) && (forall c :: c in rows ==> c.quantity >= 0) {
      forall k | 0 <= k < |items| ensures items[k].totalPrice >= 0 {
        var joined := GetUserCartItems(rows, products, userId);
        assert joined[k].1 in products && joined[k].0 in rows;
        NonNegativeProduct(joined[k].1.price, joined[k].0.quantity);
      }
      CartTotalNonNegative(items);
    }
  }

  class CartItemService {
    const repository: CartItemRepository
    const productRepository: ProductQueries.ProductRepository

    /** Both tables keep their keys; in particular product ids are unique, so the join
      pairs each cart row with at most one product. */
    ghost predicate Valid()
      reads this, repository, productRepository
    {
      repository.Valid() && productRepository.Valid()
    }

    constructor (repository: CartItemRepository, productRepository: ProductQueries.ProductRepository)
      ensures this.repository == repository && this.productRepository == productRepository
    {
      this.repository := repository;
      this.productRepository := productRepository;
    }

    /** add_item_to_cart. The product check (404) comes before the quantity check (400).
      A product already in the user's cart is merged into its row, whose quantity becomes
      old + requested; otherwise one new row is created. Either way the resulting quantity
      must not exceed the product's stock (400). Every failure leaves the cart unchanged,
      and at most one row per (user, product) is kept. */
    method AddItemToCart(currentUser: User, req: CartItemCreateRequest, freshId: Id, now: string)
      returns (r: Result<CartItemView, HttpError>)
      requires Valid()
      requires forall c :: c in repository.rows ==> c.id != freshId
      modifies repository
      ensures Valid()
      ensures ProductQueries.GetById(productRepository.rows, req.productId).None? ==>
        r == Err(Raise(NotFound, ProductMissing)) && repository.rows == old(repository.rows)
      ensures ProductQueries.GetById(productRepository.rows, req.productId).Some? && req.quantity <= 0 ==>
        r == Err(Raise(BadRequest, QuantityNotPositive)) && repository.rows == old(repository.rows)
      ensures ProductQueries.GetById(productRepository.rows, req.productId).Some? && req.quantity > 0 ==>
        var product := ProductQueries.GetById(productRepository.rows, req.productId).value;
        var existing := GetProductFromUserCart(old(repository.rows), currentUser.id, req.productId);
        existing.Some? ==>
          var merged := existing.value.(quantity := existing.value.quantity + req.quantity);
          if merged.quantity > product.stock then
            r == Err(Raise(BadRequest, MergedStockExceeded(product.stock, existing.value.quantity, req.quantity)))
            && repository.rows == old(repository.rows)
          else
            r == Ok(ItemView(merged, product))
            && repository.rows == Replace(old(repository.rows), HasItemId(merged.id), merged)
      ensures ProductQueries.GetById(productRepository.rows, req.productId).Some? && req.quantity > 0 ==>
        var product := ProductQueries.GetById(productRepository.rows, req.productId).value;
        var existing := GetProductFromUserCart(old(repository.rows), currentUser.id, req.productId);
        existing.None? ==>
          if req.quantity > product.stock then
            r == Err(Raise(BadRequest, StockExceeded(product.stock))) && repository.rows == old(repository.rows)
          else
            var created := CartItem(freshId, currentUser.id, req.productId, req.quantity, now);
            r == Ok(ItemView(created, product)) && repository.rows == old(repository.rows) + [created]
      ensures |repository.rows| <= |old(repository.rows)| + 1
      ensures Distinct(old(repository.rows), OwnerAndProduct) ==> Distinct(repository.rows, OwnerAndProduct)
    {
      var product := ProductQueries.GetById(productRepository.rows, req.productId);
      if product.None? {
        return Err(Raise(NotFound, ProductMissing));
      }
      if req.quantity <= 0 {
        return Err(Raise(BadRequest, QuantityNotPositive));
      }
      var existing := GetProductFromUserCart(repository.rows, currentUser.id, req.productId);
      if existing.Some? {
        r := MergeIntoRow(existing.value, req.quantity, product.value);
      } else {
        r := CreateRow(currentUser, req, product.value, freshId, now);
      }
    }

    /** The merge branch of add_item_to_cart: the user's row for the product takes quantity
      old + requested, unless that exceeds the stock (400, nothing changes). */
    method MergeIntoRow(existing: CartItem, quantity: int, product: Product)
      returns (r: Result<CartItemView, HttpError>)
      requires Valid()
      requires existing in repository.rows
      modifies repository
      ensures Valid()
      ensures var merged := existing.(quantity := existing.quantity + quantity);
        if merged.quantity > product.stock then
          r == Err(Raise(BadRequest, MergedStockExceeded(product.stock, existing.quantity, quantity)))
          && repository.rows == old(repository.rows)
        else
          r == Ok(ItemView(merged, product))
          && repository.rows == Replace(old(repository.rows), HasItemId(merged.id), merged)
      ensures |repository.rows| == |old(repository.rows)|
      ensures Distinct(old(repository.rows), OwnerAndProduct) ==> Distinct(repository.rows, OwnerAndProduct)
    {
      var newQuantity := existing.quantity + quantity;
      if newQuantity > product.stock {
        return Err(Raise(BadRequest, MergedStockExceeded(product.stock, existing.quantity, quantity)));
      }
      var item := existing.(quantity := newQuantity);
      RequantifyDistinct(repository.rows, existing, newQuantity);
      repository.Update(item);
      r := Ok(ItemView(item, product));
    }

    /** The create branch of add_item_to_cart: one new row with the requested quantity,
      unless that exceeds the stock (400, nothing changes). */
    method CreateRow(currentUser: User, req: CartItemCreateRequest, product: Product, freshId: Id, now: string)
      returns (r: Result<CartItemView, HttpError>)
      requires Valid()
      requires forall c :: c in repository.rows ==> c.id != freshId
      requires GetProductFromUserCart(repository.rows, currentUser.id, req.productId).None?
      modifies repository
      ensures Valid()
      ensures var created := CartItem(freshId, currentUser.id, req.productId, req.quantity, now);
        if req.quantity > product.stock then
          r == Err(Raise(BadRequest, StockExceeded(product.stock))) && repository.rows == old(repository.rows)
        else
          r == Ok(ItemView(created, product)) && repository.rows == old(repository.rows) + [created]
      ensures Distinct(old(repository.rows), OwnerAndProduct) ==> Distinct(repository.rows, OwnerAndProduct)
    {
      if req.quantity > product.stock {
        return Err(Raise(BadRequest, StockExceeded(product.stock)));
      }
      var item := CartItem(freshId, currentUser.id, req.productId, req.quantity, now);
      if Distinct(repository.rows, OwnerAndProduct) {
        AppendDistinct(repository.rows, item, OwnerAndProduct);
      }
      repository.Create(item);
      r := Ok(ItemView(item, product));
    }

    /** get_user_cart: one line per row of the user whose product exists, in table order,
      each with line total unit price times quantity; the cart total is the sum of the
      line totals and the item count is the number of lines. */
    method GetUserCart(currentUser: User) returns (r: CartView)
      ensures var joined := GetUserCartItems(repository.rows, productRepository.rows, currentUser.id);
        |r.items| == |joined|
        && forall k :: 0 <= k < |joined| ==> r.items[k] == ItemView(joined[k].0, joined[k].1)
      ensures forall k :: 0 <= k < |r.items| ==>
        r.items[k].userId == currentUser.id
        && r.items[k].totalPrice == LineTotal(r.items[k].product.unitPrice, r.items[k].quantity)
      ensures r.totalCartValue == CartTotal(r.items)
      ensures r.itemsCount == |r.items|
      ensures var kept := Filter(repository.rows, InJoin(productRepository.rows, currentUser.id));
        |r.items| == |kept|
        && forall k :: 0 <= k < |kept| ==>
          r.items[k].id == kept[k].id && r.items[k].quantity == kept[k].quantity
      ensures (forall p :: p in productRepository.rows ==> p.price >= 0) ==>
        (forall c :: c in repository.rows ==> c.quantity >= 0) ==> r.totalCartValue >= 0
    {
      var joined := GetUserCartItems(repository.rows, productRepository.rows, currentUser.id);
      var total := 0;
      var items: seq<CartItemView> := [];
      var i := 0;
      while i < |joined|
        invariant 0 <= i <= |joined|
        invariant |items| == i
        invariant forall k :: 0 <= k < i ==> items[k] == ItemView(joined[k].0, joined[k].1)
        invariant total == CartTotal(items)
      {
        var line := ItemView(joined[i].0, joined[i].1);
        total := total + line.totalPrice;
        CartTotalAppend(items, [line]);
        assert [line][..0] == [];
        items := items + [line];
        i := i + 1;
      }
      r := CartView(total, |items|, items);
      CartLinesFacts(items, repository.rows, productRepository.rows, currentUser.id);
    }

    /** update_cart_item: 404 unless the item exists and belongs to the user, then 400 for a
      quantity <= 0, then 404 if its product is gone, then 400 for a quantity above stock.
      A given quantity replaces the old one (it is not added); no quantity leaves the row
      as it was. */
    method UpdateCartItem(itemId: Id, currentUser: User, req: CartItemUpdateRequest)
      returns (r: Result<CartItemView, HttpError>)
      requires Valid()
      modifies repository
      ensures Valid()
      ensures GetUserCartItem(old(repository.rows), itemId, currentUser.id).None? ==>
        r == Err(Raise(NotFound, CartItemNotOwned)) && repository.rows == old(repository.rows)
      ensures GetUserCartItem(old(repository.rows), itemId, currentUser.id).Some? ==>
        var item := GetUserCartItem(old(repository.rows), itemId, currentUser.id).value;
        var product := ProductQueries.GetById(productRepository.rows, item.productId);
        if req.quantity.Some? && req.quantity.value <= 0 then
          r == Err(Raise(BadRequest, QuantityNotPositive)) && repository.rows == old(repository.rows)
        else if product.None? then
          r == Err(Raise(NotFound, ProductMissing)) && repository.rows == old(repository.rows)
        else if req.quantity.Some? && req.quantity.value > product.value.stock then
          r == Err(Raise(BadRequest, StockExceeded(product.value.stock))) && repository.rows == old(repository.rows)
        else if req.quantity.None? then
          r == Ok(ItemView(item, product.value)) && repository.rows == old(repository.rows)
        else
          r == Ok(ItemView(item.(quantity := req.quantity.value), product.value))
          && repository.rows == Replace(old(repository.rows), HasItemId(itemId), item.(quantity := req.quantity.value))
      ensures |repository.rows| == |old(repository.rows)|
      ensures Distinct(old(repository.rows), OwnerAndProduct) ==> Distinct(repository.rows, OwnerAndProduct)
    {
      var found := GetUserCartItem(repository.rows, itemId, currentUser.id);
      if found.None? {
        return Err(Raise(NotFound, CartItemNotOwned));
      }
      var item := found.value;
      if req.quantity.Some? && req.quantity.value <= 0 {
        return Err(Raise(BadRequest, QuantityNotPositive));
      }
      var product := ProductQueries.GetById(productRepository.rows, item.productId);
      if product.None? {
        return Err(Raise(NotFound, ProductMissing));
      }
      if req.quantity.Some? && req.quantity.value > product.value.stock {
        return Err(Raise(BadRequest, StockExceeded(product.value.stock)));
      }
      if req.quantity.Some? {
        item := item.(quantity := req.quantity.value);
      }
      RequantifyDistinct(repository.rows, found.value, item.quantity);
      if req.quantity.None? {
        ReflushUnchanged(repository.rows, item);
      }
      repository.Update(item);
      r := Ok(ItemView(item, product.value));
    }

    /** remove_cart_item: 404, changing nothing, unless the item belongs to the user;
      otherwise exactly that item is deleted. */
    method RemoveCartItem(itemId: Id, currentUser: User) returns (r: Outcome<HttpError>)
      requires Valid()
      modifies repository
      ensures Valid()
      ensures GetUserCartItem(old(repository.rows), itemId, currentUser.id).None? ==>
        r == Fail(Raise(NotFound, CartItemNotOwned)) && repository.rows == old(repository.rows)
      ensures GetUserCartItem(old(repository.rows), itemId, currentUser.id).Some? ==>
        r == Pass && forall c :: c in repository.rows <==> c in old(repository.rows) && c.id != itemId
      ensures Distinct(old(repository.rows), OwnerAndProduct) ==> Distinct(repository.rows, OwnerAndProduct)
    {
      var found := GetUserCartItem(repository.rows, itemId, currentUser.id);
      if found.None? {
        return Fail(Raise(NotFound, CartItemNotOwned));
      }
      if Distinct(repository.rows, OwnerAndProduct) {
        FilterDistinct(repository.rows, HasOtherItemId(itemId), OwnerAndProduct);
      }
      repository.Delete(itemId);
      r := Pass;
    }

    /** clear_user_cart: deletes all of, and only, the user's rows. */
    method ClearUserCart(currentUser: User)
      requires Valid()
      modifies repository
      ensures Valid()
      ensures forall c :: c in repository.rows <==> c in old(repository.rows) && c.userId != currentUser.id
      ensures Distinct(old(repository.rows), OwnerAndProduct) ==> Distinct(repository.rows, OwnerAndProduct)
    {
      if Distinct(repository.rows, OwnerAndProduct) {
        FilterDistinct(repository.rows, NotOwnedBy(currentUser.id), OwnerAndProduct);
      }
      repository.DeleteCartItemsByUserId(currentUser.id);
    }

    /** add_item_to_cart as written: the response is built from
      `schemas.CartItemResponseData`, which the cart schema module does not define. With
      lazily evaluated annotations (Python 3.14 and later) the method body runs, its 404
      and 400 outcomes are kept, and every successful write is followed by an
      AttributeError and a bare 500, after the row was already committed. (With eager
      annotations the return annotation fails when the class is defined, and no cart
      method runs at all.) */
    method AddItemToCartAsWritten(currentUser: User, req: CartItemCreateRequest, freshId: Id, now: string)
      returns (r: Result<CartItemView, HttpError>)
      requires Valid()
      requires forall c :: c in repository.rows ==> c.id != freshId
      modifies repository
      ensures Valid()
      ensures r.Err?
      ensures repository.rows != old(repository.rows) ==> r.error == Raise(InternalServerError, UnhandledException)
      ensures ProductQueries.GetById(productRepository.rows, req.productId).None? ==>
        r == Err(Raise(NotFound, ProductMissing)) && repository.rows == old(repository.rows)
      ensures ProductQueries.GetById(productRepository.rows, req.productId).Some? && req.quantity <= 0 ==>
        r == Err(Raise(BadRequest, QuantityNotPositive)) && repository.rows == old(repository.rows)
      ensures ProductQueries.GetById(productRepository.rows, req.productId).Some? && req.quantity > 0 ==>
        var product := ProductQueries.GetById(productRepository.rows, req.productId).value;
        var existing := GetProductFromUserCart(old(repository.rows), currentUser.id, req.productId);
        existing.Some? ==>
          var merged := existing.value.(quantity := existing.value.quantity + req.quantity);
          if merged.quantity > product.stock then
            r == Err(Raise(BadRequest, MergedStockExceeded(product.stock, existing.value.quantity, req.quantity)))
            && repository.rows == old(repository.rows)
          else
            r == Err(Raise(InternalServerError, UnhandledException))
            && repository.rows == Replace(old(repository.rows), HasItemId(merged.id), merged)
      ensures ProductQueries.GetById(productRepository.rows, req.productId).Some? && req.quantity > 0 ==>
        var product := ProductQueries.GetById(productRepository.rows, req.productId).value;
        var existing := GetProductFromUserCart(old(repository.rows), currentUser.id, req.productId);
        existing.None? ==>
          if req.quantity > product.stock then
            r == Err(Raise(BadRequest, StockExceeded(product.stock))) && repository.rows == old(repository.rows)
          else
            r == Err(Raise(InternalServerError, UnhandledException))
            && repository.rows == old(repository.rows) + [CartItem(freshId, currentUser.id, req.productId, req.quantity, now)]
    {
      r := AddItemToCart(currentUser, req, freshId, now);
      if r.Ok? {
        r := Err(Raise(InternalServerError, UnhandledException));
      }
    }

    /** get_user_cart as written: the cart is built from `schemas.CartItemResponseData`
      (for each line) and `schemas.CartItemListResponseData` (for the cart), neither of
      which the cart schema module defines. With lazily evaluated annotations (Python 3.14
      and later) even an empty cart reaches the second, so every call ends in an
      AttributeError and a bare 500; nothing is written. (With eager annotations the
      return annotation fails first, when the class is defined.) */
    method GetUserCartAsWritten(currentUser: User) returns (r: Result<CartView, HttpError>)
      ensures r == Err(Raise(InternalServerError, UnhandledException))
    {
      var joined := GetUserCartItems(repository.rows, productRepository.rows, currentUser.id);
      if |joined| > 0 {
        // the first line's `CartItemResponseData` fails
        return Err(Raise(InternalServerError, UnhandledException));
      }
      // `CartItemListResponseData` fails
      r := Err(Raise(InternalServerError, UnhandledException));
    }

    /** update_cart_item as written, with lazily evaluated annotations (Python 3.14 and
      later): its 404 and 400 checks raise before the response is built, but every update
      that passes them is written and then followed by the AttributeError on
      `schemas.CartItemResponseData`, answered with a bare 500. (With eager annotations
      the return annotation fails first, when the class is defined.) */
    method UpdateCartItemAsWritten(itemId: Id, currentUser: User, req: CartItemUpdateRequest)
      returns (r: Result<CartItemView, HttpError>)
      requires Valid()
      modifies repository
      ensures Valid()
      ensures r.Err?
      ensures GetUserCartItem(old(repository.rows), itemId, currentUser.id).None? ==>
        r == Err(Raise(NotFound, CartItemNotOwned)) && repository.rows == old(repository.rows)
      ensures GetUserCartItem(old(repository.rows), itemId, currentUser.id).Some? ==>
        var item := GetUserCartItem(old(repository.rows), itemId, currentUser.id).value;
        var product := ProductQueries.GetById(productRepository.rows, item.productId);
        if req.quantity.Some? && req.quantity.value <= 0 then
          r == Err(Raise(BadRequest, QuantityNotPositive)) && repository.rows == old(repository.rows)
        else if product.None? then
          r == Err(Raise(NotFound, ProductMissing)) && repository.rows == old(repository.rows)
        else if req.quantity.Some? && req.quantity.value > product.value.stock then
          r == Err(Raise(BadRequest, StockExceeded(product.value.stock))) && repository.rows == old(repository.rows)
        else if req.quantity.None? then
          r == Err(Raise(InternalServerError, UnhandledException)) && repository.rows == old(repository.rows)
        else
          r == Err(Raise(InternalServerError, UnhandledException))
          && repository.rows == Replace(old(repository.rows), HasItemId(itemId), item.(quantity := req.quantity.value))
    {
      r := UpdateCartItem(itemId, currentUser, req);
      if r.Ok? {
        r := Err(Raise(InternalServerError, UnhandledException));
      }
    }
  }
}
