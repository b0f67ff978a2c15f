/** The `cart_items` table and CartItemRepository: three read-only queries and the
    writes the cart service performs. */
module CartItemQueries {
  import opened Wrappers
  import opened Models
  import opened Seqs
  import ProductQueries

  function HasItemId(id: Id): CartItem -> bool { (c: CartItem) => c.id == id }
  function HasOtherItemId(id: Id): CartItem -> bool { (c: CartItem) => c.id != id }
  function OwnedBy(userId: Id): CartItem -> bool { (c: CartItem) => c.userId == userId }
  function NotOwnedBy(userId: Id): CartItem -> bool { (c: CartItem) => c.userId != userId }
  function OwnedItem(itemId: Id, userId: Id): CartItem -> bool {
    (c: CartItem) => c.id == itemId && c.userId == userId
  }
  function OwnedProduct(userId: Id, productId: Id): CartItem -> bool {
    (c: CartItem) => c.userId == userId && c.productId == productId
  }

  /** get_user_cart_items: the user's rows, in table order, each paired with the product
      the inner join matches to it; a row whose product is gone has no partner and is
      dropped. Product ids are the products table's primary key, so the join matches at
      most one product per row. */
  function GetUserCartItems(rows: seq<CartItem>, products: seq<Product>, userId: Id): (r: seq<(CartItem, Product)>)
    ensures |r| <= |rows|
    ensures forall k :: 0 <= k < |r| ==>
      r[k].0 in rows && r[k].0.userId == userId && r[k].1 in products && r[k].1.id == r[k].0.productId
  {
    if rows == [] then []
    else
      var rest := GetUserCartItems(rows[1..], products, userId);
      var c := rows[0];
      if c.userId != userId then rest
      else match ProductQueries.GetById(products, c.productId)
        case None => rest
        case Some(p) => [(c, p)] + rest
  }

  /** The cart rows of a join result, in order. */
  function JoinedRows(r: seq<(CartItem, Product)>): (rows: seq<CartItem>)
    ensures |rows| == |r| && forall k :: 0 <= k < |r| ==> rows[k] == r[k].0
  {
    if r == [] then [] else [r[0].0] + JoinedRows(r[1..])
  }

  /** A row the join keeps: it belongs to the user and its product is stored. */
  function InJoin(products: seq<Product>, userId: Id): CartItem -> bool {
    (c: CartItem) => c.userId == userId && ProductQueries.GetById(products, c.productId).Some?
  }

  /** The join keeps exactly the user's rows whose product is stored, each once and in
      table order: its rows are the table filtered by `InJoin`. */
  lemma {:induction false} GetUserCartItemsRows(rows: seq<CartItem>, products: seq<Product>, userId: Id)
    ensures JoinedRows(GetUserCartItems(rows, products, userId)) == Filter(rows, InJoin(products, userId))
    ensures var kept := Filter(rows, InJoin(products, userId));
      |GetUserCartItems(rows, products, userId)| == |kept|
      && forall k :: 0 <= k < |kept| ==> GetUserCartItems(rows, products, userId)[k].0 == kept[k]
  {
    if rows != [] {
      GetUserCartItemsRows(rows[1..], products, userId);
    }
    assert JoinedRows(GetUserCartItems(rows, products, userId)) == Filter(rows, InJoin(products, userId));
  }

  /** Every row of the user whose product still exists appears in the join. */
  lemma {:induction false} GetUserCartItemsComplete(rows: seq<CartItem>, products: seq<Product>, userId: Id, c: CartItem)
    requires c in rows && c.userId == userId
    requires ProductQueries.GetById(products, c.productId).Some?
    ensures exists k :: 0 <= k < |GetUserCartItems(rows, products, userId)| && GetUserCartItems(rows, products, userId)[k].0 == c
  {
    var kept := Filter(rows, InJoin(products, userId));
    GetUserCartItemsRows(rows, products, userId);
    assert InJoin(products, userId)(c);
    var k :| 0 <= k < |kept| && kept[k] == c;
    assert GetUserCartItems(rows, products, userId)[k].0 == c;
  }

  /** get_product_from_user_cart: a row of this user for this product, if any. */
  function GetProductFromUserCart(rows: seq<CartItem>, userId: Id, productId: Id): (r: Option<CartItem>)
    ensures r.Some? ==> r.value in rows && r.value.userId == userId && r.value.productId == productId
    ensures r.None? <==> forall c :: c in rows ==> !(c.userId == userId && c.productId == productId)
  {
    First(rows, OwnedProduct(userId, productId))
  }

  /** get_user_cart_item: the row with id `itemId`, only when it belongs to `userId`. */
  function GetUserCartItem(rows: seq<CartItem>, itemId: Id, userId: Id): (r: Option<CartItem>)
    ensures r.Some? ==> r.value in rows && r.value.id == itemId && r.value.userId == userId
    ensures r.None? <==> forall c :: c in rows ==> !(c.id == itemId && c.userId == userId)
  {
    First(rows, OwnedItem(itemId, userId))
  }

  /** Ids are the primary key, so the row found by id is the only row with that id:
      overwriting the rows with its id by itself changes nothing. */
  lemma ReflushUnchanged(rows: seq<CartItem>, c: CartItem)
    requires Distinct(rows, CartItemId)
    requires c in rows
    ensures Replace(rows, HasItemId(c.id), c) == rows
  {
    forall y | y in rows && HasItemId(c.id)(y) ensures y == c {
      var i :| 0 <= i < |rows| && rows[i] == c;
      var j :| 0 <= j < |rows| && rows[j] == y;
      assert !(i < j) && !(j < i);
    }
    ReplaceUnchanged(rows, HasItemId(c.id), c);
  }

  /** Changing the quantity of a row keeps the table's keys distinct, both the primary
      key and the (user, product) pair. */
  lemma RequantifyDistinct(rows: seq<CartItem>, c: CartItem, quantity: int)
    requires Distinct(rows, CartItemId)
    requires c in rows
    ensures Distinct(Replace(rows, HasItemId(c.id), c.(quantity := quantity)), CartItemId)
    ensures Distinct(rows, OwnerAndProduct) ==>
      Distinct(Replace(rows, HasItemId(c.id), c.(quantity := quantity)), OwnerAndProduct)
  {
    var x := c.(quantity := quantity);
    ReplaceDistinct(rows, HasItemId(c.id), x, CartItemId);
    if Distinct(rows, OwnerAndProduct) {
      forall y | y in rows && !HasItemId(c.id)(y) ensures OwnerAndProduct(y) != OwnerAndProduct(x) {
        var i :| 0 <= i < |rows| && rows[i] == c;
        var j :| 0 <= j < |rows| && rows[j] == y;
        assert i != j;
      }
      ReplaceDistinct(rows, HasItemId(c.id), x, OwnerAndProduct);
    }
  }

  /** The `cart_items` table behind a database session. */
  class CartItemRepository {
    var rows: seq<CartItem>

    /** `id` is the primary key. Nothing in the schema makes (user, product) unique. */
    ghost predicate Valid()
      reads this
    {
      Distinct(rows, CartItemId)
    }

    constructor (rows: seq<CartItem>)
      requires Distinct(rows, CartItemId)
      ensures Valid() && this.rows == rows
    {
      this.rows := rows;
    }

    /** BaseRepository.create. `c.id` is fresh: the database generates primary keys. */
    method Create(c: CartItem)
      requires Valid()
      requires forall d :: d in rows ==> d.id != c.id
      modifies this
      ensures Valid()
      ensures rows == old(rows) + [c]
    {
      AppendDistinct(rows, c, CartItemId);
      rows := rows + [c];
    }

    /** BaseRepository.update: flushes the row `c`, taken from the table and changed only
      in its quantity, over the row with its id. */
    method Update(c: CartItem)
      requires Valid()
      requires exists d :: d in rows && d == c.(quantity := d.quantity)
      modifies this
      ensures Valid()
      ensures rows == Replace(old(rows), HasItemId(c.id), c)
    {
      var d :| d in rows && d == c.(quantity := d.quantity);
      RequantifyDistinct(rows, d, c.quantity);
      assert d.(quantity := c.quantity) == c;
      rows := Replace(rows, HasItemId(c.id), c);
    }

    /** BaseRepository.delete: removes the row whose primary key is `id`. */
    method Delete(id: Id)
      requires Valid()
      modifies this
      ensures Valid()
      ensures rows == Filter(old(rows), HasOtherItemId(id))
      ensures forall c :: c in rows <==> c in old(rows) && c.id != id
    {
      FilterDistinct(rows, HasOtherItemId(id), CartItemId);
      rows := Filter(rows, HasOtherItemId(id));
    }

    /** update_cart_item_quantity: sets the quantity of the row only when it belongs to
      `userId`, and returns the updated row; otherwise returns None and changes nothing. */
    method UpdateCartItemQuantity(itemId: Id, userId: Id, quantity: int) returns (r: Option<CartItem>)
      requires Valid()
      modifies this
      ensures Valid()
      ensures GetUserCartItem(old(rows), itemId, userId).None? ==> r.None? && rows == old(rows)
      ensures GetUserCartItem(old(rows), itemId, userId).Some? ==>
        r == Some(GetUserCartItem(old(rows), itemId, userId).value.(quantity := quantity))
        && rows == Replace(old(rows), HasItemId(itemId), r.value)
    {
      var found := GetUserCartItem(rows, itemId, userId);
      if found.Some? {
        var c := found.value.(quantity := quantity);
        RequantifyDistinct(rows, found.value, quantity);
        rows := Replace(rows, HasItemId(itemId), c);
        r := Some(c);
      } else {
        r := None;
      }
    }

    /** delete_cart_items_by_user_id: removes exactly the rows of `userId`. */
    method DeleteCartItemsByUserId(userId: Id)
      requires Valid()
      modifies this
      ensures Valid()
      ensures rows == Filter(old(rows), NotOwnedBy(userId))
      ensures forall c :: c in rows <==> c in old(rows) && c.userId != userId
    {
      FilterDistinct(rows, NotOwnedBy(userId), CartItemId);
      rows := Filter(rows, NotOwnedBy(userId));
    }
  }
}
