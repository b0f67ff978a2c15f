/** Rows of the server's tables, as the SQLAlchemy models declare them. */
module Models {
  import opened Wrappers

  /** Primary and foreign keys are strings generated by the database layer. */
  type Id = string

  /** A row of `products`. `price` is in integer cents (the column is DECIMAL(10, 2));
      `name` is UNIQUE and NOT NULL; `stock` is a plain INTEGER with no range check. */
  datatype Product = Product(id: Id, name: string, description: Option<string>, price: int, stock: int)

  /** A row of `cart_items`: one product in one user's cart. */
  datatype CartItem = CartItem(id: Id, userId: Id, productId: Id, quantity: int, createdAt: string)

  /** A row of `users`. `email` is UNIQUE; `password` holds a hash and may be NULL. */
  datatype User = User(id: Id, email: string, password: Option<string>, role: string)

  const AdminRole: string := "admin"

  // Column projections, used as keys of the tables' uniqueness constraints.
  function ProductId(p: Product): Id { p.id }
  function ProductName(p: Product): string { p.name }
  function CartItemId(c: CartItem): Id { c.id }
  function OwnerAndProduct(c: CartItem): (Id, Id) { (c.userId, c.productId) }
  function UserId(u: User): Id { u.id }
  function UserEmail(u: User): string { u.email }

  /** The lookup-by-primary-key predicate of `users`. */
  function HasUserId(id: Id): User -> bool { (u: User) => u.id == id }
}
