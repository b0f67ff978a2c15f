/** ProductService: the admin catalogue operations and the filtered product listing. */
module Products {
  import opened Wrappers
  import opened Http
  import opened Models
  import opened Seqs
  import opened ProductQueries

  /** The body of a create request. */
  datatype ProductCreateRequest = ProductCreateRequest(name: string, description: Option<string>, price: int, stock: int)

  /** How a partial-update request treats one field: left out of the JSON body, sent as
      `null`, or sent with a value. Only the first kind is excluded by `exclude_unset`. */
  datatype Patch<T> = Unset | SetNull | SetTo(value: T)

  /** The body of an update request. */
  datatype ProductUpdateRequest = ProductUpdateRequest(
    name: Patch<string>, description: Patch<string>, price: Patch<int>, stock: Patch<int>)

  /** Python's truthiness of `schema.name`: a name was sent and it is not empty. */
  predicate NameGiven(req: ProductUpdateRequest) {
    req.name.SetTo? && req.name.value != ""
  }

  function PatchedValue<T>(current: T, patch: Patch<T>): T {
    if patch.SetTo? then patch.value else current
  }

  /** The `setattr` loop over the fields the request set. None when it writes NULL into a
      NOT NULL column (name, price, stock), which the database then refuses to commit. */
  function ApplyUpdate(p: Product, req: ProductUpdateRequest): (r: Option<Product>)
    ensures r.Some? <==> !req.name.SetNull? && !req.price.SetNull? && !req.stock.SetNull?
    ensures r.Some? ==> r.value.id == p.id
    ensures r.Some? && req.name.Unset? ==> r.value.name == p.name
    ensures r.Some? && req.name.SetTo? ==> r.value.name == req.name.value
    ensures r.Some? && req.description.Unset? ==> r.value.description == p.description
    ensures r.Some? && req.description.SetNull? ==> r.value.description == None
    ensures r.Some? && req.description.SetTo? ==> r.value.description == Some(req.description.value)
    ensures r.Some? && req.price.Unset? ==> r.value.price == p.price
    ensures r.Some? && req.price.SetTo? ==> r.value.price == req.price.value
    ensures r.Some? && req.stock.Unset? ==> r.value.stock == p.stock
    ensures r.Some? && req.stock.SetTo? ==> r.value.stock == req.stock.value
  {
    if req.name.SetNull? || req.price.SetNull? || req.stock.SetNull? then None
    else
      var description := match req.description
        case Unset => p.description
        case SetNull => None
        case SetTo(d) => Some(d);
      Some(Product(p.id, PatchedValue(p.name, req.name), description,
                   PatchedValue(p.price, req.price), PatchedValue(p.stock, req.stock)))
  }

  /** An update request that sets no field leaves the product as it is. */
  lemma EmptyUpdateIsIdentity(p: Product)
    ensures ApplyUpdate(p, ProductUpdateRequest(Unset, Unset, Unset, Unset)) == Some(p)
  {
  }

  /** The query parameters of a listing; `page` and `pageSize` default to 1 and 10. */
  datatype ListQuery = ListQuery(
    name: Option<string>, inStock: Option<bool>, minPrice: Option<int>, maxPrice: Option<int>,
    page: int, pageSize: int)

  function DefaultListQuery(): ListQuery {
    ListQuery(None, None, None, None, 1, 10)
  }

  /** The price filter a listing applies; the `float("inf")` upper bound is `AtLeast`. */
  datatype PriceBound = Unbounded | Between(lo: int, hi: int) | AtLeast(lo: int)

  predicate InPriceBound(b: PriceBound, price: int) {
    match b
    case Unbounded => true
    case Between(lo, hi) => lo <= price <= hi
    case AtLeast(lo) => lo <= price
  }

  /** The price rule of list_products: both bounds give [min, max], only a minimum gives
      [min, infinity), only a maximum gives [0, max], neither gives no filter. So a price
      passes exactly when it meets each given bound inclusively, and a lone maximum also
      excludes negative prices. */
  function PriceFilter(minPrice: Option<int>, maxPrice: Option<int>): (b: PriceBound)
    ensures forall price :: InPriceBound(b, price) <==>
      (minPrice.Some? ==> minPrice.value <= price)
      && (maxPrice.Some? ==> price <= maxPrice.value)
      && (minPrice.None? && maxPrice.Some? ==> 0 <= price)
  {
    match (minPrice, maxPrice)
    case (Some(lo), Some(hi)) => Between(lo, hi)
    case (Some(lo), None) => AtLeast(lo)
    case (None, Some(hi)) => Between(0, hi)
    case (None, None) => Unbounded
  }

  function AtLeastPrice(lo: int): Product -> bool { (p: Product) => lo <= p.price }
  function NameStep(name: Option<string>, searchByName: (Option<string>, Product) -> bool): Product -> bool {
    (p: Product) => searchByName(name, p)
  }
  function StockStep(inStock: Option<bool>, filterByStock: (Option<bool>, Product) -> bool): Product -> bool {
    (p: Product) => filterByStock(inStock, p)
  }

  /** Applies the price filter to an already filtered query, as `get_by_price_range`
      was evidently meant to. */
  function RestrictPrice(t: seq<Product>, b: PriceBound): (r: seq<Product>)
    ensures forall p :: p in r <==> p in t && InPriceBound(b, p.price)
  {
    match b
    case Unbounded => t
    case Between(lo, hi) => GetByPriceRange(t, lo, hi)
    case AtLeast(lo) => Filter(t, AtLeastPrice(lo))
  }

  /** list_products before pagination: the name filter, the stock filter and the price
      filter applied one after another. `searchByName` and `filterByStock` stand for the
      BaseRepository filters of the same names, which receive the optional argument. */
  function ListProducts(t: seq<Product>, q: ListQuery,
                        searchByName: (Option<string>, Product) -> bool,
                        filterByStock: (Option<bool>, Product) -> bool): (r: seq<Product>)
    ensures |r| <= |t|
    ensures forall p :: p in r <==>
      p in t && searchByName(q.name, p) && filterByStock(q.inStock, p)
      && InPriceBound(PriceFilter(q.minPrice, q.maxPrice), p.price)
  {
    var byName := Filter(t, NameStep(q.name, searchByName));
    var byStock := Filter(byName, StockStep(q.inStock, filterByStock));
    var r := RestrictPrice(byStock, PriceFilter(q.minPrice, q.maxPrice));
    assert forall p :: p in r ==> p in byStock;
    r
  }

  /** list_products as written: it calls `get_by_price_range(query, min, max)`, but the
      repository method takes `(min_price, max_price)`, so any price bound raises a
      TypeError that FastAPI answers with a bare 500. */
  function ListProductsAsWritten(t: seq<Product>, q: ListQuery,
                                 searchByName: (Option<string>, Product) -> bool,
                                 filterByStock: (Option<bool>, Product) -> bool): (r: Result<seq<Product>, HttpError>)
    ensures r.Err? <==> q.minPrice.Some? || q.maxPrice.Some?
    ensures r.Err? ==> r.error == Raise(InternalServerError, UnhandledException)
    ensures r.Ok? ==> forall p :: p in r.value <==>
      p in t && searchByName(q.name, p) && filterByStock(q.inStock, p)
  {
    var byName := Filter(t, NameStep(q.name, searchByName));
    var byStock := Filter(byName, StockStep(q.inStock, filterByStock));
    if q.minPrice.Some? || q.maxPrice.Some? then Err(Raise(InternalServerError, UnhandledException))
    else Ok(byStock)
  }

  /** The discrepancy: a products table holding a 500-cent product, asked for products of
      at most 10.00, fails as written, while the intended listing returns that product. */
  lemma PriceFilterAsWrittenFails()
    ensures var t := [Product("p1", "Mug", None, 500, 3)];
            var q := DefaultListQuery().(maxPrice := Some(1000));
            var anyName := (n: Option<string>, p: Product) => true;
            var anyStock := (s: Option<bool>, p: Product) => true;
            ListProductsAsWritten(t, q, anyName, anyStock).Err?
            && ListProducts(t, q, anyName, anyStock) == t
  {
    var t := [Product("p1", "Mug", None, 500, 3)];
    var q := DefaultListQuery().(maxPrice := Some(1000));
    var anyName := (n: Option<string>, p: Product) => true;
    var anyStock := (s: Option<bool>, p: Product) => true;
    var r := ListProducts(t, q, anyName, anyStock);
    assert t[0] in r;
    assert |r| == 1;
    assert r == [t[0]];
  }

  class ProductService {
    const repository: ProductRepository

    ghost predicate Valid()
      reads this, repository
    {
      repository.Valid()
    }

    constructor (repository: ProductRepository)
      ensures this.repository == repository
    {
      this.repository := repository;
    }

    /** create_product: refused with 400 when the name is taken; otherwise exactly one
      product with the request's fields and the fresh id is added. */
    method CreateProduct(req: ProductCreateRequest, freshId: Id) returns (r: Result<Product, HttpError>)
      requires Valid()
      requires GetById(repository.rows, freshId).None?
      modifies repository
      ensures Valid()
      ensures GetByName(old(repository.rows), req.name).Some? ==>
        r == Err(Raise(BadRequest, DuplicateProductName)) && repository.rows == old(repository.rows)
      ensures GetByName(old(repository.rows), req.name).None? ==>
        r == Ok(Product(freshId, req.name, req.description, req.price, req.stock))
        && repository.rows == old(repository.rows) + [r.value]
    {
      if GetByName(repository.rows, req.name).Some? {
        return Err(Raise(BadRequest, DuplicateProductName));
      }
      var product := Product(freshId, req.name, req.description, req.price, req.stock);
      var ok := repository.Create(product);
      r := Ok(product);
    }

    /** retrieve_product: the stored product with that id, or 404. */
    method RetrieveProduct(id: Id) returns (r: Result<Product, HttpError>)
      ensures r.Ok? ==> r.value in repository.rows && r.value.id == id
      ensures r.Err? <==> forall p :: p in repository.rows ==> p.id != id
      ensures r.Err? ==> r.error == Raise(NotFound, ProductNotFound)
    {
      var product := GetById(repository.rows, id);
      if product.None? {
        return Err(Raise(NotFound, ProductNotFound));
      }
      r := Ok(product.value);
    }

    /** update_product: 404 for an absent id; 400 when a non-empty new name differs from
      the current one and another product holds it; otherwise the fields the request set
      are written, and the commit fails with 500 when it writes NULL into a NOT NULL column
      or an empty name that another product holds. */
    method UpdateProduct(id: Id, req: ProductUpdateRequest) returns (r: Result<Product, HttpError>)
      requires Valid()
      modifies repository
      ensures Valid()
      ensures GetById(old(repository.rows), id).None? ==>
        r == Err(Raise(NotFound, ProductNotFound)) && repository.rows == old(repository.rows)
      ensures GetById(old(repository.rows), id).Some? ==>
        var current := GetById(old(repository.rows), id).value;
        var renamed := NameGiven(req) && req.name.value != current.name;
        var updated := ApplyUpdate(current, req);
        if renamed && GetByName(old(repository.rows), req.name.value).Some? then
          r == Err(Raise(BadRequest, DuplicateProductName)) && repository.rows == old(repository.rows)
        else if updated.None? || NameTakenByOther(old(repository.rows), id, updated.value.name) then
          r == Err(Raise(InternalServerError, ErrorUpdatingProduct)) && repository.rows == old(repository.rows)
        else
          r == Ok(updated.value) && repository.rows == Replace(old(repository.rows), HasId(id), updated.value)
      ensures r.Ok? ==> forall p :: p in repository.rows <==>
        p == r.value || (p in old(repository.rows) && p.id != id)
    {
      var found := GetById(repository.rows, id);
      if found.None? {
        return Err(Raise(NotFound, ProductNotFound));
      }
      var current := found.value;
      if NameGiven(req) && req.name.value != current.name {
        if GetByName(repository.rows, req.name.value).Some? {
          return Err(Raise(BadRequest, DuplicateProductName));
        }
      }
      var updated := ApplyUpdate(current, req);
      if updated.None? {
        return Err(Raise(InternalServerError, ErrorUpdatingProduct));
      }
      var ok := repository.Update(updated.value);
      if !ok {
        return Err(Raise(InternalServerError, ErrorUpdatingProduct));
      }
      r := Ok(updated.value);
    }

    /** delete_product: 404 for an absent id; otherwise exactly that product is removed. */
    method DeleteProduct(id: Id) returns (r: Outcome<HttpError>)
      requires Valid()
      modifies repository
      ensures Valid()
      ensures GetById(old(repository.rows), id).None? ==>
        r == Fail(Raise(NotFound, ProductNotFound)) && repository.rows == old(repository.rows)
      ensures GetById(old(repository.rows), id).Some? ==>
        r == Pass && forall p :: p in repository.rows <==> p in old(repository.rows) && p.id != id
    {
      if GetById(repository.rows, id).None? {
        return Fail(Raise(NotFound, ProductNotFound));
      }
      repository.Delete(id);
      r := Pass;
    }
  }
}
