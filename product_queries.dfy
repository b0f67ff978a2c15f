/** The product table and its repository queries (ProductRepository and the parts of
    BaseRepository it relies on). Every query is a function of the table: none changes it. */
module ProductQueries {
  import opened Wrappers
  import opened Models
  import opened Seqs

  /** The table's constraints: primary key `id`, UNIQUE `name`. */
  predicate ValidTable(t: seq<Product>) {
    Distinct(t, ProductId) && Distinct(t, ProductName)
  }

  function HasId(id: Id): Product -> bool { (p: Product) => p.id == id }
  function HasOtherId(id: Id): Product -> bool { (p: Product) => p.id != id }
  function HasName(name: string): Product -> bool { (p: Product) => p.name == name }
  function IsInStock(p: Product): bool { p.stock > 0 }
  function PriceWithin(minPrice: int, maxPrice: int): Product -> bool {
    (p: Product) => minPrice <= p.price && p.price <= maxPrice
  }

  /** BaseRepository.get: the product whose primary key is `id`, if any. */
  function GetById(t: seq<Product>, id: Id): (r: Option<Product>)
    ensures r.Some? ==> r.value in t && r.value.id == id
    ensures r.None? <==> forall p :: p in t ==> p.id != id
  {
    First(t, HasId(id))
  }

  /** get_by_name: a product whose name equals `name` exactly, if any. */
  function GetByName(t: seq<Product>, name: string): (r: Option<Product>)
    ensures r.Some? ==> r.value in t && r.value.name == name
    ensures r.None? <==> forall p :: p in t ==> p.name != name
  {
    First(t, HasName(name))
  }

  /** Names are unique, so the product `get_by_name` finds for a name is the only one
      that has it. */
  lemma GetByNameIsUnique(t: seq<Product>, p: Product)
    requires Distinct(t, ProductName)
    requires p in t
    ensures GetByName(t, p.name) == Some(p)
  {
    var q := GetByName(t, p.name).value;
    var i :| 0 <= i < |t| && t[i] == p;
    var j :| 0 <= j < |t| && t[j] == q;
    assert !(i < j) && !(j < i);
  }

  /** Primary keys are unique, so a product of the table is the one `get` finds by its id. */
  lemma GetByIdIsUnique(t: seq<Product>, p: Product)
    requires Distinct(t, ProductId)
    requires p in t
    ensures GetById(t, p.id) == Some(p)
  {
    var q := GetById(t, p.id).value;
    var i :| 0 <= i < |t| && t[i] == p;
    var j :| 0 <= j < |t| && t[j] == q;
    assert !(i < j) && !(j < i);
  }

  /** get_in_stock: exactly the products with stock > 0. */
  function GetInStock(t: seq<Product>): (r: seq<Product>)
    ensures |r| <= |t|
    ensures forall p :: p in r <==> p in t && p.stock > 0
  {
    Filter(t, IsInStock)
  }

  /** get_by_price_range: exactly the products with `minPrice <= price <= maxPrice`. */
  function GetByPriceRange(t: seq<Product>, minPrice: int, maxPrice: int): (r: seq<Product>)
    ensures |r| <= |t|
    ensures forall p :: p in r <==> p in t && minPrice <= p.price <= maxPrice
  {
    Filter(t, PriceWithin(minPrice, maxPrice))
  }

  /** Another product than `id` already carries `name`. */
  predicate NameTakenByOther(t: seq<Product>, id: Id, name: string) {
    exists q :: q in t && q.id != id && q.name == name
  }

  /** The `products` table behind a database session. Writes go through BaseRepository's
      create/update/delete, whose commit the database rejects when it would break the
      UNIQUE constraint on `name`. */
  class ProductRepository {
    var rows: seq<Product>

    ghost predicate Valid()
      reads this
    {
      ValidTable(rows)
    }

    constructor (rows: seq<Product>)
      requires ValidTable(rows)
      ensures Valid() && this.rows == rows
    {
      this.rows := rows;
    }

    /** BaseRepository.create. `p.id` is fresh: the database generates primary keys. */
    method Create(p: Product) returns (ok: bool)
      requires Valid()
      requires GetById(rows, p.id).None?
      modifies this
      ensures Valid()
      ensures ok <==> GetByName(old(rows), p.name).None?
      ensures rows == if ok then old(rows) + [p] else old(rows)
    {
      ok := GetByName(rows, p.name).None?;
      if ok {
        AppendDistinct(rows, p, ProductId);
        AppendDistinct(rows, p, ProductName);
        rows := rows + [p];
      }
    }

    /** BaseRepository.update: flushes the changed row `p` over the row with its id. */
    method Update(p: Product) returns (ok: bool)
      requires Valid()
      requires GetById(rows, p.id).Some?
      modifies this
      ensures Valid()
      ensures ok <==> !NameTakenByOther(old(rows), p.id, p.name)
      ensures rows == if ok then Replace(old(rows), HasId(p.id), p) else old(rows)
      ensures ok ==> forall q :: q in rows <==> q == p || (q in old(rows) && q.id != p.id)
    {
      ok := !NameTakenByOther(rows, p.id, p.name);
      if ok {
        ghost var was := rows;
        ReplaceDistinct(rows, HasId(p.id), p, ProductId);
        ReplaceDistinct(rows, HasId(p.id), p, ProductName);
        rows := Replace(rows, HasId(p.id), p);
        ghost var old' := GetById(was, p.id).value;
        forall q | q in rows ensures q == p || (q in was && q.id != p.id) {
          var i :| 0 <= i < |rows| && rows[i] == q;
        }
        forall q | q == p || (q in was && q.id != p.id) ensures q in rows {
          if q == p {
            var i :| 0 <= i < |was| && was[i] == old';
            assert rows[i] == p;
          } else {
            var i :| 0 <= i < |was| && was[i] == q;
            assert rows[i] == q;
          }
        }
      }
    }

    /** BaseRepository.delete: removes the row whose primary key is `id`. */
    method Delete(id: Id)
      requires Valid()
      modifies this
      ensures Valid()
      ensures rows == Filter(old(rows), HasOtherId(id))
    {
      FilterDistinct(rows, HasOtherId(id), ProductId);
      FilterDistinct(rows, HasOtherId(id), ProductName);
      rows := Filter(rows, HasOtherId(id));
    }
  }
}
