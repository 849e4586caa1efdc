/** The backend's product catalog: the product record, the static seed
    array, and the two endpoints over it, `GET /products` and
    `GET /products/{id}`. Both backend versions declare the same array and the
    same two handlers; they are defined once here. */
module Catalog {
  import opened Results

  /** `record Product(int Id, string Name, string Description, decimal Price)`.
      The decimal price is kept as a whole number of cents: nothing computes with it. */
  datatype Product = Product(id: int, name: string, description: string, priceCents: int)

  /** Index `i` holds the first product of `products` whose id is `id`. */
  ghost predicate IsFirstMatch(products: seq<Product>, id: int, i: int)
  {
    && 0 <= i < |products|
    && products[i].id == id
    && forall j :: 0 <= j < i ==> products[j].id != id
  }

  /** Some product of `products` carries the id `id`. */
  ghost predicate HasId(products: seq<Product>, id: int)
  {
    exists i :: 0 <= i < |products| && products[i].id == id
  }

  /** No two products share an id. */
  ghost predicate DistinctIds(products: seq<Product>)
  {
    forall i, j :: 0 <= i < j < |products| ==> products[i].id != products[j].id
  }

  /** `products.FirstOrDefault(p => p.Id == id)`: the first product, in array
      order, whose id is `id`, or null (`None`) when there is none. */
  function FirstOrDefault(products: seq<Product>, id: int): (r: Option<Product>)
    ensures r.None? <==> !HasId(products, id)
    ensures r.Some? ==> exists i :: IsFirstMatch(products, id, i) && products[i] == r.value
  {
    if |products| == 0 then None
    else if products[0].id == id then
      assert IsFirstMatch(products, id, 0);
      Some(products[0])
    else
      var r := FirstOrDefault(products[1..], id);
      assert HasId(products[1..], id) <==> HasId(products, id) by {
        if HasId(products, id) {
          var i :| 0 <= i < |products| && products[i].id == id;
          assert products[1..][i - 1].id == id;
        }
        if HasId(products[1..], id) {
          var i :| 0 <= i < |products[1..]| && products[1..][i].id == id;
          assert products[i + 1].id == id;
        }
      }
      assert forall i :: IsFirstMatch(products[1..], id, i) ==> IsFirstMatch(products, id, i + 1);
      r
  }

  /** The static product array, in seed order (prices in cents). */
  function Seed(): (products: seq<Product>)
    ensures |products| == 5
    ensures forall i :: 0 <= i < |products| ==> products[i].id == i + 1
    ensures DistinctIds(products)
  {
    [ Product(1, "Laptop", "High-performance laptop", 129999),
      Product(2, "Smartphone", "Latest model smartphone", 89999),
      Product(3, "Headphones", "Wireless noise-cancelling headphones", 24999),
      Product(4, "Keyboard", "Mechanical gaming keyboard", 12999),
      Product(5, "Mouse", "Ergonomic wireless mouse", 5999) ]
  }

  /** `GET /products`: always 200, with the array as it is, in its own order. */
  function GetProducts(products: seq<Product>): (r: HttpResult<seq<Product>>)
    ensures r.Ok? && r.value == products
  {
    Ok(products)
  }

  /** `GET /products/{id}`: 200 with the first product whose id is `id`,
      404 when no product has it. */
  function GetProductById(products: seq<Product>, id: int): (r: HttpResult<Product>)
    ensures r.NotFound? <==> !HasId(products, id)
    ensures r.Ok? ==> r.value.id == id && r.value in products
    ensures r.Ok? ==> exists i :: IsFirstMatch(products, id, i) && products[i] == r.value
  {
    var product := FirstOrDefault(products, id);
    if product.Some? then Ok(product.value) else NotFound
  }

  /** When ids are distinct, every listed product is what the lookup returns
      for its id, and an id that no listed product carries gives 404. */
  lemma ListingAgreesWithLookup(products: seq<Product>, id: int)
    requires DistinctIds(products)
    ensures forall k :: 0 <= k < |GetProducts(products).value| ==>
              GetProductById(products, GetProducts(products).value[k].id) == Ok(GetProducts(products).value[k])
    ensures (forall k :: 0 <= k < |GetProducts(products).value| ==> GetProducts(products).value[k].id != id)
              ==> GetProductById(products, id) == NotFound
  {
    if HasId(products, id) {
      var i :| 0 <= i < |products| && products[i].id == id;
      assert GetProducts(products).value[i].id == id;
    }
  }

  /** On the seed, the lookup succeeds exactly for ids 1 to 5 and returns the
      product at position id - 1. */
  lemma SeedLookup(id: int)
    ensures GetProductById(Seed(), id).Ok? <==> 1 <= id <= 5
    ensures 1 <= id <= 5 ==> GetProductById(Seed(), id) == Ok(Seed()[id - 1])
  {
    if 1 <= id <= 5 {
      ListingAgreesWithLookup(Seed(), id);
      assert GetProducts(Seed()).value[id - 1].id == id;
    }
  }

  /** `GET /products/3` and `GET /products/99` on the seed catalog. */
  lemma ConcreteLookups()
    ensures GetProductById(Seed(), 3)
              == Ok(Product(3, "Headphones", "Wireless noise-cancelling headphones", 24999))
    ensures GetProductById(Seed(), 99) == NotFound
  {
    SeedLookup(3);
    SeedLookup(99);
  }

  /** Searching a concatenation finds a match in the first part before
      anything in the second part. */
  lemma {:induction false} FirstOrDefaultAppend(front: seq<Product>, back: seq<Product>, id: int)
    ensures FirstOrDefault(front + back, id)
              == if HasId(front, id) then FirstOrDefault(front, id) else FirstOrDefault(back, id)
  {
    if |front| > 0 && front[0].id != id {
      FirstOrDefaultAppend(front[1..], back, id);
      assert (front + back)[1..] == front[1..] + back;
    } else if |front| == 0 {
      assert front + back == back;
    }
  }
}
