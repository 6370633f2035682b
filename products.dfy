/** The products resource: the product-category join and the queries over it,
    and a controller whose actions replace, add and delete products. */
module Products {
  import opened Tables
  import opened Text
  import opened Entities
  import opened Http
  import opened Store

  /** The category a product's nullable `CategoryId` points at; a null key
      or a key no category has matches nothing. */
  function CategoryOf(p: Product, categories: seq<Category>): (r: Option<Category>)
    ensures r.Some? ==> r.value in categories && p.categoryId == Some(r.value.categoryId)
    ensures r.None? <==> p.categoryId.None? || !HasKey(categories, CategoryKey, p.categoryId.value)
  {
    if p.categoryId.None? then None else Find(categories, CategoryKey, p.categoryId.value)
  }

  /** The join's key condition: the product's category id matches a category. */
  predicate HasCategory(p: Product, categories: seq<Category>) {
    CategoryOf(p, categories).Some?
  }

  /** The products the inner join keeps, in product order. */
  function Categorised(products: seq<Product>, categories: seq<Category>): seq<Product> {
    Where(products, (p: Product) => HasCategory(p, categories))
  }

  /** One step of the join's filter. */
  lemma CategorisedCons(products: seq<Product>, categories: seq<Category>)
    requires |products| > 0
    ensures Categorised(products, categories) ==
      if HasCategory(products[0], categories)
      then [products[0]] + Categorised(products[1..], categories)
      else Categorised(products[1..], categories)
  {
  }

  /** `Products.Join(Categories, p => p.CategoryId, c => c.CategoryId, ...)`:
      an inner join, one row per product that has a category, in product order. */
  function Join(products: seq<Product>, categories: seq<Category>): (rows: seq<ProductRow>)
    ensures |rows| == |Categorised(products, categories)| <= |products|
    ensures forall i :: 0 <= i < |rows| ==>
      var p := Categorised(products, categories)[i];
      rows[i] == RowOf(p, CategoryOf(p, categories).value)
  {
    if |products| == 0 then []
    else
      var rest := Join(products[1..], categories);
      var w, w' := Categorised(products, categories), Categorised(products[1..], categories);
      CategorisedCons(products, categories);
      match CategoryOf(products[0], categories)
      case None => rest
      case Some(c) =>
        var rows := [RowOf(products[0], c)] + rest;
        assert forall i :: 0 < i < |rows| ==> rows[i] == rest[i - 1] && w[i] == w'[i - 1];
        rows
  }

  /** Every joined row comes from a stored product that has a category and
      carries that category's name, and every such product gives its row. */
  lemma JoinMembers(products: seq<Product>, categories: seq<Category>)
    ensures forall row :: row in Join(products, categories) ==>
      && ProductOf(row) in products
      && CategoryOf(ProductOf(row), categories).Some?
      && row == RowOf(ProductOf(row), CategoryOf(ProductOf(row), categories).value)
    ensures forall p :: p in products && CategoryOf(p, categories).Some? ==>
      RowOf(p, CategoryOf(p, categories).value) in Join(products, categories)
  {
    var rows := Join(products, categories);
    var w := Categorised(products, categories);
    forall row | row in rows
      ensures ProductOf(row) in products && CategoryOf(ProductOf(row), categories).Some?
      ensures row == RowOf(ProductOf(row), CategoryOf(ProductOf(row), categories).value)
    {
      var i :| 0 <= i < |rows| && rows[i] == row;
      assert w[i] in products && HasCategory(w[i], categories);
    }
    forall p | p in products && CategoryOf(p, categories).Some?
      ensures RowOf(p, CategoryOf(p, categories).value) in rows
    {
      var j :| 0 <= j < |products| && products[j] == p;
      assert HasCategory(products[j], categories);
      var i :| 0 <= i < |w| && w[i] == p;
      assert rows[i] == RowOf(p, CategoryOf(p, categories).value);
    }
  }

  /** GET api/products: the joined rows; an empty join answers 204. */
  function GetProducts(products: seq<Product>, categories: seq<Category>): (r: Response)
    ensures r.status == NoContent <==> forall p :: p in products ==> CategoryOf(p, categories).None?
    ensures r.status == NoContent ==> r.body == NoBody
    ensures r.status != NoContent ==>
      r.status == OK && r.body == ProductRows(Join(products, categories)) && |r.body.rows| > 0
  {
    var rows := Join(products, categories);
    if |rows| == 0 then Response(NoContent, NoBody)
    else
      assert rows[0] in rows;
      Response(OK, ProductRows(rows))
  }

  /** GET api/products/{id}: the stored product, or 404. */
  function GetProduct(products: seq<Product>, id: int): (r: Response)
    ensures r.status == NotFound <==> !HasKey(products, ProductKey, id)
    ensures r.status == NotFound ==> r.body == NoBody
    ensures r.status != NotFound ==>
      r.status == OK && r.body.ProductBody? && r.body.product in products && r.body.product.productId == id
  {
    match Find(products, ProductKey, id)
    case None => Response(NotFound, NoBody)
    case Some(product) => Response(OK, ProductBody(product))
  }

  /** `p.Category.CategoryName.StartsWith(prefix)`; a product without a
      category does not qualify. */
  predicate InCategoryStartingWith(p: Product, categories: seq<Category>, prefix: string) {
    match CategoryOf(p, categories)
    case None => false
    case Some(c) => StartsWith(c.categoryName, prefix)
  }

  /** The products filtered before the join in GetProductsByName. */
  function ProductsInCategoryStartingWith(products: seq<Product>, categories: seq<Category>, prefix: string): seq<Product> {
    Where(products, (p: Product) => InCategoryStartingWith(p, categories, prefix))
  }

  /** The joined rows whose category name starts with `prefix`. */
  function RowsStartingWith(rows: seq<ProductRow>, prefix: string): seq<ProductRow> {
    Where(rows, (row: ProductRow) => StartsWith(row.categoryName, prefix))
  }

  /** Filtering products by category-name prefix and then joining gives the
      same rows, in the same order, as joining and then filtering the rows. */
  lemma {:induction false} FilterThenJoin(products: seq<Product>, categories: seq<Category>, prefix: string)
    ensures Join(ProductsInCategoryStartingWith(products, categories, prefix), categories)
         == RowsStartingWith(Join(products, categories), prefix)
  {
    if |products| > 0 {
      FilterThenJoin(products[1..], categories, prefix);
      var rest := Join(products[1..], categories);
      match CategoryOf(products[0], categories)
      case None =>
      case Some(c) =>
        var row := RowOf(products[0], c);
        assert ([row] + rest)[0] == row && ([row] + rest)[1..] == rest;
        if StartsWith(c.categoryName, prefix) {
          var filtered := ProductsInCategoryStartingWith(products[1..], categories, prefix);
          assert ([products[0]] + filtered)[0] == products[0];
          assert ([products[0]] + filtered)[1..] == filtered;
        }
    }
  }

  /** GET /catname/{catname}: the joined rows of the products whose category
      name starts with `catname`. `ToList` never yields null, so the action
      always answers 200, also when no product qualifies. */
  function GetProductsByName(products: seq<Product>, categories: seq<Category>, catname: string): (r: Response)
    ensures r.status == OK && r.body.ProductRows?
    ensures r.body.rows == RowsStartingWith(Join(products, categories), catname)
    ensures forall row :: row in r.body.rows ==>
      StartsWith(row.categoryName, catname) && row in Join(products, categories)
  {
    var rows := Join(ProductsInCategoryStartingWith(products, categories, catname), categories);
    FilterThenJoin(products, categories, catname);
    assert forall row :: row in rows ==> StartsWith(row.categoryName, catname) && row in Join(products, categories) by {
      forall row | row in rows ensures StartsWith(row.categoryName, catname) && row in Join(products, categories) {
        var i :| 0 <= i < |rows| && rows[i] == row;
      }
    }
    Response(OK, ProductRows(rows))
  }

  /** `Products.Any(e => e.ProductId == id)`: agrees with the key lookup. */
  function ProductExists(products: seq<Product>, id: int): (b: bool)
    ensures b <==> Find(products, ProductKey, id).Some?
  {
    var b := exists p :: p in products && p.productId == id;
    assert b ==> HasKey(products, ProductKey, id) by {
      if b {
        var p :| p in products && p.productId == id;
        var i :| 0 <= i < |products| && products[i] == p;
        assert ProductKey(products[i]) == id;
      }
    }
    assert HasKey(products, ProductKey, id) ==> b by {
      if HasKey(products, ProductKey, id) {
        var i :| 0 <= i < |products| && ProductKey(products[i]) == id;
        assert products[i] in products;
      }
    }
    b
  }

  class ProductsController {
    const context: NorthwindContext

    constructor (context: NorthwindContext)
      ensures this.context == context
    {
      this.context := context;
    }

    /** PUT api/products/{id}: replaces product `id` wholesale by the body.
        A body for another id answers 400; an id no product has answers 404. */
    method PutProduct(id: int, product: Product) returns (r: Response)
      requires context.Valid()
      modifies context
      ensures context.Valid()
      ensures context.customers == old(context.customers) && context.orders == old(context.orders)
      ensures context.categories == old(context.categories)
      ensures id != product.productId ==> r == Response(BadRequest, NoBody) && unchanged(context)
      ensures id == product.productId && !old(ProductExists(context.products, id)) ==>
        r == Response(NotFound, NoBody) && unchanged(context)
      ensures r.status == NoContent <==> id == product.productId && old(ProductExists(context.products, id))
      ensures r.status == NoContent ==>
        && r.body == NoBody
        && context.products == Replace(old(context.products), ProductKey, product)
        && Find(context.products, ProductKey, id) == Some(product)
        && |context.products| == old(|context.products|)
      ensures forall k :: k != id ==> Find(context.products, ProductKey, k) == old(Find(context.products, ProductKey, k))
    {
      if id != product.productId {
        return Response(BadRequest, NoBody);
      }
      // Entry(product).State = Modified: SaveChangesAsync updates the row whose key is id.
      var existing := Find(context.products, ProductKey, id);
      if existing.None? {
        // No row was updated: DbUpdateConcurrencyException, and the handler re-checks existence.
        var stillThere := ProductExists(context.products, id);
        if !stillThere {
          return Response(NotFound, NoBody);
        }
        // The rethrow needs a concurrent writer to re-insert the row in between.
        assert false;
      }
      ghost var before := context.products;
      var updated := Replace(context.products, ProductKey, product);
      FindReplace(before, ProductKey, product, id);
      forall k | k != id
        ensures Find(updated, ProductKey, k) == Find(before, ProductKey, k)
      {
        FindReplace(before, ProductKey, product, k);
      }
      assert UniqueKeys(updated, ProductKey);
      assert ProductExists(before, id);
      context.products := updated;
      r := Response(NoContent, NoBody);
    }

    /** POST api/products: inserts the body and answers 201 with it. The
        action catches nothing, so an insert that fails on the key reaches
        the framework as a 500 and changes nothing. */
    method PostProduct(product: Product) returns (r: Response)
      requires context.Valid()
      modifies context
      ensures context.Valid()
      ensures context.customers == old(context.customers) && context.orders == old(context.orders)
      ensures context.categories == old(context.categories)
      ensures old(HasKey(context.products, ProductKey, product.productId)) ==>
        r == Response(InternalServerError, NoBody) && unchanged(context)
      ensures !old(HasKey(context.products, ProductKey, product.productId)) ==>
        && r == Response(Created, ProductBody(product))
        && context.products == old(context.products) + [product]
        && Find(context.products, ProductKey, product.productId) == Some(product)
      ensures forall k :: k != product.productId ==>
        Find(context.products, ProductKey, k) == old(Find(context.products, ProductKey, k))
    {
      if HasKey(context.products, ProductKey, product.productId) {
        return Response(InternalServerError, NoBody);
      }
      ghost var before := context.products;
      AppendKeepsUnique(before, ProductKey, product);
      forall k ensures Find(before + [product], ProductKey, k) ==
                       if k == product.productId then Some(product) else Find(before, ProductKey, k) {
        FindAppend(before, ProductKey, product, k);
      }
      context.products := context.products + [product];
      r := Response(Created, ProductBody(product));
    }

    /** DELETE api/products/{id}: removes product `id` and answers 204; an id
        no product has answers 404 and changes nothing. */
    method DeleteProduct(id: int) returns (r: Response)
      requires context.Valid()
      modifies context
      ensures context.Valid()
      ensures context.customers == old(context.customers) && context.orders == old(context.orders)
      ensures context.categories == old(context.categories)
      ensures r.status == NotFound <==> !old(HasKey(context.products, ProductKey, id))
      ensures r.status == NotFound ==> r.body == NoBody && unchanged(context)
      ensures r.status != NotFound ==>
        && r == Response(NoContent, NoBody)
        && context.products == Remove(old(context.products), ProductKey, id)
        && |context.products| == old(|context.products|) - 1
      ensures !HasKey(context.products, ProductKey, id)
      ensures forall k :: k != id ==> Find(context.products, ProductKey, k) == old(Find(context.products, ProductKey, k))
    {
      var product := Find(context.products, ProductKey, id);
      if product.None? {
        return Response(NotFound, NoBody);
      }
      ghost var before := context.products;
      var remaining := Remove(context.products, ProductKey, id);
      RemoveSize(before, ProductKey, id);
      SubsequenceKeepsUnique(remaining, before, ProductKey);
      forall k | k != id
        ensures Find(remaining, ProductKey, k) == Find(before, ProductKey, k)
      {
        FindRemove(before, ProductKey, id, k);
      }
      context.products := remaining;
      r := Response(NoContent, NoBody);
    }
  }
}
