/**
 * The product service over its tables: categories, products (with their variants) and the
 * product-category links. Listing queries expand the category to its descendants; create,
 * update and bulk delete check the ids they are given.
 */
module ProductStore {
  import opened Wrappers
  import Seqs
  import Categories
  import opened Catalogue

  /** A `productCategory` row. */
  datatype ProductLink = ProductLink(productId: int, categoryId: int)

  datatype Outcome<T> = Ok(value: T) | Failed(status: int, message: string)

  predicate UniqueProductIds(ps: seq<Product>) {
    Seqs.UniqueBy(ps, ProductId)
  }

  /** `product.findUnique({ where: { id } })`. */
  function FindProduct(ps: seq<Product>, id: int): (r: Option<Product>)
    ensures r.Some? ==> r.value in ps && r.value.id == id
    ensures r.None? <==> !HasId(ps, id)
  {
    if ps == [] then None
    else if ps[0].id == id then Some(ps[0])
    else
      assert forall p :: p in ps <==> p == ps[0] || p in ps[1..];
      FindProduct(ps[1..], id)
  }

  /** The link rows whose category is one of `ids`, joined with their product. */
  function LinkedProducts(links: seq<ProductLink>, ps: seq<Product>, ids: seq<int>): (r: seq<Product>)
    ensures forall p :: p in r ==> p in ps && exists l :: l in links && l.productId == p.id && l.categoryId in ids
    ensures forall l :: l in links && l.categoryId in ids && HasId(ps, l.productId) ==>
              FindProduct(ps, l.productId).value in r
  {
    if links == [] then []
    else
      var l := links[0];
      var p := FindProduct(ps, l.productId);
      assert forall x :: x in links <==> x == l || x in links[1..];
      (if l.categoryId in ids && p.Some? then [p.value] else []) + LinkedProducts(links[1..], ps, ids)
  }

  /** `rows.flatMap(p => p.productDetails.map(d => d.size))`. */
  function SizeValues(rows: seq<Product>): (r: seq<Option<string>>)
    ensures forall x :: x in r <==> exists p, v :: p in rows && v in p.variants && v.size == x
  {
    if rows == [] then []
    else
      assert forall p :: p in rows <==> p == rows[0] || p in rows[1..];
      var col := SizeColumn(rows[0].variants);
      assert forall x :: x in col <==> exists v :: v in rows[0].variants && v.size == x by {
        forall x | x in col ensures exists v :: v in rows[0].variants && v.size == x {
          var i :| 0 <= i < |col| && col[i] == x;
          assert rows[0].variants[i] in rows[0].variants;
        }
      }
      col + SizeValues(rows[1..])
  }

  function ColorValues(rows: seq<Product>): (r: seq<Option<string>>)
    ensures forall x :: x in r <==> exists p, v :: p in rows && v in p.variants && v.color == x
  {
    if rows == [] then []
    else
      assert forall p :: p in rows <==> p == rows[0] || p in rows[1..];
      var col := ColorColumn(rows[0].variants);
      assert forall x :: x in col <==> exists v :: v in rows[0].variants && v.color == x by {
        forall x | x in col ensures exists v :: v in rows[0].variants && v.color == x {
          var i :| 0 <= i < |col| && col[i] == x;
          assert rows[0].variants[i] in rows[0].variants;
        }
      }
      col + ColorValues(rows[1..])
  }

  /** `filter(Boolean)` on nullable strings: drops nulls and empty strings. */
  function Truthy(xs: seq<Option<string>>): (r: seq<string>)
    ensures forall x :: x in r <==> x != "" && Some(x) in xs
  {
    if xs == [] then []
    else
      assert forall y :: y in xs <==> y == xs[0] || y in xs[1..];
      (if xs[0].Some? && xs[0].value != "" then [xs[0].value] else []) + Truthy(xs[1..])
  }

  /** The sizes offered in a category listing: distinct, non-empty, each from some linked variant. */
  function CategorySizes(rows: seq<Product>): (r: seq<string>)
    ensures Seqs.NoDup(r)
    ensures forall x :: x in r <==> x != "" && exists p, v :: p in rows && v in p.variants && v.size == Some(x)
  {
    Seqs.Distinct(Truthy(SizeValues(rows)))
  }

  function CategoryColors(rows: seq<Product>): (r: seq<string>)
    ensures Seqs.NoDup(r)
    ensures forall x :: x in r <==> x != "" && exists p, v :: p in rows && v in p.variants && v.color == Some(x)
  {
    Seqs.Distinct(Truthy(ColorValues(rows)))
  }

  /** The requested ids the table does not hold, in request order (repeats kept). */
  function UnknownIds(requested: seq<int>, known: set<int>): (r: seq<int>)
    ensures |r| <= |requested|
    ensures forall x :: x in r <==> x in requested && x !in known
  {
    if requested == [] then []
    else
      assert forall x :: x in requested <==> x == requested[0] || x in requested[1..];
      (if requested[0] in known then [] else [requested[0]]) + UnknownIds(requested[1..], known)
  }

  function JoinIds(ids: seq<int>): string {
    Seqs.Join(seq(|ids|, i requires 0 <= i < |ids| => Seqs.IntToString(ids[i])), ", ")
  }

  function CategoryIdSet(t: seq<Categories.Category>): set<int> {
    set c | c in t :: c.id
  }

  function ProductIdSet(ps: seq<Product>): set<int> {
    set p | p in ps :: p.id
  }

  /** One link row per requested category, in request order. */
  function NewLinks(productId: int, categoryIds: seq<int>): (r: seq<ProductLink>)
    ensures |r| == |categoryIds|
    ensures forall i :: 0 <= i < |r| ==> r[i] == ProductLink(productId, categoryIds[i])
  {
    seq(|categoryIds|, i requires 0 <= i < |categoryIds| => ProductLink(productId, categoryIds[i]))
  }

  function LinkOf(productId: int): ProductLink -> bool {
    (l: ProductLink) => l.productId == productId
  }

  function LinkNotOf(productId: int): ProductLink -> bool {
    (l: ProductLink) => l.productId != productId
  }

  function InIds(ids: seq<int>): Product -> bool {
    (p: Product) => p.id in ids
  }

  function NotInIds(ids: seq<int>): Product -> bool {
    (p: Product) => p.id !in ids
  }

  function LinkNotInIds(ids: seq<int>): ProductLink -> bool {
    (l: ProductLink) => l.productId !in ids
  }

  function VariantCount(p: Product): int {
    |p.variants|
  }

  /** The fields of a create request; the display images are the uploaded URLs. */
  datatype ProductDraft = ProductDraft(name: string, description: string, tags: seq<string>, categories: Option<seq<int>>)

  /** The fields of an update request; absent fields keep their value. */
  datatype ProductPatch = ProductPatch(
    name: Option<string>,
    description: Option<string>,
    tags: Option<seq<string>>,
    displayImage: Option<seq<string>>,
    categories: Option<seq<int>>)

  datatype DeleteSummary = DeleteSummary(deletedProductsCount: nat, deletedProductDetailsCount: int)

  function Patched(p: Product, patch: ProductPatch, images: seq<string>): (q: Product)
    ensures q.id == p.id && q.variants == p.variants && q.displayImage == images
    ensures q.name == patch.name.GetOr(p.name) && q.description == patch.description.GetOr(p.description)
    ensures q.tags == patch.tags.GetOr(p.tags)
  {
    p.(name := patch.name.GetOr(p.name),
       description := patch.description.GetOr(p.description),
       tags := patch.tags.GetOr(p.tags),
       displayImage := images)
  }

  class Store {
    var categories: seq<Categories.Category>
    ghost var rank: map<int, nat>
    var products: seq<Product>
    var links: seq<ProductLink>
    var nextProductId: int

    ghost predicate Valid()
      reads this
    {
      && Categories.Forest(categories, rank)
      && UniqueProductIds(products)
      && (forall p :: p in products ==> p.id < nextProductId)
    }

    constructor (categories: seq<Categories.Category>, ghost rank: map<int, nat>)
      requires Categories.Forest(categories, rank)
      ensures Valid() && this.categories == categories && products == [] && links == []
    {
      this.categories := categories;
      this.rank := rank;
      products, links := [], [];
      nextProductId := 1;
    }

    /** The category a slug names, if any. */
    function CategoryOf(slug: string, lower: string -> string): (c: Option<Categories.Category>)
      reads this
      ensures c.Some? ==> c.value in categories
    {
      Categories.FindByName(categories, Categories.NormalizeName(slug, lower))
    }

    /** What `findByCategory` answers: an unknown category becomes a 500, as the catch rethrows. */
    ghost function FindByCategorySpec(slug: string, q: Query, lower: string -> string): Outcome<Listing>
      reads this
      requires Valid()
    {
      var c := CategoryOf(slug, lower);
      if c.None? then Failed(500, "Failed to fetch products by category")
      else Ok(ListingOf(LinkedProducts(links, products, Categories.Expand(categories, rank, c.value.id)), q))
    }

    /** `findByCategory`: expand the category, fetch the linked rows, then filter, sort and page. */
    method FindByCategory(slug: string, q: Query, lower: string -> string) returns (r: Outcome<Listing>)
      requires Valid()
      ensures r == FindByCategorySpec(slug, q, lower)
    {
      var category := CategoryOf(slug, lower);
      if category.None? {
        return Failed(500, "Failed to fetch products by category");
      }
      var categoryIds := Categories.GetAllChildCategoryIds(categories, rank, category.value.id);
      var rows := LinkedProducts(links, products, categoryIds);
      var filtered := SummarizeAll(DedupeById(rows));
      ghost var formatted := filtered;
      if |q.colors| > 0 {
        filtered := Seqs.Filter(filtered, ColorTest(q.colors));
      }
      assert filtered == if |q.colors| > 0 then Seqs.Filter(formatted, ColorTest(q.colors)) else formatted;
      ghost var a := filtered;
      if |q.sizes| > 0 {
        filtered := Seqs.Filter(filtered, SizeTest(q.sizes));
      }
      assert filtered == if |q.sizes| > 0 then Seqs.Filter(a, SizeTest(q.sizes)) else a;
      ghost var b := filtered;
      if q.availability.Some? {
        filtered := Seqs.Filter(filtered, AvailabilityTest(q.availability.value));
      }
      assert filtered == if q.availability.Some? then Seqs.Filter(b, AvailabilityTest(q.availability.value)) else b;
      ghost var c := filtered;
      if q.priceRange.Some? {
        filtered := Seqs.Filter(filtered, PriceTest(q.priceRange.value));
      }
      assert filtered == ApplyFilters(formatted, q);
      ghost var unsorted := filtered;
      filtered := ApplySort(filtered, q.sortBy);
      ApplySortPermutes(unsorted, q.sortBy);
      assert |filtered| == |multiset(filtered)| == |unsorted|;
      var totalProducts := |filtered|;
      r := Ok(Listing(Page(filtered, q.page, q.itemPerPage), totalProducts));
    }

    /**
     * A category listing holds only products linked to the category or to one of its
     * descendants, each passing every requested filter and listed once.
     */
    lemma CategoryListingMembers(slug: string, q: Query, lower: string -> string, s: Listed)
      requires Valid()
      requires FindByCategorySpec(slug, q, lower).Ok?
      requires s in FindByCategorySpec(slug, q, lower).value.products
      ensures CategoryOf(slug, lower).Some?
      ensures s.product in products && Keep(q, s) && s == Summarize(s.product)
      ensures var c := CategoryOf(slug, lower).value;
              exists l :: l in links && l.productId == s.product.id &&
                (l.categoryId == c.id || Categories.Descendant(categories, rank, l.categoryId, c.id))
    {
      var c := CategoryOf(slug, lower).value;
      var ids := Categories.Expand(categories, rank, c.id);
      var rows := LinkedProducts(links, products, ids);
      ListingMembers(rows, q, s);
      var l :| l in links && l.productId == s.product.id && l.categoryId in ids;
      Categories.ExpandIsSelfAndDescendants(categories, rank, c.id, l.categoryId);
    }

    lemma CategoryListingUnique(slug: string, q: Query, lower: string -> string)
      requires Valid()
      requires FindByCategorySpec(slug, q, lower).Ok?
      ensures Seqs.UniqueBy(FindByCategorySpec(slug, q, lower).value.products, ProductIdOf)
    {
      var c := CategoryOf(slug, lower).value;
      ListingUnique(LinkedProducts(links, products, Categories.Expand(categories, rank, c.id)), q);
    }

    /**
     * Conversely, a product linked to the category or a descendant, passing every filter, is
     * counted in `totalProducts` exactly once.
     */
    lemma CategoryListingComplete(slug: string, q: Query, lower: string -> string, l: ProductLink)
      requires Valid()
      requires CategoryOf(slug, lower).Some?
      requires var c := CategoryOf(slug, lower).value;
               l in links && HasId(products, l.productId) &&
               (l.categoryId == c.id || Categories.Descendant(categories, rank, l.categoryId, c.id))
      requires Keep(q, Summarize(FindProduct(products, l.productId).value))
      ensures FindByCategorySpec(slug, q, lower).Ok?
      ensures Summarize(FindProduct(products, l.productId).value) in
                Seqs.Filter(SummarizeAll(DedupeById(LinkedProducts(links, products,
                  Categories.Expand(categories, rank, CategoryOf(slug, lower).value.id)))), KeepTest(q))
    {
      var c := CategoryOf(slug, lower).value;
      var ids := Categories.Expand(categories, rank, c.id);
      Categories.ExpandIsSelfAndDescendants(categories, rank, c.id, l.categoryId);
      var rows := LinkedProducts(links, products, ids);
      var p := FindProduct(products, l.productId).value;
      assert p in rows;
      LinkedRowsAgree(links, products, ids);
      DedupedPresent(rows, p);
      Seqs.FilterMembers(SummarizeAll(DedupeById(rows)), KeepTest(q), Summarize(p));
    }

    /** What `findSizesByCategory` answers. */
    ghost function FindSizesSpec(slug: string, lower: string -> string): Outcome<seq<string>>
      reads this
      requires Valid()
    {
      var c := CategoryOf(slug, lower);
      if c.None? then Failed(500, "Failed to fetch sizes by category")
      else Ok(CategorySizes(LinkedProducts(links, products, Categories.Expand(categories, rank, c.value.id))))
    }

    method FindSizesByCategory(slug: string, lower: string -> string) returns (r: Outcome<seq<string>>)
      requires Valid()
      ensures r == FindSizesSpec(slug, lower)
    {
      var category := CategoryOf(slug, lower);
      if category.None? {
        return Failed(500, "Failed to fetch sizes by category");
      }
      var categoryIds := Categories.GetAllChildCategoryIds(categories, rank, category.value.id);
      var rows := LinkedProducts(links, products, categoryIds);
      r := Ok(CategorySizes(rows));
    }

    ghost function FindColorsSpec(slug: string, lower: string -> string): Outcome<seq<string>>
      reads this
      requires Valid()
    {
      var c := CategoryOf(slug, lower);
      if c.None? then Failed(500, "Failed to fetch colors by category")
      else Ok(CategoryColors(LinkedProducts(links, products, Categories.Expand(categories, rank, c.value.id))))
    }

    method FindColorsByCategory(slug: string, lower: string -> string) returns (r: Outcome<seq<string>>)
      requires Valid()
      ensures r == FindColorsSpec(slug, lower)
    {
      var category := CategoryOf(slug, lower);
      if category.None? {
        return Failed(500, "Failed to fetch colors by category");
      }
      var categoryIds := Categories.GetAllChildCategoryIds(categories, rank, category.value.id);
      var rows := LinkedProducts(links, products, categoryIds);
      r := Ok(CategoryColors(rows));
    }

    /** `create`: every unknown category id is reported and nothing is stored; else product and links. */
    method Create(d: ProductDraft, uploads: seq<string>) returns (r: Outcome<Product>)
      requires Valid()
      modifies this
      ensures Valid()
      ensures categories == old(categories) && rank == old(rank)
      ensures var bad := UnknownIds(d.categories.GetOr([]), CategoryIdSet(old(categories)));
              |bad| > 0 ==> r == Failed(400, "Invalid category IDs: " + JoinIds(bad)) && unchanged(this)
      ensures var bad := UnknownIds(d.categories.GetOr([]), CategoryIdSet(old(categories)));
              |bad| == 0 ==>
                && r == Ok(Product(old(nextProductId), d.name, d.description, d.tags, uploads, []))
                && products == old(products) + [r.value]
                && links == old(links) + NewLinks(r.value.id, d.categories.GetOr([]))
    {
      var requested := d.categories.GetOr([]);
      if |requested| > 0 {
        var invalid := UnknownIds(requested, CategoryIdSet(categories));
        if |invalid| > 0 {
          return Failed(400, "Invalid category IDs: " + JoinIds(invalid));
        }
      }
      var p := Product(nextProductId, d.name, d.description, d.tags, uploads, []);
      assert forall q :: q in products ==> ProductId(q) != ProductId(p);
      products := products + [p];
      assert UniqueProductIds(products) by {
        forall a, b | 0 <= a < b < |products| ensures ProductId(products[a]) != ProductId(products[b]) {
          assert products[a] in old(products);
          if b < |old(products)| {
            assert old(products)[a] == products[a] && old(products)[b] == products[b];
          }
        }
      }
      nextProductId := nextProductId + 1;
      links := links + NewLinks(p.id, requested);
      r := Ok(p);
    }

    /**
     * `update`: a missing product is a 404; otherwise the fields and the normalised image list
     * are written, and a given category list replaces the product's links. A category id
     * that does not exist makes its link insert fail, which surfaces as a 500 after the
     * product row and the remaining links have been written.
     */
    method Update(id: int, patch: ProductPatch, uploads: seq<string>) returns (r: Outcome<Product>)
      requires Valid()
      modifies this
      ensures Valid()
      ensures categories == old(categories) && nextProductId == old(nextProductId)
      ensures !HasId(old(products), id) ==>
                r == Failed(404, "Product with ID " + Seqs.IntToString(id) + " not found") && unchanged(this)
      ensures HasId(old(products), id) ==>
                var p := UpdatedProduct(FindProduct(old(products), id).value, patch, uploads);
                && products == ReplaceById(old(products), p)
                && (patch.categories.None? ==> links == old(links) && r == Ok(p))
                && (patch.categories.Some? ==>
                      && links == Relinked(old(links), id, patch.categories.value, CategoryIdSet(categories))
                      && (|UnknownIds(patch.categories.value, CategoryIdSet(categories))| == 0 ==> r == Ok(p))
                      && (|UnknownIds(patch.categories.value, CategoryIdSet(categories))| > 0 ==>
                            r == Failed(500, "Failed to update product")))
      ensures r.Ok? ==> Seqs.NoDup(r.value.displayImage) && |r.value.displayImage| <= 10
    {
      var current := FindProduct(products, id);
      if current.None? {
        return Failed(404, "Product with ID " + Seqs.IntToString(id) + " not found");
      }
      var p := UpdatedProduct(current.value, patch, uploads);
      ReplaceByIdKeepsIds(products, p);
      products := ReplaceById(products, p);
      if patch.categories.None? {
        return Ok(p);
      }
      links := Relinked(links, id, patch.categories.value, CategoryIdSet(categories));
      if |UnknownIds(patch.categories.value, CategoryIdSet(categories))| > 0 {
        return Failed(500, "Failed to update product");
      }
      r := Ok(p);
    }

    /** `deleteMany`: every missing id is reported and nothing is deleted; else all are removed. */
    method DeleteMany(ids: seq<int>) returns (r: Outcome<DeleteSummary>)
      requires Valid()
      modifies this
      ensures Valid()
      ensures categories == old(categories) && nextProductId == old(nextProductId)
      ensures var missing := UnknownIds(ids, ProductIdSet(old(products)));
              |missing| > 0 ==> r == Failed(404, "Products with IDs [" + JoinIds(missing) + "] not found") &&
                                 unchanged(this)
      ensures var missing := UnknownIds(ids, ProductIdSet(old(products)));
              |missing| == 0 ==>
                && products == Seqs.Filter(old(products), NotInIds(ids))
                && links == Seqs.Filter(old(links), LinkNotInIds(ids))
                && r == Ok(DeleteSummary(|Seqs.Filter(old(products), InIds(ids))|,
                                         Seqs.SumOf(Seqs.Filter(old(products), InIds(ids)), VariantCount)))
      ensures r.Ok? ==> forall p :: p in products ==> p.id !in ids
    {
      var missing := UnknownIds(ids, ProductIdSet(products));
      if |missing| > 0 {
        return Failed(404, "Products with IDs [" + JoinIds(missing) + "] not found");
      }
      var deleted := Seqs.Filter(products, InIds(ids));
      var detailCount := Seqs.SumOf(deleted, VariantCount);
      products := Seqs.Filter(products, NotInIds(ids));
      links := Seqs.Filter(links, LinkNotInIds(ids));
      forall p | p in products ensures p.id !in ids && p in old(products) {
        Seqs.FilterMembers(old(products), NotInIds(ids), p);
      }
      Seqs.FilterUniqueBy(old(products), NotInIds(ids), ProductId);
      r := Ok(DeleteSummary(|deleted|, detailCount));
    }

    /** `findRelatedProducts`: a missing product surfaces as a 500; no tags, no related products. */
    function FindRelatedProducts(productId: int): (r: Outcome<seq<Listed>>)
      reads this
      ensures r.Ok? <==> HasId(products, productId)
      ensures r.Ok? ==> r.value == RelatedOf(products, productId, FindProduct(products, productId).value.tags)
    {
      var p := FindProduct(products, productId);
      if p.None? then Failed(500, "Failed to fetch related products")
      else Ok(RelatedOf(products, productId, p.value.tags))
    }
  }

  /** The product after an update: the patched fields and the normalised image list. */
  function UpdatedProduct(current: Product, patch: ProductPatch, uploads: seq<string>): (p: Product)
    ensures Seqs.NoDup(p.displayImage) && |p.displayImage| <= 10
    ensures p.id == current.id && p.variants == current.variants
  {
    Patched(current, patch, FinalDisplayImages(patch.displayImage, current.displayImage, uploads))
  }

  /** The table with the row holding `p`'s id replaced by `p`. */
  function ReplaceById(ps: seq<Product>, p: Product): (r: seq<Product>)
    ensures |r| == |ps|
    ensures forall i :: 0 <= i < |ps| ==> r[i] == if ps[i].id == p.id then p else ps[i]
  {
    seq(|ps|, i requires 0 <= i < |ps| => if ps[i].id == p.id then p else ps[i])
  }

  lemma ReplaceByIdKeepsIds(ps: seq<Product>, p: Product)
    requires UniqueProductIds(ps)
    ensures UniqueProductIds(ReplaceById(ps, p))
    ensures forall q :: q in ReplaceById(ps, p) ==> q in ps || q == p
  {
    var r := ReplaceById(ps, p);
    forall i, j | 0 <= i < j < |r| ensures ProductId(r[i]) != ProductId(r[j]) {
      assert r[i].id == ps[i].id && r[j].id == ps[j].id;
    }
  }

  /** The product's links replaced by one per requested category that exists, in request order. */
  function Relinked(links: seq<ProductLink>, id: int, requested: seq<int>, known: set<int>): (r: seq<ProductLink>)
  {
    Seqs.Filter(links, LinkNotOf(id)) + NewLinks(id, Seqs.Filter(requested, KnownIn(known)))
  }

  /** A product among the rows survives the dedupe whenever rows sharing an id are the same row. */
  lemma DedupedPresent(rows: seq<Product>, p: Product)
    requires p in rows
    requires forall a, b :: a in rows && b in rows && a.id == b.id ==> a == b
    ensures Summarize(p) in SummarizeAll(DedupeById(rows))
  {
    var d := DedupeById(rows);
    var q :| q in d && q.id == p.id;
    var i :| 0 <= i < |d| && d[i] == q;
    assert SummarizeAll(d)[i] == Summarize(p);
  }

  /** Rows drawn from a table with unique ids agree whenever their ids do. */
  lemma LinkedRowsAgree(links: seq<ProductLink>, ps: seq<Product>, ids: seq<int>)
    requires UniqueProductIds(ps)
    ensures forall a, b ::
              a in LinkedProducts(links, ps, ids) && b in LinkedProducts(links, ps, ids) && a.id == b.id ==> a == b
  {
    forall a, b | a in ps && b in ps && a.id == b.id ensures a == b {
      var i :| 0 <= i < |ps| && ps[i] == a;
      var j :| 0 <= j < |ps| && ps[j] == b;
      assert ProductId(ps[i]) == ProductId(ps[j]);
    }
  }

  /** After relinking, the other products keep their links and this one has one per known requested id. */
  lemma RelinkedContents(links: seq<ProductLink>, id: int, requested: seq<int>, known: set<int>, l: ProductLink)
    ensures l in Relinked(links, id, requested, known) <==>
              (l in links && l.productId != id) ||
              (l.productId == id && l.categoryId in requested && l.categoryId in known)
  {
    Seqs.FilterMembers(links, LinkNotOf(id), l);
    var good := Seqs.Filter(requested, KnownIn(known));
    Seqs.FilterMembers(requested, KnownIn(known), l.categoryId);
    var added := NewLinks(id, good);
    if l in added {
      var i :| 0 <= i < |added| && added[i] == l;
      assert good[i] == l.categoryId;
    }
    if l.productId == id && l.categoryId in good {
      var i :| 0 <= i < |good| && good[i] == l.categoryId;
      assert added[i] == l;
    }
  }

  function KnownIn(known: set<int>): int -> bool {
    (x: int) => x in known
  }

  function ProductId(p: Product): int {
    p.id
  }
}
