/**
 * The older product service's category queries. It reads the same tables as the newer one
 * but looks the category up by its exact name, lists only the products linked to that
 * category itself, filters on a single colour and a single size, and returns the whole
 * sorted list. Its size and colour sets keep the null value.
 */
module LegacyCatalogue {
  import opened Wrappers
  import Seqs
  import Categories
  import opened Catalogue
  import opened ProductStore

  /** The listing request; a missing or empty colour or size imposes nothing. */
  datatype LegacyQuery = LegacyQuery(
    color: Option<string>,
    size: Option<string>,
    availability: Option<int>,
    priceRange: Option<PriceRange>,
    sortBy: Option<SortKey>)

  /** JavaScript truthiness of an optional string. */
  predicate IsGiven(x: Option<string>) {
    x.Some? && x.value != ""
  }

  /** The older listing record: the same aggregates, without a size list. */
  function LegacySummary(p: Product): (s: Listed)
    ensures s.product == p && s.sizes.None?
    ensures s.totalStock == TotalStock(p.variants) && s.totalSales == TotalSales(p.variants)
    ensures s.maxPrice == MaxPrice(p.variants) && s.minPrice == MinPrice(p.variants)
    ensures s.colors == Colors(p.variants)
  {
    Summarize(p).(sizes := None)
  }

  function LegacySummaries(ps: seq<Product>): (r: seq<Listed>)
    ensures |r| == |ps| && forall i :: 0 <= i < |ps| ==> r[i] == LegacySummary(ps[i])
  {
    seq(|ps|, i requires 0 <= i < |ps| => LegacySummary(ps[i]))
  }

  predicate HasColor(s: Listed, c: string) {
    exists v :: v in s.product.variants && v.color == Some(c)
  }

  predicate HasSize(s: Listed, z: string) {
    exists v :: v in s.product.variants && v.size == Some(z)
  }

  /** Everything the older listing asks of a product, each test only when requested. */
  predicate KeepLegacy(q: LegacyQuery, s: Listed) {
    && (IsGiven(q.color) ==> HasColor(s, q.color.value))
    && (IsGiven(q.size) ==> HasSize(s, q.size.value))
    && (q.availability.Some? ==> MatchesAvailability(s, q.availability.value))
    && (q.priceRange.Some? ==> OffersPriceIn(s, q.priceRange.value))
  }

  function ColorIs(c: string): Listed -> bool { (s: Listed) => HasColor(s, c) }
  function SizeIs(z: string): Listed -> bool { (s: Listed) => HasSize(s, z) }
  function KeepLegacyTest(q: LegacyQuery): Listed -> bool { (s: Listed) => KeepLegacy(q, s) }

  function UpToColorIs(q: LegacyQuery): Listed -> bool {
    (s: Listed) => IsGiven(q.color) ==> HasColor(s, q.color.value)
  }

  function UpToSizeIs(q: LegacyQuery): Listed -> bool {
    (s: Listed) => (IsGiven(q.color) ==> HasColor(s, q.color.value)) && (IsGiven(q.size) ==> HasSize(s, q.size.value))
  }

  function UpToAvailabilityIs(q: LegacyQuery): Listed -> bool {
    (s: Listed) => (IsGiven(q.color) ==> HasColor(s, q.color.value)) && (IsGiven(q.size) ==> HasSize(s, q.size.value)) &&
         (q.availability.Some? ==> MatchesAvailability(s, q.availability.value))
  }

  /** The products linked directly to one category, in link order. */
  function DirectProducts(store: Store, categoryId: int): (r: seq<Product>)
    reads store
    ensures forall p :: p in r ==>
              p in store.products && exists l :: l in store.links && l.productId == p.id && l.categoryId == categoryId
  {
    LinkedProducts(store.links, store.products, [categoryId])
  }

  /** What the older `findByCategory` answers: every linked product passing all filters, sorted. */
  function FindByCategorySpec(store: Store, name: string, q: LegacyQuery): Outcome<seq<Listed>>
    reads store
  {
    var c := Categories.FindByName(store.categories, name);
    if c.None? then Failed(500, "Failed to fetch products by category")
    else Ok(ApplySort(Seqs.Filter(LegacySummaries(DirectProducts(store, c.value.id)), KeepLegacyTest(q)), q.sortBy))
  }

  /** The older `findByCategory`: the filters narrow `filteredProducts` in turn, then it is sorted. */
  method FindByCategory(store: Store, name: string, q: LegacyQuery) returns (r: Outcome<seq<Listed>>)
    ensures r == FindByCategorySpec(store, name, q)
  {
    var category := Categories.FindByName(store.categories, name);
    if category.None? {
      return Failed(500, "Failed to fetch products by category");
    }
    var formatted := LegacySummaries(DirectProducts(store, category.value.id));
    var filtered := formatted;
    Seqs.FilterAll(formatted, Catalogue.Always());
    if IsGiven(q.color) {
      filtered := Seqs.Filter(filtered, ColorIs(q.color.value));
    }
    FilterStep(formatted, Catalogue.Always(), IsGiven(q.color), ColorIs(q.color.GetOr("")), UpToColorIs(q));
    if IsGiven(q.size) {
      filtered := Seqs.Filter(filtered, SizeIs(q.size.value));
    }
    FilterStep(formatted, UpToColorIs(q), IsGiven(q.size), SizeIs(q.size.GetOr("")), UpToSizeIs(q));
    if q.availability.Some? {
      filtered := Seqs.Filter(filtered, AvailabilityTest(q.availability.value));
    }
    FilterStep(formatted, UpToSizeIs(q), q.availability.Some?, AvailabilityTest(q.availability.GetOr(0)),
               UpToAvailabilityIs(q));
    if q.priceRange.Some? {
      filtered := Seqs.Filter(filtered, PriceTest(q.priceRange.value));
    }
    FilterStep(formatted, UpToAvailabilityIs(q), q.priceRange.Some?, PriceTest(q.priceRange.GetOr(PriceRange(0, 0))),
               KeepLegacyTest(q));
    filtered := ApplySort(filtered, q.sortBy);
    r := Ok(filtered);
  }

  /** Each listed product is linked directly to the category and passes every requested filter. */
  lemma LegacyListingMembers(store: Store, name: string, q: LegacyQuery, s: Listed)
    requires FindByCategorySpec(store, name, q).Ok?
    requires s in FindByCategorySpec(store, name, q).value
    ensures var c := Categories.FindByName(store.categories, name).value;
            && c.name == name
            && s == LegacySummary(s.product) && KeepLegacy(q, s) && s.product in store.products
            && exists l :: l in store.links && l.productId == s.product.id && l.categoryId == c.id
  {
    var c := Categories.FindByName(store.categories, name).value;
    var all := LegacySummaries(DirectProducts(store, c.id));
    var filtered := Seqs.Filter(all, KeepLegacyTest(q));
    ApplySortPermutes(filtered, q.sortBy);
    assert s in multiset(ApplySort(filtered, q.sortBy));
    Seqs.FilterMembers(all, KeepLegacyTest(q), s);
    var i :| 0 <= i < |all| && all[i] == s;
    assert DirectProducts(store, c.id)[i] in DirectProducts(store, c.id);
  }

  /** Conversely, every directly linked product that passes the filters is listed. */
  lemma LegacyListingComplete(store: Store, c: Categories.Category, q: LegacyQuery, p: Product)
    requires c in store.categories && Categories.UniqueNames(store.categories)
    requires p in DirectProducts(store, c.id) && KeepLegacy(q, LegacySummary(p))
    ensures FindByCategorySpec(store, c.name, q).Ok?
    ensures LegacySummary(p) in FindByCategorySpec(store, c.name, q).value
  {
    Categories.FindByNameUnique(store.categories, c);
    var all := LegacySummaries(DirectProducts(store, c.id));
    var i :| 0 <= i < |DirectProducts(store, c.id)| && DirectProducts(store, c.id)[i] == p;
    assert all[i] == LegacySummary(p);
    Seqs.FilterMembers(all, KeepLegacyTest(q), LegacySummary(p));
    var filtered := Seqs.Filter(all, KeepLegacyTest(q));
    ApplySortPermutes(filtered, q.sortBy);
    assert LegacySummary(p) in multiset(filtered);
  }

  /** The older size list: distinct values of every linked variant, the null value included. */
  function CategorySizeValues(rows: seq<Product>): (r: seq<Option<string>>)
    ensures Seqs.NoDup(r)
    ensures forall x :: x in r <==> exists p, v :: p in rows && v in p.variants && v.size == x
  {
    var all := SizeValues(rows);
    assert forall x :: x in Seqs.Distinct(all) <==> x in all;
    Seqs.Distinct(all)
  }

  function CategoryColorValues(rows: seq<Product>): (r: seq<Option<string>>)
    ensures Seqs.NoDup(r)
    ensures forall x :: x in r <==> exists p, v :: p in rows && v in p.variants && v.color == x
  {
    var all := ColorValues(rows);
    assert forall x :: x in Seqs.Distinct(all) <==> x in all;
    Seqs.Distinct(all)
  }

  /** The older `findSizesByCategory`: the slug is normalised, the null size is kept. */
  function FindSizesByCategory(store: Store, slug: string, lower: string -> string): (r: Outcome<seq<Option<string>>>)
    reads store
    ensures var c := Categories.FindByName(store.categories, Categories.NormalizeName(slug, lower));
            && (c.None? <==> r == Failed(500, "Failed to fetch sizes by category"))
            && (c.Some? ==> r == Ok(CategorySizeValues(DirectProducts(store, c.value.id))))
  {
    var c := Categories.FindByName(store.categories, Categories.NormalizeName(slug, lower));
    if c.None? then Failed(500, "Failed to fetch sizes by category")
    else Ok(CategorySizeValues(DirectProducts(store, c.value.id)))
  }

  function FindColorsByCategory(store: Store, slug: string, lower: string -> string): (r: Outcome<seq<Option<string>>>)
    reads store
    ensures var c := Categories.FindByName(store.categories, Categories.NormalizeName(slug, lower));
            && (c.None? <==> r == Failed(500, "Failed to fetch colors by category"))
            && (c.Some? ==> r == Ok(CategoryColorValues(DirectProducts(store, c.value.id))))
  {
    var c := Categories.FindByName(store.categories, Categories.NormalizeName(slug, lower));
    if c.None? then Failed(500, "Failed to fetch colors by category")
    else Ok(CategoryColorValues(DirectProducts(store, c.value.id)))
  }
}
