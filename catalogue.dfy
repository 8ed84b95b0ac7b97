/**
 * The product-listing pipeline of the storefront: per-product aggregates over the variants,
 * de-duplication by product id, the conjunctive filters, the key sorts, pagination, the
 * related-product ranking and the display-image list normalisation.
 */
module Catalogue {
  import opened Wrappers
  import Seqs

  /** A product variant (`productDetail` row); `sale` is the number of units sold. */
  datatype Variant = Variant(id: int, size: Option<string>, color: Option<string>, price: int, stock: int, sale: nat)

  datatype Product = Product(
    id: int,
    name: string,
    description: string,
    tags: seq<string>,
    displayImage: seq<string>,
    variants: seq<Variant>)

  /** A product with the aggregates the listing adds; related products carry no `sizes`. */
  datatype Listed = Listed(
    product: Product,
    totalStock: int,
    totalSales: int,
    maxPrice: int,
    minPrice: int,
    colors: seq<string>,
    sizes: Option<seq<string>>)

  // ---------------------------------------------------------------------------
  // Aggregates
  // ---------------------------------------------------------------------------

  function StockOf(v: Variant): int { v.stock }

  function SaleOf(v: Variant): int { v.sale }

  function TotalStock(vs: seq<Variant>): int {
    Seqs.SumOf(vs, StockOf)
  }

  function TotalSales(vs: seq<Variant>): int {
    Seqs.SumOf(vs, SaleOf)
  }

  /** `Math.max` of the variant prices, or 0 without variants. */
  function MaxPrice(vs: seq<Variant>): (m: int)
    ensures vs == [] ==> m == 0
    ensures vs != [] ==> (exists i :: 0 <= i < |vs| && vs[i].price == m) &&
                         forall i :: 0 <= i < |vs| ==> vs[i].price <= m
  {
    if vs == [] then 0
    else if |vs| == 1 then vs[0].price
    else
      var rest := MaxPrice(vs[1..]);
      assert forall i :: 1 <= i < |vs| ==> vs[i] == vs[1..][i - 1];
      if vs[0].price > rest then vs[0].price else rest
  }

  /** `Math.min` of the variant prices, or 0 without variants. */
  function MinPrice(vs: seq<Variant>): (m: int)
    ensures vs == [] ==> m == 0
    ensures vs != [] ==> (exists i :: 0 <= i < |vs| && vs[i].price == m) &&
                         forall i :: 0 <= i < |vs| ==> m <= vs[i].price
  {
    if vs == [] then 0
    else if |vs| == 1 then vs[0].price
    else
      var rest := MinPrice(vs[1..]);
      assert forall i :: 1 <= i < |vs| ==> vs[i] == vs[1..][i - 1];
      if vs[0].price < rest then vs[0].price else rest
  }

  function ColorColumn(vs: seq<Variant>): (r: seq<Option<string>>)
    ensures |r| == |vs| && forall i :: 0 <= i < |vs| ==> r[i] == vs[i].color
  {
    seq(|vs|, i requires 0 <= i < |vs| => vs[i].color)
  }

  function SizeColumn(vs: seq<Variant>): (r: seq<Option<string>>)
    ensures |r| == |vs| && forall i :: 0 <= i < |vs| ==> r[i] == vs[i].size
  {
    seq(|vs|, i requires 0 <= i < |vs| => vs[i].size)
  }

  /** `filter(x => x !== null && x !== undefined)`. */
  function NonNull(xs: seq<Option<string>>): (r: seq<string>)
    ensures forall x :: x in r <==> Some(x) in xs
  {
    if xs == [] then []
    else
      var init := xs[..|xs| - 1];
      assert forall y :: y in xs <==> y in init || y == xs[|xs| - 1];
      var last := xs[|xs| - 1];
      NonNull(init) + (if last.Some? then [last.value] else [])
  }

  /** Removing nulls and removing repeats commute, so both orders the service uses agree. */
  lemma {:induction false} NonNullDistinct(xs: seq<Option<string>>)
    ensures NonNull(Seqs.Distinct(xs)) == Seqs.Distinct(NonNull(xs))
  {
    if xs != [] {
      var init := xs[..|xs| - 1];
      var x := xs[|xs| - 1];
      NonNullDistinct(init);
      var d := Seqs.Distinct(init);
      var n := NonNull(init);
      assert NonNull(xs) == n + (if x.Some? then [x.value] else []);
      if x in d {
        assert Seqs.Distinct(xs) == d;
        if x.Some? {
          assert Some(x.value) in d;
          assert x.value in Seqs.Distinct(n);
          assert (n + [x.value])[..|n|] == n;
        } else {
          assert n + [] == n;
        }
      } else {
        assert Seqs.Distinct(xs) == d + [x];
        assert (d + [x])[..|d|] == d;
        if x.Some? {
          assert x.value !in NonNull(d);
          assert (n + [x.value])[..|n|] == n;
        } else {
          assert n + [] == n;
          assert NonNull(d + [x]) == NonNull(d) + [];
        }
      }
    }
  }

  /** The distinct non-null colours, in first-occurrence order. */
  function Colors(vs: seq<Variant>): (r: seq<string>)
    ensures Seqs.NoDup(r)
    ensures forall c :: c in r <==> exists i :: 0 <= i < |vs| && vs[i].color == Some(c)
  {
    NonNullDistinct(ColorColumn(vs));
    NonNull(Seqs.Distinct(ColorColumn(vs)))
  }

  /** The distinct non-null sizes, in first-occurrence order. */
  function Sizes(vs: seq<Variant>): (r: seq<string>)
    ensures Seqs.NoDup(r)
    ensures forall s :: s in r <==> exists i :: 0 <= i < |vs| && vs[i].size == Some(s)
  {
    Seqs.Distinct(NonNull(SizeColumn(vs)))
  }

  /** The listing record of a product. */
  function Summarize(p: Product): (s: Listed)
    ensures s.product == p && s.sizes.Some?
  {
    Listed(p, TotalStock(p.variants), TotalSales(p.variants), MaxPrice(p.variants), MinPrice(p.variants),
           Colors(p.variants), Some(Sizes(p.variants)))
  }

  function SummarizeAll(ps: seq<Product>): (r: seq<Listed>)
    ensures |r| == |ps| && forall i :: 0 <= i < |ps| ==> r[i] == Summarize(ps[i])
  {
    seq(|ps|, i requires 0 <= i < |ps| => Summarize(ps[i]))
  }

  /** With non-negative stocks the total is positive exactly when some variant is in stock. */
  lemma {:induction false} TotalStockPositive(vs: seq<Variant>)
    requires forall i :: 0 <= i < |vs| ==> vs[i].stock >= 0
    ensures TotalStock(vs) >= 0
    ensures TotalStock(vs) > 0 <==> exists i :: 0 <= i < |vs| && vs[i].stock > 0
  {
    if vs != [] {
      var init := vs[..|vs| - 1];
      assert forall i :: 0 <= i < |init| ==> init[i] == vs[i];
      TotalStockPositive(init);
      if exists i :: 0 <= i < |init| && init[i].stock > 0 {
        var i :| 0 <= i < |init| && init[i].stock > 0;
        assert vs[i].stock > 0;
      }
    }
  }

  // ---------------------------------------------------------------------------
  // The listing query
  // ---------------------------------------------------------------------------

  /** `new Map(rows.map(p => [p.id, p])).values()`: one row per product id, at its first position. */
  function DedupeById(ps: seq<Product>): (r: seq<Product>)
    ensures forall i, j :: 0 <= i < j < |r| ==> r[i].id != r[j].id
    ensures forall p :: p in r ==> p in ps
    ensures forall p :: p in ps ==> HasId(r, p.id)
  {
    if ps == [] then []
    else
      var init := ps[..|ps| - 1];
      var last := ps[|ps| - 1];
      var r := DedupeById(init);
      var res := if HasId(r, last.id) then r else r + [last];
      assert forall p :: p in res ==> p in r || p == last;
      assert forall q :: q in r ==> q in res;
      assert forall p :: p in ps ==> p in init || p == last;
      res
  }

  /** Some product in `ps` carries `id`. */
  predicate HasId(ps: seq<Product>, id: int) {
    exists q :: q in ps && q.id == id
  }

  datatype SortKey = PriceAsc | PriceDesc | BestSelling

  datatype PriceRange = PriceRange(min: int, max: int)

  /** The listing request; empty colour and size lists and absent fields impose nothing. */
  datatype Query = Query(
    colors: seq<string>,
    sizes: seq<string>,
    availability: Option<int>,
    priceRange: Option<PriceRange>,
    sortBy: Option<SortKey>,
    page: int,
    itemPerPage: int)

  /** Some variant has a non-empty colour from the list. */
  predicate OffersColor(s: Listed, colors: seq<string>) {
    exists v :: v in s.product.variants && v.color.Some? && v.color.value != "" && v.color.value in colors
  }

  predicate OffersSize(s: Listed, sizes: seq<string>) {
    exists v :: v in s.product.variants && v.size.Some? && v.size.value != "" && v.size.value in sizes
  }

  /** Availability 1 asks for stock, any other given value for sold-out products. */
  predicate MatchesAvailability(s: Listed, availability: int) {
    if availability == 1 then s.totalStock > 0 else s.totalStock == 0
  }

  predicate OffersPriceIn(s: Listed, r: PriceRange) {
    exists v :: v in s.product.variants && r.min <= v.price <= r.max
  }

  /** Every filter of the query at once. */
  predicate Keep(q: Query, s: Listed) {
    && (|q.colors| > 0 ==> OffersColor(s, q.colors))
    && (|q.sizes| > 0 ==> OffersSize(s, q.sizes))
    && (q.availability.Some? ==> MatchesAvailability(s, q.availability.value))
    && (q.priceRange.Some? ==> OffersPriceIn(s, q.priceRange.value))
  }

  function ColorTest(colors: seq<string>): Listed -> bool { (s: Listed) => OffersColor(s, colors) }
  function SizeTest(sizes: seq<string>): Listed -> bool { (s: Listed) => OffersSize(s, sizes) }
  function AvailabilityTest(a: int): Listed -> bool { (s: Listed) => MatchesAvailability(s, a) }
  function PriceTest(r: PriceRange): Listed -> bool { (s: Listed) => OffersPriceIn(s, r) }
  function KeepTest(q: Query): Listed -> bool { (s: Listed) => Keep(q, s) }

  /** The filters as the service applies them: one after another, each only when requested. */
  function ApplyFilters(ss: seq<Listed>, q: Query): seq<Listed> {
    var a := if |q.colors| > 0 then Seqs.Filter(ss, ColorTest(q.colors)) else ss;
    var b := if |q.sizes| > 0 then Seqs.Filter(a, SizeTest(q.sizes)) else a;
    var c := if q.availability.Some? then Seqs.Filter(b, AvailabilityTest(q.availability.value)) else b;
    if q.priceRange.Some? then Seqs.Filter(c, PriceTest(q.priceRange.value)) else c
  }

  /** One optional filter step, fused with the conjunction of the steps before it. */
  lemma FilterStep(s: seq<Listed>, before: Listed -> bool, on: bool, test: Listed -> bool, after: Listed -> bool)
    requires forall x :: after(x) == (before(x) && (on ==> test(x)))
    ensures (if on then Seqs.Filter(Seqs.Filter(s, before), test) else Seqs.Filter(s, before)) == Seqs.Filter(s, after)
  {
    if on {
      Seqs.FilterFilter(s, before, test);
      Seqs.FilterAgree(s, Seqs.And(before, test), after);
    } else {
      Seqs.FilterAgree(s, before, after);
    }
  }

  function Always(): Listed -> bool { (s: Listed) => true }
  function UpToSize(q: Query): Listed -> bool {
    (s: Listed) => (|q.colors| > 0 ==> OffersColor(s, q.colors)) && (|q.sizes| > 0 ==> OffersSize(s, q.sizes))
  }
  function UpToColor(q: Query): Listed -> bool { (s: Listed) => |q.colors| > 0 ==> OffersColor(s, q.colors) }
  function UpToAvailability(q: Query): Listed -> bool {
    (s: Listed) => (|q.colors| > 0 ==> OffersColor(s, q.colors)) && (|q.sizes| > 0 ==> OffersSize(s, q.sizes)) &&
         (q.availability.Some? ==> MatchesAvailability(s, q.availability.value))
  }

  /** The filters are conjunctive: applying them in turn keeps, in order, exactly the items passing all. */
  lemma FiltersAreConjunctive(ss: seq<Listed>, q: Query)
    ensures ApplyFilters(ss, q) == Seqs.Filter(ss, KeepTest(q))
  {
    Seqs.FilterAll(ss, Always());
    FilterStep(ss, Always(), |q.colors| > 0, ColorTest(q.colors), UpToColor(q));
    FilterStep(ss, UpToColor(q), |q.sizes| > 0, SizeTest(q.sizes), UpToSize(q));
    FilterStep(ss, UpToSize(q), q.availability.Some?,
               if q.availability.Some? then AvailabilityTest(q.availability.value) else Always(),
               UpToAvailability(q));
    FilterStep(ss, UpToAvailability(q), q.priceRange.Some?,
               if q.priceRange.Some? then PriceTest(q.priceRange.value) else Always(), KeepTest(q));
  }

  /** An item survives the filters exactly when it passes all of them. */
  lemma FilteredMember(ss: seq<Listed>, q: Query, s: Listed)
    ensures s in ApplyFilters(ss, q) <==> s in ss && Keep(q, s)
  {
    FiltersAreConjunctive(ss, q);
    Seqs.FilterMembers(ss, KeepTest(q), s);
  }

  function MinPriceKey(s: Listed): int { s.minPrice }
  function MaxPriceDescKey(s: Listed): int { -s.maxPrice }
  function SalesDescKey(s: Listed): int { -s.totalSales }

  /** The in-place sort the query asks for; without `sortBy` the order is kept. */
  function ApplySort(ss: seq<Listed>, sortBy: Option<SortKey>): seq<Listed> {
    match sortBy
    case None => ss
    case Some(PriceAsc) => Seqs.SortBy(ss, MinPriceKey)
    case Some(PriceDesc) => Seqs.SortBy(ss, MaxPriceDescKey)
    case Some(BestSelling) => Seqs.SortBy(ss, SalesDescKey)
  }

  /** The sorted list is a permutation of the filtered list, in the order the key asks for. */
  lemma ApplySortPermutes(ss: seq<Listed>, sortBy: Option<SortKey>)
    ensures multiset(ApplySort(ss, sortBy)) == multiset(ss)
  {
  }

  lemma ApplySortOrders(ss: seq<Listed>, sortBy: Option<SortKey>)
    ensures sortBy == None ==> ApplySort(ss, sortBy) == ss
    ensures sortBy == Some(PriceAsc) ==>
              forall i, j :: 0 <= i < j < |ss| ==> ApplySort(ss, sortBy)[i].minPrice <= ApplySort(ss, sortBy)[j].minPrice
    ensures sortBy == Some(PriceDesc) ==>
              forall i, j :: 0 <= i < j < |ss| ==> ApplySort(ss, sortBy)[i].maxPrice >= ApplySort(ss, sortBy)[j].maxPrice
    ensures sortBy == Some(BestSelling) ==>
              forall i, j :: 0 <= i < j < |ss| ==> ApplySort(ss, sortBy)[i].totalSales >= ApplySort(ss, sortBy)[j].totalSales
  {
    match sortBy
    case None =>
    case Some(PriceAsc) => Seqs.SortBySorted(ss, MinPriceKey);
    case Some(PriceDesc) => Seqs.SortBySorted(ss, MaxPriceDescKey);
    case Some(BestSelling) => Seqs.SortBySorted(ss, SalesDescKey);
  }

  /** `slice((page - 1) * itemPerPage, page * itemPerPage)`. */
  function Page<T>(ss: seq<T>, page: int, itemPerPage: int): seq<T> {
    Seqs.JsSlice(ss, (page - 1) * itemPerPage, page * itemPerPage)
  }

  /** Page p of size n holds the elements at positions [(p - 1) * n, p * n) that exist. */
  lemma PageWindow<T>(ss: seq<T>, page: int, n: int)
    requires page >= 1 && n >= 0
    ensures var lo := (page - 1) * n;
            |Page(ss, page, n)| <= n &&
            (lo >= |ss| ==> Page(ss, page, n) == []) &&
            (lo < |ss| ==> Page(ss, page, n) == ss[lo..if page * n < |ss| then page * n else |ss|])
  {
    var lo := (page - 1) * n;
    assert lo >= 0 by {
      Seqs.MulNonNegative(page - 1, n);
    }
    assert page * n == lo + n;
  }

  /** The result of a listing query: one page and the size of the whole filtered list. */
  datatype Listing = Listing(products: seq<Listed>, totalProducts: nat)

  /** Everything after the category rows are fetched: dedupe, aggregate, filter, sort, page. */
  function ListingOf(rows: seq<Product>, q: Query): Listing {
    var filtered := ApplyFilters(SummarizeAll(DedupeById(rows)), q);
    Listing(Page(ApplySort(filtered, q.sortBy), q.page, q.itemPerPage), |filtered|)
  }

  function ProductIdOf(s: Listed): int { s.product.id }

  /** Every listed product comes from the rows, passes every filter, and carries its own aggregates. */
  lemma ListingMembers(rows: seq<Product>, q: Query, s: Listed)
    requires s in ListingOf(rows, q).products
    ensures s.product in rows && Keep(q, s) && s == Summarize(s.product)
  {
    var all := SummarizeAll(DedupeById(rows));
    var filtered := ApplyFilters(all, q);
    var sorted := ApplySort(filtered, q.sortBy);
    PageMembers(sorted, q.page, q.itemPerPage, s);
    ApplySortPermutes(filtered, q.sortBy);
    assert s in multiset(sorted);
    FilteredMember(all, q, s);
    var i :| 0 <= i < |all| && all[i] == s;
    assert s == Summarize(DedupeById(rows)[i]);
  }

  lemma PageMembers<T>(ss: seq<T>, page: int, n: int, x: T)
    requires x in Page(ss, page, n)
    ensures x in ss
  {
    Seqs.SliceMembers(ss, (page - 1) * n, page * n, x);
  }

  /** No product is listed twice, however many matching categories it is linked to. */
  lemma ListingUnique(rows: seq<Product>, q: Query)
    ensures Seqs.UniqueBy(ListingOf(rows, q).products, ProductIdOf)
  {
    var all := SummarizeAll(DedupeById(rows));
    var filtered := ApplyFilters(all, q);
    var sorted := ApplySort(filtered, q.sortBy);
    assert ListingOf(rows, q).products == Page(sorted, q.page, q.itemPerPage);
    assert Seqs.UniqueBy(all, ProductIdOf);
    FiltersAreConjunctive(all, q);
    Seqs.FilterUniqueBy(all, KeepTest(q), ProductIdOf);
    ApplySortPermutes(filtered, q.sortBy);
    Seqs.UniqueByPermutation(filtered, sorted, ProductIdOf);
    PageUniqueBy(sorted, q.page, q.itemPerPage);
  }

  lemma PageUniqueBy(ss: seq<Listed>, page: int, n: int)
    requires Seqs.UniqueBy(ss, ProductIdOf)
    ensures Seqs.UniqueBy(Page(ss, page, n), ProductIdOf)
  {
    Seqs.SliceUniqueBy(ss, (page - 1) * n, page * n, ProductIdOf);
  }

  /** A page is never longer than the page size, and the total counts the filtered list before paging. */
  lemma ListingCounts(rows: seq<Product>, q: Query)
    ensures ListingOf(rows, q).totalProducts == |Seqs.Filter(SummarizeAll(DedupeById(rows)), KeepTest(q))|
    ensures q.page >= 1 && q.itemPerPage >= 0 ==> |ListingOf(rows, q).products| <= q.itemPerPage
  {
    var all := SummarizeAll(DedupeById(rows));
    var filtered := ApplyFilters(all, q);
    FiltersAreConjunctive(all, q);
    if q.page >= 1 && q.itemPerPage >= 0 {
      PageWindow(ApplySort(filtered, q.sortBy), q.page, q.itemPerPage);
    }
  }

  /**
   * Through the storefront endpoint, which always sends a price range, a product without
   * variants is never listed: the range test needs some variant.
   */
  lemma NoVariantsNeverListed(rows: seq<Product>, q: Query, s: Listed)
    requires q.priceRange.Some? && s in ListingOf(rows, q).products
    ensures |s.product.variants| > 0
  {
    ListingMembers(rows, q, s);
  }

  // ---------------------------------------------------------------------------
  // Related products
  // ---------------------------------------------------------------------------

  /** `p.tags.filter(tag => tags.includes(tag)).length`: repeated tags count again. */
  function SharedTagCount(ts: seq<string>, tags: seq<string>): (n: nat)
    ensures n <= |ts|
    ensures n > 0 <==> exists t :: t in ts && t in tags
  {
    if ts == [] then 0
    else
      assert forall t :: t in ts <==> t == ts[0] || t in ts[1..];
      (if ts[0] in tags then 1 else 0) + SharedTagCount(ts[1..], tags)
  }

  /** The candidate query: another product sharing at least one tag. */
  function IsCandidate(productId: int, tags: seq<string>): Product -> bool {
    (p: Product) => p.id != productId && exists t :: t in p.tags && t in tags
  }

  function RankKey(tags: seq<string>): Product -> int {
    (p: Product) => 0 - SharedTagCount(p.tags, tags) as int
  }

  /** The related record shows the aggregates without sizes. */
  function SummarizeRelated(p: Product): (s: Listed)
    ensures s.product == p && s.sizes.None?
  {
    Summarize(p).(sizes := None)
  }

  function Take<T>(s: seq<T>, n: nat): (r: seq<T>)
    ensures |r| <= n && Seqs.StartsWith(s, r)
    ensures |s| >= n ==> |r| == n
  {
    if |s| <= n then s else s[..n]
  }

  /** The ranked candidates: stable sort by shared-tag count, most shared first. */
  function RankCandidates(ps: seq<Product>, productId: int, tags: seq<string>): seq<Product> {
    Seqs.SortBy(Seqs.Filter(ps, IsCandidate(productId, tags)), RankKey(tags))
  }

  /** `findRelatedProducts` once the product's tags are known. */
  function RelatedOf(ps: seq<Product>, productId: int, tags: seq<string>): (r: seq<Listed>)
    ensures |r| <= 5 && (|tags| == 0 ==> r == [])
    ensures |tags| > 0 ==> |r| == if |RankCandidates(ps, productId, tags)| < 5 then |RankCandidates(ps, productId, tags)| else 5
  {
    if |tags| == 0 then []
    else
      var top := Take(RankCandidates(ps, productId, tags), 5);
      seq(|top|, i requires 0 <= i < |top| => SummarizeRelated(top[i]))
  }

  /** Each related product is another product of the table that shares at least one tag. */
  lemma RelatedMembers(ps: seq<Product>, productId: int, tags: seq<string>, i: int)
    requires 0 <= i < |RelatedOf(ps, productId, tags)|
    ensures var s := RelatedOf(ps, productId, tags)[i];
            s.product in ps && s.product.id != productId && SharedTagCount(s.product.tags, tags) > 0
  {
    var cands := Seqs.Filter(ps, IsCandidate(productId, tags));
    var ranked := RankCandidates(ps, productId, tags);
    var top := Take(ranked, 5);
    assert RelatedOf(ps, productId, tags)[i].product == top[i] == ranked[i];
    assert ranked[i] in multiset(cands);
    Seqs.FilterMembers(ps, IsCandidate(productId, tags), ranked[i]);
  }

  /** Related products come most-shared-tags first. */
  lemma RelatedOrdered(ps: seq<Product>, productId: int, tags: seq<string>, i: int, j: int)
    requires 0 <= i < j < |RelatedOf(ps, productId, tags)|
    ensures var r := RelatedOf(ps, productId, tags);
            SharedTagCount(r[i].product.tags, tags) >= SharedTagCount(r[j].product.tags, tags)
  {
    var cands := Seqs.Filter(ps, IsCandidate(productId, tags));
    var ranked := RankCandidates(ps, productId, tags);
    Seqs.SortBySorted(cands, RankKey(tags));
    var r := RelatedOf(ps, productId, tags);
    assert r[i].product == ranked[i] && r[j].product == ranked[j];
    assert RankKey(tags)(ranked[i]) <= RankKey(tags)(ranked[j]);
  }

  /** No candidate left out of the five shares more tags than a product that is listed. */
  lemma RelatedTopFive(ps: seq<Product>, productId: int, tags: seq<string>, p: Product, i: int)
    requires |tags| > 0 && p in ps && IsCandidate(productId, tags)(p)
    requires p !in Take(RankCandidates(ps, productId, tags), 5)
    requires 0 <= i < |RelatedOf(ps, productId, tags)|
    ensures SharedTagCount(p.tags, tags) <= SharedTagCount(RelatedOf(ps, productId, tags)[i].product.tags, tags)
  {
    var cands := Seqs.Filter(ps, IsCandidate(productId, tags));
    var ranked := RankCandidates(ps, productId, tags);
    Seqs.SortBySorted(cands, RankKey(tags));
    Seqs.FilterMembers(ps, IsCandidate(productId, tags), p);
    assert p in multiset(ranked);
    var k :| 0 <= k < |ranked| && ranked[k] == p;
    OutsidePrefix(ranked, 5, k);
    assert RelatedOf(ps, productId, tags)[i].product == ranked[i];
    assert RankKey(tags)(ranked[i]) <= RankKey(tags)(ranked[k]);
  }

  lemma OutsidePrefix<T>(s: seq<T>, n: nat, k: int)
    requires 0 <= k < |s| && s[k] !in Take(s, n)
    ensures k >= |Take(s, n)|
  {
  }

  // ---------------------------------------------------------------------------
  // Display images on update
  // ---------------------------------------------------------------------------

  /** The `^(http|https)://` test. */
  predicate IsHttpUrl(u: string) {
    Seqs.StartsWith(u, "http://") || Seqs.StartsWith(u, "https://")
  }

  function HttpTest(): string -> bool { (u: string) => IsHttpUrl(u) }

  /** The images kept before the uploads: the supplied web URLs, or else the current list. */
  function KeptImages(supplied: Option<seq<string>>, current: seq<string>): seq<string> {
    if supplied.Some? then Seqs.Filter(supplied.value, HttpTest()) else current
  }

  /** The image list an update stores: kept images, then uploads, de-duplicated, at most ten. */
  function FinalDisplayImages(supplied: Option<seq<string>>, current: seq<string>, uploads: seq<string>): (r: seq<string>)
    ensures Seqs.NoDup(r) && |r| <= 10
  {
    var all := Seqs.Distinct(KeptImages(supplied, current) + uploads);
    if |all| <= 10 then all else all[..10]
  }

  /**
   * Every stored image is a supplied web URL (or, with no list supplied, a current image) or an
   * upload; the kept images come first in their own order; and when at most ten distinct
   * URLs are involved, none of them is lost.
   */
  lemma DisplayImagesOrigin(supplied: Option<seq<string>>, current: seq<string>, uploads: seq<string>)
    ensures var r := FinalDisplayImages(supplied, current, uploads);
            && (forall u :: u in r ==>
                  u in uploads || (supplied.Some? && u in supplied.value && IsHttpUrl(u)) ||
                  (supplied.None? && u in current))
            && (var kept := Seqs.Distinct(KeptImages(supplied, current));
                var n := if |kept| <= 10 then |kept| else 10;
                n <= |r| && r[..n] == kept[..n])
            && (|Seqs.Distinct(KeptImages(supplied, current) + uploads)| <= 10 ==>
                  forall u :: u in KeptImages(supplied, current) + uploads ==> u in r)
  {
    DisplayImagesFrom(supplied, current, uploads);
    Seqs.DistinctPrefix(KeptImages(supplied, current), uploads);
    DisplayImagesComplete(supplied, current, uploads);
  }

  /** Every stored image comes from the kept images or the uploads. */
  lemma DisplayImagesFrom(supplied: Option<seq<string>>, current: seq<string>, uploads: seq<string>)
    ensures forall u :: u in FinalDisplayImages(supplied, current, uploads) ==>
              u in uploads || (supplied.Some? && u in supplied.value && IsHttpUrl(u)) ||
              (supplied.None? && u in current)
  {
    var base := KeptImages(supplied, current);
    var all := Seqs.Distinct(base + uploads);
    var r := FinalDisplayImages(supplied, current, uploads);
    forall u | u in r
      ensures u in uploads || (supplied.Some? && u in supplied.value && IsHttpUrl(u)) || (supplied.None? && u in current)
    {
      assert u in all;
      var i :| 0 <= i < |all| && all[i] == u;
      assert u in base + uploads;
      if supplied.Some? && u in base {
        Seqs.FilterMembers(supplied.value, HttpTest(), u);
      }
    }
  }

  /** With at most ten distinct URLs involved, every kept image and every upload is stored. */
  lemma DisplayImagesComplete(supplied: Option<seq<string>>, current: seq<string>, uploads: seq<string>)
    ensures |Seqs.Distinct(KeptImages(supplied, current) + uploads)| <= 10 ==>
              forall u :: u in KeptImages(supplied, current) + uploads ==> u in FinalDisplayImages(supplied, current, uploads)
  {
    var s := KeptImages(supplied, current) + uploads;
    forall u | u in s && |Seqs.Distinct(s)| <= 10 ensures u in FinalDisplayImages(supplied, current, uploads) {
      var i :| 0 <= i < |s| && s[i] == u;
    }
  }

}
