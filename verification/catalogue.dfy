/** What the product and category routes share: the slug the admin routes derive from a
    name, the product search and category filters, and the orderings a listing may ask for. */
module Catalogue {
  import opened Wrappers
  import opened Text
  import opened Schema
  import opened Seqs
  import opened Sorting
  import opened Paging
  import opened Utils

  predicate NotSlugAlnum(c: char) {
    !SlugAlnum(c)
  }

  /** `.replace(/(^-|-$)/g, '')`: a hyphen at the start and a hyphen at the end are removed;
      nothing else is. */
  function StripEdgeHyphens(s: string): (r: string)
    ensures var i := if |s| > 0 && s[0] == '-' then 1 else 0;
      && i + |r| <= |s| && |s| - |r| - i <= 1
      && r == s[i..i + |r|]
      && (i + |r| < |s| ==> s[|s| - 1] == '-')
      && (|r| > 0 && s[i + |r| - 1] == '-' ==> i + |r| < |s|)
  {
    var t := if |s| > 0 && s[0] == '-' then s[1..] else s;
    if |t| > 0 && t[|t| - 1] == '-' then t[..|t| - 1] else t
  }

  /** The slug the admin create routes compute:
      `name.toLowerCase().replace(/[^a-z0-9]+/g, '-').replace(/(^-|-$)/g, '')`. */
  function RouteSlug(name: string): string {
    StripEdgeHyphens(CollapseRuns(Lower(name), NotSlugAlnum, '-'))
  }

  /** Letters, digits and single hyphens, with no hyphen at either end. */
  predicate SlugShape(s: string) {
    && All(s, SlugChar)
    && Separated(s, IsHyphen)
    && (|s| > 0 ==> s[0] != '-' && s[|s| - 1] != '-')
  }

  /** Once runs are collapsed, the slug's character set is [a-z0-9-] and hyphens are single. */
  lemma CollapsedShape(name: string)
    ensures var c := CollapseRuns(Lower(name), NotSlugAlnum, '-');
      All(c, SlugChar) && Separated(c, IsHyphen)
  {
    var c := CollapseRuns(Lower(name), NotSlugAlnum, '-');
    CollapseRunsChars(Lower(name), NotSlugAlnum, '-', SlugChar);
    CollapseRunsSeparated(Lower(name), NotSlugAlnum, '-');
    forall i | 0 <= i < |c| - 1 ensures !(IsHyphen(c[i]) && IsHyphen(c[i + 1])) {
      assert !(NotSlugAlnum(c[i]) && NotSlugAlnum(c[i + 1]));
    }
  }

  /** Removing the edge hyphens of a string with single hyphens leaves none at the edges. */
  lemma StripShape(c: string)
    requires All(c, SlugChar) && Separated(c, IsHyphen)
    ensures SlugShape(StripEdgeHyphens(c))
  {
    var t := if |c| > 0 && c[0] == '-' then c[1..] else c;
    if |c| > 0 && c[0] == '-' {
      if |t| > 0 {
        assert !(IsHyphen(c[0]) && IsHyphen(c[1]));
      }
      SuffixShape(c, 1);
    }
    DropTrailingHyphen(t);
  }

  lemma SuffixShape(c: string, k: nat)
    requires k <= |c| && All(c, SlugChar) && Separated(c, IsHyphen)
    ensures All(c[k..], SlugChar) && Separated(c[k..], IsHyphen)
  {
    assert forall i :: 0 <= i < |c| - k ==> c[k..][i] == c[k + i];
  }

  lemma DropTrailingHyphen(t: string)
    requires All(t, SlugChar) && Separated(t, IsHyphen)
    requires |t| > 0 ==> t[0] != '-'
    ensures var r := if |t| > 0 && t[|t| - 1] == '-' then t[..|t| - 1] else t;
      SlugShape(r)
  {
    if |t| > 0 && t[|t| - 1] == '-' {
      var r := t[..|t| - 1];
      assert forall i :: 0 <= i < |r| ==> r[i] == t[i];
      if |r| > 0 {
        assert !IsHyphen(t[|t| - 2]);
      }
    }
  }

  /** The route slug is made of [a-z0-9-], never holds "--" and never starts or ends with '-'. */
  lemma RouteSlugShape(name: string)
    ensures SlugShape(RouteSlug(name))
  {
    CollapsedShape(name);
    StripShape(CollapseRuns(Lower(name), NotSlugAlnum, '-'));
  }

  /** A string is its own route slug exactly when it already has the slug's shape. */
  lemma RouteSlugFixedPoints(t: string)
    ensures RouteSlug(t) == t <==> SlugShape(t)
  {
    if SlugShape(t) {
      LowerSlugIdentity(t);
      forall i | 0 <= i < |t| - 1 ensures !(NotSlugAlnum(t[i]) && NotSlugAlnum(t[i + 1])) {
        assert !(IsHyphen(t[i]) && IsHyphen(t[i + 1]));
      }
      CollapseRunsIdentity(t, NotSlugAlnum, '-');
    } else if RouteSlug(t) == t {
      RouteSlugShape(t);
    }
  }

  /** Deriving the slug again from a slug changes nothing. */
  lemma RouteSlugIdempotent(name: string)
    ensures RouteSlug(RouteSlug(name)) == RouteSlug(name)
  {
    RouteSlugShape(name);
    RouteSlugFixedPoints(RouteSlug(name));
  }

  /** Where the name starts with white space, the route drops the hyphen the shared
      `generateSlug` helper keeps: " ring" gives "ring" here and "-ring" there. */
  lemma RouteSlugDropsEdgeHyphen(w: string)
    requires |w| > 0 && All(w, SlugAlnum)
    ensures RouteSlug(" " + w) == w
    ensures GenerateSlug(" " + w) == "-" + w
  {
    LowerLeadingSpace(w);
    CollapseLeadingSpace(w);
    WordIsOwnRouteSlug(w);
    StripLeadingHyphen(w);
    GenerateSlugKeepsEdgeHyphen(w);
  }

  lemma LowerLeadingSpace(w: string)
    requires All(w, SlugAlnum)
    ensures Lower(" " + w) == " " + w
  {
    var s := " " + w;
    assert forall i :: 0 <= i < |s| ==> Lower(s)[i] == s[i];
  }

  lemma WordIsOwnRouteSlug(w: string)
    requires |w| > 0 && All(w, SlugAlnum)
    ensures CollapseRuns(w, NotSlugAlnum, '-') == w
  {
    forall i | 0 <= i < |w| - 1 ensures !(NotSlugAlnum(w[i]) && NotSlugAlnum(w[i + 1])) {
      assert SlugAlnum(w[i]);
    }
    CollapseRunsIdentity(w, NotSlugAlnum, '-');
  }

  lemma CollapseLeadingSpace(w: string)
    requires |w| > 0 && All(w, SlugAlnum)
    ensures CollapseRuns(" " + w, NotSlugAlnum, '-') == "-" + CollapseRuns(w, NotSlugAlnum, '-')
  {
    assert SlugAlnum(w[0]);
    CollapseLeadingRun(' ', w, NotSlugAlnum, '-');
  }

  lemma StripLeadingHyphen(w: string)
    requires |w| > 0 && All(w, SlugAlnum)
    ensures StripEdgeHyphens("-" + w) == w
  {
    assert ("-" + w)[1..] == w;
    assert SlugAlnum(w[|w| - 1]);
  }

  /** The case-insensitive `contains` search over name, description and SKU; an empty search
      term adds no condition. A product without a description cannot match on it. */
  predicate MatchesSearch(p: Product, search: string) {
    || search == ""
    || ContainsIgnoreCase(p.name, search)
    || (p.description.Some? && ContainsIgnoreCase(p.description.value, search))
    || ContainsIgnoreCase(p.sku, search)
  }

  /** `...(categoryId && { categoryId })`: no parameter, no condition. */
  predicate InCategory(p: Product, categoryId: Option<int>) {
    categoryId.None? || p.categoryId == categoryId.value
  }

  /** The `where` clause of a product listing; the public one also requires `isActive`. */
  predicate Selected(p: Product, activeOnly: bool, search: string, categoryId: Option<int>) {
    (!activeOnly || p.isActive) && MatchesSearch(p, search) && InCategory(p, categoryId)
  }

  function Selector(activeOnly: bool, search: string, categoryId: Option<int>): Product -> bool {
    (p: Product) => Selected(p, activeOnly, search, categoryId)
  }

  /** The listing's query string. `categoryId` is `None` when the parameter is absent or empty. */
  datatype ProductQuery = ProductQuery(page: Option<int>, limit: Option<int>, search: Option<string>,
                                       categoryId: Option<int>, sortBy: Option<string>,
                                       sortOrder: Option<string>)

  function ProductId(p: Product): int { p.id }
  function ProductPrice(p: Product): int { p.price }
  function ProductStock(p: Product): int { p.stockQuantity }
  function ProductCreated(p: Product): int { p.createdAt }
  function ProductName(p: Product): string { p.name }
  function ProductSlug(p: Product): string { p.slug }
  function ProductSku(p: Product): string { p.sku }

  predicate IntField(sortBy: string) {
    sortBy == "id" || sortBy == "price" || sortBy == "stockQuantity" || sortBy == "createdAt"
  }

  predicate StringField(sortBy: string) {
    sortBy == "name" || sortBy == "slug" || sortBy == "sku"
  }

  function IntKey(sortBy: string): Product -> int
    requires IntField(sortBy)
  {
    if sortBy == "id" then ProductId
    else if sortBy == "price" then ProductPrice
    else if sortBy == "stockQuantity" then ProductStock
    else ProductCreated
  }

  function StringKey(sortBy: string): Product -> string
    requires StringField(sortBy)
  {
    if sortBy == "name" then ProductName else if sortBy == "slug" then ProductSlug else ProductSku
  }

  /** `orderBy: { [sortBy]: sortOrder }`, over the seven fields this model orders by: id, price,
      stockQuantity, createdAt, name, slug and sku. Any other field, and a direction other than
      'asc' or 'desc', is refused here. The database would also order by its remaining columns. */
  function ProductOrdering(sortBy: string, sortOrder: string): (r: Option<(Product, Product) -> bool>)
    ensures r.Some? <==> (IntField(sortBy) || StringField(sortBy)) && (sortOrder == "asc" || sortOrder == "desc")
    ensures sortBy == "createdAt" && sortOrder == "desc" ==> r == Some(ByKeyDesc(ProductCreated))
    ensures sortBy == "name" && sortOrder == "asc" ==> r == Some(ByStringAsc(ProductName))
  {
    if sortOrder != "asc" && sortOrder != "desc" then None
    else if IntField(sortBy) then
      Some(if sortOrder == "asc" then ByKeyAsc(IntKey(sortBy)) else ByKeyDesc(IntKey(sortBy)))
    else if StringField(sortBy) then
      Some(if sortOrder == "asc" then ByStringAsc(StringKey(sortBy)) else ByStringDesc(StringKey(sortBy)))
    else None
  }

  lemma ProductOrderingIsPreorder(sortBy: string, sortOrder: string)
    requires ProductOrdering(sortBy, sortOrder).Some?
    ensures Total(ProductOrdering(sortBy, sortOrder).value)
    ensures Transitive(ProductOrdering(sortBy, sortOrder).value)
  {
    if IntField(sortBy) {
      KeyOrdersArePreorders(IntKey(sortBy));
    } else {
      StringOrderIsPreorder(StringKey(sortBy));
      ReverseStringOrderIsPreorder(StringKey(sortBy));
    }
  }

  /** The products a query selects, in the requested order. */
  function Ordered(products: seq<Product>, activeOnly: bool, q: ProductQuery, le: (Product, Product) -> bool)
    : seq<Product>
  {
    var search := StrOr(q.search, "");
    Sort(Filter(products, Selector(activeOnly, search, q.categoryId)), le)
  }

  /** A product listing: `sortBy || 'createdAt'`, `sortOrder || 'desc'`, the `where` clause,
      then the page arithmetic; any database refusal becomes 'Failed to fetch products'. */
  function ListProducts(products: seq<Product>, activeOnly: bool, q: ProductQuery, defaultLimit: int)
    : (r: Response<Page<Product>>)
    requires defaultLimit > 0
    ensures ProductOrdering(StrOr(q.sortBy, "createdAt"), StrOr(q.sortOrder, "desc")).None? ==>
      r == Err(500, "Failed to fetch products")
    ensures ProductOrdering(StrOr(q.sortBy, "createdAt"), StrOr(q.sortOrder, "desc")).Some? ==>
      r == Paginate(Ordered(products, activeOnly, q,
                            ProductOrdering(StrOr(q.sortBy, "createdAt"), StrOr(q.sortOrder, "desc")).value),
                    q.page, q.limit, defaultLimit, "Failed to fetch products")
  {
    match ProductOrdering(StrOr(q.sortBy, "createdAt"), StrOr(q.sortOrder, "desc"))
    case None => Err(500, "Failed to fetch products")
    case Some(le) => Paginate(Ordered(products, activeOnly, q, le), q.page, q.limit, defaultLimit,
                              "Failed to fetch products")
  }

  /** The page and the count come from the same `where` clause: the page holds at most
      `limit` products, each of them selected, in the requested order, and `total` counts
      every selected product. */
  lemma ListingIsConsistent(products: seq<Product>, activeOnly: bool, q: ProductQuery, defaultLimit: int)
    requires defaultLimit > 0
    ensures var r := ListProducts(products, activeOnly, q, defaultLimit);
      var search := StrOr(q.search, "");
      r.Ok? ==>
        && var le := ProductOrdering(StrOr(q.sortBy, "createdAt"), StrOr(q.sortOrder, "desc")).value;
        && |r.value.items| <= r.value.limit
        && r.value.total == |Filter(products, Selector(activeOnly, search, q.categoryId))|
        && Sorted(r.value.items, le)
        && forall k :: 0 <= k < |r.value.items| ==>
             r.value.items[k] in products && Selected(r.value.items[k], activeOnly, search, q.categoryId)
  {
    var search := StrOr(q.search, "");
    var ordering := ProductOrdering(StrOr(q.sortBy, "createdAt"), StrOr(q.sortOrder, "desc"));
    if ordering.Some? {
      ProductOrderingIsPreorder(StrOr(q.sortBy, "createdAt"), StrOr(q.sortOrder, "desc"));
      FilteredListing(products, Selector(activeOnly, search, q.categoryId), ordering.value,
                      q.page, q.limit, defaultLimit, "Failed to fetch products");
    }
  }

  /** A listing that filters, orders, then pages: the page holds at most `limit` rows, all
      kept by the filter and in order, and `total` counts every kept row. */
  lemma FilteredListing<T(!new)>(rows: seq<T>, keep: T -> bool, le: (T, T) -> bool, rawPage: Option<int>,
                                 rawLimit: Option<int>, defaultLimit: int, failure: string)
    requires defaultLimit > 0 && Total(le) && Transitive(le)
    ensures var r := Paginate(Sort(Filter(rows, keep), le), rawPage, rawLimit, defaultLimit, failure);
      r.Ok? ==>
        && |r.value.items| <= r.value.limit
        && r.value.total == |Filter(rows, keep)|
        && Sorted(r.value.items, le)
        && forall k :: 0 <= k < |r.value.items| ==> r.value.items[k] in rows && keep(r.value.items[k])
  {
    var chosen := Filter(rows, keep);
    var ordered := Sort(chosen, le);
    SortSorted(chosen, le);
    PageOfSorted(ordered, rawPage, rawLimit, defaultLimit, failure, le);
    forall x | x in ordered ensures x in chosen {
      assert x in multiset(ordered);
    }
  }

  /** A page of a sorted sequence is sorted and holds only its rows. */
  lemma PageOfSorted<T>(rows: seq<T>, rawPage: Option<int>, rawLimit: Option<int>, defaultLimit: int,
                        failure: string, le: (T, T) -> bool)
    requires defaultLimit > 0 && Sorted(rows, le)
    ensures var r := Paginate(rows, rawPage, rawLimit, defaultLimit, failure);
      r.Ok? ==> Sorted(r.value.items, le) && forall k :: 0 <= k < |r.value.items| ==> r.value.items[k] in rows
  {
    var r := Paginate(rows, rawPage, rawLimit, defaultLimit, failure);
    if r.Ok? {
      WindowOfSorted(rows, (r.value.page - 1) * r.value.limit, r.value.limit, le);
    }
  }

  lemma WindowOfSorted<T>(rows: seq<T>, skip: nat, take: nat, le: (T, T) -> bool)
    requires Sorted(rows, le)
    ensures var w := Window(rows, skip, take);
      Sorted(w, le) && forall k :: 0 <= k < |w| ==> w[k] in rows
  {
    var w := Window(rows, skip, take);
    forall i, j | 0 <= i < j < |w| ensures le(w[i], w[j]) {
      assert w[i] == rows[skip + i] && w[j] == rows[skip + j];
    }
    forall k | 0 <= k < |w| ensures w[k] in rows {
      assert w[k] == rows[skip + k];
    }
  }

  /** The admin category search: name or description, case-insensitively. */
  predicate CategoryMatches(c: Category, search: string) {
    || search == ""
    || ContainsIgnoreCase(c.name, search)
    || (c.description.Some? && ContainsIgnoreCase(c.description.value, search))
  }

  function CategoryCreated(c: Category): int { c.createdAt }
  function CategoryName(c: Category): string { c.name }
}
