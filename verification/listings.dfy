/** `GET /api/products`: the storefront's product listing, limited to active products. */
module ProductsApi {
  import opened Wrappers
  import opened Schema
  import opened Seqs
  import opened Sorting
  import opened Paging
  import opened Catalogue

  /** Page and limit default to 1 and 12; the order defaults to newest first. */
  function GetProducts(products: seq<Product>, q: ProductQuery): (r: Response<Page<Product>>)
    ensures r.Err? ==> r == Err(500, "Failed to fetch products")
    ensures r.Ok? <==>
      && ProductOrdering(StrOr(q.sortBy, "createdAt"), StrOr(q.sortOrder, "desc")).Some?
      && IntOr(q.page, 1) >= 1 && IntOr(q.limit, 12) >= 1
    ensures r.Ok? ==>
      && r.value.page == IntOr(q.page, 1) && r.value.limit == IntOr(q.limit, 12)
      && r.value.total == |Filter(products, Selector(true, StrOr(q.search, ""), q.categoryId))|
      && r.value.totalPages == TotalPages(r.value.total, r.value.limit)
      && r.value.items == PageRows(Ordered(products, true, q,
                                           ProductOrdering(StrOr(q.sortBy, "createdAt"), StrOr(q.sortOrder, "desc")).value),
                                   r.value.page, r.value.limit)
  {
    ListProducts(products, true, q, 12)
  }

  /** Only active products are ever shown or counted, and the count covers every active match. */
  lemma OnlyActiveListed(products: seq<Product>, q: ProductQuery)
    ensures var r := GetProducts(products, q);
      var search := StrOr(q.search, "");
      r.Ok? ==>
        && |r.value.items| <= r.value.limit
        && r.value.total == |Filter(products, Selector(true, search, q.categoryId))|
        && forall k :: 0 <= k < |r.value.items| ==>
             r.value.items[k] in products && r.value.items[k].isActive
             && MatchesSearch(r.value.items[k], search) && InCategory(r.value.items[k], q.categoryId)
  {
    ListingIsConsistent(products, true, q, 12);
  }

  /** Without parameters: the first twelve active products, newest first. */
  lemma DefaultListing(products: seq<Product>)
    ensures var r := GetProducts(products, ProductQuery(None, None, None, None, None, None));
      && r.Ok? && r.value.page == 1 && r.value.limit == 12
      && r.value.items == Window(Sort(Filter(products, Selector(true, "", None)), ByKeyDesc(ProductCreated)), 0, 12)
  {
    var q := ProductQuery(None, None, None, None, None, None);
    assert StrOr(q.search, "") == "" && StrOr(q.sortBy, "createdAt") == "createdAt";
    assert StrOr(q.sortOrder, "desc") == "desc";
  }

  /** A page or limit of 0, or one that does not parse, falls back to the default. */
  lemma FalsyParametersFallBack(products: seq<Product>, q: ProductQuery)
    requires !TruthyInt(q.page) && !TruthyInt(q.limit)
    ensures var r := GetProducts(products, q);
      r.Ok? ==> r.value.page == 1 && r.value.limit == 12
  {
  }
}

/** `GET /api/categories`: the storefront's category listing. */
module CategoriesApi {
  import opened Wrappers
  import opened Schema
  import opened Seqs
  import opened Sorting
  import opened Paging
  import opened Catalogue

  predicate IsActive(c: Category) {
    c.isActive
  }

  /** Active categories in name order; page and limit default to 1 and 50. */
  function GetCategories(categories: seq<Category>, rawPage: Option<int>, rawLimit: Option<int>)
    : (r: Response<Page<Category>>)
    ensures r.Err? ==> r == Err(500, "Failed to fetch categories")
    ensures r.Ok? <==> IntOr(rawPage, 1) >= 1 && IntOr(rawLimit, 50) >= 1
    ensures r.Ok? ==>
      && r.value.page == IntOr(rawPage, 1) && r.value.limit == IntOr(rawLimit, 50)
      && r.value.total == |Filter(categories, IsActive)|
      && r.value.items == PageRows(Sort(Filter(categories, IsActive), ByStringAsc(CategoryName)),
                                   r.value.page, r.value.limit)
  {
    Paginate(Sort(Filter(categories, IsActive), ByStringAsc(CategoryName)), rawPage, rawLimit, 50,
             "Failed to fetch categories")
  }

  /** Only active categories are shown and counted, and each page is in name order. */
  lemma OnlyActiveInNameOrder(categories: seq<Category>, rawPage: Option<int>, rawLimit: Option<int>)
    ensures var r := GetCategories(categories, rawPage, rawLimit);
      r.Ok? ==>
        && |r.value.items| <= r.value.limit
        && r.value.total == |Filter(categories, IsActive)|
        && r.value.totalPages == TotalPages(r.value.total, r.value.limit)
        && Sorted(r.value.items, ByStringAsc(CategoryName))
        && forall k :: 0 <= k < |r.value.items| ==> r.value.items[k] in categories && r.value.items[k].isActive
  {
    StringOrderIsPreorder(CategoryName);
    FilteredListing(categories, IsActive, ByStringAsc(CategoryName), rawPage, rawLimit, 50,
                    "Failed to fetch categories");
  }
}
