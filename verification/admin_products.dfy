/** `/api/admin/products`: the admin listing and the create handler, both behind the admin gate. */
module AdminProducts {
  import opened Wrappers
  import opened Schema
  import opened Auth
  import opened Paging
  import opened Sorting
  import opened Catalogue

  /** The create request body. `slug` is whatever the client sent; the handler never reads it.
      Prices and weights are whole numbers here; an absent field is `None`. */
  datatype ProductRequest = ProductRequest(
    name: Option<string>, description: Option<string>, price: Option<nat>, salePrice: Option<nat>,
    sku: Option<string>, categoryId: Option<int>, stockQuantity: Option<int>, weight: Option<nat>,
    images: Option<seq<string>>, tags: Option<seq<string>>, isActive: Option<bool>,
    isFeatured: Option<bool>, slug: Option<string>)

  predicate NonEmpty(x: Option<string>) {
    x.Some? && x.value != ""
  }

  /** `!name || !price || !sku || !categoryId` is false. */
  predicate HasRequired(req: ProductRequest) {
    NonEmpty(req.name) && TruthyNat(req.price) && NonEmpty(req.sku) && TruthyInt(req.categoryId)
  }

  predicate SkuTaken(products: seq<Product>, sku: string) {
    exists i :: 0 <= i < |products| && products[i].sku == sku
  }

  predicate SlugTaken(products: seq<Product>, slug: string) {
    exists i :: 0 <= i < |products| && products[i].slug == slug
  }

  /** The product's category relation: `categoryId` must name a category row, or the
      database refuses the create. */
  predicate CategoryExists(categories: seq<Category>, id: int) {
    exists i :: 0 <= i < |categories| && categories[i].id == id
  }

  /** Ids, SKUs and slugs are each unique across the table. */
  predicate UniqueKeys(products: seq<Product>) {
    forall i, j :: 0 <= i < j < |products| ==>
      && products[i].id != products[j].id
      && products[i].sku != products[j].sku
      && products[i].slug != products[j].slug
  }

  /** `x ? x : null` for a nullable number. */
  function TruthyOrNull(x: Option<nat>): (r: Option<nat>)
    ensures r.Some? <==> TruthyNat(x)
    ensures r.Some? ==> r == x
  {
    if TruthyNat(x) then x else None
  }

  /** `createProduct` once the caller is known to be an admin. Validation, then the SKU
      check, then the slug check; only when all pass is a row written, and then only when
      the category exists: otherwise the create throws and the handler answers 500. */
  function CreateProductAsAdmin(products: seq<Product>, categories: seq<Category>, req: ProductRequest, now: int)
    : (r: (Response<Product>, seq<Product>))
    ensures !HasRequired(req) ==> r == (Err(400, "Name, price, SKU, and category are required"), products)
    ensures HasRequired(req) && SkuTaken(products, req.sku.value) ==>
      r == (Err(400, "SKU already exists"), products)
    ensures HasRequired(req) && !SkuTaken(products, req.sku.value) && SlugTaken(products, RouteSlug(req.name.value)) ==>
      r == (Err(400, "Product slug already exists"), products)
    ensures && HasRequired(req) && !SkuTaken(products, req.sku.value)
            && !SlugTaken(products, RouteSlug(req.name.value)) && !CategoryExists(categories, req.categoryId.value)
            ==> r == (Err(500, "Failed to create product"), products)
    ensures r.0.Ok? <==>
      && HasRequired(req) && !SkuTaken(products, req.sku.value) && !SlugTaken(products, RouteSlug(req.name.value))
      && CategoryExists(categories, req.categoryId.value)
    ensures r.0.Ok? ==>
      var p := r.0.value;
      && r.0.status == 201
      && r.1 == products + [p]
      && (forall i :: 0 <= i < |products| ==> products[i].id < p.id)
      && p.name == req.name.value && p.slug == RouteSlug(req.name.value) && p.sku == req.sku.value
      && p.description == req.description && p.price == req.price.value && p.categoryId == req.categoryId.value
      && p.salePrice == TruthyOrNull(req.salePrice) && p.weight == TruthyOrNull(req.weight)
      && p.stockQuantity == IntOr(req.stockQuantity, 0)
      && p.images == OrDefault(req.images, []) && p.tags == OrDefault(req.tags, [])
      && p.isActive == OrDefault(req.isActive, true) && p.isFeatured == OrDefault(req.isFeatured, false)
      && p.createdAt == now
  {
    if !HasRequired(req) then (Err(400, "Name, price, SKU, and category are required"), products)
    else
      var slug := RouteSlug(req.name.value);
      if SkuTaken(products, req.sku.value) then (Err(400, "SKU already exists"), products)
      else if SlugTaken(products, slug) then (Err(400, "Product slug already exists"), products)
      else if !CategoryExists(categories, req.categoryId.value) then (Err(500, "Failed to create product"), products)
      else
        var p := Product(NextId(products, (x: Product) => x.id), req.name.value, slug, req.description,
                         req.sku.value, req.categoryId.value, req.price.value, TruthyOrNull(req.salePrice),
                         IntOr(req.stockQuantity, 0), TruthyOrNull(req.weight), OrDefault(req.images, []),
                         OrDefault(req.tags, []), OrDefault(req.isActive, true),
                         OrDefault(req.isFeatured, false), now);
        (Ok(201, p), products + [p])
  }

  /** `GET = requireAuth(getProducts, true)`: page and limit default to 1 and 10, every
      product (active or not) is eligible. */
  function GetProducts(products: seq<Product>, auth: AuthResult, q: ProductQuery): (r: Response<Page<Product>>)
    ensures auth.AuthFail? ==> r == Err(401, auth.error)
    ensures auth.AuthOk? && auth.user.role != ADMIN ==> r == Err(403, "Admin access required")
    ensures auth.AuthOk? && auth.user.role == ADMIN ==> r == ListProducts(products, false, q, 10)
  {
    RequireAuth(auth, true, products, (u: AuthUser) => (ListProducts(products, false, q, 10), products)).0
  }

  /** `POST = requireAuth(createProduct, true)`. */
  function CreateProduct(products: seq<Product>, categories: seq<Category>, auth: AuthResult, req: ProductRequest,
                         now: int)
    : (r: (Response<Product>, seq<Product>))
    ensures auth.AuthFail? ==> r == (Err(401, auth.error), products)
    ensures auth.AuthOk? && auth.user.role != ADMIN ==> r == (Err(403, "Admin access required"), products)
    ensures auth.AuthOk? && auth.user.role == ADMIN ==> r == CreateProductAsAdmin(products, categories, req, now)
  {
    RequireAuth(auth, true, products, (u: AuthUser) => CreateProductAsAdmin(products, categories, req, now))
  }

  /** Every rejected request, whatever the reason, leaves the table as it was. */
  lemma RejectedCreateWritesNothing(products: seq<Product>, categories: seq<Category>, auth: AuthResult,
                                    req: ProductRequest, now: int)
    ensures var r := CreateProduct(products, categories, auth, req, now); r.0.Err? ==> r.1 == products
  {
  }

  /** The slug comes from the name alone: whatever slug the client sends, the outcome is the same. */
  lemma ClientSlugIgnored(products: seq<Product>, categories: seq<Category>, auth: AuthResult, req: ProductRequest,
                          now: int, slug: Option<string>)
    ensures CreateProduct(products, categories, auth, req.(slug := slug), now)
         == CreateProduct(products, categories, auth, req, now)
  {
  }

  /** The SKU and slug checks keep ids, SKUs and slugs unique, and the new slug has the
      route slug's shape. */
  lemma CreateKeepsKeysUnique(products: seq<Product>, categories: seq<Category>, auth: AuthResult,
                               req: ProductRequest, now: int)
    requires UniqueKeys(products)
    ensures var r := CreateProduct(products, categories, auth, req, now);
      UniqueKeys(r.1) && (r.0.Ok? ==> SlugShape(r.0.value.slug))
  {
    var r := CreateProduct(products, categories, auth, req, now);
    if r.0.Ok? {
      var p := r.0.value;
      RouteSlugShape(req.name.value);
      forall i, j | 0 <= i < j < |r.1|
        ensures r.1[i].id != r.1[j].id && r.1[i].sku != r.1[j].sku && r.1[i].slug != r.1[j].slug
      {
        if j == |products| {
          assert r.1[j] == p && r.1[i] == products[i];
          assert products[i].sku != req.sku.value;
          assert products[i].slug != RouteSlug(req.name.value);
        }
      }
    }
  }

  /** With no query parameters the admin sees the first ten products, newest first, out of all of them. */
  lemma DefaultAdminListing(products: seq<Product>, auth: AuthResult)
    requires auth.AuthOk? && auth.user.role == ADMIN
    ensures var r := GetProducts(products, auth, ProductQuery(None, None, None, None, None, None));
      && r.Ok? && r.value.page == 1 && r.value.limit == 10 && r.value.total == |products|
      && r.value.items == Window(Sort(products, ByKeyDesc(ProductCreated)), 0, 10)
  {
    DefaultListProducts(products);
  }

  lemma DefaultListProducts(products: seq<Product>)
    ensures var r := ListProducts(products, false, ProductQuery(None, None, None, None, None, None), 10);
      && r.Ok? && r.value.page == 1 && r.value.limit == 10 && r.value.total == |products|
      && r.value.items == Window(Sort(products, ByKeyDesc(ProductCreated)), 0, 10)
  {
    var q := ProductQuery(None, None, None, None, None, None);
    var le := ByKeyDesc(ProductCreated);
    assert StrOr(q.sortBy, "createdAt") == "createdAt" && StrOr(q.sortOrder, "desc") == "desc";
    assert ProductOrdering("createdAt", "desc") == Some(le);
    UnfilteredAdminSelection(products);
    var rows := Sort(products, le);
    assert ListProducts(products, false, q, 10) == Paginate(rows, None, None, 10, "Failed to fetch products");
    FirstPageByDefault(rows, 10, "Failed to fetch products");
  }

  /** With neither `page` nor `limit` given, the first `defaultLimit` rows are served. */
  lemma FirstPageByDefault<T>(rows: seq<T>, defaultLimit: int, failure: string)
    requires defaultLimit > 0
    ensures var r := Paginate(rows, None, None, defaultLimit, failure);
      && r.Ok? && r.value.page == 1 && r.value.limit == defaultLimit && r.value.total == |rows|
      && r.value.items == Window(rows, 0, defaultLimit)
  {
  }

  /** With no search and no category, the admin `where` clause keeps every product. */
  lemma UnfilteredAdminSelection(products: seq<Product>)
    ensures Ordered(products, false, ProductQuery(None, None, None, None, None, None), ByKeyDesc(ProductCreated))
         == Sort(products, ByKeyDesc(ProductCreated))
  {
    assert StrOr(None, "") == "";
    assert forall i :: 0 <= i < |products| ==> Selector(false, "", None)(products[i]);
    FilterAll(products, Selector(false, "", None));
  }

  lemma {:induction false} FilterAll<T>(s: seq<T>, p: T -> bool)
    requires forall i :: 0 <= i < |s| ==> p(s[i])
    ensures Seqs.Filter(s, p) == s
  {
    if |s| > 0 {
      FilterAll(s[1..], p);
      assert [s[0]] + s[1..] == s;
    }
  }
}
