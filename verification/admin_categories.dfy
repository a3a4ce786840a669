/** `/api/admin/categories`: the admin listing and the create handler, both behind the admin gate. */
module AdminCategories {
  import opened Wrappers
  import opened Schema
  import opened Auth
  import opened Seqs
  import opened Sorting
  import opened Paging
  import opened Catalogue
  import Utils

  /** The create request body; an absent field is `None`. */
  datatype CategoryRequest = CategoryRequest(name: Option<string>, description: Option<string>,
                                             slug: Option<string>, image: Option<string>,
                                             isActive: Option<bool>)

  /** The listing's query string. */
  datatype CategoryQuery = CategoryQuery(page: Option<int>, limit: Option<int>, search: Option<string>)

  predicate SlugTaken(categories: seq<Category>, slug: string) {
    exists i :: 0 <= i < |categories| && categories[i].slug == slug
  }

  predicate UniqueSlugs(categories: seq<Category>) {
    forall i, j :: 0 <= i < j < |categories| ==>
      categories[i].id != categories[j].id && categories[i].slug != categories[j].slug
  }

  function Matcher(search: string): Category -> bool {
    (c: Category) => CategoryMatches(c, search)
  }

  /** `getCategories`: search, newest first, page and limit defaulting to 1 and 10. */
  function ListCategories(categories: seq<Category>, q: CategoryQuery): (r: Response<Page<Category>>)
    ensures r.Err? ==> r == Err(500, "Failed to fetch categories")
    ensures r.Ok? <==> IntOr(q.page, 1) >= 1 && IntOr(q.limit, 10) >= 1
    ensures r.Ok? ==>
      && r.value.page == IntOr(q.page, 1) && r.value.limit == IntOr(q.limit, 10)
      && r.value.total == |Filter(categories, Matcher(StrOr(q.search, "")))|
      && r.value.items == PageRows(Sort(Filter(categories, Matcher(StrOr(q.search, ""))), ByKeyDesc(CategoryCreated)),
                                   r.value.page, r.value.limit)
  {
    Paginate(Sort(Filter(categories, Matcher(StrOr(q.search, ""))), ByKeyDesc(CategoryCreated)),
             q.page, q.limit, 10, "Failed to fetch categories")
  }

  /** The slug used: the client's own when it sent a non-empty one, as it is; else the route slug of the name. */
  function CategorySlug(req: CategoryRequest): string
    requires req.name.Some?
  {
    StrOr(req.slug, RouteSlug(req.name.value))
  }

  /** `createCategory` once the caller is known to be an admin. */
  function CreateCategoryAsAdmin(categories: seq<Category>, req: CategoryRequest, now: int)
    : (r: (Response<Category>, seq<Category>))
    ensures req.name.None? || req.name.value == "" ==> r == (Err(400, "Category name is required"), categories)
    ensures req.name.Some? && req.name.value != "" && SlugTaken(categories, CategorySlug(req)) ==>
      r == (Err(400, "Category slug already exists"), categories)
    ensures r.0.Ok? <==> req.name.Some? && req.name.value != "" && !SlugTaken(categories, CategorySlug(req))
    ensures r.0.Ok? ==>
      var c := r.0.value;
      && r.0.status == 201
      && r.1 == categories + [c]
      && (forall i :: 0 <= i < |categories| ==> categories[i].id < c.id)
      && c.name == req.name.value && c.description == req.description && c.image == req.image
      && (req.slug.Some? && req.slug.value != "" ==> c.slug == req.slug.value)
      && (req.slug.None? || req.slug.value == "" ==> c.slug == RouteSlug(req.name.value))
      && c.isActive == OrDefault(req.isActive, true)
      && c.createdAt == now
  {
    if req.name.None? || req.name.value == "" then (Err(400, "Category name is required"), categories)
    else
      var slug := CategorySlug(req);
      if SlugTaken(categories, slug) then (Err(400, "Category slug already exists"), categories)
      else
        var c := Category(NextId(categories, (x: Category) => x.id), req.name.value, slug, req.description,
                          req.image, OrDefault(req.isActive, true), now);
        (Ok(201, c), categories + [c])
  }

  /** `GET = requireAuth(getCategories, true)`. */
  function GetCategories(categories: seq<Category>, auth: AuthResult, q: CategoryQuery): (r: Response<Page<Category>>)
    ensures auth.AuthFail? ==> r == Err(401, auth.error)
    ensures auth.AuthOk? && auth.user.role != ADMIN ==> r == Err(403, "Admin access required")
    ensures auth.AuthOk? && auth.user.role == ADMIN ==> r == ListCategories(categories, q)
  {
    RequireAuth(auth, true, categories, (u: AuthUser) => (ListCategories(categories, q), categories)).0
  }

  /** `POST = requireAuth(createCategory, true)`. */
  function CreateCategory(categories: seq<Category>, auth: AuthResult, req: CategoryRequest, now: int)
    : (r: (Response<Category>, seq<Category>))
    ensures auth.AuthFail? ==> r == (Err(401, auth.error), categories)
    ensures auth.AuthOk? && auth.user.role != ADMIN ==> r == (Err(403, "Admin access required"), categories)
    ensures auth.AuthOk? && auth.user.role == ADMIN ==> r == CreateCategoryAsAdmin(categories, req, now)
  {
    RequireAuth(auth, true, categories, (u: AuthUser) => CreateCategoryAsAdmin(categories, req, now))
  }

  /** The admin listing shows at most `limit` categories, each matching the search, newest
      first, and counts every match. */
  lemma ListingIsConsistent(categories: seq<Category>, q: CategoryQuery)
    ensures var r := ListCategories(categories, q);
      var search := StrOr(q.search, "");
      r.Ok? ==>
        && |r.value.items| <= r.value.limit
        && r.value.total == |Filter(categories, Matcher(search))|
        && Sorted(r.value.items, ByKeyDesc(CategoryCreated))
        && forall k :: 0 <= k < |r.value.items| ==>
             r.value.items[k] in categories && CategoryMatches(r.value.items[k], search)
  {
    KeyOrdersArePreorders(CategoryCreated);
    FilteredListing(categories, Matcher(StrOr(q.search, "")), ByKeyDesc(CategoryCreated), q.page, q.limit, 10,
                    "Failed to fetch categories");
  }

  /** The duplicate check keeps slugs unique. */
  lemma CreateKeepsSlugsUnique(categories: seq<Category>, auth: AuthResult, req: CategoryRequest, now: int)
    requires UniqueSlugs(categories)
    ensures UniqueSlugs(CreateCategory(categories, auth, req, now).1)
  {
    var r := CreateCategory(categories, auth, req, now);
    if r.0.Ok? {
      forall i, j | 0 <= i < j < |r.1| ensures r.1[i].id != r.1[j].id && r.1[i].slug != r.1[j].slug {
        if j == |categories| {
          assert r.1[j] == r.0.value && r.1[i] == categories[i];
          assert categories[i].slug != CategorySlug(req);
        }
      }
    }
  }

  /** A client slug is stored without normalisation, so a category slug, unlike a product's,
      can contain capitals and spaces. */
  lemma ClientSlugNotNormalised(auth: AuthResult, now: int)
    requires auth.AuthOk? && auth.user.role == ADMIN
    ensures var r := CreateCategory([], auth, CategoryRequest(Some("Rings"), None, Some("A B"), None, None), now);
      r.0.Ok? && r.0.value.slug == "A B" && !SlugShape(r.0.value.slug)
  {
    assert !Utils.SlugChar("A B"[0]);
  }
}
