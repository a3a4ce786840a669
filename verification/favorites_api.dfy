/** `/api/favorites`: a signed-in customer's saved products, one row per (userId, productId). */
module FavoritesApi {
  import opened Wrappers
  import opened Schema
  import opened Auth
  import opened Seqs
  import opened Sorting

  datatype FavoriteRow = FavoriteRow(id: nat, userId: nat, productId: nat, createdAt: int)

  datatype FavoritesDb = FavoritesDb(products: seq<Product>, rows: seq<FavoriteRow>)

  /** `{ favorites }` for the listing; `{ message, favorite?, isFavorite }` for the writes. */
  datatype FavoritesReply =
    | Listing(favorites: seq<FavoriteRow>)
    | Change(message: string, favorite: Option<FavoriteRow>, isFavorite: bool)

  predicate OnePerPair(rows: seq<FavoriteRow>) {
    forall i, j :: 0 <= i < j < |rows| ==>
      rows[i].userId != rows[j].userId || rows[i].productId != rows[j].productId
  }

  function FindFavorite(rows: seq<FavoriteRow>, userId: nat, productId: int): (r: Option<nat>)
    ensures r.Some? ==> r.value < |rows| && rows[r.value].userId == userId && rows[r.value].productId == productId
    ensures r.None? ==> forall i :: 0 <= i < |rows| ==> rows[i].userId != userId || rows[i].productId != productId
  {
    IndexOf(rows, (f: FavoriteRow) => f.userId == userId && f.productId == productId)
  }

  function FavoriteCreated(f: FavoriteRow): int {
    f.createdAt
  }

  /** `fav.product?.isActive`: the saved product still exists and is on sale. */
  predicate Visible(products: seq<Product>, f: FavoriteRow) {
    FindActiveProduct(products, f.productId).Some?
  }

  /** The caller's rows, newest first, without those whose product is gone or inactive. */
  function VisibleFavorites(db: FavoritesDb, userId: nat): seq<FavoriteRow> {
    var own := Filter(db.rows, (f: FavoriteRow) => f.userId == userId);
    Filter(Sort(own, ByKeyDesc(FavoriteCreated)), (f: FavoriteRow) => Visible(db.products, f))
  }

  /** GET: an anonymous caller gets an empty list. */
  function GetFavorites(db: FavoritesDb, auth: AuthResult): (r: Response<FavoritesReply>)
    ensures r.Ok? && r.status == 200 && r.value.Listing?
    ensures auth.AuthFail? ==> r.value.favorites == []
    ensures auth.AuthOk? ==> r.value.favorites == VisibleFavorites(db, auth.user.id)
  {
    if auth.AuthFail? then Ok(200, Listing([])) else Ok(200, Listing(VisibleFavorites(db, auth.user.id)))
  }

  /** The listing holds exactly the caller's rows whose product is active, newest first. */
  lemma VisibleFavoritesExactly(db: FavoritesDb, userId: nat)
    ensures var v := VisibleFavorites(db, userId);
      && Sorted(v, ByKeyDesc(FavoriteCreated))
      && forall f :: f in v <==> f in db.rows && f.userId == userId && Visible(db.products, f)
  {
    var own := Filter(db.rows, (f: FavoriteRow) => f.userId == userId);
    var sorted := Sort(own, ByKeyDesc(FavoriteCreated));
    KeyOrdersArePreorders(FavoriteCreated);
    SortSorted(own, ByKeyDesc(FavoriteCreated));
    SubsequenceSorted(Filter(sorted, (f: FavoriteRow) => Visible(db.products, f)), sorted, ByKeyDesc(FavoriteCreated));
    SortedOwnRows(db, userId);
    forall f | f in sorted && Visible(db.products, f)
      ensures f in VisibleFavorites(db, userId)
    {
      var i :| 0 <= i < |sorted| && sorted[i] == f;
    }
  }

  /** The caller's rows, once ordered, are still exactly the caller's rows. */
  lemma SortedOwnRows(db: FavoritesDb, userId: nat)
    ensures var own := Filter(db.rows, (f: FavoriteRow) => f.userId == userId);
      forall f :: f in Sort(own, ByKeyDesc(FavoriteCreated)) <==> f in db.rows && f.userId == userId
  {
    var own := Filter(db.rows, (f: FavoriteRow) => f.userId == userId);
    var sorted := Sort(own, ByKeyDesc(FavoriteCreated));
    forall f ensures f in sorted <==> f in own {
      assert f in sorted <==> f in multiset(sorted);
    }
    forall f | f in db.rows && f.userId == userId ensures f in own {
      var i :| 0 <= i < |db.rows| && db.rows[i] == f;
    }
  }

  /** POST `{ productId }`: saves an active product; saving it again answers 200 without a
      `favorite` and writes nothing. */
  function AddFavorite(db: FavoritesDb, auth: AuthResult, productId: Option<int>, now: int)
    : (r: (Response<FavoritesReply>, FavoritesDb))
    ensures r.1.products == db.products
    ensures r.0.Err? ==> r.1 == db
    ensures auth.AuthFail? ==> r.0 == Err(401, "Authentication required")
    ensures auth.AuthOk? && !TruthyInt(productId) ==> r.0 == Err(400, "Product ID is required")
    ensures auth.AuthOk? && TruthyInt(productId) ==>
      (r.0.Err? <==> FindActiveProduct(db.products, productId.value).None?) &&
      (r.0.Err? ==> r.0 == Err(404, "Product not found"))
    ensures r.0.Ok? ==> r.0.status == 200 && r.0.value.Change? && r.0.value.isFavorite
    ensures r.0.Ok? && FindFavorite(db.rows, auth.user.id, productId.value).Some? ==>
      r.0.value == Change("Product already in favorites", None, true) && r.1 == db
    ensures r.0.Ok? && FindFavorite(db.rows, auth.user.id, productId.value).None? ==>
      && r.0.value.message == "Added to favorites"
      && r.0.value.favorite.Some?
      && r.0.value.favorite.value.userId == auth.user.id
      && r.0.value.favorite.value.productId == productId.value
      && r.0.value.favorite.value.createdAt == now
      && (forall i :: 0 <= i < |db.rows| ==> db.rows[i].id < r.0.value.favorite.value.id)
      && r.1.rows == db.rows + [r.0.value.favorite.value]
  {
    if auth.AuthFail? then (Err(401, "Authentication required"), db)
    else if !TruthyInt(productId) then (Err(400, "Product ID is required"), db)
    else match FindActiveProduct(db.products, productId.value)
      case None => (Err(404, "Product not found"), db)
      case Some(p) =>
        if FindFavorite(db.rows, auth.user.id, p.id).Some? then
          (Ok(200, Change("Product already in favorites", None, true)), db)
        else
          var f := FavoriteRow(NextId(db.rows, (x: FavoriteRow) => x.id), auth.user.id, p.id, now);
          (Ok(200, Change("Added to favorites", Some(f), true)), db.(rows := db.rows + [f]))
  }

  /** DELETE `{ productId }`: removes the saved row; a missing row makes the delete throw. */
  function RemoveFavorite(db: FavoritesDb, auth: AuthResult, productId: Option<int>)
    : (r: (Response<FavoritesReply>, FavoritesDb))
    ensures r.1.products == db.products
    ensures r.0.Err? ==> r.1 == db
    ensures auth.AuthFail? ==> r.0 == Err(401, "Authentication required")
    ensures auth.AuthOk? && !TruthyInt(productId) ==> r.0 == Err(400, "Product ID is required")
    ensures auth.AuthOk? && TruthyInt(productId) ==>
      match FindFavorite(db.rows, auth.user.id, productId.value)
      case None => r.0 == Err(500, "Failed to remove from favorites")
      case Some(k) => r == (Ok(200, Change("Removed from favorites", None, false)), db.(rows := RemoveAt(db.rows, k)))
  {
    if auth.AuthFail? then (Err(401, "Authentication required"), db)
    else if !TruthyInt(productId) then (Err(400, "Product ID is required"), db)
    else match FindFavorite(db.rows, auth.user.id, productId.value)
      case None => (Err(500, "Failed to remove from favorites"), db)
      case Some(k) => (Ok(200, Change("Removed from favorites", None, false)), db.(rows := RemoveAt(db.rows, k)))
  }

  /** Saving twice is saving once. */
  lemma AddFavoriteIdempotent(db: FavoritesDb, user: AuthUser, productId: Option<int>, now: int, later: int)
    ensures var once := AddFavorite(db, AuthOk(user), productId, now).1;
            AddFavorite(once, AuthOk(user), productId, later).1 == once
  {
    var once := AddFavorite(db, AuthOk(user), productId, now);
    if once.0.Ok? && FindFavorite(db.rows, user.id, productId.value).None? {
      var f := once.0.value.favorite.value;
      assert once.1.rows[|db.rows|] == f;
    }
  }

  /** Saving a product not yet saved and then removing it restores the table. */
  lemma AddThenRemoveRestores(db: FavoritesDb, user: AuthUser, productId: Option<int>, now: int)
    requires OnePerPair(db.rows)
    requires !TruthyInt(productId) || FindFavorite(db.rows, user.id, productId.value).None?
    ensures var once := AddFavorite(db, AuthOk(user), productId, now).1;
            RemoveFavorite(once, AuthOk(user), productId).1 == db
  {
    var once := AddFavorite(db, AuthOk(user), productId, now);
    if once.0.Ok? {
      var f := once.0.value.favorite.value;
      assert once.1.rows[|db.rows|] == f;
      var k := FindFavorite(once.1.rows, user.id, productId.value);
      assert k.Some? && k.value == |db.rows|;
      assert RemoveAt(once.1.rows, |db.rows|) == db.rows;
    }
  }

  /** Both writes keep the (userId, productId) pairs unique. */
  lemma WritesKeepOnePerPair(db: FavoritesDb, auth: AuthResult, productId: Option<int>, now: int)
    requires OnePerPair(db.rows)
    ensures OnePerPair(AddFavorite(db, auth, productId, now).1.rows)
    ensures OnePerPair(RemoveFavorite(db, auth, productId).1.rows)
  {
    var add := AddFavorite(db, auth, productId, now);
    if add.1.rows != db.rows {
      var rows := add.1.rows;
      forall i, j | 0 <= i < j < |rows| ensures rows[i].userId != rows[j].userId || rows[i].productId != rows[j].productId {
        if j == |db.rows| { assert rows[i] == db.rows[i]; }
      }
    }
    var rem := RemoveFavorite(db, auth, productId);
    if rem.0.Ok? {
      var k := FindFavorite(db.rows, auth.user.id, productId.value).value;
      var r := RemoveAt(db.rows, k);
      forall i, j | 0 <= i < j < |r| ensures r[i].userId != r[j].userId || r[i].productId != r[j].productId {
        var i' := if i < k then i else i + 1;
        var j' := if j < k then j else j + 1;
        assert r[i] == db.rows[i'] && r[j] == db.rows[j'];
      }
    }
  }
}
