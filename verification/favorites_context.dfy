/** The client favourites container: the list it holds, and the add, remove, toggle and lookup
    it offers, each composed with the `/api/favorites` handler it calls. */
module FavoritesClient {
  import opened Wrappers
  import opened Schema
  import opened Auth
  import opened Seqs
  import opened FavoritesApi

  datatype ClientReply = ClientReply(success: bool, error: Option<string>, favorite: Option<FavoriteRow>)

  /** After one call: the reply, the list the container holds, and the server's table. */
  datatype Step<E> = Step(reply: ClientReply, entries: seq<E>, db: FavoritesDb)

  function Failure(message: string): ClientReply {
    ClientReply(false, Some(message), None)
  }

  // ---------------------------------------------------------------- as written

  /** `addToFavorites` as written: any OK reply appends `data.favorite`, which the
      "already in favorites" reply does not carry, so an absent entry is appended. */
  function AddAsWritten(entries: seq<Option<FavoriteRow>>, db: FavoritesDb, auth: AuthResult,
                        productId: int, now: int): (r: Step<Option<FavoriteRow>>)
    ensures auth.AuthFail? ==> r == Step(Failure("Please login to add favorites"), entries, db)
    ensures r.reply.success ==> |r.entries| == |entries| + 1 && r.entries[..|entries|] == entries
    ensures r.reply.success <==> auth.AuthOk? && AddFavorite(db, auth, Some(productId), now).0.Ok?
    ensures r.db == AddFavorite(db, auth, Some(productId), now).1
    ensures !r.reply.success ==> r.entries == entries
    ensures r.reply.success ==>
      var reply := AddFavorite(db, auth, Some(productId), now).0.value;
      && r.reply.favorite == (if reply.Change? then reply.favorite else None)
      && r.entries == entries + [r.reply.favorite]
  {
    if auth.AuthFail? then Step(Failure("Please login to add favorites"), entries, db)
    else
      var (resp, db') := AddFavorite(db, auth, Some(productId), now);
      match resp
      case Err(_, m) => Step(Failure(m), entries, db')
      case Ok(_, reply) =>
        var fav := if reply.Change? then reply.favorite else None;
        Step(ClientReply(true, None, fav), entries + [fav], db')
  }

  /** The scan of `some` passes the first `n` entries: each is present and is another product. */
  predicate ScansPast(entries: seq<Option<FavoriteRow>>, productId: int, n: int) {
    forall j :: 0 <= j < n && j < |entries| ==> entries[j].Some? && entries[j].value.productId != productId
  }

  /** `favorites.some(fav => fav.productId === productId)` on the as-written list: `None`
      stands for the TypeError thrown when the scan reaches an absent entry. The scan runs
      from the front, so whichever comes first, a match or an absent entry, decides. */
  function IsFavoriteAsWritten(entries: seq<Option<FavoriteRow>>, productId: int): (r: Option<bool>)
    ensures r == Some(true) ==> exists i :: 0 <= i < |entries| && entries[i].Some? && entries[i].value.productId == productId
    ensures (forall i :: 0 <= i < |entries| ==> entries[i].Some?) ==> r.Some?
    ensures r == Some(true) <==>
      exists i :: 0 <= i < |entries| && ScansPast(entries, productId, i)
                  && entries[i].Some? && entries[i].value.productId == productId
    ensures r.None? <==> exists i :: 0 <= i < |entries| && ScansPast(entries, productId, i) && entries[i].None?
    ensures r == Some(false) <==> ScansPast(entries, productId, |entries|)
    ensures (forall i :: 0 <= i < |entries| ==> entries[i].Some?) ==>
      r == Some(exists i :: 0 <= i < |entries| && entries[i].value.productId == productId)
  {
    if |entries| == 0 then Some(false)
    else if entries[0].None? then
      assert ScansPast(entries, productId, 0);
      None
    else if entries[0].value.productId == productId then
      assert ScansPast(entries, productId, 0);
      Some(true)
    else
      var rest := IsFavoriteAsWritten(entries[1..], productId);
      ScansPastShift(entries, productId);
      rest
  }

  /** Past a present entry of another product, the scan of the list is the scan of its tail. */
  lemma ScansPastShift(entries: seq<Option<FavoriteRow>>, productId: int)
    requires |entries| > 0 && entries[0].Some? && entries[0].value.productId != productId
    ensures forall n :: 0 <= n <= |entries| - 1 ==>
      (ScansPast(entries, productId, n + 1) <==> ScansPast(entries[1..], productId, n))
  {
    forall n | 0 <= n <= |entries| - 1
      ensures ScansPast(entries, productId, n + 1) <==> ScansPast(entries[1..], productId, n)
    {
      if ScansPast(entries[1..], productId, n) {
        forall j | 0 <= j < n + 1 && j < |entries|
          ensures entries[j].Some? && entries[j].value.productId != productId
        {
          if j > 0 { assert entries[j] == entries[1..][j - 1]; }
        }
      }
      if ScansPast(entries, productId, n + 1) {
        forall j | 0 <= j < n && j < |entries[1..]|
          ensures entries[1..][j].Some? && entries[1..][j].value.productId != productId
        {
          assert entries[1..][j] == entries[j + 1];
        }
      }
    }
  }

  /** A product saved from another session, but not in this container's list, is saved
      again: the server answers OK without a `favorite`, the list gains an absent entry, and
      the next lookup of any product not ahead of it throws. */
  lemma StaleAddBreaksLookup(user: AuthUser, now: int)
    ensures var p := Product(1, "Ring", "ring", None, "R1", 1, 1000, None, 5, None, [], [], true, false, 0);
            var db := FavoritesDb([p], [FavoriteRow(1, user.id, 1, 0)]);
            var after := AddAsWritten([], db, AuthOk(user), 1, now);
            && after.reply.success
            && after.entries == [None]
            && IsFavoriteAsWritten(after.entries, 1).None?
  {
    var p := Product(1, "Ring", "ring", None, "R1", 1, 1000, None, 5, None, [], [], true, false, 0);
    var db := FavoritesDb([p], [FavoriteRow(1, user.id, 1, 0)]);
    assert FindActiveProduct([p], 1) == Some(p);
    assert FindFavorite(db.rows, user.id, 1) == Some(0);
  }

  /** For any product already saved on the server, the as-written add is acknowledged,
      writes nothing and appends an absent entry; a list whose entries were all present and
      held other products then throws on the next lookup of that product. */
  lemma AlreadySavedAppendsAbsent(entries: seq<Option<FavoriteRow>>, db: FavoritesDb, user: AuthUser,
                                  productId: int, now: int)
    requires TruthyInt(Some(productId)) && FindActiveProduct(db.products, productId).Some?
    requires FindFavorite(db.rows, user.id, productId).Some?
    ensures var r := AddAsWritten(entries, db, AuthOk(user), productId, now);
      && r.reply.success && r.entries == entries + [None] && r.db == db
      && (ScansPast(entries, productId, |entries|) ==> IsFavoriteAsWritten(r.entries, productId).None?)
  {
    var r := AddAsWritten(entries, db, AuthOk(user), productId, now);
    assert r.entries == entries + [None];
    if ScansPast(entries, productId, |entries|) {
      assert r.entries[|entries|].None?;
      assert ScansPast(r.entries, productId, |entries|) by {
        forall j | 0 <= j < |entries| ensures r.entries[j] == entries[j] { }
      }
    }
  }

  // ---------------------------------------------------------------- corrected

  /** `favorites.some(fav => fav.productId === productId)`. */
  predicate IsFavorite(entries: seq<FavoriteRow>, productId: int) {
    exists i :: 0 <= i < |entries| && entries[i].productId == productId
  }

  /** The provider's effect on a change of session: a signed-in user's list is fetched,
      and signing out empties it. */
  function Session(db: FavoritesDb, auth: AuthResult): (r: seq<FavoriteRow>)
    ensures auth.AuthFail? ==> r == []
    ensures auth.AuthOk? ==> r == VisibleFavorites(db, auth.user.id)
  {
    GetFavorites(db, auth).value.favorites
  }

  /** `addToFavorites`, corrected: an OK reply carrying a favourite appends it, and one
      without (the product was already saved) reloads the list instead of appending. */
  function Add(entries: seq<FavoriteRow>, db: FavoritesDb, auth: AuthResult, productId: int, now: int)
    : (r: Step<FavoriteRow>)
    ensures auth.AuthFail? ==> r == Step(Failure("Please login to add favorites"), entries, db)
    ensures !r.reply.success ==> r.entries == entries && r.db == db
    ensures r.reply.success <==> auth.AuthOk? && AddFavorite(db, auth, Some(productId), now).0.Ok?
    ensures r.db == AddFavorite(db, auth, Some(productId), now).1
    ensures r.reply.success ==>
      var reply := AddFavorite(db, auth, Some(productId), now).0.value;
      r.reply.favorite == if reply.Change? then reply.favorite else None
    ensures r.reply.success && r.reply.favorite.Some? ==> r.entries == entries + [r.reply.favorite.value]
    ensures r.reply.success && r.reply.favorite.None? ==> r.entries == Session(r.db, auth)
  {
    if auth.AuthFail? then Step(Failure("Please login to add favorites"), entries, db)
    else
      var (resp, db') := AddFavorite(db, auth, Some(productId), now);
      match resp
      case Err(_, m) => Step(Failure(m), entries, db')
      case Ok(_, reply) =>
        if reply.Change? && reply.favorite.Some? then
          Step(ClientReply(true, None, reply.favorite), entries + [reply.favorite.value], db')
        else
          Step(ClientReply(true, None, None), Session(db', auth), db')
  }

  /** `removeFromFavorites`: an OK reply drops every entry of the product. */
  function Remove(entries: seq<FavoriteRow>, db: FavoritesDb, auth: AuthResult, productId: int)
    : (r: Step<FavoriteRow>)
    ensures auth.AuthFail? ==> r == Step(Failure("Not authenticated"), entries, db)
    ensures !r.reply.success ==> r.entries == entries && r.db == db
    ensures r.reply.success <==> auth.AuthOk? && RemoveFavorite(db, auth, Some(productId)).0.Ok?
    ensures r.reply.success ==> r.entries == Filter(entries, (f: FavoriteRow) => f.productId != productId)
    ensures r.db == RemoveFavorite(db, auth, Some(productId)).1
  {
    if auth.AuthFail? then Step(Failure("Not authenticated"), entries, db)
    else
      var (resp, db') := RemoveFavorite(db, auth, Some(productId));
      match resp
      case Err(_, m) => Step(Failure(m), entries, db')
      case Ok(_, _) => Step(ClientReply(true, None, None), Filter(entries, (f: FavoriteRow) => f.productId != productId), db')
  }

  /** `toggleFavorite`. */
  function Toggle(entries: seq<FavoriteRow>, db: FavoritesDb, auth: AuthResult, productId: int, now: int)
    : (r: Step<FavoriteRow>)
    ensures IsFavorite(entries, productId) ==> r == Remove(entries, db, auth, productId)
    ensures !IsFavorite(entries, productId) ==> r == Add(entries, db, auth, productId, now)
  {
    if IsFavorite(entries, productId) then Remove(entries, db, auth, productId)
    else Add(entries, db, auth, productId, now)
  }

  /** The container's list holds exactly the rows the listing would return. */
  ghost predicate Mirrors(entries: seq<FavoriteRow>, db: FavoritesDb, userId: nat) {
    forall f :: f in entries <==> f in db.rows && f.userId == userId && Visible(db.products, f)
  }

  lemma SessionMirrors(db: FavoritesDb, user: AuthUser)
    ensures Mirrors(Session(db, AuthOk(user)), db, user.id)
  {
    VisibleFavoritesExactly(db, user.id);
  }

  /** A successful add leaves the product a favourite, and keeps the list in step with the server. */
  lemma AddKeepsMirror(entries: seq<FavoriteRow>, db: FavoritesDb, user: AuthUser, productId: int, now: int)
    requires Mirrors(entries, db, user.id)
    ensures var r := Add(entries, db, AuthOk(user), productId, now);
            Mirrors(r.entries, r.db, user.id) && (r.reply.success ==> IsFavorite(r.entries, productId))
  {
    var r := Add(entries, db, AuthOk(user), productId, now);
    if r.reply.success {
      var resp := AddFavorite(db, AuthOk(user), Some(productId), now).0;
      if resp.value.favorite.Some? {
        var f := resp.value.favorite.value;
        assert r.entries == entries + [f];
        assert r.entries[|entries|].productId == productId;
        forall g ensures g in r.entries <==> g in r.db.rows && g.userId == user.id && Visible(r.db.products, g) {
          assert g in r.entries <==> g in entries || g == f;
          assert g in r.db.rows <==> g in db.rows || g == f;
        }
      } else {
        SessionMirrors(r.db, user);
        var k := FindFavorite(db.rows, user.id, productId).value;
        VisibleFavoritesExactly(r.db, user.id);
        assert db.rows[k] in r.entries;
      }
    }
  }

  /** A successful remove leaves the product no favourite, and keeps the list in step with the server. */
  lemma RemoveKeepsMirror(entries: seq<FavoriteRow>, db: FavoritesDb, user: AuthUser, productId: int)
    requires Mirrors(entries, db, user.id) && OnePerPair(db.rows)
    ensures var r := Remove(entries, db, AuthOk(user), productId);
            Mirrors(r.entries, r.db, user.id) && (r.reply.success ==> !IsFavorite(r.entries, productId))
  {
    var r := Remove(entries, db, AuthOk(user), productId);
    if r.reply.success {
      var k := FindFavorite(db.rows, user.id, productId).value;
      var keep := (f: FavoriteRow) => f.productId != productId;
      assert r.entries == Filter(entries, keep) && r.db.rows == RemoveAt(db.rows, k);
      KeptEntriesStillSaved(entries, db, user.id, productId, k, keep);
      SavedRowsStillListed(entries, db, user.id, productId, k, keep);
    }
  }

  /** After the row is deleted, every entry the client keeps is still a visible saved row. */
  lemma KeptEntriesStillSaved(entries: seq<FavoriteRow>, db: FavoritesDb, userId: nat, productId: int, k: nat,
                              keep: FavoriteRow -> bool)
    requires Mirrors(entries, db, userId)
    requires k < |db.rows| && db.rows[k].productId == productId
    requires forall f :: keep(f) <==> f.productId != productId
    ensures forall g :: g in Filter(entries, keep) ==>
      g in RemoveAt(db.rows, k) && g.userId == userId && Visible(db.products, g)
  {
    forall g | g in Filter(entries, keep)
      ensures g in RemoveAt(db.rows, k) && g.userId == userId && Visible(db.products, g)
    {
      assert g in entries && g.productId != productId;
      var i :| 0 <= i < |db.rows| && db.rows[i] == g;
      assert i != k;
      assert g == RemoveAt(db.rows, k)[if i < k then i else i - 1];
    }
  }

  /** After the row is deleted, every remaining visible row of the user is still listed. */
  lemma SavedRowsStillListed(entries: seq<FavoriteRow>, db: FavoritesDb, userId: nat, productId: int, k: nat,
                             keep: FavoriteRow -> bool)
    requires Mirrors(entries, db, userId) && OnePerPair(db.rows)
    requires k < |db.rows| && db.rows[k].userId == userId && db.rows[k].productId == productId
    requires forall f :: keep(f) <==> f.productId != productId
    ensures forall g :: g in RemoveAt(db.rows, k) && g.userId == userId && Visible(db.products, g) ==>
      g in Filter(entries, keep)
  {
    var rest := RemoveAt(db.rows, k);
    forall g | g in rest && g.userId == userId && Visible(db.products, g)
      ensures g in Filter(entries, keep)
    {
      var i :| 0 <= i < |rest| && rest[i] == g;
      var i' := if i < k then i else i + 1;
      assert g == db.rows[i'] && i' != k;
      assert g.productId != productId;
      var j :| 0 <= j < |entries| && entries[j] == g;
      assert keep(entries[j]);
    }
  }

  /** A successful toggle flips whether the product is a favourite. */
  lemma ToggleFlips(entries: seq<FavoriteRow>, db: FavoritesDb, user: AuthUser, productId: int, now: int)
    requires Mirrors(entries, db, user.id) && OnePerPair(db.rows)
    requires Toggle(entries, db, AuthOk(user), productId, now).reply.success
    ensures IsFavorite(Toggle(entries, db, AuthOk(user), productId, now).entries, productId)
         == !IsFavorite(entries, productId)
  {
    if IsFavorite(entries, productId) {
      RemoveKeepsMirror(entries, db, user, productId);
    } else {
      AddKeepsMirror(entries, db, user, productId, now);
    }
  }
}
