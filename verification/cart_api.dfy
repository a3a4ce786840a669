/** The signed-in cart: the `/api/cart` handlers (GET, POST, PATCH, DELETE) and `/api/cart/clear`
    over the cart-item table, whose (userId, productId) pairs are unique. */
module CartApi {
  import opened Wrappers
  import opened Schema
  import opened Auth
  import opened Seqs
  import opened Sorting

  datatype CartRow = CartRow(id: nat, userId: nat, productId: nat, quantity: int, createdAt: int)

  datatype CartDb = CartDb(products: seq<Product>, rows: seq<CartRow>)

  /** The JSON bodies the handlers answer with: `{ items }`, `{ item }` or `{ message }`. */
  datatype CartReply = Items(items: seq<CartRow>) | Item(item: CartRow) | Message(text: string)

  /** The table's unique (userId, productId) constraint. */
  predicate OnePerPair(rows: seq<CartRow>) {
    forall i, j :: 0 <= i < j < |rows| ==>
      rows[i].userId != rows[j].userId || rows[i].productId != rows[j].productId
  }

  /** `findUnique({ where: { userId_productId } })`, as a row index. */
  function FindRow(rows: seq<CartRow>, userId: nat, productId: int): (r: Option<nat>)
    ensures r.Some? ==> r.value < |rows| && rows[r.value].userId == userId && rows[r.value].productId == productId
    ensures r.None? ==> forall i :: 0 <= i < |rows| ==> rows[i].userId != userId || rows[i].productId != productId
  {
    IndexOf(rows, (row: CartRow) => row.userId == userId && row.productId == productId)
  }

  function RowCreated(row: CartRow): int {
    row.createdAt
  }

  predicate OwnedBy(userId: nat, row: CartRow) {
    row.userId == userId
  }

  /** The rows of everyone but `userId`, in table order. */
  function OthersRows(rows: seq<CartRow>, userId: nat): seq<CartRow> {
    Filter(rows, (row: CartRow) => !OwnedBy(userId, row))
  }

  /** GET: an anonymous caller sees an empty cart; a signed-in one their own rows, newest first. */
  function GetCart(db: CartDb, auth: AuthResult): (r: Response<CartReply>)
    ensures r.Ok? && r.status == 200 && r.value.Items?
    ensures auth.AuthFail? ==> r.value.items == []
    ensures auth.AuthOk? ==>
      multiset(r.value.items) == multiset(Filter(db.rows, (row: CartRow) => OwnedBy(auth.user.id, row)))
  {
    if auth.AuthFail? then Ok(200, Items([]))
    else Ok(200, Items(Sort(Filter(db.rows, (row: CartRow) => OwnedBy(auth.user.id, row)), ByKeyDesc(RowCreated))))
  }

  /** The listing holds exactly the caller's rows, ordered by `createdAt` descending. */
  lemma GetCartOwnRowsNewestFirst(db: CartDb, user: AuthUser)
    ensures var items := GetCart(db, AuthOk(user)).value.items;
      && Sorted(items, ByKeyDesc(RowCreated))
      && (forall row :: row in items <==> row in db.rows && row.userId == user.id)
  {
    var own := Filter(db.rows, (row: CartRow) => OwnedBy(user.id, row));
    KeyOrdersArePreorders(RowCreated);
    SortSorted(own, ByKeyDesc(RowCreated));
    var items := Sort(own, ByKeyDesc(RowCreated));
    forall row ensures row in items <==> row in own {
      assert row in items <==> row in multiset(items);
    }
    forall row | row in db.rows && row.userId == user.id ensures row in own {
      var i :| 0 <= i < |db.rows| && db.rows[i] == row;
    }
  }

  /** POST `{ productId, quantity = 1 }`: an active product is added to the caller's cart,
      raising the quantity of the row already there or creating one. */
  function AddItem(db: CartDb, auth: AuthResult, productId: Option<int>, quantity: Option<int>, now: int)
    : (r: (Response<CartReply>, CartDb))
    ensures r.0.Err? ==> r.1 == db
    ensures auth.AuthFail? ==> r.0 == Err(401, "Authentication required")
    ensures auth.AuthOk? && (!TruthyInt(productId) || OrDefault(quantity, 1) <= 0) ==>
      r.0 == Err(400, "Valid product ID and quantity required")
    ensures auth.AuthOk? && TruthyInt(productId) && OrDefault(quantity, 1) > 0 ==>
      (r.0.Err? <==> FindActiveProduct(db.products, productId.value).None?)
    ensures r.0.Err? && auth.AuthOk? && TruthyInt(productId) && OrDefault(quantity, 1) > 0 ==>
      r.0 == Err(404, "Product not found")
    ensures r.0.Ok? ==> r.0.status == 200 && r.0.value.Item? && r.1.products == db.products
    ensures r.0.Ok? && auth.AuthOk? && productId.Some? ==>
      var q := OrDefault(quantity, 1);
      var k := FindRow(db.rows, auth.user.id, productId.value);
      && (k.Some? ==>
            && r.1.rows == db.rows[k.value := db.rows[k.value].(quantity := db.rows[k.value].quantity + q)]
            && r.0.value == Item(r.1.rows[k.value]))
      && (k.None? ==>
            var row := r.0.value.item;
            && r.1.rows == db.rows + [row]
            && row.userId == auth.user.id && row.productId == productId.value
            && row.quantity == q && row.createdAt == now
            && forall i :: 0 <= i < |db.rows| ==> db.rows[i].id < row.id)
  {
    if auth.AuthFail? then (Err(401, "Authentication required"), db)
    else
      var q := OrDefault(quantity, 1);
      if !TruthyInt(productId) || q <= 0 then (Err(400, "Valid product ID and quantity required"), db)
      else match FindActiveProduct(db.products, productId.value)
        case None => (Err(404, "Product not found"), db)
        case Some(p) =>
          match FindRow(db.rows, auth.user.id, p.id)
          case Some(k) =>
            var row := db.rows[k].(quantity := db.rows[k].quantity + q);
            (Ok(200, Item(row)), db.(rows := db.rows[k := row]))
          case None =>
            var row := CartRow(NextId(db.rows, (x: CartRow) => x.id), auth.user.id, p.id, q, now);
            (Ok(200, Item(row)), db.(rows := db.rows + [row]))
  }

  /** PATCH `{ productId, quantity }`: 0 deletes the row, a positive quantity replaces it, and
      an absent one leaves it as it was; a missing row makes the write throw. */
  function UpdateItem(db: CartDb, auth: AuthResult, productId: Option<int>, quantity: Option<int>)
    : (r: (Response<CartReply>, CartDb))
    ensures r.0.Err? ==> r.1 == db
    ensures r.1.products == db.products
    ensures auth.AuthFail? ==> r.0 == Err(401, "Authentication required")
    ensures auth.AuthOk? && (!TruthyInt(productId) || (quantity.Some? && quantity.value < 0)) ==>
      r.0 == Err(400, "Valid product ID and quantity required")
    ensures auth.AuthOk? && TruthyInt(productId) && !(quantity.Some? && quantity.value < 0) ==>
      (r.0.Err? <==> FindRow(db.rows, auth.user.id, productId.value).None?) &&
      (r.0.Err? ==> r.0 == Err(500, "Failed to update cart"))
    ensures r.0.Ok? && quantity == Some(0) ==>
      r.0.value == Message("Item removed from cart") &&
      r.1.rows == RemoveAt(db.rows, FindRow(db.rows, auth.user.id, productId.value).value)
    ensures r.0.Ok? && quantity.None? ==> r.1 == db
    ensures r.0.Ok? && quantity.Some? && quantity.value > 0 ==>
      var k := FindRow(db.rows, auth.user.id, productId.value).value;
      r.1.rows == db.rows[k := db.rows[k].(quantity := quantity.value)] && r.0.value == Item(r.1.rows[k])
  {
    if auth.AuthFail? then (Err(401, "Authentication required"), db)
    else if !TruthyInt(productId) || (quantity.Some? && quantity.value < 0) then
      (Err(400, "Valid product ID and quantity required"), db)
    else match FindRow(db.rows, auth.user.id, productId.value)
      case None => (Err(500, "Failed to update cart"), db)
      case Some(k) =>
        if quantity == Some(0) then (Ok(200, Message("Item removed from cart")), db.(rows := RemoveAt(db.rows, k)))
        else if quantity.None? then (Ok(200, Item(db.rows[k])), db)
        else
          var row := db.rows[k].(quantity := quantity.value);
          (Ok(200, Item(row)), db.(rows := db.rows[k := row]))
  }

  /** DELETE `{ productId }`: removes the caller's row; a missing row makes the delete throw. */
  function RemoveItem(db: CartDb, auth: AuthResult, productId: Option<int>): (r: (Response<CartReply>, CartDb))
    ensures r.0.Err? ==> r.1 == db
    ensures r.1.products == db.products
    ensures auth.AuthFail? ==> r.0 == Err(401, "Authentication required")
    ensures auth.AuthOk? && !TruthyInt(productId) ==> r.0 == Err(400, "Product ID required")
    ensures auth.AuthOk? && TruthyInt(productId) ==>
      match FindRow(db.rows, auth.user.id, productId.value)
      case None => r.0 == Err(500, "Failed to remove from cart")
      case Some(k) => r == (Ok(200, Message("Item removed from cart")), db.(rows := RemoveAt(db.rows, k)))
  {
    if auth.AuthFail? then (Err(401, "Authentication required"), db)
    else if !TruthyInt(productId) then (Err(400, "Product ID required"), db)
    else match FindRow(db.rows, auth.user.id, productId.value)
      case None => (Err(500, "Failed to remove from cart"), db)
      case Some(k) => (Ok(200, Message("Item removed from cart")), db.(rows := RemoveAt(db.rows, k)))
  }

  /** POST `/api/cart/clear`: deletes every row of the caller. */
  function ClearCart(db: CartDb, auth: AuthResult): (r: (Response<CartReply>, CartDb))
    ensures auth.AuthFail? ==> r == (Err(401, "Authentication required"), db)
    ensures auth.AuthOk? ==> r.0 == Ok(200, Message("Cart cleared successfully"))
    ensures auth.AuthOk? ==> forall i :: 0 <= i < |r.1.rows| ==> r.1.rows[i].userId != auth.user.id
    ensures r.1.products == db.products
  {
    if auth.AuthFail? then (Err(401, "Authentication required"), db)
    else (Ok(200, Message("Cart cleared successfully")), db.(rows := OthersRows(db.rows, auth.user.id)))
  }

  function RowsOf(rows: seq<CartRow>, userId: nat): seq<CartRow> {
    Filter(rows, (row: CartRow) => OwnedBy(userId, row))
  }

  lemma {:induction false} ClearKeepsOthers(rows: seq<CartRow>, userId: nat, other: nat)
    requires other != userId
    ensures RowsOf(OthersRows(rows, userId), other) == RowsOf(rows, other)
  {
    if |rows| > 0 {
      ClearKeepsOthers(rows[1..], userId, other);
      var kept := OthersRows(rows[1..], userId);
      if rows[0].userId != userId {
        assert OthersRows(rows, userId) == [rows[0]] + kept;
        assert ([rows[0]] + kept)[1..] == kept;
      }
    }
  }

  /** Nothing a cart handler does for one user touches another user's rows, in content or order. */
  lemma HandlersKeepOthersRows(db: CartDb, user: AuthUser, other: nat, productId: Option<int>,
                               quantity: Option<int>, now: int)
    requires other != user.id
    ensures RowsOf(AddItem(db, AuthOk(user), productId, quantity, now).1.rows, other) == RowsOf(db.rows, other)
    ensures RowsOf(UpdateItem(db, AuthOk(user), productId, quantity).1.rows, other) == RowsOf(db.rows, other)
    ensures RowsOf(RemoveItem(db, AuthOk(user), productId).1.rows, other) == RowsOf(db.rows, other)
    ensures RowsOf(ClearCart(db, AuthOk(user)).1.rows, other) == RowsOf(db.rows, other)
  {
    AddKeepsOthersRows(db, user, other, productId, quantity, now);
    UpdateKeepsOthersRows(db, user, other, productId, quantity);
    RemoveKeepsOthersRows(db, user, other, productId);
    ClearKeepsOthers(db.rows, user.id, other);
  }

  lemma AddKeepsOthersRows(db: CartDb, user: AuthUser, other: nat, productId: Option<int>,
                           quantity: Option<int>, now: int)
    requires other != user.id
    ensures RowsOf(AddItem(db, AuthOk(user), productId, quantity, now).1.rows, other) == RowsOf(db.rows, other)
  {
    var isOther := (row: CartRow) => OwnedBy(other, row);
    var add := AddItem(db, AuthOk(user), productId, quantity, now);
    if add.0.Ok? {
      var p := FindActiveProduct(db.products, productId.value).value;
      match FindRow(db.rows, user.id, p.id)
      case Some(k) =>
        FilterUpdateRejected(db.rows, k, add.1.rows[k], isOther);
      case None =>
        FilterAppend(db.rows, [add.0.value.item], isOther);
        assert [add.0.value.item][1..] == [];
    }
  }

  lemma UpdateKeepsOthersRows(db: CartDb, user: AuthUser, other: nat, productId: Option<int>, quantity: Option<int>)
    requires other != user.id
    ensures RowsOf(UpdateItem(db, AuthOk(user), productId, quantity).1.rows, other) == RowsOf(db.rows, other)
  {
    var isOther := (row: CartRow) => OwnedBy(other, row);
    var upd := UpdateItem(db, AuthOk(user), productId, quantity);
    if upd.0.Ok? && quantity != None {
      var k := FindRow(db.rows, user.id, productId.value).value;
      if quantity == Some(0) {
        FilterRemoveRejected(db.rows, k, isOther);
      } else {
        FilterUpdateRejected(db.rows, k, upd.1.rows[k], isOther);
      }
    }
  }

  lemma RemoveKeepsOthersRows(db: CartDb, user: AuthUser, other: nat, productId: Option<int>)
    requires other != user.id
    ensures RowsOf(RemoveItem(db, AuthOk(user), productId).1.rows, other) == RowsOf(db.rows, other)
  {
    var isOther := (row: CartRow) => OwnedBy(other, row);
    var rem := RemoveItem(db, AuthOk(user), productId);
    if rem.0.Ok? {
      FilterRemoveRejected(db.rows, FindRow(db.rows, user.id, productId.value).value, isOther);
    }
  }

  /** Every handler keeps the table's (userId, productId) pairs unique. */
  lemma HandlersKeepOnePerPair(db: CartDb, auth: AuthResult, productId: Option<int>,
                               quantity: Option<int>, now: int)
    requires OnePerPair(db.rows)
    ensures OnePerPair(AddItem(db, auth, productId, quantity, now).1.rows)
    ensures OnePerPair(UpdateItem(db, auth, productId, quantity).1.rows)
    ensures OnePerPair(RemoveItem(db, auth, productId).1.rows)
    ensures OnePerPair(ClearCart(db, auth).1.rows)
  {
    AddKeepsOnePerPair(db, auth, productId, quantity, now);
    UpdateKeepsOnePerPair(db, auth, productId, quantity);
    RemoveItemKeepsOnePerPair(db, auth, productId);
    ClearKeepsOnePerPair(db, auth);
  }

  lemma UpdateKeepsOnePerPair(db: CartDb, auth: AuthResult, productId: Option<int>, quantity: Option<int>)
    requires OnePerPair(db.rows)
    ensures OnePerPair(UpdateItem(db, auth, productId, quantity).1.rows)
  {
    var upd := UpdateItem(db, auth, productId, quantity);
    if upd.0.Ok? && quantity == Some(0) {
      RemoveKeepsOnePerPair(db.rows, FindRow(db.rows, auth.user.id, productId.value).value);
    }
  }

  lemma RemoveItemKeepsOnePerPair(db: CartDb, auth: AuthResult, productId: Option<int>)
    requires OnePerPair(db.rows)
    ensures OnePerPair(RemoveItem(db, auth, productId).1.rows)
  {
    var rem := RemoveItem(db, auth, productId);
    if rem.0.Ok? {
      RemoveKeepsOnePerPair(db.rows, FindRow(db.rows, auth.user.id, productId.value).value);
    }
  }

  lemma ClearKeepsOnePerPair(db: CartDb, auth: AuthResult)
    requires OnePerPair(db.rows)
    ensures OnePerPair(ClearCart(db, auth).1.rows)
  {
    if auth.AuthOk? {
      FilterKeepsOnePerPair(db.rows, (row: CartRow) => !OwnedBy(auth.user.id, row));
    }
  }

  lemma AddKeepsOnePerPair(db: CartDb, auth: AuthResult, productId: Option<int>, quantity: Option<int>, now: int)
    requires OnePerPair(db.rows)
    ensures OnePerPair(AddItem(db, auth, productId, quantity, now).1.rows)
  {
    var add := AddItem(db, auth, productId, quantity, now).1.rows;
    if |add| == |db.rows| + 1 {
      var p := FindActiveProduct(db.products, productId.value).value;
      assert FindRow(db.rows, auth.user.id, p.id).None?;
      forall i, j | 0 <= i < j < |add| ensures add[i].userId != add[j].userId || add[i].productId != add[j].productId {
        if j == |db.rows| { assert add[i] == db.rows[i]; }
      }
    }
  }

  lemma RemoveKeepsOnePerPair(rows: seq<CartRow>, k: nat)
    requires k < |rows| && OnePerPair(rows)
    ensures OnePerPair(RemoveAt(rows, k))
  {
    var r := RemoveAt(rows, k);
    forall i, j | 0 <= i < j < |r| ensures r[i].userId != r[j].userId || r[i].productId != r[j].productId {
      var i' := if i < k then i else i + 1;
      var j' := if j < k then j else j + 1;
      assert r[i] == rows[i'] && r[j] == rows[j'];
    }
  }

  lemma {:induction false} FilterKeepsOnePerPair(rows: seq<CartRow>, p: CartRow -> bool)
    requires OnePerPair(rows)
    ensures OnePerPair(Filter(rows, p))
  {
    if |rows| > 0 {
      assert OnePerPair(rows[1..]);
      FilterKeepsOnePerPair(rows[1..], p);
      var t := Filter(rows[1..], p);
      if p(rows[0]) {
        var r := [rows[0]] + t;
        forall i, j | 0 <= i < j < |r| ensures r[i].userId != r[j].userId || r[i].productId != r[j].productId {
          if i == 0 {
            assert r[j] == t[j - 1] && t[j - 1] in rows[1..];
          }
        }
      }
    }
  }

  /** After an accepted POST the caller has one row for the product, holding the quantity it
      had before (none counts as 0) plus the added amount. */
  lemma AddedQuantityAccumulates(db: CartDb, user: AuthUser, productId: Option<int>, quantity: Option<int>, now: int)
    requires OnePerPair(db.rows)
    requires AddItem(db, AuthOk(user), productId, quantity, now).0.Ok?
    ensures var after := AddItem(db, AuthOk(user), productId, quantity, now).1.rows;
      var before := FindRow(db.rows, user.id, productId.value);
      var found := FindRow(after, user.id, productId.value);
      && found.Some?
      && after[found.value].quantity
         == (if before.Some? then db.rows[before.value].quantity else 0) + OrDefault(quantity, 1)
  {
    var after := AddItem(db, AuthOk(user), productId, quantity, now).1.rows;
    var before := FindRow(db.rows, user.id, productId.value);
    HandlersKeepOnePerPair(db, AuthOk(user), productId, quantity, now);
    var found := FindRow(after, user.id, productId.value);
    if before.Some? {
      assert after[before.value].userId == user.id && after[before.value].productId == productId.value;
      assert found.Some?;
    } else {
      assert after[|db.rows|].userId == user.id && after[|db.rows|].productId == productId.value;
      assert found.Some?;
      assert found.value == |db.rows|;
    }
  }

  /** Clearing twice is clearing once, and a cleared cart lists as empty. */
  lemma ClearIdempotentAndEmpty(db: CartDb, user: AuthUser)
    ensures ClearCart(ClearCart(db, AuthOk(user)).1, AuthOk(user)) == ClearCart(db, AuthOk(user))
    ensures GetCart(ClearCart(db, AuthOk(user)).1, AuthOk(user)).value.items == []
  {
    FilterIdempotent(db.rows, (row: CartRow) => !OwnedBy(user.id, row));
    var cleared := ClearCart(db, AuthOk(user)).1.rows;
    FilterNone(cleared, (row: CartRow) => OwnedBy(user.id, row));
  }
}
