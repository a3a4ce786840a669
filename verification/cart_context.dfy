/** The guest branch of the client cart container: a list of lines kept in component state
    and mirrored, as (productId, quantity) pairs, under the `guestCart` storage key. */
module GuestCart {
  import opened Wrappers
  import opened Text
  import opened Schema
  import opened Pricing
  import Seqs

  /** A cart line with the product snapshot it was added with. */
  datatype CartItem = CartItem(id: string, productId: int, quantity: int, product: Product)

  datatype StoredLine = StoredLine(productId: int, quantity: int)

  /** The items in state and the stored snapshot; `stored` is `None` when the key is absent. */
  datatype Cart = Cart(items: seq<CartItem>, stored: Option<seq<StoredLine>>)

  datatype Reply = Reply(success: bool, error: Option<string>)

  function LineId(productId: int): string {
    "guest_" + IntToDecimal(productId)
  }

  /** The (productId, quantity) projection written to storage. */
  function Snapshot(items: seq<CartItem>): (r: seq<StoredLine>)
    ensures |r| == |items|
    ensures forall i :: 0 <= i < |items| ==> r[i] == StoredLine(items[i].productId, items[i].quantity)
  {
    seq(|items|, (i: int) requires 0 <= i < |items| => StoredLine(items[i].productId, items[i].quantity))
  }

  predicate UniqueProducts(items: seq<CartItem>) {
    forall i, j :: 0 <= i < j < |items| ==> items[i].productId != items[j].productId
  }

  predicate HasProduct(items: seq<CartItem>, productId: int) {
    exists i :: 0 <= i < |items| && items[i].productId == productId
  }

  /** `items.map(item => item.productId === productId ? { ...item, quantity: f(item) } : item)`. */
  function MapMatching(items: seq<CartItem>, productId: int, add: bool, q: int): (r: seq<CartItem>)
    ensures |r| == |items|
    ensures forall i :: 0 <= i < |items| ==>
      r[i] == if items[i].productId == productId
              then items[i].(quantity := if add then items[i].quantity + q else q)
              else items[i]
  {
    seq(|items|, (i: int) requires 0 <= i < |items| =>
      if items[i].productId == productId
      then items[i].(quantity := if add then items[i].quantity + q else q)
      else items[i])
  }

  /** Guest `addToCart(productId, quantity = 1)`. `catalogue` is the product list fetched from
      the public listing, or `None` when that fetch is not OK. A product already in the cart
      has its quantity raised; any other is appended as one new `guest_<productId>` line. */
  function AddToCart(c: Cart, catalogue: Option<seq<Product>>, productId: int, quantity: Option<int>)
    : (r: (Reply, Cart))
    ensures catalogue.None? ==> r == (Reply(false, Some("Failed to fetch products")), c)
    ensures catalogue.Some? && (forall k :: 0 <= k < |catalogue.value| ==> catalogue.value[k].id != productId) ==>
      r == (Reply(false, Some("Product not found")), c)
    ensures catalogue.Some? && (exists k :: 0 <= k < |catalogue.value| && catalogue.value[k].id == productId) ==>
      r.0 == Reply(true, None)
    ensures r.0.success ==> r.1.stored == Some(Snapshot(r.1.items))
    ensures r.0.success && HasProduct(c.items, productId) ==>
      |r.1.items| == |c.items| &&
      forall i :: 0 <= i < |c.items| ==>
        r.1.items[i] == if c.items[i].productId == productId
                        then c.items[i].(quantity := c.items[i].quantity + OrDefault(quantity, 1))
                        else c.items[i]
    ensures r.0.success && !HasProduct(c.items, productId) ==>
      exists p :: p in catalogue.value && p.id == productId &&
        r.1.items == c.items + [CartItem(LineId(productId), productId, OrDefault(quantity, 1), p)]
    ensures !r.0.success ==> r.1 == c
  {
    var q := OrDefault(quantity, 1);
    if catalogue.None? then (Reply(false, Some("Failed to fetch products")), c)
    else match Seqs.IndexOf(catalogue.value, (p: Product) => p.id == productId)
      case None => (Reply(false, Some("Product not found")), c)
      case Some(k) =>
        var product := catalogue.value[k];
        assert product in catalogue.value && product.id == productId;
        var items := if HasProduct(c.items, productId)
                     then MapMatching(c.items, productId, true, q)
                     else c.items + [CartItem(LineId(productId), productId, q, product)];
        (Reply(true, None), Cart(items, Some(Snapshot(items))))
  }

  /** Guest `removeFromCart`: drops every line of that product, keeping the others in order. */
  function RemoveFromCart(c: Cart, productId: int): (r: (Reply, Cart))
    ensures r.0 == Reply(true, None)
    ensures r.1.stored == Some(Snapshot(r.1.items))
    ensures forall i :: 0 <= i < |r.1.items| ==> r.1.items[i].productId != productId
    ensures forall i :: 0 <= i < |c.items| && c.items[i].productId != productId ==> c.items[i] in r.1.items
    ensures Seqs.Subsequence(r.1.items, c.items)
    ensures |r.1.items| == |c.items| - Occurrences(c.items, productId)
  {
    var items := Seqs.Filter(c.items, OtherProduct(productId));
    OtherLinesCount(c.items, productId);
    (Reply(true, None), Cart(items, Some(Snapshot(items))))
  }

  /** The filter `removeFromCart` applies: a line of any other product. */
  function OtherProduct(productId: int): CartItem -> bool {
    (it: CartItem) => it.productId != productId
  }

  /** The lines of other products are all the lines but those of this one. */
  lemma {:induction false} OtherLinesCount(items: seq<CartItem>, productId: int)
    ensures Seqs.CountWhere(items, OtherProduct(productId)) == |items| - Occurrences(items, productId)
    decreases |items|
  {
    if |items| > 0 {
      OtherLinesCount(items[1..], productId);
    }
  }

  /** Guest `updateQuantity`: a non-positive quantity is a removal; otherwise only the
      matching line's quantity is set, and every other line stays where and as it was. */
  function UpdateQuantity(c: Cart, productId: int, quantity: int): (r: (Reply, Cart))
    ensures quantity <= 0 ==> r == RemoveFromCart(c, productId)
    ensures r.0 == Reply(true, None)
    ensures r.1.stored == Some(Snapshot(r.1.items))
    ensures quantity > 0 ==>
      |r.1.items| == |c.items| &&
      forall i :: 0 <= i < |c.items| ==>
        r.1.items[i] == if c.items[i].productId == productId then c.items[i].(quantity := quantity) else c.items[i]
  {
    if quantity <= 0 then RemoveFromCart(c, productId)
    else
      var items := MapMatching(c.items, productId, false, quantity);
      (Reply(true, None), Cart(items, Some(Snapshot(items))))
  }

  /** Guest `clearCart`: no items, and the storage key removed. */
  function ClearCart(c: Cart): (r: (Reply, Cart))
    ensures r.0.success && r.1.items == [] && r.1.stored.None?
  {
    (Reply(true, None), Cart([], None))
  }

  function LineTotal(it: CartItem): int {
    UnitPrice(it.product) * it.quantity
  }

  function LineQty(it: CartItem): int {
    it.quantity
  }

  /** `getCartTotal`: Σ (salePrice || price || 0) × quantity over the lines. */
  function CartTotal(items: seq<CartItem>): int {
    Seqs.Sum(items, LineTotal)
  }

  /** `getCartCount`: Σ quantity over the lines. */
  function CartCount(items: seq<CartItem>): int {
    Seqs.Sum(items, LineQty)
  }

  /** How many lines carry the product, and the quantity they hold together. */
  function Occurrences(items: seq<CartItem>, productId: int): nat {
    if |items| == 0 then 0 else (if items[0].productId == productId then 1 else 0) + Occurrences(items[1..], productId)
  }

  function QtyOf(items: seq<CartItem>, productId: int): int {
    if |items| == 0 then 0 else (if items[0].productId == productId then items[0].quantity else 0) + QtyOf(items[1..], productId)
  }

  lemma {:induction false} CountAfterMap(items: seq<CartItem>, productId: int, add: bool, q: int)
    ensures CartCount(MapMatching(items, productId, add, q))
         == CartCount(items) + (if add then q * Occurrences(items, productId)
                                else q * Occurrences(items, productId) - QtyOf(items, productId))
    decreases |items|
  {
    if |items| > 0 {
      var m := MapMatching(items, productId, add, q);
      var rest := items[1..];
      assert m[1..] == MapMatching(rest, productId, add, q);
      CountAfterMap(rest, productId, add, q);
      var hit := if items[0].productId == productId then 1 else 0;
      var o := Occurrences(rest, productId);
      assert Occurrences(items, productId) == hit + o;
      assert q * (hit + o) == q * hit + q * o;
      assert m[0].quantity == items[0].quantity + (if hit == 1 then (if add then q else q - items[0].quantity) else 0);
      assert CartCount(m) == m[0].quantity + CartCount(m[1..]);
      assert CartCount(items) == items[0].quantity + CartCount(rest);
    }
  }

  lemma {:induction false} UniqueOccurrence(items: seq<CartItem>, productId: int)
    requires UniqueProducts(items)
    ensures Occurrences(items, productId) == (if HasProduct(items, productId) then 1 else 0)
    decreases |items|
  {
    if |items| > 0 {
      assert UniqueProducts(items[1..]);
      UniqueOccurrence(items[1..], productId);
      if items[0].productId == productId {
        assert !HasProduct(items[1..], productId);
      }
      if HasProduct(items, productId) && items[0].productId != productId {
        var i :| 0 <= i < |items| && items[i].productId == productId;
        assert items[1..][i - 1].productId == productId;
      }
    }
  }

  /** A guest add keeps at most one line per product. */
  lemma AddKeepsProductsUnique(c: Cart, catalogue: Option<seq<Product>>, productId: int, quantity: Option<int>)
    requires UniqueProducts(c.items)
    ensures UniqueProducts(AddToCart(c, catalogue, productId, quantity).1.items)
  {
    var r := AddToCart(c, catalogue, productId, quantity);
    if r.0.success && !HasProduct(c.items, productId) {
      var items := r.1.items;
      forall i, j | 0 <= i < j < |items| ensures items[i].productId != items[j].productId {
        if j == |c.items| {
          assert items[i] == c.items[i];
        }
      }
    }
  }

  /** On a cart with one line per product, a successful add raises the item count by exactly
      the added quantity, whether it merged into a line or appended one. */
  lemma AddRaisesCount(c: Cart, catalogue: Option<seq<Product>>, productId: int, quantity: Option<int>)
    requires UniqueProducts(c.items)
    requires AddToCart(c, catalogue, productId, quantity).0.success
    ensures CartCount(AddToCart(c, catalogue, productId, quantity).1.items) == CartCount(c.items) + OrDefault(quantity, 1)
  {
    var q := OrDefault(quantity, 1);
    var r := AddToCart(c, catalogue, productId, quantity);
    if HasProduct(c.items, productId) {
      assert r.1.items == MapMatching(c.items, productId, true, q);
      CountAfterMap(c.items, productId, true, q);
      UniqueOccurrence(c.items, productId);
    } else {
      var p :| p in catalogue.value && p.id == productId &&
        r.1.items == c.items + [CartItem(LineId(productId), productId, q, p)];
      Seqs.SumAppend(c.items, [CartItem(LineId(productId), productId, q, p)], LineQty);
    }
  }

  /** Removing a product lowers the item count by the quantity its lines held. */
  lemma {:induction false} RemoveLowersCount(c: Cart, productId: int)
    ensures CartCount(RemoveFromCart(c, productId).1.items) == CartCount(c.items) - QtyOf(c.items, productId)
    decreases |c.items|
  {
    if |c.items| > 0 {
      var rest := Cart(c.items[1..], c.stored);
      RemoveLowersCount(rest, productId);
      var f := OtherProduct(productId);
      assert Seqs.Filter(c.items, f) == if f(c.items[0]) then [c.items[0]] + Seqs.Filter(c.items[1..], f)
                                       else Seqs.Filter(c.items[1..], f);
      if f(c.items[0]) {
        assert ([c.items[0]] + Seqs.Filter(c.items[1..], f))[1..] == Seqs.Filter(c.items[1..], f);
      }
    }
  }

  /** Setting a positive quantity on a cart with one line per product moves the count from
      the line's old quantity to the new one. */
  lemma UpdateSetsCount(c: Cart, productId: int, quantity: int)
    requires UniqueProducts(c.items) && quantity > 0
    ensures CartCount(UpdateQuantity(c, productId, quantity).1.items)
         == CartCount(c.items) - QtyOf(c.items, productId) + (if HasProduct(c.items, productId) then quantity else 0)
  {
    CountAfterMap(c.items, productId, false, quantity);
    UniqueOccurrence(c.items, productId);
  }
}
