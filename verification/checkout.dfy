/** The checkout page: the totals it shows, the shipping-address form's validation, and the
    order request the "Place Order" button sends, for UPI or cash on delivery. */
module Checkout {
  import opened Wrappers
  import opened Text
  import opened Schema
  import opened Pricing
  import opened Auth
  import opened Orders
  import opened GuestCart
  import Seqs

  /** The totals the page displays, from the cart's own product snapshots. */
  datatype Totals = Totals(cartTotal: int, shipping: nat, tax: int, finalTotal: int)

  function PageTotals(items: seq<CartItem>): (r: Totals)
    ensures r.cartTotal == CartTotal(items)
    ensures r.finalTotal == r.cartTotal + r.shipping + r.tax
    ensures r.shipping == 0 <==> r.cartTotal > FreeShippingAbove
    ensures -50 < 100 * r.tax - 18 * r.cartTotal <= 50
  {
    var t := CartTotal(items);
    Totals(t, Shipping(t), Tax(t), GrandTotal(t))
  }

  /** One run of `[^\s@]+`. */
  predicate EmailPart(s: string) {
    |s| > 0 && forall i :: 0 <= i < |s| ==> !IsSpace(s[i]) && s[i] != '@'
  }

  /** `/^[^\s@]+@[^\s@]+\.[^\s@]+$/.test(s)`: the string splits as A@B.C with each of A, B, C a
      non-empty run free of white space and '@' (B may itself contain dots). */
  predicate ValidEmail(s: string) {
    exists p, q :: 0 <= p < q < |s| && s[p] == '@' && s[q] == '.' &&
      EmailPart(s[..p]) && EmailPart(s[p + 1..q]) && EmailPart(s[q + 1..])
  }

  /** `/^[6-9]\d{9}$/`: an Indian mobile number of ten digits starting 6–9. */
  predicate ValidMobile(s: string) {
    |s| == 10 && '6' <= s[0] <= '9' && AllDigits(s)
  }

  /** `/^\d{6}$/`. */
  predicate ValidPincode(s: string) {
    |s| == 6 && AllDigits(s)
  }

  /** Some field among fullName, email, phone, addressLine1, city, state, pincode is empty. */
  predicate MissingRequired(a: Address) {
    a.fullName == "" || a.email == "" || a.phone == "" || a.addressLine1 == "" ||
    a.city == "" || a.state == "" || a.pincode == ""
  }

  predicate AddressAccepted(a: Address) {
    !MissingRequired(a) && ValidEmail(a.email) && ValidMobile(a.phone) && ValidPincode(a.pincode)
  }

  /** `handleAddressSubmit`: the new step and the toast shown, if any. The checks run in
      order and the first failure wins; only a clean pass moves the page to step 2. */
  function SubmitAddress(step: int, a: Address): (r: (int, Option<string>))
    ensures r.1.None? <==> AddressAccepted(a)
    ensures r.1.None? ==> r.0 == 2
    ensures r.1.Some? ==> r.0 == step
    ensures MissingRequired(a) ==> r.1 == Some("Please fill in all required fields")
    ensures !MissingRequired(a) && !ValidEmail(a.email) ==> r.1 == Some("Please enter a valid email address")
    ensures !MissingRequired(a) && ValidEmail(a.email) && !ValidMobile(a.phone) ==>
      r.1 == Some("Please enter a valid 10-digit mobile number")
    ensures !MissingRequired(a) && ValidEmail(a.email) && ValidMobile(a.phone) && !ValidPincode(a.pincode) ==>
      r.1 == Some("Please enter a valid 6-digit pincode")
  {
    if MissingRequired(a) then (step, Some("Please fill in all required fields"))
    else if !ValidEmail(a.email) then (step, Some("Please enter a valid email address"))
    else if !ValidMobile(a.phone) then (step, Some("Please enter a valid 10-digit mobile number"))
    else if !ValidPincode(a.pincode) then (step, Some("Please enter a valid 6-digit pincode"))
    else (2, None)
  }

  /** What the email pattern guarantees: exactly one '@', not first and not last, no white
      space anywhere, and a '.' after the character following the '@' that is not the last
      character (a trailing '.' is still allowed, as the last run may contain dots). */
  lemma ValidEmailShape(s: string)
    requires ValidEmail(s)
    ensures NoSpace(s)
    ensures exists p :: (0 < p < |s| && s[p] == '@' && (forall j :: 0 <= j < |s| && s[j] == '@' ==> j == p) &&
                         exists q :: p + 1 < q < |s| - 1 && s[q] == '.')
    ensures s[|s| - 1] != '@'
  {
    var p, q :| 0 <= p < q < |s| && s[p] == '@' && s[q] == '.' &&
      EmailPart(s[..p]) && EmailPart(s[p + 1..q]) && EmailPart(s[q + 1..]);
    forall j | 0 <= j < |s| ensures !IsSpace(s[j]) && (s[j] == '@' ==> j == p) {
      if j < p { assert s[..p][j] == s[j]; }
      else if p < j < q { assert s[p + 1..q][j - p - 1] == s[j]; }
      else if q < j { assert s[q + 1..][j - q - 1] == s[j]; }
    }
    assert s[q + 1..][|s| - q - 2] == s[|s| - 1];
  }

  /** A few addresses the form accepts and rejects. */
  lemma EmailExamples()
    ensures ValidEmail("a@b.in")
    ensures !ValidEmail("a@b")
    ensures !ValidEmail("a@@b.in")
    ensures !ValidEmail("a b@c.in")
  {
    var s := "a@b.in";
    assert s[..1] == "a" && s[2..3] == "b" && s[4..] == "in";
    assert s[1] == '@' && s[3] == '.';
    var t := "a@@b.in";
    forall p, q | 0 <= p < q < |t| && t[p] == '@' && t[q] == '.'
      ensures !(EmailPart(t[..p]) && EmailPart(t[p + 1..q]) && EmailPart(t[q + 1..]))
    {
      if p == 1 { assert t[p + 1..q][0] == '@'; } else { assert t[..p][1] == '@'; }
    }
    var u := "a b@c.in";
    forall p, q | 0 <= p < q < |u| && u[p] == '@' && u[q] == '.'
      ensures !EmailPart(u[..p])
    {
      assert u[..p][1] == ' ';
    }
  }

  /** An address that passes the form also passes the order handler's address check. */
  lemma AcceptedAddressPassesServer(step: int, a: Address)
    requires SubmitAddress(step, a).1.None?
    ensures AddressPresent(Some(a))
  {
  }

  /** The line list the "Place Order" button sends: the cart's product ids and quantities, with
      `salePrice || price` from the snapshot as the price. */
  function PayloadLines(items: seq<CartItem>): (r: seq<RequestLine>)
    ensures |r| == |items|
    ensures forall i :: 0 <= i < |items| ==>
      r[i] == RequestLine(items[i].productId, items[i].quantity, UnitPrice(items[i].product))
  {
    seq(|items|, (i: int) requires 0 <= i < |items| =>
      RequestLine(items[i].productId, items[i].quantity, UnitPrice(items[i].product)))
  }

  function OrderBody(items: seq<CartItem>, address: Address, pm: string): OrderRequest {
    OrderRequest(Some(PayloadLines(items)), Some(address), Some(pm), Some(PageTotals(items).finalTotal))
  }

  datatype Choice = PayUpi | PayCod

  /** The "Place Order" button: UPI needs a transaction id with a non-space character;
      any other selection goes through `handleCashOnDelivery`. `None` means no request is sent. */
  function PlaceOrderClick(choice: Choice, upiTxnId: string, items: seq<CartItem>, address: Address)
    : (r: Option<OrderRequest>)
    ensures r.None? <==> choice == PayUpi && forall i :: 0 <= i < |upiTxnId| ==> IsSpace(upiTxnId[i])
    ensures r.Some? && choice == PayUpi ==> r.value == OrderBody(items, address, "upi")
    ensures r.Some? && choice == PayCod ==> r.value == OrderBody(items, address, "cod")
  {
    if choice == PayUpi then
      if Trim(upiTxnId) == "" then None else Some(OrderBody(items, address, "upi"))
    else Some(OrderBody(items, address, "cod"))
  }

  /** Every cart line's product is active in the catalogue with the same unit price as the
      cart's snapshot. */
  predicate SnapshotsCurrent(products: seq<Product>, items: seq<CartItem>) {
    forall i :: 0 <= i < |items| ==>
      FindActiveProduct(products, items[i].productId).Some? &&
      UnitPrice(FindActiveProduct(products, items[i].productId).value) == UnitPrice(items[i].product)
  }

  predicate StockCovers(products: seq<Product>, items: seq<CartItem>) {
    forall i :: 0 <= i < |items| ==>
      FindActiveProduct(products, items[i].productId).Some? &&
      FindActiveProduct(products, items[i].productId).value.stockQuantity >= items[i].quantity
  }

  /** With current snapshots the page's cart total is exactly the subtotal the server
      recomputes from its own prices. */
  lemma {:induction false} CartTotalIsServerSubtotal(products: seq<Product>, items: seq<CartItem>)
    requires SnapshotsCurrent(products, items)
    ensures CartTotal(items) == ServerSubtotal(products, PayloadLines(items))
    decreases |items|
  {
    if |items| > 0 {
      assert SnapshotsCurrent(products, items[1..]);
      CartTotalIsServerSubtotal(products, items[1..]);
      assert PayloadLines(items)[1..] == PayloadLines(items[1..]);
    }
  }

  /** A signed-in customer whose cart is non-empty, whose snapshots are current and covered by
      stock, and whose address passed the form, gets the order accepted when the page sends it
      with 'upi' or 'cod'. The server accepts the same body with 'googlepay' too. */
  lemma CheckoutOrderAccepted(db: OrderDb, user: AuthUser, items: seq<CartItem>, address: Address,
                              req: OrderRequest, now: int)
    requires |items| > 0
    requires SnapshotsCurrent(db.products, items) && StockCovers(db.products, items)
    requires AddressAccepted(address)
    requires req == OrderBody(items, address, "upi") || req == OrderBody(items, address, "cod") ||
             req == OrderBody(items, address, "googlepay")
    ensures PlaceOrder(db, AuthOk(user), req, now).0.Ok?
  {
    var lines := PayloadLines(items);
    CartTotalIsServerSubtotal(db.products, items);
    assert GrandTotal(ServerSubtotal(db.products, lines)) == PageTotals(items).finalTotal;
    CoveredLinesPass(db.products, items);
    LowerCaseMethodsAccepted();
    assert ParsePaymentMethod(req.paymentMethod).Some?;
    assert AddressPresent(req.shippingAddress);
    PlaceOrderAcceptedIff(db, AuthOk(user), req, now);
  }

  /** Lines whose products are active and in stock pass the server's per-line checks. */
  lemma CoveredLinesPass(products: seq<Product>, items: seq<CartItem>)
    requires StockCovers(products, items)
    ensures AllLinesPass(products, PayloadLines(items))
  {
    var lines := PayloadLines(items);
    forall i | 0 <= i < |lines| ensures LinePasses(products, lines[i]) {
      assert lines[i].productId == items[i].productId;
    }
  }

  /** Whenever the page's total is more than ₹1 away from the total the server computes from
      its own prices (a snapshot gone stale), the order is refused as a total mismatch, even
      though every line is in stock and the address passed the form. */
  lemma StaleSnapshotRejected(db: OrderDb, user: AuthUser, items: seq<CartItem>, address: Address,
                              pm: string, now: int)
    requires |items| > 0 && StockCovers(db.products, items) && AddressAccepted(address)
    requires !(-1 <= GrandTotal(ServerSubtotal(db.products, PayloadLines(items))) - PageTotals(items).finalTotal <= 1)
    ensures PlaceOrder(db, AuthOk(user), OrderBody(items, address, pm), now).0 == Err(400, "Total amount mismatch")
  {
    var lines := PayloadLines(items);
    CoveredLinesPass(db.products, items);
    var pl := PriceLines(db.products, lines);
    assert pl.Ok? && pl.value.subtotal == ServerSubtotal(db.products, lines);
  }

  /** One such case: a ring carted at ₹900 whose list price has since risen to ₹1000. The page
      shows ₹1262, the server computes ₹1380, and the order is refused. */
  lemma RaisedListPriceRejected(user: AuthUser, address: Address, now: int)
    requires AddressAccepted(address)
    ensures var p := Product(1, "Ring", "ring", None, "R1", 1, 1000, None, 5, None, [], [], true, false, 0);
            var stale := p.(price := 900);
            var db := OrderDb([p], [], []);
            var items := [CartItem("c1", 1, 1, stale)];
            PlaceOrder(db, AuthOk(user), OrderBody(items, address, "cod"), now).0 == Err(400, "Total amount mismatch")
  {
    var p := Product(1, "Ring", "ring", None, "R1", 1, 1000, None, 5, None, [], [], true, false, 0);
    var items := [CartItem("c1", 1, 1, p.(price := 900))];
    var lines := PayloadLines(items);
    assert lines == [RequestLine(1, 1, 900)];
    var pl := PriceLines([p], lines);
    assert pl.Ok? && pl.value.subtotal == 1000;
    assert GrandTotal(1000) == 1380 && GrandTotal(900) == 1262;
    assert items[1..] == [];
    assert LineTotal(items[0]) == UnitPrice(items[0].product) == 900;
    assert CartTotal(items) == Seqs.Sum(items, LineTotal) == 900;
  }
}
