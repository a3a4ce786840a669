/** `POST /api/orders`: validation, authoritative pricing, the ₹1 tolerance check, the
    order write with frozen line prices, the stock decrement and the loyalty accrual.
    One request is one atomic step over the products, orders and ledger tables. */
module Orders {
  import opened Wrappers
  import opened Text
  import opened Schema
  import opened Auth
  import opened Pricing
  import Seqs

  /** One request line: the client's `price` is carried but never read. */
  datatype RequestLine = RequestLine(productId: int, quantity: int, price: int)

  /** The request body; `total` is absent when missing or not a number. */
  datatype OrderRequest = OrderRequest(items: Option<seq<RequestLine>>, shippingAddress: Option<Address>,
                                       paymentMethod: Option<string>, total: Option<int>)

  datatype OrderDb = OrderDb(products: seq<Product>, orders: seq<Order>, ledger: seq<LoyaltyEntry>)

  /** The `order` object of a success response. */
  datatype Receipt = Receipt(id: nat, total: int, status: OrderStatus, paymentStatus: PaymentStatus,
                             createdAt: int, pointsEarned: int)

  datatype Priced = Priced(lines: seq<OrderLine>, subtotal: int)

  /** A line the handler lets through: an active product with at least `quantity` in stock. */
  predicate LinePasses(products: seq<Product>, item: RequestLine) {
    var p := FindActiveProduct(products, item.productId);
    p.Some? && p.value.stockQuantity >= item.quantity
  }

  predicate AllLinesPass(products: seq<Product>, items: seq<RequestLine>) {
    forall i :: 0 <= i < |items| ==> LinePasses(products, items[i])
  }

  /** What one line contributes to the subtotal at the current catalogue prices. */
  function ResolvedAmount(products: seq<Product>, item: RequestLine): int {
    match FindActiveProduct(products, item.productId)
    case None => 0
    case Some(p) => UnitPrice(p) * item.quantity
  }

  /** Reference subtotal: Σ unit price × quantity over the request lines. */
  function ServerSubtotal(products: seq<Product>, items: seq<RequestLine>): int {
    Seqs.Sum(items, (item: RequestLine) => ResolvedAmount(products, item))
  }

  function LineAmount(l: OrderLine): int {
    l.price * l.quantity
  }

  /** The rejection for a line that does not pass. */
  function LineError(products: seq<Product>, item: RequestLine): (r: Response<Priced>)
    ensures r.Err?
  {
    match FindActiveProduct(products, item.productId)
    case None => Err(404, "Product " + IntToDecimal(item.productId) + " not found")
    case Some(p) => Err(400, "Insufficient stock for " + p.name)
  }

  /** The validation loop: each line in turn is looked up and stock-checked, and its
      resolved unit price is frozen into an order line. The first failing line aborts. */
  function PriceLines(products: seq<Product>, items: seq<RequestLine>): (r: Response<Priced>)
    ensures r.Ok? <==> AllLinesPass(products, items)
    ensures r.Err? ==>
      var k := Seqs.IndexOf(items, (item: RequestLine) => !LinePasses(products, item));
      k.Some? && r == LineError(products, items[k.value])
    ensures r.Ok? ==>
      && r.status == 200
      && |r.value.lines| == |items|
      && r.value.subtotal == ServerSubtotal(products, items)
      && r.value.subtotal == Seqs.Sum(r.value.lines, LineAmount)
      && forall i :: 0 <= i < |items| ==>
           var p := FindActiveProduct(products, items[i].productId).value;
           r.value.lines[i] == OrderLine(p.id, items[i].quantity, UnitPrice(p))
    decreases |items|
  {
    if |items| == 0 then Ok(200, Priced([], 0))
    else
      var item := items[0];
      if !LinePasses(products, item) then LineError(products, item)
      else
        var p := FindActiveProduct(products, item.productId).value;
        var line := OrderLine(p.id, item.quantity, UnitPrice(p));
        match PriceLines(products, items[1..])
        case Err(s, m) => Err(s, m)
        case Ok(_, rest) =>
          assert ([line] + rest.lines)[1..] == rest.lines;
          assert forall i :: 1 <= i < |items| ==> items[i] == items[1..][i - 1];
          Ok(200, Priced([line] + rest.lines, LineAmount(line) + rest.subtotal))
  }

  /** The handler's own loop over the lines, accumulating the subtotal; it computes
      exactly what `PriceLines` specifies. */
  method PriceLinesLoop(products: seq<Product>, items: seq<RequestLine>) returns (r: Response<Priced>)
    ensures r == PriceLines(products, items)
  {
    var lines: seq<OrderLine> := [];
    var subtotal := 0;
    var i := 0;
    while i < |items|
      invariant 0 <= i <= |items|
      invariant AllLinesPass(products, items[..i])
      invariant |lines| == i
      invariant forall j :: 0 <= j < i ==>
        var p := FindActiveProduct(products, items[j].productId).value;
        lines[j] == OrderLine(p.id, items[j].quantity, UnitPrice(p))
      invariant subtotal == ServerSubtotal(products, items[..i])
    {
      var item := items[i];
      var p := FindActiveProduct(products, item.productId);
      if p.None? || p.value.stockQuantity < item.quantity {
        PrefixPassesThenFails(products, items, i);
        return LineError(products, item);
      }
      lines := lines + [OrderLine(p.value.id, item.quantity, UnitPrice(p.value))];
      SubtotalStep(products, items, i);
      subtotal := subtotal + UnitPrice(p.value) * item.quantity;
      i := i + 1;
    }
    assert items[..i] == items;
    var expected := PriceLines(products, items);
    assert expected.Ok?;
    assert expected.value.lines == lines;
    return Ok(200, Priced(lines, subtotal));
  }

  lemma SubtotalStep(products: seq<Product>, items: seq<RequestLine>, i: nat)
    requires i < |items|
    ensures ServerSubtotal(products, items[..i + 1])
         == ServerSubtotal(products, items[..i]) + ResolvedAmount(products, items[i])
  {
    assert items[..i + 1] == items[..i] + [items[i]];
    Seqs.SumAppend(items[..i], [items[i]], (item: RequestLine) => ResolvedAmount(products, item));
  }

  lemma PrefixPassesThenFails(products: seq<Product>, items: seq<RequestLine>, i: nat)
    requires i < |items| && AllLinesPass(products, items[..i]) && !LinePasses(products, items[i])
    ensures PriceLines(products, items) == LineError(products, items[i])
  {
    var k := Seqs.IndexOf(items, (item: RequestLine) => !LinePasses(products, item));
    assert forall j :: 0 <= j < i ==> items[..i][j] == items[j];
    assert k.Some? && k.value == i;
  }

  /** The server checks only that an address object with a full name and an email is present. */
  predicate AddressPresent(a: Option<Address>) {
    a.Some? && a.value.fullName != "" && a.value.email != ""
  }

  /** `Math.abs(finalTotal - total) > 1` rejects; a missing or non-numeric client total makes
      the difference NaN, and NaN compares false, so it passes. */
  predicate WithinTolerance(server: int, client: Option<int>) {
    client.None? || (-1 <= server - client.value <= 1)
  }

  /** `paymentMethod.toUpperCase()` must name one of the payment-method enum values, or the
      order create throws; an absent method throws at `toUpperCase`. */
  function ParsePaymentMethod(m: Option<string>): (r: Option<PaymentMethod>)
    ensures r.Some? <==> m.Some? && Upper(m.value) in {"COD", "UPI", "GOOGLEPAY"}
  {
    if m.None? then None
    else
      var u := Upper(m.value);
      if u == "COD" then Some(COD)
      else if u == "UPI" then Some(UPI)
      else if u == "GOOGLEPAY" then Some(GOOGLEPAY)
      else None
  }

  /** The checkout page sends the method in lower case, and each one maps to its enum value. */
  lemma LowerCaseMethodsAccepted()
    ensures ParsePaymentMethod(Some("cod")) == Some(COD)
    ensures ParsePaymentMethod(Some("upi")) == Some(UPI)
    ensures ParsePaymentMethod(Some("googlepay")) == Some(GOOGLEPAY)
  {
    UpperOf("cod", "COD");
    UpperOf("upi", "UPI");
    UpperOf("googlepay", "GOOGLEPAY");
  }

  lemma UpperOf(s: string, t: string)
    requires |s| == |t| && forall i :: 0 <= i < |s| ==> UpperChar(s[i]) == t[i]
    ensures Upper(s) == t
  {
  }

  /** Sum of the quantities the lines take from product `pid`. */
  function QtyFor(lines: seq<OrderLine>, pid: nat): int {
    if |lines| == 0 then 0
    else (if lines[0].productId == pid then lines[0].quantity else 0) + QtyFor(lines[1..], pid)
  }

  /** `update({ where: { id }, data: { stockQuantity: { decrement: q } } })`. */
  function DecrementOne(products: seq<Product>, pid: nat, q: int): (r: seq<Product>)
    ensures |r| == |products|
    ensures forall i :: 0 <= i < |products| ==>
      r[i] == if products[i].id == pid then products[i].(stockQuantity := products[i].stockQuantity - q)
              else products[i]
  {
    seq(|products|, (i: int) requires 0 <= i < |products| =>
      if products[i].id == pid then products[i].(stockQuantity := products[i].stockQuantity - q)
      else products[i])
  }

  /** The per-line decrements, applied one after another. */
  function DecrementStock(products: seq<Product>, lines: seq<OrderLine>): (r: seq<Product>)
    ensures |r| == |products|
    ensures forall i :: 0 <= i < |products| ==>
      r[i] == products[i].(stockQuantity := products[i].stockQuantity - QtyFor(lines, products[i].id))
    decreases |lines|
  {
    if |lines| == 0 then products
    else DecrementStock(DecrementOne(products, lines[0].productId, lines[0].quantity), lines[1..])
  }

  /** The writes of an accepted order: the order row, the stock decrements, and the ledger
      entry when at least one point is earned. */
  function Commit(db: OrderDb, userId: nat, address: Address, priced: Priced, pm: PaymentMethod,
                  isCod: bool, now: int): (Response<Receipt>, OrderDb)
  {
    var id := NextId(db.orders, (o: Order) => o.id);
    var subtotal := priced.subtotal;
    var total := GrandTotal(subtotal);
    var paymentStatus := if isCod then PaymentPending else PaymentCompleted;
    var order := Order(id, userId, total, subtotal, Shipping(subtotal), Tax(subtotal), OrderPending,
                       pm, paymentStatus, address, priced.lines, now);
    var points := LoyaltyPoints(total);
    var ledger := if points > 0 then db.ledger + [LoyaltyEntry(userId, Some(id), points, EARNED)] else db.ledger;
    (Ok(200, Receipt(id, total, OrderPending, paymentStatus, now, points)),
     OrderDb(DecrementStock(db.products, priced.lines), db.orders + [order], ledger))
  }

  /** The handler. Every check runs before the first write, so a rejection leaves all
      three tables exactly as they were. */
  function PlaceOrder(db: OrderDb, auth: AuthResult, req: OrderRequest, now: int): (r: (Response<Receipt>, OrderDb))
    ensures r.0.Err? ==> r.1 == db
  {
    if auth.AuthFail? then (Err(401, "Authentication required"), db)
    else if req.items.None? || |req.items.value| == 0 then (Err(400, "No items in order"), db)
    else if !AddressPresent(req.shippingAddress) then (Err(400, "Shipping address is required"), db)
    else match PriceLines(db.products, req.items.value)
      case Err(s, m) => (Err(s, m), db)
      case Ok(_, priced) =>
        if !WithinTolerance(GrandTotal(priced.subtotal), req.total) then (Err(400, "Total amount mismatch"), db)
        else match ParsePaymentMethod(req.paymentMethod)
          case None => (Err(500, "Failed to create order"), db)
          case Some(pm) =>
            Commit(db, auth.user.id, req.shippingAddress.value, priced, pm,
                   req.paymentMethod.value == "cod", now)
  }

  /** An order is accepted exactly when the caller is authenticated, the item list is
      non-empty, the address carries a full name and an email, every line names an active
      product with enough stock, the client total is within ₹1 of the server's, and the
      payment method is a known one. */
  lemma PlaceOrderAcceptedIff(db: OrderDb, auth: AuthResult, req: OrderRequest, now: int)
    ensures PlaceOrder(db, auth, req, now).0.Ok? <==>
      && auth.AuthOk?
      && req.items.Some? && |req.items.value| > 0
      && AddressPresent(req.shippingAddress)
      && AllLinesPass(db.products, req.items.value)
      && WithinTolerance(GrandTotal(ServerSubtotal(db.products, req.items.value)), req.total)
      && ParsePaymentMethod(req.paymentMethod).Some?
  {
    if auth.AuthOk? && req.items.Some? && |req.items.value| > 0 && AddressPresent(req.shippingAddress) {
      var pl := PriceLines(db.products, req.items.value);
      if pl.Ok? {
        assert pl.value.subtotal == ServerSubtotal(db.products, req.items.value);
      }
    }
  }

  /** The authentication, item-list and address checks come before any product lookup:
      their rejections do not depend on the catalogue or any other table. */
  lemma EarlyRejectionsIgnoreTables(db1: OrderDb, db2: OrderDb, auth: AuthResult, req: OrderRequest, now: int)
    requires auth.AuthFail? || req.items.None? || |req.items.value| == 0 || !AddressPresent(req.shippingAddress)
    ensures PlaceOrder(db1, auth, req, now).0 == PlaceOrder(db2, auth, req, now).0
    ensures PlaceOrder(db1, auth, req, now).1 == db1
    ensures auth.AuthFail? ==> PlaceOrder(db1, auth, req, now).0 == Err(401, "Authentication required")
    ensures auth.AuthOk? && (req.items.None? || |req.items.value| == 0) ==>
      PlaceOrder(db1, auth, req, now).0 == Err(400, "No items in order")
    ensures auth.AuthOk? && req.items.Some? && |req.items.value| > 0 ==>
      PlaceOrder(db1, auth, req, now).0 == Err(400, "Shipping address is required")
  {
  }

  /** The first line that names an unknown or inactive product (404) or asks for more than
      the stock (400) decides the rejection, and nothing is written. */
  lemma FirstFailingLineRejects(db: OrderDb, auth: AuthResult, req: OrderRequest, now: int, i: nat)
    requires auth.AuthOk? && req.items.Some? && AddressPresent(req.shippingAddress)
    requires i < |req.items.value|
    requires forall j :: 0 <= j < i ==> LinePasses(db.products, req.items.value[j])
    requires !LinePasses(db.products, req.items.value[i])
    ensures var item := req.items.value[i];
      var p := FindActiveProduct(db.products, item.productId);
      && PlaceOrder(db, auth, req, now).1 == db
      && (p.None? ==> PlaceOrder(db, auth, req, now).0 == Err(404, "Product " + IntToDecimal(item.productId) + " not found"))
      && (p.Some? ==> PlaceOrder(db, auth, req, now).0 == Err(400, "Insufficient stock for " + p.value.name))
  {
    var items := req.items.value;
    var k := Seqs.IndexOf(items, (item: RequestLine) => !LinePasses(db.products, item));
    assert k.Some? && k.value == i;
  }

  /** Two requests that differ only in the prices the client put on its lines. */
  predicate SameLinesButPrice(a: seq<RequestLine>, b: seq<RequestLine>) {
    |a| == |b| && forall i :: 0 <= i < |a| ==> a[i].productId == b[i].productId && a[i].quantity == b[i].quantity
  }

  lemma {:induction false} PriceLinesIgnoresClientPrice(products: seq<Product>, a: seq<RequestLine>, b: seq<RequestLine>)
    requires SameLinesButPrice(a, b)
    ensures PriceLines(products, a) == PriceLines(products, b)
    decreases |a|
  {
    if |a| > 0 {
      assert LinePasses(products, a[0]) == LinePasses(products, b[0]);
      assert SameLinesButPrice(a[1..], b[1..]);
      PriceLinesIgnoresClientPrice(products, a[1..], b[1..]);
    }
  }

  /** The client-sent per-line price is never read: the outcome and the writes are the same
      whatever prices the client sends. */
  lemma ClientLinePriceIgnored(db: OrderDb, auth: AuthResult, req: OrderRequest, items: seq<RequestLine>, now: int)
    requires req.items.Some? && SameLinesButPrice(req.items.value, items)
    ensures PlaceOrder(db, auth, req, now) == PlaceOrder(db, auth, req.(items := Some(items)), now)
  {
    PriceLinesIgnoresClientPrice(db.products, req.items.value, items);
  }

  /** Sum of the quantities the request asks of product `pid`, over all its lines. */
  function QtyRequested(items: seq<RequestLine>, pid: int): int {
    if |items| == 0 then 0
    else (if items[0].productId == pid then items[0].quantity else 0) + QtyRequested(items[1..], pid)
  }

  lemma {:induction false} QtyForMatchesRequest(products: seq<Product>, items: seq<RequestLine>, pid: nat)
    requires PriceLines(products, items).Ok?
    ensures QtyFor(PriceLines(products, items).value.lines, pid) == QtyRequested(items, pid)
    decreases |items|
  {
    if |items| > 0 {
      QtyForMatchesRequest(products, items[1..], pid);
    }
  }

  /** An accepted order appends one order row with a fresh id, status PENDING, payment
      status PENDING exactly for 'cod', the server's totals, the submitted address, and one
      line per request line carrying the resolved unit price. */
  lemma AcceptedOrderRecord(db: OrderDb, auth: AuthResult, req: OrderRequest, now: int)
    requires PlaceOrder(db, auth, req, now).0.Ok?
    ensures var (resp, db') := PlaceOrder(db, auth, req, now);
      var items := req.items.value;
      var subtotal := ServerSubtotal(db.products, items);
      && |db'.orders| == |db.orders| + 1
      && db'.orders[..|db.orders|] == db.orders
      && var o := db'.orders[|db.orders|];
      && (forall j :: 0 <= j < |db.orders| ==> db.orders[j].id != o.id)
      && o.userId == auth.user.id
      && o.status == OrderPending
      && (o.paymentStatus == PaymentPending <==> req.paymentMethod == Some("cod"))
      && Some(o.paymentMethod) == ParsePaymentMethod(req.paymentMethod)
      && o.subtotal == subtotal
      && o.shippingCost == Shipping(subtotal)
      && o.tax == Tax(subtotal)
      && o.total == subtotal + o.shippingCost + o.tax
      && o.shippingAddress == req.shippingAddress.value
      && o.createdAt == now
      && |o.lines| == |items|
      && (forall i :: 0 <= i < |items| ==>
            && o.lines[i].productId == items[i].productId && o.lines[i].quantity == items[i].quantity
            && FindActiveProduct(db.products, items[i].productId).Some?
            && o.lines[i].price == UnitPrice(FindActiveProduct(db.products, items[i].productId).value))
      && resp.value.id == o.id && resp.value.total == o.total
      && resp.value.status == o.status && resp.value.paymentStatus == o.paymentStatus
  {
    var items := req.items.value;
    var pl := PriceLines(db.products, items);
    assert pl.Ok?;
    var db' := PlaceOrder(db, auth, req, now).1;
    assert db'.orders == db.orders + [db'.orders[|db.orders|]];
  }

  /** After an accepted order each product's stock has dropped by exactly the quantity the
      request's lines asked of it (summed over repeated lines); nothing else about any
      product changes. */
  lemma AcceptedOrderStock(db: OrderDb, auth: AuthResult, req: OrderRequest, now: int)
    requires PlaceOrder(db, auth, req, now).0.Ok?
    ensures var db' := PlaceOrder(db, auth, req, now).1;
      && |db'.products| == |db.products|
      && forall i :: 0 <= i < |db.products| ==>
           db'.products[i] == db.products[i].(stockQuantity :=
             db.products[i].stockQuantity - QtyRequested(req.items.value, db.products[i].id))
  {
    var items := req.items.value;
    var pl := PriceLines(db.products, items);
    forall i | 0 <= i < |db.products| {
      QtyForMatchesRequest(db.products, items, db.products[i].id);
    }
  }

  /** An accepted order earns `floor(total / 100)` points, reported as `pointsEarned`; one
      EARNED ledger entry for this user and order is appended exactly when that is positive. */
  lemma AcceptedOrderLedger(db: OrderDb, auth: AuthResult, req: OrderRequest, now: int)
    requires PlaceOrder(db, auth, req, now).0.Ok?
    ensures var (resp, db') := PlaceOrder(db, auth, req, now);
      var points := resp.value.pointsEarned;
      && 100 * points <= resp.value.total < 100 * (points + 1)
      && (points > 0 ==> db'.ledger == db.ledger + [LoyaltyEntry(auth.user.id, Some(resp.value.id), points, EARNED)])
      && (points <= 0 ==> db'.ledger == db.ledger)
  {
  }

  /** The stock check is per line against the stock as it was before the order: two lines
      for the last unit of the same product both pass, and the stock ends at -1. */
  lemma RepeatedLinesNotAggregated(now: int)
    ensures
      var p := Product(1, "Ring", "ring", None, "R1", 1, 1000, None, 1, None, [], [], true, false, 0);
      var db := OrderDb([p], [], []);
      var user := AuthUser(7, "a@b.co", "A", USER, true);
      var addr := Address("A", "a@b.co", "9876543210", "1 Main St", "", "Kochi", "Kerala", "682001", "India");
      var req := OrderRequest(Some([RequestLine(1, 1, 1000), RequestLine(1, 1, 1000)]), Some(addr), Some("cod"), Some(2560));
      var r := PlaceOrder(db, AuthOk(user), req, now);
      r.0.Ok? && r.1.products[0].stockQuantity == -1
  {
    var p := Product(1, "Ring", "ring", None, "R1", 1, 1000, None, 1, None, [], [], true, false, 0);
    var db := OrderDb([p], [], []);
    var user := AuthUser(7, "a@b.co", "A", USER, true);
    var addr := Address("A", "a@b.co", "9876543210", "1 Main St", "", "Kochi", "Kerala", "682001", "India");
    var items := [RequestLine(1, 1, 1000), RequestLine(1, 1, 1000)];
    var req := OrderRequest(Some(items), Some(addr), Some("cod"), Some(2560));
    assert FindActiveProduct(db.products, 1) == Some(p);
    assert AllLinesPass(db.products, items);
    assert ServerSubtotal(db.products, items) == 2000 by {
      assert items[1..][1..] == [];
    }
    assert Upper("cod") == "COD";
    PlaceOrderAcceptedIff(db, AuthOk(user), req, now);
    AcceptedOrderStock(db, AuthOk(user), req, now);
    assert QtyRequested(items, 1) == 2 by {
      assert items[1..][1..] == [];
    }
  }
}
