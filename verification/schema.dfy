/** The records the handlers read and write, as rows of in-memory tables.
    A table is a sequence of rows; row ids are allocated by `NextId`. */
module Schema {
  import opened Wrappers

  datatype Role = USER | ADMIN

  datatype User = User(id: nat, email: string, password: string, name: string,
                       phone: Option<string>, role: Role, isActive: bool)

  /** Prices are whole rupees. `salePrice` and `weight` are nullable columns. */
  datatype Product = Product(
    id: nat, name: string, slug: string, description: Option<string>, sku: string,
    categoryId: int, price: nat, salePrice: Option<nat>, stockQuantity: int,
    weight: Option<nat>, images: seq<string>, tags: seq<string>,
    isActive: bool, isFeatured: bool, createdAt: int)

  datatype Category = Category(id: nat, name: string, slug: string, description: Option<string>,
                               image: Option<string>, isActive: bool, createdAt: int)

  /** The checkout form's shipping address; an empty string stands for a blank field. */
  datatype Address = Address(fullName: string, email: string, phone: string, addressLine1: string,
                             addressLine2: string, city: string, state: string, pincode: string,
                             country: string)

  datatype OrderStatus = OrderPending | Processing | Shipped | Delivered | Cancelled

  datatype PaymentMethod = COD | UPI | GOOGLEPAY

  datatype PaymentStatus = PaymentPending | PaymentCompleted

  /** An order line with the unit price frozen when the order was placed. */
  datatype OrderLine = OrderLine(productId: nat, quantity: int, price: nat)

  datatype Order = Order(id: nat, userId: nat, total: int, subtotal: int, shippingCost: nat, tax: int,
                         status: OrderStatus, paymentMethod: PaymentMethod,
                         paymentStatus: PaymentStatus, shippingAddress: Address, lines: seq<OrderLine>,
                         createdAt: int)

  datatype PointsKind = EARNED

  /** A loyalty ledger entry; `orderId` is absent for the welcome bonus. */
  datatype LoyaltyEntry = LoyaltyEntry(userId: nat, orderId: Option<nat>, points: int, kind: PointsKind)

  /** One more than the largest id in the table, so never the id of an existing row. */
  function NextId<T>(rows: seq<T>, id: T -> nat): (r: nat)
    ensures r > 0
    ensures forall i :: 0 <= i < |rows| ==> id(rows[i]) < r
  {
    if |rows| == 0 then 1
    else
      var rest := NextId(rows[1..], id);
      assert forall i :: 1 <= i < |rows| ==> rows[i] == rows[1..][i - 1];
      if id(rows[0]) < rest then rest else id(rows[0]) + 1
  }

  /** The row `findUnique({ where: { id, isActive: true } })` returns for a product id. */
  function FindActiveProduct(products: seq<Product>, id: int): (r: Option<Product>)
    ensures r.Some? ==> r.value in products && r.value.id == id && r.value.isActive
    ensures r.None? ==> forall i :: 0 <= i < |products| && products[i].id == id ==> !products[i].isActive
  {
    if |products| == 0 then None
    else if products[0].id == id && products[0].isActive then Some(products[0])
    else FindActiveProduct(products[1..], id)
  }
}
