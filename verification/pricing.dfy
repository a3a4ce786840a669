/** The order arithmetic, in whole rupees: authoritative unit price, free-shipping
    threshold, 18% GST rounded half up, grand total, and loyalty points. The server
    order handler and the checkout page use the same formulas. */
module Pricing {
  import opened Wrappers
  import opened Schema

  const FreeShippingAbove: int := 5000
  const FlatShipping: nat := 200

  /** `product.salePrice || product.price`: a null or zero sale price falls back to the list price. */
  function UnitPrice(p: Product): (r: nat)
    ensures TruthyNat(p.salePrice) ==> r == p.salePrice.value
    ensures !TruthyNat(p.salePrice) ==> r == p.price
  {
    if TruthyNat(p.salePrice) then p.salePrice.value else p.price
  }

  /** Free strictly above ₹5000, otherwise ₹200. */
  function Shipping(subtotal: int): (r: nat)
    ensures r == 0 <==> subtotal > FreeShippingAbove
    ensures r != 0 ==> r == FlatShipping
  {
    if subtotal > FreeShippingAbove then 0 else FlatShipping
  }

  /** `Math.round(subtotal * 0.18)`, computed exactly: `Math.round(x)` is `floor(x + 1/2)`. */
  function Tax(subtotal: int): (r: int)
    ensures -50 < 100 * r - 18 * subtotal <= 50
  {
    (18 * subtotal + 50) / 100
  }

  /** The tax is THE integer nearest to 18% of the subtotal, halves rounding up. */
  lemma TaxIsNearestInteger(subtotal: int, t: int)
    requires -50 < 100 * t - 18 * subtotal <= 50
    ensures t == Tax(subtotal)
  {
    var r := Tax(subtotal);
    assert -100 < 100 * (t - r) < 100;
  }

  function GrandTotal(subtotal: int): int {
    subtotal + Shipping(subtotal) + Tax(subtotal)
  }

  /** `Math.floor(amount / 100)`: one point per full ₹100 (also `calculateLoyaltyPoints`). */
  function LoyaltyPoints(amount: int): (r: int)
    ensures 100 * r <= amount < 100 * (r + 1)
  {
    amount / 100
  }

  lemma LoyaltyPointsMonotone(a: int, b: int)
    requires a <= b
    ensures LoyaltyPoints(a) <= LoyaltyPoints(b)
  {
  }

  /** The worked examples of the order flow: ₹4000 of goods cost ₹200 shipping and ₹720 tax,
      ₹4920 in all, earning 49 points; ₹5000 still pays shipping and ₹5001 does not;
      ₹99 earns no points. */
  lemma WorkedExamples()
    ensures Shipping(4000) == 200 && Tax(4000) == 720 && GrandTotal(4000) == 4920
    ensures LoyaltyPoints(4920) == 49
    ensures Shipping(5000) == 200 && Shipping(5001) == 0
    ensures LoyaltyPoints(99) == 0
  {
  }
}
