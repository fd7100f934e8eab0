/** The resting order record and the two price comparators that order a book
    side (namespace ex::state). */
module State {
  import opened Types

  /** One resting entry of a book side. */
  datatype OrderInfo = OrderInfo(orderId: OrderId, quantity: Quantity, price: Price)

  /** The buy-side comparator: lhs goes first when its price is higher. */
  predicate DescendingPriceOrdering(lhs: OrderInfo, rhs: OrderInfo)
  {
    lhs.price > rhs.price
  }

  /** The sell-side comparator: lhs goes first when its price is lower. */
  predicate AscendingPriceOrdering(lhs: OrderInfo, rhs: OrderInfo)
  {
    lhs.price < rhs.price
  }

  /** Both comparators are strict orders: irreflexive and transitive. */
  lemma ComparatorsAreStrictOrders(a: OrderInfo, b: OrderInfo, c: OrderInfo)
    ensures !DescendingPriceOrdering(a, a) && !AscendingPriceOrdering(a, a)
    ensures DescendingPriceOrdering(a, b) && DescendingPriceOrdering(b, c) ==> DescendingPriceOrdering(a, c)
    ensures AscendingPriceOrdering(a, b) && AscendingPriceOrdering(b, c) ==> AscendingPriceOrdering(a, c)
  {
  }

  /** Each comparator is the other with its arguments swapped. */
  lemma ComparatorsAreMirrored(a: OrderInfo, b: OrderInfo)
    ensures DescendingPriceOrdering(a, b) == AscendingPriceOrdering(b, a)
  {
  }

  /** Under either comparator two entries are equivalent (neither goes first)
      exactly when their prices are equal; orderId and quantity play no part. */
  lemma EquivalentIffSamePrice(a: OrderInfo, b: OrderInfo)
    ensures (!DescendingPriceOrdering(a, b) && !DescendingPriceOrdering(b, a)) <==> a.price == b.price
    ensures (!AscendingPriceOrdering(a, b) && !AscendingPriceOrdering(b, a)) <==> a.price == b.price
  {
  }
}
