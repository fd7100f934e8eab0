/** The four decoded event records the order book is notified of
    (namespace ex::msg). Only their fields are modelled. */
module Messages {
  import opened Types

  datatype NewOrder = NewOrder(productId: ProductId, orderId: OrderId, side: Side, quantity: Quantity, price: Price)

  datatype AmendOrder = AmendOrder(orderId: OrderId, side: Side, quantity: Quantity, price: Price)

  datatype CancelOrder = CancelOrder(orderId: OrderId, side: Side, quantity: Quantity, price: Price)

  datatype Trade = Trade(productId: ProductId, quantity: Quantity, price: Price)
}
