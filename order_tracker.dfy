/** An order tracker driven by exchange callbacks: insert and replace
    requests, acknowledgements, rejections and fills. It keeps the store of
    orders, the replace requests awaiting acknowledgement, and the Net Filled
    Quantity (NFQ): bid fills minus offer fills. */
module OrderTracking {

  /** static_cast<Side> of the request's character: 'B' and 'O' are the two
      named enumerators; any other character is kept as an unnamed value,
      which no switch over the side matches. */
  datatype Side = Bid | Offer | Unnamed(code: char)

  function SideOf(c: char): (s: Side)
    ensures s == Bid <==> c == 'B'
    ensures s == Offer <==> c == 'O'
    ensures s.Unnamed? ==> s.code == c
  {
    match c
    case 'B' => Bid
    case 'O' => Offer
    case _ => Unnamed(c)
  }

  /** The parameters of an insert request. */
  datatype OrderInfo = OrderInfo(side: Side, price: int, quantity: int)

  /** The parameters of a replace request: the id the order takes on
      acknowledgement and the change to its quantity. */
  datatype ReplaceInfo = ReplaceInfo(newId: int, deltaQty: int)

  /** The replacement order: same side and price, quantity changed by delta. */
  function MergeOrderInfo(order: OrderInfo, replace: ReplaceInfo): (r: OrderInfo)
    ensures r.side == order.side && r.price == order.price
    ensures r.quantity - order.quantity == replace.deltaQty
  {
    OrderInfo(order.side, order.price, order.quantity + replace.deltaQty)
  }

  // ------------------------------------------------------------------ NFQ

  /** One fill as NFQ sees it: the side of the filled order and the quantity. */
  datatype Fill = Fill(side: Side, quantity: int)

  /** What a fill contributes to NFQ: + for a bid, - for an offer, nothing for
      an unnamed side. */
  function Signed(f: Fill): int
  {
    match f.side
    case Bid => f.quantity
    case Offer => -f.quantity
    case Unnamed(_) => 0
  }

  /** The reference value of NFQ over a history of fills. */
  function SignedSum(fills: seq<Fill>): int
  {
    if fills == [] then 0 else Signed(fills[0]) + SignedSum(fills[1..])
  }

  /** Accumulating one more fill adds its signed quantity. */
  lemma {:induction false} SignedSumAppend(fills: seq<Fill>, f: Fill)
    ensures SignedSum(fills + [f]) == SignedSum(fills) + Signed(f)
  {
    if fills == [] {
      assert [] + [f] == [f];
    } else {
      assert (fills + [f])[1..] == fills[1..] + [f];
      SignedSumAppend(fills[1..], f);
    }
  }

  /** The NFQ accumulator. It reads the order store the tracker owns; here
      the store is passed to each notification. Acknowledgements and
      rejections do not concern it. */
  class NetFilledQuantity {
    var val: int
    /** Every fill notified so far, oldest first. */
    ghost var fills: seq<Fill>

    ghost predicate Valid()
      reads this
    {
      val == SignedSum(fills)
    }

    constructor ()
      ensures Valid() && fills == [] && val == 0
    {
      val := 0;
      fills := [];
    }

    method NotifyFill(orderStore: map<int, OrderInfo>, id: int, qtyFilled: int)
      requires Valid() && id in orderStore
      modifies this
      ensures Valid()
      ensures fills == old(fills) + [Fill(orderStore[id].side, qtyFilled)]
      ensures val == old(val) + Signed(Fill(orderStore[id].side, qtyFilled))
    {
      var orderInfo := orderStore[id];
      SignedSumAppend(fills, Fill(orderInfo.side, qtyFilled));
      fills := fills + [Fill(orderInfo.side, qtyFilled)];
      match orderInfo.side {
        case Bid => val := val + qtyFilled;
        case Offer => val := val - qtyFilled;
        case Unnamed(_) =>
      }
    }

    function Value(): (r: int)
      reads this
      requires Valid()
      ensures r == SignedSum(fills)
    {
      val
    }
  }

  // -------------------------------------------------------------- tracker

  class OrderTracker {
    var orders: map<int, OrderInfo>
    var pendingReplaces: map<int, ReplaceInfo>
    const nfq: NetFilledQuantity

    ghost predicate Valid()
      reads this, nfq
    {
      nfq.Valid()
    }

    constructor ()
      ensures Valid() && fresh(nfq)
      ensures orders == map[] && pendingReplaces == map[] && nfq.fills == []
    {
      orders := map[];
      pendingReplaces := map[];
      nfq := new NetFilledQuantity();
    }

    /** An insert request records the order under its id. The id is meant to
        be new; if it is not, the emplace leaves the stored order in place. */
    method OnInsertOrderRequest(id: int, side: char, price: int, quantity: int)
      requires Valid()
      modifies this
      ensures Valid()
      ensures orders == if id in old(orders) then old(orders)
                        else old(orders)[id := OrderInfo(SideOf(side), price, quantity)]
      ensures pendingReplaces == old(pendingReplaces)
    {
      var order := OrderInfo(SideOf(side), price, quantity);
      if id !in orders {
        orders := orders[id := order];
      }
    }

    /** A replace request is parked until the exchange acknowledges it; a
        second request for the same old id is ignored while one is pending. */
    method OnReplaceOrderRequest(oldId: int, newId: int, deltaQuantity: int)
      requires Valid()
      modifies this
      ensures Valid()
      ensures pendingReplaces == if oldId in old(pendingReplaces) then old(pendingReplaces)
                                 else old(pendingReplaces)[oldId := ReplaceInfo(newId, deltaQuantity)]
      ensures orders == old(orders)
    {
      if oldId !in pendingReplaces {
        pendingReplaces := pendingReplaces[oldId := ReplaceInfo(newId, deltaQuantity)];
      }
    }

    /** An acknowledgement of a pending replace stores the merged order under
        the new id (unless that id is already taken), then drops the pending
        request and the order under the old id. Any other acknowledgement
        changes nothing here. */
    method OnRequestAcknowledged(id: int)
      requires Valid()
      requires id in pendingReplaces ==> id in orders
      modifies this
      ensures Valid()
      ensures id in old(pendingReplaces) ==>
                var replaceInfo, order := old(pendingReplaces)[id], old(orders)[id];
                var merged := MergeOrderInfo(order, replaceInfo);
                && orders == (if replaceInfo.newId in old(orders) then old(orders)
                              else old(orders)[replaceInfo.newId := merged]) - {id}
                && pendingReplaces == old(pendingReplaces) - {id}
      ensures id !in old(pendingReplaces) ==>
                orders == old(orders) && pendingReplaces == old(pendingReplaces)
    {
      if id in pendingReplaces {
        var replaceInfo := pendingReplaces[id];
        var origOrder := orders[id];
        if replaceInfo.newId !in orders {
          orders := orders[replaceInfo.newId := MergeOrderInfo(origOrder, replaceInfo)];
        }
        pendingReplaces := pendingReplaces - {id};
        orders := orders - {id};
      }
    }

    /** A rejection changes nothing the tracker keeps. */
    method OnRequestRejected(id: int)
      requires Valid()
      ensures Valid()
    {
    }

    /** A fill reduces the filled order's quantity and adds the fill to NFQ. */
    method OnOrderFilled(id: int, quantityFilled: int)
      requires Valid() && id in orders
      modifies this, nfq
      ensures Valid()
      ensures orders == old(orders)[id := old(orders)[id].(quantity := old(orders)[id].quantity - quantityFilled)]
      ensures pendingReplaces == old(pendingReplaces)
      ensures nfq.fills == old(nfq.fills) + [Fill(old(orders)[id].side, quantityFilled)]
      ensures nfq.val == old(nfq.val) + Signed(Fill(old(orders)[id].side, quantityFilled))
    {
      var order := orders[id];
      orders := orders[id := order.(quantity := order.quantity - quantityFilled)];
      nfq.NotifyFill(orders, id, quantityFilled);
    }

    function NetFilledQuantityValue(): (r: int)
      reads this, nfq
      requires Valid()
      ensures r == SignedSum(nfq.fills)
    {
      nfq.Value()
    }
  }

  /** The event sequence the tracker's driver program replays, with the NFQ
      after each fill. */
  method DriverSequence()
  {
    var ot := new OrderTracker();
    ot.OnInsertOrderRequest(1, 'B', 10, 10);
    ot.OnRequestAcknowledged(1);
    ot.OnInsertOrderRequest(2, 'O', 15, 25);
    ot.OnRequestAcknowledged(2);
    ot.OnOrderFilled(1, 5);
    assert ot.nfq.val == 5;
    ot.OnOrderFilled(1, 5);
    assert ot.nfq.val == 10;
    ot.OnReplaceOrderRequest(2, 3, 10);
    ot.OnOrderFilled(2, 25);
    assert ot.nfq.val == -15;
    ot.OnRequestRejected(3);
    assert ot.NetFilledQuantityValue() == -15;
    assert ot.orders[1].quantity == 0 && ot.orders[2].quantity == 0;
  }
}
