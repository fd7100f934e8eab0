/** One side of one product's book, and the algorithms the order book runs on
    it: amend, cancel, best-price search and trade execution.

    A side is a std::set keyed by its comparator, and both comparators look at
    the price alone. It is modelled as the set's iteration order: a sequence
    strictly sorted under the side's comparator, hence with at most one entry
    per price. The set is passed by reference and updated in place in the
    source; here each algorithm takes the set's value and returns the new one. */
module PriceBook {
  import opened Types
  import opened State
  import opened Messages

  /** Which comparator a side is keyed by: buys descend, sells ascend. */
  datatype Ordering = Descending | Ascending

  predicate Before(o: Ordering, a: OrderInfo, b: OrderInfo)
  {
    match o
    case Descending => DescendingPriceOrdering(a, b)
    case Ascending => AscendingPriceOrdering(a, b)
  }

  /** The set's iteration order: every entry strictly before every later one. */
  predicate Sorted(o: Ordering, s: seq<OrderInfo>)
  {
    forall i, j :: 0 <= i < j < |s| ==> Before(o, s[i], s[j])
  }

  predicate HasPrice(s: seq<OrderInfo>, price: Price)
  {
    exists k :: 0 <= k < |s| && s[k].price == price
  }

  predicate HasOrder(s: seq<OrderInfo>, orderId: OrderId)
  {
    exists k :: 0 <= k < |s| && s[k].orderId == orderId
  }

  /** No two entries of a sorted side share a price. */
  lemma SortedPricesUnique(o: Ordering, s: seq<OrderInfo>, i: int, j: int)
    requires Sorted(o, s) && 0 <= i < |s| && 0 <= j < |s| && i != j
    ensures s[i].price != s[j].price
  {
    if i < j { assert Before(o, s[i], s[j]); } else { assert Before(o, s[j], s[i]); }
  }

  /** A price quoted in the tail of a side is quoted in the side. */
  lemma HasPriceTail(s: seq<OrderInfo>, price: Price)
    requires s != []
    ensures HasPrice(s[1..], price) ==> HasPrice(s, price)
  {
    if HasPrice(s[1..], price) {
      var k :| 0 <= k < |s[1..]| && s[1..][k].price == price;
      assert s[k + 1].price == price;
    }
  }

  /** The tail of a sorted side is sorted. */
  lemma SortedTail(o: Ordering, s: seq<OrderInfo>)
    requires Sorted(o, s) && s != []
    ensures Sorted(o, s[1..])
  {
    forall a, b | 0 <= a < b < |s[1..]|
      ensures Before(o, s[1..][a], s[1..][b])
    {
      assert Before(o, s[a + 1], s[b + 1]);
    }
  }

  /** Two sorted sides holding the same entries are the same sequence. */
  lemma {:induction false} SortedExtensional(o: Ordering, a: seq<OrderInfo>, b: seq<OrderInfo>)
    requires Sorted(o, a) && Sorted(o, b)
    requires |a| == |b| && forall x :: x in a <==> x in b
    ensures a == b
  {
    if a != [] {
      assert a[0] in b && b[0] in a;
      assert forall k :: 0 <= k < |a| ==> a[k] == a[0] || Before(o, a[0], a[k]);
      assert forall k :: 0 <= k < |b| ==> b[k] == b[0] || Before(o, b[0], b[k]);
      assert a[0] == b[0];
      forall x
        ensures x in a[1..] <==> x in b[1..]
      {
        if x in a[1..] {
          var i :| 1 <= i < |a| && a[i] == x;
          assert Before(o, a[0], a[i]);
          assert x in b && x != b[0];
        }
        if x in b[1..] {
          var j :| 1 <= j < |b| && b[j] == x;
          assert Before(o, b[0], b[j]);
          assert x in a && x != a[0];
        }
      }
      SortedExtensional(o, a[1..], b[1..]);
      assert a == [a[0]] + a[1..] && b == [b[0]] + b[1..];
    }
  }

  // ---------------------------------------------------------- set operations

  /** std::set::emplace: the entry goes to its place in the order, unless an
      equivalent entry (one at the same price) is already present, in which
      case the set is left as it was. */
  function Insert(o: Ordering, s: seq<OrderInfo>, e: OrderInfo): (r: seq<OrderInfo>)
    requires Sorted(o, s)
    ensures Sorted(o, r)
    ensures HasPrice(s, e.price) ==> r == s
    ensures !HasPrice(s, e.price) ==> |r| == |s| + 1 && forall x :: x in r <==> x in s || x == e
    decreases |s|
  {
    if s == [] then [e]
    else if Before(o, e, s[0]) then [e] + s
    else if Before(o, s[0], e) then
      SortedTail(o, s);
      var t := Insert(o, s[1..], e);
      HasPriceTail(s, e.price);
      assert !HasPrice(s, e.price) ==> !HasPrice(s[1..], e.price) by {
        forall k | 0 <= k < |s[1..]| ensures s[1..][k] == s[k + 1] { }
      }
      assert forall k :: 0 <= k < |t| ==> Before(o, s[0], t[k]) by {
        forall k | 0 <= k < |t|
          ensures Before(o, s[0], t[k])
        {
          assert t[k] in t;
          if t[k] != e {
            var m :| 0 <= m < |s[1..]| && s[1..][m] == t[k];
            assert Before(o, s[0], s[m + 1]);
          }
        }
      }
      [s[0]] + t
    else
      assert s[0].price == e.price;
      s
  }

  /** std::set::erase at a position. */
  function Erase(s: seq<OrderInfo>, i: nat): (r: seq<OrderInfo>)
    requires i < |s|
    ensures |r| == |s| - 1
    ensures forall k :: 0 <= k < i ==> r[k] == s[k]
    ensures forall k :: i <= k < |r| ==> r[k] == s[k + 1]
  {
    s[..i] + s[i + 1..]
  }

  /** Erasing from a sorted side removes exactly that entry and keeps it sorted. */
  lemma EraseSorted(o: Ordering, s: seq<OrderInfo>, i: nat)
    requires Sorted(o, s) && i < |s|
    ensures Sorted(o, Erase(s, i))
    ensures forall x :: x in Erase(s, i) <==> x in s && x != s[i]
  {
    var r := Erase(s, i);
    forall a, b | 0 <= a < b < |r|
      ensures Before(o, r[a], r[b])
    {
      var a' := if a < i then a else a + 1;
      var b' := if b < i then b else b + 1;
      assert r[a] == s[a'] && r[b] == s[b'] && a' < b';
    }
    forall x
      ensures x in r <==> x in s && x != s[i]
    {
      if x in r {
        var k :| 0 <= k < |r| && r[k] == x;
        var k' := if k < i then k else k + 1;
        assert s[k'] == x && k' != i;
        SortedPricesUnique(o, s, k', i);
      }
      if x in s && x != s[i] {
        var k :| 0 <= k < |s| && s[k] == x;
        if k < i { assert r[k] == x; } else { assert r[k - 1] == x; }
      }
    }
  }

  /** Erasing the entry at a price leaves no entry at that price. */
  lemma EraseFreesPrice(o: Ordering, s: seq<OrderInfo>, i: nat)
    requires Sorted(o, s) && i < |s|
    ensures forall k :: 0 <= k < |Erase(s, i)| ==> Erase(s, i)[k].price != s[i].price
    ensures !HasPrice(Erase(s, i), s[i].price)
  {
    var r := Erase(s, i);
    forall k | 0 <= k < |r|
      ensures r[k].price != s[i].price
    {
      var k' := if k < i then k else k + 1;
      assert s[k'] == r[k];
      SortedPricesUnique(o, s, k', i);
    }
  }

  /** Erasing an entry and emplacing one at the same price is replacing it in
      its slot: the erase frees the price, so the emplace cannot be refused. */
  lemma {:induction false} EraseThenInsertSamePrice(o: Ordering, s: seq<OrderInfo>, i: nat, e: OrderInfo)
    requires Sorted(o, s) && i < |s| && e.price == s[i].price
    ensures !HasPrice(Erase(s, i), e.price)
    ensures Insert(o, Erase(s, i), e) == s[i := e]
  {
    var r := Erase(s, i);
    EraseSorted(o, s, i);
    EraseFreesPrice(o, s, i);
    var t := s[i := e];
    assert Sorted(o, t) by {
      forall a, b | 0 <= a < b < |t|
        ensures Before(o, t[a], t[b])
      {
        assert Before(o, s[a], s[b]);
      }
    }
    forall x
      ensures x in Insert(o, r, e) <==> x in t
    {
      if x in t && x != e {
        var k :| 0 <= k < |t| && t[k] == x;
        assert k != i && s[k] == x;
        SortedPricesUnique(o, s, k, i);
      }
      if x in s && x != s[i] {
        var k :| 0 <= k < |s| && s[k] == x;
        assert k != i && t[k] == x;
      }
      assert t[i] == e;
    }
    SortedExtensional(o, Insert(o, r, e), t);
  }

  // ---------------------------------------------------------------- searching

  /** std::find_if over positions b, b+1, ... of s: the first position whose
      entry satisfies f, or |s| (the end iterator) when there is none. */
  function FindIf(s: seq<OrderInfo>, b: nat, f: OrderInfo -> bool): (r: nat)
    requires b <= |s|
    ensures b <= r <= |s|
    ensures r < |s| ==> f(s[r])
    ensures forall k :: b <= k < r ==> !f(s[k])
    decreases |s| - b
  {
    if b == |s| then |s|
    else if f(s[b]) then b
    else FindIf(s, b + 1, f)
  }

  /** The position of the first entry carrying orderId, or |s|. */
  function FindOrder(s: seq<OrderInfo>, orderId: OrderId): (r: nat)
    ensures r <= |s|
    ensures r < |s| <==> HasOrder(s, orderId)
    ensures r < |s| ==> s[r].orderId == orderId
    ensures forall k :: 0 <= k < r ==> s[k].orderId != orderId
  {
    FindIf(s, 0, (info: OrderInfo) => info.orderId == orderId)
  }

  /** bestPriceMatch: the first entry in positions b.. whose price equals the
      given price, or |s| (the end iterator) when none does. */
  function BestPriceMatch(s: seq<OrderInfo>, b: nat, price: Price): (r: nat)
    requires b <= |s|
    ensures b <= r <= |s|
    ensures r < |s| ==> s[r].price == price
    ensures forall k :: b <= k < r ==> s[k].price != price
  {
    FindIf(s, b, (info: OrderInfo) => info.price == price)
  }

  // ------------------------------------------------------------ amend, cancel

  /** amend: find the entry carrying the event's orderId; if there is one,
      erase it and emplace (orderId, new quantity, new price). A side that
      does not hold the orderId is left unchanged and InvalidOrderId results.
      When another entry already rests at the new price the emplace is
      refused, so the amended order disappears from the side. */
  function Amend(o: Ordering, infoSet: seq<OrderInfo>, obj: AmendOrder): (r: (seq<OrderInfo>, ErrorCode))
    requires Sorted(o, infoSet)
    ensures Sorted(o, r.0)
    ensures !HasOrder(infoSet, obj.orderId) ==> r == (infoSet, InvalidOrderId)
    ensures HasOrder(infoSet, obj.orderId) ==>
              var i := FindOrder(infoSet, obj.orderId);
              var amended := OrderInfo(obj.orderId, obj.quantity, obj.price);
              && r.1 == Ok
              && (HasPrice(Erase(infoSet, i), obj.price) ==> r.0 == Erase(infoSet, i))
              && (!HasPrice(Erase(infoSet, i), obj.price) ==>
                    && |r.0| == |infoSet|
                    && forall x :: x in r.0 <==> x == amended || (x in infoSet && x != infoSet[i]))
  {
    var iter := FindOrder(infoSet, obj.orderId);
    if iter != |infoSet| then
      EraseSorted(o, infoSet, iter);
      var newInfo := OrderInfo(obj.orderId, obj.quantity, obj.price);
      (Insert(o, Erase(infoSet, iter), newInfo), Ok)
    else
      (infoSet, InvalidOrderId)
  }

  /** cancel: erase the entry carrying the event's orderId; a side that does
      not hold the orderId is left unchanged and InvalidOrderId results. */
  function Cancel(o: Ordering, infoSet: seq<OrderInfo>, obj: CancelOrder): (r: (seq<OrderInfo>, ErrorCode))
    requires Sorted(o, infoSet)
    ensures Sorted(o, r.0)
    ensures !HasOrder(infoSet, obj.orderId) ==> r == (infoSet, InvalidOrderId)
    ensures HasOrder(infoSet, obj.orderId) ==>
              var i := FindOrder(infoSet, obj.orderId);
              && r.1 == Ok
              && |r.0| == |infoSet| - 1
              && forall x :: x in r.0 <==> x in infoSet && x != infoSet[i]
  {
    var iter := FindOrder(infoSet, obj.orderId);
    if iter != |infoSet| then
      EraseSorted(o, infoSet, iter);
      (Erase(infoSet, iter), Ok)
    else
      (infoSet, InvalidOrderId)
  }

  // ------------------------------------------------------------------ execute

  /** What a trade does to one side, stated without the loop: the entry at the
      trade's price (there is at most one) absorbs the traded quantity if it
      can, keeping the remainder, possibly 0; otherwise it is removed. A zero
      quantity or a price with no entry changes nothing. */
  function Executed(o: Ordering, s: seq<OrderInfo>, price: Price, quantity: Quantity): (r: seq<OrderInfo>)
    requires Sorted(o, s)
    ensures Sorted(o, r)
    ensures forall x: OrderInfo :: x.price != price ==> (x in r <==> x in s)
    ensures !HasPrice(s, price) || quantity == 0 ==> r == s
  {
    var i := BestPriceMatch(s, 0, price);
    if quantity == 0 || i == |s| then s
    else if s[i].quantity >= quantity then
      EraseThenInsertSamePrice(o, s, i, s[i].(quantity := s[i].quantity - quantity));
      EraseSorted(o, s, i);
      var r := s[i := s[i].(quantity := s[i].quantity - quantity)];
      assert forall x: OrderInfo :: x.price != price ==> (x in r <==> x in s) by {
        forall x: OrderInfo | x.price != price
          ensures x in r <==> x in s
        {
          if x in s { var k :| 0 <= k < |s| && s[k] == x; assert r[k] == x; }
          if x in r { var k :| 0 <= k < |r| && r[k] == x; assert s[k] == x; }
        }
      }
      r
    else
      EraseSorted(o, s, i);
      Erase(s, i)
  }

  /** The total quantity resting at a price. */
  function QuantityAt(s: seq<OrderInfo>, price: Price): nat
  {
    if s == [] then 0
    else (if s[0].price == price then s[0].quantity else 0) + QuantityAt(s[1..], price)
  }

  lemma {:induction false} QuantityAtNoEntry(s: seq<OrderInfo>, price: Price)
    requires !HasPrice(s, price)
    ensures QuantityAt(s, price) == 0
  {
    if s != [] {
      HasPriceTail(s, price);
      QuantityAtNoEntry(s[1..], price);
    }
  }

  /** On a sorted side the quantity at a quoted price is that of its one entry. */
  lemma {:induction false} QuantityAtEntry(o: Ordering, s: seq<OrderInfo>, i: nat)
    requires Sorted(o, s) && i < |s|
    ensures QuantityAt(s, s[i].price) == s[i].quantity
  {
    if i == 0 {
      EraseFreesPrice(o, s, 0);
      assert Erase(s, 0) == s[1..];
      QuantityAtNoEntry(s[1..], s[0].price);
    } else {
      SortedPricesUnique(o, s, 0, i);
      SortedTail(o, s);
      QuantityAtEntry(o, s[1..], i - 1);
    }
  }

  /** A trade depletes the quantity resting at its price by the traded
      quantity, down to no less than 0. */
  lemma ExecutedDepletesLevel(o: Ordering, s: seq<OrderInfo>, price: Price, quantity: Quantity)
    requires Sorted(o, s)
    ensures QuantityAt(Executed(o, s, price, quantity), price) ==
              if QuantityAt(s, price) >= quantity then QuantityAt(s, price) - quantity else 0
  {
    var i := BestPriceMatch(s, 0, price);
    var r := Executed(o, s, price, quantity);
    if i == |s| {
      assert !HasPrice(s, price);
      QuantityAtNoEntry(s, price);
    } else {
      QuantityAtEntry(o, s, i);
      if quantity == 0 {
      } else if s[i].quantity >= quantity {
        assert r == s[i := s[i].(quantity := s[i].quantity - quantity)];
        QuantityAtEntry(o, r, i);
      } else {
        EraseFreesPrice(o, s, i);
        QuantityAtNoEntry(r, price);
      }
    }
  }

  /** A trade at the price of a resting entry: an entry that covers the traded
      quantity stays in its slot with the quantity reduced (possibly to 0); a
      smaller one is removed. Every other entry stays where it was. */
  lemma ExecutedAtEntry(o: Ordering, s: seq<OrderInfo>, i: nat, quantity: Quantity)
    requires Sorted(o, s) && i < |s| && quantity > 0
    ensures s[i].quantity >= quantity ==>
              Executed(o, s, s[i].price, quantity) == s[i := s[i].(quantity := s[i].quantity - quantity)]
    ensures s[i].quantity < quantity ==> Executed(o, s, s[i].price, quantity) == Erase(s, i)
  {
    SortedUniqueMatch(o, s, i);
  }

  /** A trade that exactly matches the resting quantity leaves the entry in
      place with quantity 0, rather than removing the price level. */
  lemma ExactFillKeepsEmptyLevel(o: Ordering, s: seq<OrderInfo>, i: nat)
    requires Sorted(o, s) && i < |s| && s[i].quantity > 0
    ensures var r := Executed(o, s, s[i].price, s[i].quantity);
            |r| == |s| && r[i] == s[i].(quantity := 0)
  {
    SortedUniqueMatch(o, s, i);
  }

  /** On a sorted side the best price match for a quoted price is its entry. */
  lemma SortedUniqueMatch(o: Ordering, s: seq<OrderInfo>, i: nat)
    requires Sorted(o, s) && i < |s|
    ensures BestPriceMatch(s, 0, s[i].price) == i
  {
    forall k | 0 <= k < i
      ensures s[k].price != s[i].price
    {
      SortedPricesUnique(o, s, k, i);
    }
  }

  /** Executed where the matching entry covers the traded quantity. */
  lemma ExecutedCovered(o: Ordering, s: seq<OrderInfo>, price: Price, quantity: Quantity, i: nat)
    requires Sorted(o, s) && i == BestPriceMatch(s, 0, price) && i < |s|
    requires 0 < quantity <= s[i].quantity
    ensures Executed(o, s, price, quantity) == s[i := s[i].(quantity := s[i].quantity - quantity)]
  {
  }

  /** Executed where the matching entry falls short of the traded quantity. */
  lemma ExecutedShort(o: Ordering, s: seq<OrderInfo>, price: Price, quantity: Quantity, i: nat)
    requires Sorted(o, s) && i == BestPriceMatch(s, 0, price) && i < |s|
    requires s[i].quantity < quantity
    ensures Executed(o, s, price, quantity) == Erase(s, i)
  {
  }

  /** execute, as the source runs it on the buy set: find the best price
      match, then loop while quantity remains unmatched and a match exists.
      An entry that covers the rest is erased and emplaced with its quantity
      reduced; a smaller one is erased, after which the source reads the
      quantity of the entry that follows it (modelled as an unsigned 32-bit
      subtraction; at the end of the set the read is undefined and the
      remaining quantity is left as it was). Either way the search restarts at
      the iterator it holds. */
  method Execute(o: Ordering, buySet: seq<OrderInfo>, obj: Trade) returns (result: seq<OrderInfo>)
    requires Sorted(o, buySet)
    ensures result == Executed(o, buySet, obj.price, obj.quantity)
  {
    result := buySet;
    var matchedQty: Quantity := obj.quantity;
    var iter := BestPriceMatch(result, 0, obj.price);
    ghost var first := iter;
    ghost var expected := Executed(o, buySet, obj.price, obj.quantity);
    while matchedQty > 0 && iter != |result|
      invariant Sorted(o, result) && iter <= |result|
      invariant (result == buySet && iter == first && matchedQty == obj.quantity)
             || (result == expected && (matchedQty == 0 || iter == |result|))
      decreases |result| + (if matchedQty > 0 then 1 else 0)
    {
      assert result == buySet && iter == first && matchedQty == obj.quantity;
      EraseSorted(o, result, iter);
      if result[iter].quantity >= matchedQty {
        var newInfo := result[iter].(quantity := result[iter].quantity - matchedQty);
        EraseThenInsertSamePrice(o, result, iter, newInfo);
        ExecutedCovered(o, buySet, obj.price, obj.quantity, iter);
        result := Erase(result, iter);
        result := Insert(o, result, newInfo);
        // emplace_result.first: the element equivalent to newInfo
        iter := FindIf(result, 0, (x: OrderInfo) => !Before(o, x, newInfo) && !Before(o, newInfo, x));
        matchedQty := 0;
      } else {
        EraseFreesPrice(o, result, iter);
        ExecutedShort(o, buySet, obj.price, obj.quantity, iter);
        result := Erase(result, iter);
        matchedQty := if iter < |result| then WrappingSub(matchedQty, result[iter].quantity) else matchedQty;
      }
      iter := BestPriceMatch(result, iter, obj.price);
    }
  }
}
