/** The customer's "My Orders" screen on small devices
    (views/customer/MobileOrdersView.tsx): every order, newest first. */
module MobileOrdersView {
  import opened Types
  import opened Seqs
  import opened AdminView

  /** `[...orders].sort((a, b) => b.createdAt - a.createdAt)`: a sorted
      copy, newest first; the list it came from is left alone. */
  function SortedOrders(orders: seq<Order>): (r: seq<Order>)
    ensures multiset(r) == multiset(orders)
    ensures forall i, j :: 0 <= i < j < |r| ==> r[i].createdAt >= r[j].createdAt
  {
    var r := SortBy(orders, NewestFirst);
    assert forall i, j :: 0 <= i < j < |r| ==> NewestFirst(r[i]) <= NewestFirst(r[j]);
    r
  }

  /** Orders placed at the same instant keep their list order, and the
      result is the only list that is sorted newest first, a permutation
      of the orders and stable in that sense: what the stable
      `Array.prototype.sort` returns. */
  lemma SortedOrdersIsStableSort(orders: seq<Order>, r: seq<Order>)
    ensures forall t :: Filter(SortedOrders(orders), KeyIs(NewestFirst, t))
                     == Filter(orders, KeyIs(NewestFirst, t))
    ensures (&& SortedBy(r, NewestFirst)
             && (forall t :: Filter(r, KeyIs(NewestFirst, t)) == Filter(orders, KeyIs(NewestFirst, t))))
            ==> r == SortedOrders(orders)
  {
    forall t ensures Filter(SortedOrders(orders), KeyIs(NewestFirst, t))
                  == Filter(orders, KeyIs(NewestFirst, t)) {
      SortByStable(orders, NewestFirst, t);
    }
    if && SortedBy(r, NewestFirst)
       && (forall t :: Filter(r, KeyIs(NewestFirst, t)) == Filter(orders, KeyIs(NewestFirst, t))) {
      StableSortIsSortBy(orders, r, NewestFirst);
    }
  }

  /** What the screen shows: a notice for no orders, else the sorted list. */
  datatype Screen = NoOrdersNotice | OrderList(orders: seq<Order>)

  /** The screen for a list of orders: the notice exactly when there are none. */
  function OrdersScreen(orders: seq<Order>): (s: Screen)
    ensures s.NoOrdersNotice? <==> orders == []
    ensures s.OrderList? ==> s.orders == SortedOrders(orders) && multiset(s.orders) == multiset(orders)
  {
    if |orders| == 0 then NoOrdersNotice else OrderList(SortedOrders(orders))
  }
}
