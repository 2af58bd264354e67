/** The staff screen's state logic (views/AdminView.tsx): the handlers
    that replace the order list and the menu, and the active/completed
    order lists it derives. */
module AdminView {
  import opened Types
  import opened Seqs
  import opened CustomerView
  import opened OrderCard
  import opened OrderStatusTracker

  /** `updateOrderStatus`: every order with that id gets the status; no
      other field and no other order changes. Any status is accepted. */
  function UpdateOrderStatus(orders: seq<Order>, id: string, status: Status): (r: seq<Order>)
    ensures |r| == |orders|
    ensures forall i :: 0 <= i < |r| ==>
      && r[i].status == (if orders[i].id == id then status else orders[i].status)
      && r[i].(status := orders[i].status) == orders[i]
  {
    seq(|orders|, i requires 0 <= i < |orders| =>
      if orders[i].id == id then orders[i].(status := status) else orders[i])
  }

  /** An unknown order id leaves the list as it was. */
  lemma UpdateUnknownOrderIsNoOp(orders: seq<Order>, id: string, status: Status)
    requires forall i :: 0 <= i < |orders| ==> orders[i].id != id
    ensures UpdateOrderStatus(orders, id, status) == orders
  {
    var r := UpdateOrderStatus(orders, id, status);
    assert forall i :: 0 <= i < |r| ==> r[i] == orders[i];
  }

  /** Of two status writes to the same order only the last one counts. */
  lemma LastStatusWins(orders: seq<Order>, id: string, first: Status, second: Status)
    ensures UpdateOrderStatus(UpdateOrderStatus(orders, id, first), id, second)
         == UpdateOrderStatus(orders, id, second)
  {
    var once := UpdateOrderStatus(orders, id, first);
    var lhs := UpdateOrderStatus(once, id, second);
    var rhs := UpdateOrderStatus(orders, id, second);
    forall i | 0 <= i < |lhs| ensures lhs[i] == rhs[i] {
      assert once[i].id == orders[i].id;
    }
  }

  /** A status write keeps every order's total equal to its lines' total. */
  lemma UpdateOrderStatusKeepsConsistent(orders: seq<Order>, id: string, status: Status)
    requires forall i :: 0 <= i < |orders| ==> OrderConsistent(orders[i])
    ensures forall o :: o in UpdateOrderStatus(orders, id, status) ==> OrderConsistent(o)
  {
    var r := UpdateOrderStatus(orders, id, status);
    forall o | o in r ensures OrderConsistent(o) {
      var i :| 0 <= i < |r| && r[i] == o;
      assert o.items == orders[i].items && o.total == orders[i].total;
    }
  }

  /** No legality check: a completed order can be sent back to Pending,
      a move the transition table never offers. */
  lemma BackwardMoveAccepted(o: Order)
    requires o.status == Completed
    ensures Next(o.status).None?
    ensures UpdateOrderStatus([o], o.id, Pending) == [o.(status := Pending)]
  {
    var r := UpdateOrderStatus([o], o.id, Pending);
    assert r[0] == o.(status := Pending);
  }

  /** The card button on the i-th order moves that order exactly one step
      forward along the pipeline. */
  lemma CardButtonAdvances(orders: seq<Order>, i: nat)
    requires i < |orders| && CardAction(orders[i]).Some?
    ensures var u := CardAction(orders[i]).value;
      var r := UpdateOrderStatus(orders, u.orderId, u.status);
      StepIndex(r[i].status) == StepIndex(orders[i].status) + 1
  {
  }

  /** A menu item's id, as a key. */
  function MenuId(m: MenuItem): int
  {
    m.id
  }

  /** `addMenuItem`: the draft, given the clock reading `now` as its id,
      goes at the end; the earlier items stay as they were. */
  function AddMenuItem(menu: seq<MenuItem>, draft: Draft, now: int): (r: seq<MenuItem>)
    ensures |r| == |menu| + 1 && r[..|menu|] == menu
    ensures r[|menu|].id == now && AsDraft(r[|menu|]) == draft
  {
    menu + [WithId(draft, now)]
  }

  /** When the clock reading is not already an id, adding keeps menu ids
      distinct (the source itself does not check this). */
  lemma AddMenuItemKeepsIdsDistinct(menu: seq<MenuItem>, draft: Draft, now: int)
    requires KeysDistinct(menu, MenuId)
    requires forall i :: 0 <= i < |menu| ==> menu[i].id != now
    ensures KeysDistinct(AddMenuItem(menu, draft, now), MenuId)
  {
    var r := AddMenuItem(menu, draft, now);
    forall i, j | 0 <= i < j < |r| ensures MenuId(r[i]) != MenuId(r[j]) {
      assert r[i] == menu[i];
      assert j < |menu| ==> r[j] == menu[j];
    }
  }

  /** `updateMenuItem`: every item with the edited item's id is replaced
      by it; the others stay, in place. */
  function UpdateMenuItem(menu: seq<MenuItem>, item: MenuItem): (r: seq<MenuItem>)
    ensures |r| == |menu|
    ensures forall i :: 0 <= i < |r| ==> r[i] == if menu[i].id == item.id then item else menu[i]
  {
    seq(|menu|, i requires 0 <= i < |menu| => if menu[i].id == item.id then item else menu[i])
  }

  /** Updating an item whose id is not on the menu changes nothing. */
  lemma UpdateUnknownItemIsNoOp(menu: seq<MenuItem>, item: MenuItem)
    requires forall i :: 0 <= i < |menu| ==> menu[i].id != item.id
    ensures UpdateMenuItem(menu, item) == menu
  {
    var r := UpdateMenuItem(menu, item);
    assert forall i :: 0 <= i < |r| ==> r[i] == menu[i];
  }

  /** Updating keeps every position's id, so distinct ids stay distinct. */
  lemma UpdateMenuItemKeepsIds(menu: seq<MenuItem>, item: MenuItem)
    ensures forall i :: 0 <= i < |menu| ==> UpdateMenuItem(menu, item)[i].id == menu[i].id
    ensures KeysDistinct(menu, MenuId) ==> KeysDistinct(UpdateMenuItem(menu, item), MenuId)
  {
    var r := UpdateMenuItem(menu, item);
    if KeysDistinct(menu, MenuId) {
      forall i, j | 0 <= i < j < |r| ensures MenuId(r[i]) != MenuId(r[j]) {
        assert r[i].id == menu[i].id && r[j].id == menu[j].id;
      }
    }
  }

  /** The predicate "has an id other than `id`". */
  function MenuIdIsNot(id: int): MenuItem -> bool
  {
    (m: MenuItem) => m.id != id
  }

  /** `deleteMenuItem`: every item with that id goes; the others stay. */
  function DeleteMenuItem(menu: seq<MenuItem>, id: int): (r: seq<MenuItem>)
    ensures forall i :: 0 <= i < |r| ==> r[i].id != id && r[i] in menu
    ensures forall i :: 0 <= i < |menu| && menu[i].id != id ==> menu[i] in r
    ensures (forall i :: 0 <= i < |menu| ==> menu[i].id != id) ==> r == menu
  {
    if forall i :: 0 <= i < |menu| ==> menu[i].id != id then
      FilterKeepsAll(menu, MenuIdIsNot(id)); Filter(menu, MenuIdIsNot(id))
    else Filter(menu, MenuIdIsNot(id))
  }

  /** Deleting keeps the remaining items in their relative order. */
  lemma DeleteMenuItemConcat(a: seq<MenuItem>, b: seq<MenuItem>, id: int)
    ensures DeleteMenuItem(a + b, id) == DeleteMenuItem(a, id) + DeleteMenuItem(b, id)
  {
    FilterConcat(a, b, MenuIdIsNot(id));
  }

  /** The Delete button on an item of a menu with distinct ids removes
      exactly that item and keeps ids distinct. */
  lemma DeleteButtonRemovesItem(menu: seq<MenuItem>, i: nat)
    requires KeysDistinct(menu, MenuId) && i < |menu|
    ensures DeleteMenuItem(menu, menu[i].id) == menu[..i] + menu[i + 1..]
    ensures KeysDistinct(DeleteMenuItem(menu, menu[i].id), MenuId)
  {
    var p := MenuIdIsNot(menu[i].id);
    forall j | 0 <= j < |menu| && j != i ensures p(menu[j]) {
      assert MenuId(menu[j]) != MenuId(menu[i]);
    }
    FilterDropsOne(menu, p, i);
    FilterKeysDistinct(menu, p, MenuId);
  }

  /** `o.status === OrderStatus.Completed`. */
  function IsCompleted(o: Order): (r: bool)
    ensures r <==> Next(o.status).None? && o.status != Cancelled
  {
    o.status == Completed
  }

  /** `o.status !== OrderStatus.Completed`. */
  function NotCompleted(o: Order): (r: bool)
    ensures r == !IsCompleted(o)
  {
    o.status != Completed
  }

  /** The sort key of the active list, `a.createdAt - b.createdAt`. */
  function CreatedAt(o: Order): int
  {
    o.createdAt
  }

  /** The sort key of `b.createdAt - a.createdAt`: newest first. */
  function NewestFirst(o: Order): int
  {
    -o.createdAt
  }

  /** `activeOrders`: the orders not completed (Cancelled ones included),
      oldest first. */
  function ActiveOrders(orders: seq<Order>): (r: seq<Order>)
    ensures multiset(r) == multiset(Filter(orders, NotCompleted))
    ensures forall i :: 0 <= i < |r| ==> r[i].status != Completed && r[i] in orders
    ensures forall i, j :: 0 <= i < j < |r| ==> r[i].createdAt <= r[j].createdAt
  {
    SortedFilter(orders, NotCompleted, CreatedAt)
  }

  /** `completedOrders`: the completed orders, newest first. */
  function CompletedOrders(orders: seq<Order>): (r: seq<Order>)
    ensures multiset(r) == multiset(Filter(orders, IsCompleted))
    ensures forall i :: 0 <= i < |r| ==> r[i].status == Completed && r[i] in orders
    ensures forall i, j :: 0 <= i < j < |r| ==> r[i].createdAt >= r[j].createdAt
  {
    SortedFilter(orders, IsCompleted, NewestFirst)
  }

  /** Between them the two lists hold every order exactly once; a
      Cancelled order is among the active ones. */
  lemma ActiveAndCompletedPartition(orders: seq<Order>)
    ensures multiset(ActiveOrders(orders)) + multiset(CompletedOrders(orders)) == multiset(orders)
    ensures forall i :: 0 <= i < |orders| && orders[i].status == Cancelled ==> orders[i] in ActiveOrders(orders)
  {
    FilterSplit(orders, NotCompleted, IsCompleted);
    forall i | 0 <= i < |orders| && orders[i].status == Cancelled
      ensures orders[i] in ActiveOrders(orders)
    {
      assert orders[i] in multiset(Filter(orders, NotCompleted));
    }
  }

  /** Both lists keep the list order among orders placed at the same
      instant, as the stable `Array.prototype.sort` does; and they are
      exactly what such a sort returns. */
  lemma OrderListsStable(orders: seq<Order>, t: int)
    ensures Filter(ActiveOrders(orders), KeyIs(CreatedAt, t))
         == Filter(Filter(orders, NotCompleted), KeyIs(CreatedAt, t))
    ensures Filter(CompletedOrders(orders), KeyIs(NewestFirst, t))
         == Filter(Filter(orders, IsCompleted), KeyIs(NewestFirst, t))
  {
    SortByStable(Filter(orders, NotCompleted), CreatedAt, t);
    SortByStable(Filter(orders, IsCompleted), NewestFirst, t);
  }

  /** `completedOrders.slice(0, 4)`: the four newest completed orders (or
      all of them when there are fewer); every completed order left out
      is no newer than every one shown. */
  function ShownCompleted(orders: seq<Order>): (r: seq<Order>)
    ensures |r| == if |CompletedOrders(orders)| < 4 then |CompletedOrders(orders)| else 4
    ensures r == CompletedOrders(orders)[..|r|]
    ensures forall i, j :: 0 <= i < |r| <= j < |CompletedOrders(orders)| ==>
              r[i].createdAt >= CompletedOrders(orders)[j].createdAt
  {
    Take(CompletedOrders(orders), 4)
  }
}
