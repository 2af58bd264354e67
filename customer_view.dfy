/** The customer screen's state logic (views/CustomerView.tsx): the two
    cart transforms handed to `setCart`, the order built by `placeOrder`,
    the tracked-order lookup and the category filter. */
module CustomerView {
  import opened Types
  import opened Text
  import opened Seqs
  import opened Cart

  /** Some line of the cart has this id (`prevCart.find(...)` succeeds). */
  predicate InCart(cart: seq<CartItem>, id: int)
  {
    exists i :: 0 <= i < |cart| && cart[i].id == id
  }

  /** The `find` test and the remove filter agree: an id is in the cart
      exactly when removing it changes the cart. */
  lemma InCartIffRemoveChanges(cart: seq<CartItem>, id: int)
    ensures InCart(cart, id) <==> Filter(cart, CartIdIsNot(id)) != cart
  {
    if !InCart(cart, id) {
      FilterKeepsAll(cart, CartIdIsNot(id));
    } else {
      var i :| 0 <= i < |cart| && cart[i].id == id;
      assert !CartIdIsNot(id)(cart[i]);
    }
  }

  /** A cart line's id, as a key. */
  function CartId(c: CartItem): int
  {
    c.id
  }

  /** The cart invariant the two transforms keep: one line per item id,
      and every quantity at least 1. */
  ghost predicate CartValid(cart: seq<CartItem>)
  {
    && KeysDistinct(cart, CartId)
    && forall i :: 0 <= i < |cart| ==> cart[i].quantity >= 1
  }

  /** `addToCart`: a line with the item's id gets one more; otherwise the
      item is appended with quantity 1. */
  function AddToCart(cart: seq<CartItem>, item: MenuItem): (r: seq<CartItem>)
    ensures InCart(cart, item.id) ==>
      && |r| == |cart|
      && forall i :: 0 <= i < |r| ==>
           && r[i].quantity == cart[i].quantity + (if cart[i].id == item.id then 1 else 0)
           && r[i].(quantity := cart[i].quantity) == cart[i]
    ensures !InCart(cart, item.id) ==> r == cart + [WithQuantity(item, 1)]
  {
    if InCart(cart, item.id) then
      seq(|cart|, i requires 0 <= i < |cart| =>
        if cart[i].id == item.id then cart[i].(quantity := cart[i].quantity + 1) else cart[i])
    else
      cart + [WithQuantity(item, 1)]
  }

  /** The predicate "has an id other than `id`". */
  function CartIdIsNot(id: int): CartItem -> bool
  {
    (c: CartItem) => c.id != id
  }

  /** `updateCartQuantity`: a quantity of 0 or less drops every line with
      that id; a positive one becomes those lines' quantity. */
  function UpdateCartQuantity(cart: seq<CartItem>, id: int, quantity: int): (r: seq<CartItem>)
    ensures quantity <= 0 ==>
      && (forall i :: 0 <= i < |r| ==> r[i].id != id && r[i] in cart)
      && (forall i :: 0 <= i < |cart| && cart[i].id != id ==> cart[i] in r)
    ensures quantity > 0 ==>
      && |r| == |cart|
      && forall i :: 0 <= i < |r| ==>
           && r[i].quantity == (if cart[i].id == id then quantity else cart[i].quantity)
           && r[i].(quantity := cart[i].quantity) == cart[i]
    ensures !InCart(cart, id) ==> r == cart
  {
    if quantity <= 0 then
      if !InCart(cart, id) then FilterKeepsAll(cart, CartIdIsNot(id)); Filter(cart, CartIdIsNot(id))
      else Filter(cart, CartIdIsNot(id))
    else
      seq(|cart|, i requires 0 <= i < |cart| =>
        if cart[i].id == id then cart[i].(quantity := quantity) else cart[i])
  }

  /** Both branches of `updateCartQuantity` act line by line, so lines
      that stay keep their relative order. */
  lemma UpdateCartQuantityConcat(a: seq<CartItem>, b: seq<CartItem>, id: int, quantity: int)
    ensures UpdateCartQuantity(a + b, id, quantity)
         == UpdateCartQuantity(a, id, quantity) + UpdateCartQuantity(b, id, quantity)
  {
    if quantity <= 0 {
      FilterConcat(a, b, CartIdIsNot(id));
    } else {
      var l, r := UpdateCartQuantity(a + b, id, quantity), UpdateCartQuantity(a, id, quantity) + UpdateCartQuantity(b, id, quantity);
      forall i | 0 <= i < |l| ensures l[i] == r[i] {
        if i >= |a| {
          assert (a + b)[i] == b[i - |a|];
        }
      }
    }
  }

  /** `addToCart` keeps the cart invariant. */
  lemma AddToCartKeepsValid(cart: seq<CartItem>, item: MenuItem)
    requires CartValid(cart)
    ensures CartValid(AddToCart(cart, item))
  {
    var r := AddToCart(cart, item);
    if !InCart(cart, item.id) {
      forall i, j | 0 <= i < j < |r| ensures CartId(r[i]) != CartId(r[j]) {
        if j == |cart| {
          assert r[i] == cart[i];
        } else {
          assert r[i] == cart[i] && r[j] == cart[j];
        }
      }
    } else {
      forall i, j | 0 <= i < j < |r| ensures CartId(r[i]) != CartId(r[j]) {
        assert r[i].id == cart[i].id && r[j].id == cart[j].id;
      }
    }
  }

  /** `updateCartQuantity` keeps the cart invariant. */
  lemma UpdateCartQuantityKeepsValid(cart: seq<CartItem>, id: int, quantity: int)
    requires CartValid(cart)
    ensures CartValid(UpdateCartQuantity(cart, id, quantity))
  {
    var r := UpdateCartQuantity(cart, id, quantity);
    if quantity <= 0 {
      if InCart(cart, id) {
        FilterKeysDistinct(cart, CartIdIsNot(id), CartId);
      }
      forall i | 0 <= i < |r| ensures r[i].quantity >= 1 {
        var j :| 0 <= j < |cart| && cart[j] == r[i];
      }
    } else {
      forall i, j | 0 <= i < j < |r| ensures CartId(r[i]) != CartId(r[j]) {
        assert r[i].id == cart[i].id && r[j].id == cart[j].id;
      }
    }
  }

  /** The quantity is set, not added to: after a positive update only the
      last update of that id counts. */
  lemma LastQuantityWins(cart: seq<CartItem>, id: int, first: int, second: int)
    requires first > 0
    ensures UpdateCartQuantity(UpdateCartQuantity(cart, id, first), id, second)
         == UpdateCartQuantity(cart, id, second)
  {
    var once := UpdateCartQuantity(cart, id, first);
    if second <= 0 {
      // both sides drop the lines with this id and keep the others, in order
      RemoveAfterSet(cart, id, first);
    } else {
      var lhs := UpdateCartQuantity(once, id, second);
      var rhs := UpdateCartQuantity(cart, id, second);
      assert |lhs| == |rhs|;
      forall i | 0 <= i < |lhs| ensures lhs[i] == rhs[i] {
        assert once[i].id == cart[i].id;
      }
    }
  }

  /** Removing the lines of an id after setting their quantity is the same
      as removing them straight away. */
  lemma {:induction false} RemoveAfterSet(cart: seq<CartItem>, id: int, quantity: int)
    requires quantity > 0
    ensures Filter(UpdateCartQuantity(cart, id, quantity), CartIdIsNot(id)) == Filter(cart, CartIdIsNot(id))
  {
    if cart != [] {
      var once := UpdateCartQuantity(cart, id, quantity);
      assert once[1..] == UpdateCartQuantity(cart[1..], id, quantity);
      assert once[0].id == cart[0].id;
      assert cart[0].id != id ==> once[0] == cart[0];
      RemoveAfterSet(cart[1..], id, quantity);
    }
  }

  /** With one line per id, adding an item already in the cart replaces
      exactly that line. */
  lemma AddExistingReplacesLine(cart: seq<CartItem>, item: MenuItem, i: nat)
    requires KeysDistinct(cart, CartId) && i < |cart| && cart[i].id == item.id
    ensures AddToCart(cart, item) == cart[i := cart[i].(quantity := cart[i].quantity + 1)]
  {
    var r := AddToCart(cart, item);
    var c := cart[i].(quantity := cart[i].quantity + 1);
    forall j | 0 <= j < |r| ensures r[j] == cart[i := c][j] {
      assert j != i ==> CartId(cart[j]) != CartId(cart[i]);
    }
  }

  /** One more unit adds the unit price to a line's amount. */
  lemma LineOneMore(c: CartItem)
    ensures Line(c.(quantity := c.quantity + 1)) == Line(c) + c.price
  {
  }

  /** Adding an item raises the total by the price of the line it lands
      on: the cart line's own (snapshotted) price when the id is already
      there, the item's price when it is appended. */
  lemma AddToCartTotal(cart: seq<CartItem>, item: MenuItem)
    requires CartValid(cart)
    ensures !InCart(cart, item.id) ==> Total(AddToCart(cart, item)) == Total(cart) + item.price
    ensures forall i :: 0 <= i < |cart| && cart[i].id == item.id ==>
              Total(AddToCart(cart, item)) == Total(cart) + cart[i].price
  {
    if !InCart(cart, item.id) {
      var c := WithQuantity(item, 1);
      TotalConcat(cart, [c]);
      TotalSingle(c);
    } else {
      forall i | 0 <= i < |cart| && cart[i].id == item.id
        ensures Total(AddToCart(cart, item)) == Total(cart) + cart[i].price
      {
        AddExistingTotal(cart, item, i);
      }
    }
  }

  /** Adding an item whose line is at `i` adds that line's price. */
  lemma AddExistingTotal(cart: seq<CartItem>, item: MenuItem, i: nat)
    requires KeysDistinct(cart, CartId) && i < |cart| && cart[i].id == item.id
    ensures Total(AddToCart(cart, item)) == Total(cart) + cart[i].price
  {
    AddExistingReplacesLine(cart, item, i);
    BumpLineTotal(cart, i);
  }

  /** One more unit on line `i` adds that line's price to the total. */
  lemma BumpLineTotal(cart: seq<CartItem>, i: nat)
    requires i < |cart|
    ensures Total(cart[i := cart[i].(quantity := cart[i].quantity + 1)]) == Total(cart) + cart[i].price
  {
    TotalReplace(cart, i, cart[i].(quantity := cart[i].quantity + 1));
    LineOneMore(cart[i]);
  }

  /** With one line per id, dropping an id removes exactly its line. */
  lemma RemoveUniqueLine(cart: seq<CartItem>, i: nat)
    requires KeysDistinct(cart, CartId) && i < |cart|
    ensures Filter(cart, CartIdIsNot(cart[i].id)) == cart[..i] + cart[i + 1..]
  {
    var p := CartIdIsNot(cart[i].id);
    forall j | 0 <= j < |cart| && j != i ensures p(cart[j]) {
      assert CartId(cart[j]) != CartId(cart[i]);
    }
    FilterDropsOne(cart, p, i);
  }

  /** The remove button (`onUpdateQuantity(item.id, 0)`) takes the line
      out: its amount leaves the total and no line with its id is left. */
  lemma RemoveButtonRemovesLine(cart: seq<CartItem>, i: nat)
    requires CartValid(cart) && i < |cart|
    ensures !InCart(UpdateCartQuantity(cart, cart[i].id, 0), cart[i].id)
    ensures Total(UpdateCartQuantity(cart, cart[i].id, 0)) == Total(cart) - Line(cart[i])
  {
    RemoveUniqueLine(cart, i);
    TotalWithout(cart, i);
  }

  /** An order is consistent when its total is the total of its lines. */
  predicate OrderConsistent(o: Order)
  {
    o.total == Total(o.items)
  }

  /** The order `placeOrder` builds: id `new Date().getTime().toString()`
      from the clock reading `stamp`, createdAt `Date.now()` from the
      reading `now`, no notes (the cart panel passes only a name). */
  function MakeOrder(cart: seq<CartItem>, customerName: string, stamp: nat, now: int): (o: Order)
    ensures o.id == DecimalString(stamp) && ParseDecimal(o.id) == stamp
    ensures o.status == Pending && o.items == cart && o.notes == None
    ensures o.customerName == customerName && o.createdAt == now
    ensures OrderConsistent(o)
  {
    ParseDecimalString(stamp);
    Order(DecimalString(stamp), customerName, cart, Total(cart), Pending, now, None)
  }

  /** Orders placed at different clock readings get different ids. */
  lemma MakeOrderIdsDistinct(cart1: seq<CartItem>, name1: string, stamp1: nat, now1: int,
                             cart2: seq<CartItem>, name2: string, stamp2: nat, now2: int)
    requires stamp1 != stamp2
    ensures MakeOrder(cart1, name1, stamp1, now1).id != MakeOrder(cart2, name2, stamp2, now2).id
  {
    DecimalStringInjective(stamp1, stamp2);
  }

  /** The index of the first order with this id (`Array.prototype.find`). */
  function FirstIndexOf(orders: seq<Order>, id: string): (k: Option<nat>)
    ensures k.Some? ==> k.value < |orders| && orders[k.value].id == id
    ensures k.Some? ==> forall j :: 0 <= j < k.value ==> orders[j].id != id
    ensures k.None? ==> forall j :: 0 <= j < |orders| ==> orders[j].id != id
  {
    if orders == [] then None
    else if orders[0].id == id then Some(0)
    else match FirstIndexOf(orders[1..], id)
      case None => None
      case Some(k) => Some(k + 1)
  }

  /** `orders.find(o => o.id === lastOrder?.id)`: with no last order the
      id is `undefined`, which no (string) order id equals. */
  function TrackedOrder(orders: seq<Order>, lastOrder: Option<Order>): (r: Option<Order>)
    ensures lastOrder.None? ==> r.None?
    ensures r.Some? ==> r.value.id == lastOrder.value.id
    ensures r.Some? ==> exists k :: 0 <= k < |orders| && orders[k] == r.value
                                   && forall j :: 0 <= j < k ==> orders[j].id != r.value.id
    ensures lastOrder.Some? && r.None? ==> forall j :: 0 <= j < |orders| ==> orders[j].id != lastOrder.value.id
  {
    match lastOrder
    case None => None
    case Some(last) =>
      match FirstIndexOf(orders, last.id)
      case None => None
      case Some(k) => Some(orders[k])
  }

  /** A tracked order is the stored copy of the last order: same id, and
      found whenever some stored order has that id. */
  lemma TrackedOrderFound(orders: seq<Order>, last: Order)
    ensures (exists i :: 0 <= i < |orders| && orders[i].id == last.id)
        <==> TrackedOrder(orders, Some(last)).Some?
    ensures TrackedOrder(orders, Some(last)).Some? ==>
              TrackedOrder(orders, Some(last)).value in orders
              && TrackedOrder(orders, Some(last)).value.id == last.id
  {
  }

  /** The category tabs: 'All' or one category. */
  datatype CategoryFilter = All | Only(category: Category)

  /** The filter's test on one menu item. */
  function Shows(filter: CategoryFilter): (p: MenuItem -> bool)
    ensures filter.All? ==> forall m :: p(m)
    ensures filter.Only? ==> forall m :: p(m) <==> m.category == filter.category
  {
    (m: MenuItem) => filter.All? || m.category == filter.category
  }

  /** `filteredItems`: the menu items the tab shows, in menu order. */
  function FilteredItems(menu: seq<MenuItem>, filter: CategoryFilter): (r: seq<MenuItem>)
    ensures filter.All? ==> r == menu
    ensures filter.Only? ==>
      && (forall i :: 0 <= i < |r| ==> r[i] in menu && r[i].category == filter.category)
      && (forall i :: 0 <= i < |menu| && menu[i].category == filter.category ==> menu[i] in r)
  {
    if filter.All? then FilterKeepsAll(menu, Shows(filter)); Filter(menu, Shows(filter))
    else Filter(menu, Shows(filter))
  }

  /** Filtering keeps menu order: a tab shows the items of a menu's first
      part before those of the rest. */
  lemma FilteredItemsConcat(a: seq<MenuItem>, b: seq<MenuItem>, filter: CategoryFilter)
    ensures FilteredItems(a + b, filter) == FilteredItems(a, filter) + FilteredItems(b, filter)
  {
    FilterConcat(a, b, Shows(filter));
  }

  /** The Coffee and Dessert tabs together show every menu item exactly once. */
  lemma CategoryTabsSplitMenu(menu: seq<MenuItem>)
    ensures multiset(FilteredItems(menu, Only(Coffee))) + multiset(FilteredItems(menu, Only(Dessert)))
         == multiset(menu)
  {
    FilterSplit(menu, Shows(Only(Coffee)), Shows(Only(Dessert)));
  }
}
