/** The application state (App.tsx) together with the customer screen's
    own state (views/CustomerView.tsx), and the handlers that connect the
    panels to it. */
module App {
  import opened Types
  import opened Text
  import opened Seqs
  import opened Cart
  import opened CustomerView
  import opened OrderCard
  import opened AdminView
  import opened AdminMenuManager
  import opened Constants

  /** `addOrder`: the new order goes to the front of the list. */
  function AddOrder(orders: seq<Order>, order: Order): (r: seq<Order>)
    ensures |r| == |orders| + 1 && r[0] == order && r[1..] == orders
  {
    [order] + orders
  }

  /** Right after an order is added the status modal finds it, even if an
      older order had the same id, because the lookup takes the first match. */
  lemma NewOrderIsTracked(orders: seq<Order>, order: Order)
    ensures TrackedOrder(AddOrder(orders, order), Some(order)) == Some(order)
  {
    var r := AddOrder(orders, order);
    assert FirstIndexOf(r, order.id) == Some(0);
  }

  /** The state of the running app. */
  class Cafe {
    var role: Role
    var menu: seq<MenuItem>
    var orders: seq<Order>
    var cart: seq<CartItem>
    var filter: CategoryFilter
    var isModalOpen: bool
    var lastOrder: Option<Order>

    /** What every handler keeps: one cart line per item with quantity at
        least 1, every order's total equal to its lines' total, and the
        last placed order still in the list, so the modal always finds it;
        while the staff screen is shown the customer screen's own state
        is at its initial values. */
    ghost predicate Valid()
      reads this
    {
      && CartValid(cart)
      && (forall i :: 0 <= i < |orders| ==> OrderConsistent(orders[i]))
      && (lastOrder.Some? ==> exists i :: 0 <= i < |orders| && orders[i].id == lastOrder.value.id)
      && (role == Admin ==> filter == All && !isModalOpen && lastOrder.None?)
    }

    /** First start with empty storage: the customer role, the seed menu,
        no orders, an empty cart, the 'All' tab, no modal. */
    constructor ()
      ensures Valid()
      ensures role == Customer && menu == InitialMenuItems && orders == [] && cart == []
      ensures filter == All && !isModalOpen && lastOrder.None?
    {
      role := Customer;
      menu := InitialMenuItems;
      orders := [];
      cart := [];
      filter := All;
      isModalOpen := false;
      lastOrder := None;
    }

    /** The header's role switch. Switching to the staff screen unmounts
        the customer screen, whose tab, modal and tracked order start over
        when it comes back; the cart is the app's and survives. */
    method SetRole(r: Role)
      requires Valid()
      modifies this
      ensures Valid() && role == r
      ensures menu == old(menu) && orders == old(orders) && cart == old(cart)
      ensures r == Customer ==>
        filter == old(filter) && isModalOpen == old(isModalOpen) && lastOrder == old(lastOrder)
      ensures r == Admin ==> filter == All && !isModalOpen && lastOrder.None?
    {
      role := r;
      if r == Admin {
        filter := All;
        isModalOpen := false;
        lastOrder := None;
      }
    }

    /** A category tab. */
    method SetFilter(f: CategoryFilter)
      requires Valid() && role == Customer
      modifies this
      ensures Valid() && filter == f
      ensures role == old(role) && menu == old(menu) && orders == old(orders) && cart == old(cart)
      ensures isModalOpen == old(isModalOpen) && lastOrder == old(lastOrder)
    {
      filter := f;
    }

    /** A menu card's add button. */
    method AddToCart(item: MenuItem)
      requires Valid()
      modifies this
      ensures Valid() && cart == CustomerView.AddToCart(old(cart), item)
      ensures role == old(role) && menu == old(menu) && orders == old(orders)
      ensures filter == old(filter) && isModalOpen == old(isModalOpen) && lastOrder == old(lastOrder)
    {
      AddToCartKeepsValid(cart, item);
      cart := CustomerView.AddToCart(cart, item);
    }

    /** The cart's quantity buttons and its remove button (quantity 0). */
    method UpdateCartQuantity(id: int, quantity: int)
      requires Valid()
      modifies this
      ensures Valid() && cart == CustomerView.UpdateCartQuantity(old(cart), id, quantity)
      ensures role == old(role) && menu == old(menu) && orders == old(orders)
      ensures filter == old(filter) && isModalOpen == old(isModalOpen) && lastOrder == old(lastOrder)
    {
      UpdateCartQuantityKeepsValid(cart, id, quantity);
      cart := CustomerView.UpdateCartQuantity(cart, id, quantity);
    }

    /** `placeOrder`, given the two clock readings: the order built from
        the cart goes to the front of the list and becomes the tracked
        order, the cart empties and the modal opens. It checks nothing
        itself; the cart panel's guard is the only check. */
    method PlaceOrder(customerName: string, stamp: nat, now: int)
      requires Valid() && role == Customer
      modifies this
      ensures Valid()
      ensures var o := MakeOrder(old(cart), customerName, stamp, now);
        orders == AddOrder(old(orders), o) && lastOrder == Some(o)
      ensures cart == [] && isModalOpen
      ensures role == old(role) && menu == old(menu) && filter == old(filter)
    {
      var o := MakeOrder(cart, customerName, stamp, now);
      orders := AddOrder(orders, o);
      lastOrder := Some(o);
      cart := [];
      isModalOpen := true;
      assert orders[0].id == o.id;
    }

    /** The modal's close button; the tracked order stays. */
    method CloseModal()
      requires Valid() && role == Customer
      modifies this
      ensures Valid() && !isModalOpen
      ensures role == old(role) && menu == old(menu) && orders == old(orders) && cart == old(cart)
      ensures filter == old(filter) && lastOrder == old(lastOrder)
    {
      isModalOpen := false;
    }

    /** The staff's status change. The customer's tracked order keeps its
        id, so the modal still finds it and shows the new status. */
    method UpdateOrderStatus(id: string, status: Status)
      requires Valid()
      modifies this
      ensures Valid() && orders == AdminView.UpdateOrderStatus(old(orders), id, status)
      ensures role == old(role) && menu == old(menu) && cart == old(cart)
      ensures filter == old(filter) && isModalOpen == old(isModalOpen) && lastOrder == old(lastOrder)
    {
      var r := AdminView.UpdateOrderStatus(orders, id, status);
      UpdateOrderStatusKeepsConsistent(orders, id, status);
      assert forall i :: 0 <= i < |r| ==> r[i] in r;
      if lastOrder.Some? {
        var k :| 0 <= k < |orders| && orders[k].id == lastOrder.value.id;
        assert r[k].id == lastOrder.value.id;
      }
      orders := r;
    }

    /** The menu editor's add, with the clock reading as the new id. */
    method AddMenuItem(draft: Draft, now: int)
      requires Valid()
      modifies this
      ensures Valid() && menu == AdminView.AddMenuItem(old(menu), draft, now)
      ensures role == old(role) && orders == old(orders) && cart == old(cart)
      ensures filter == old(filter) && isModalOpen == old(isModalOpen) && lastOrder == old(lastOrder)
    {
      menu := AdminView.AddMenuItem(menu, draft, now);
    }

    /** The menu editor's save. Cart lines are copies: editing a menu item
        does not change the price of a line already in the cart. */
    method UpdateMenuItem(item: MenuItem)
      requires Valid()
      modifies this
      ensures Valid() && menu == AdminView.UpdateMenuItem(old(menu), item)
      ensures role == old(role) && orders == old(orders) && cart == old(cart)
      ensures filter == old(filter) && isModalOpen == old(isModalOpen) && lastOrder == old(lastOrder)
    {
      menu := AdminView.UpdateMenuItem(menu, item);
    }

    /** The menu editor's delete. A cart line for the deleted item stays. */
    method DeleteMenuItem(id: int)
      requires Valid()
      modifies this
      ensures Valid() && menu == AdminView.DeleteMenuItem(old(menu), id)
      ensures role == old(role) && orders == old(orders) && cart == old(cart)
      ensures filter == old(filter) && isModalOpen == old(isModalOpen) && lastOrder == old(lastOrder)
    {
      menu := AdminView.DeleteMenuItem(menu, id);
    }
  }

  /** The cart panel's place-order button wired to `placeOrder`. A click
      reaches `handlePlaceOrder` only while the button is enabled, so an
      order is added exactly when the guard holds and no order is being
      placed; it carries the typed name and the cart's lines, becomes the
      tracked order and opens the modal. Any other click changes nothing. */
  method PlaceOrderClicked(cafe: Cafe, panel: CartPanel, stamp: nat, now: int)
    requires cafe.Valid() && cafe.role == Customer
    modifies cafe, panel
    ensures cafe.Valid()
    ensures cafe.role == old(cafe.role) && cafe.menu == old(cafe.menu) && cafe.filter == old(cafe.filter)
    ensures panel.customerName == old(panel.customerName)
    ensures CanPlaceOrder(old(panel.customerName), old(cafe.cart)) && !old(panel.isOrdering) ==>
      var o := MakeOrder(old(cafe.cart), old(panel.customerName), stamp, now);
      && cafe.orders == AddOrder(old(cafe.orders), o) && cafe.lastOrder == Some(o)
      && cafe.cart == [] && cafe.isModalOpen && panel.isOrdering
    ensures !(CanPlaceOrder(old(panel.customerName), old(cafe.cart)) && !old(panel.isOrdering)) ==>
      && cafe.orders == old(cafe.orders) && cafe.cart == old(cafe.cart)
      && cafe.isModalOpen == old(cafe.isModalOpen) && cafe.lastOrder == old(cafe.lastOrder)
      && panel.isOrdering == old(panel.isOrdering)
  {
    if !PlaceButtonDisabled(panel.customerName, cafe.cart, panel.isOrdering) {
      var placed := panel.HandlePlaceOrder(cafe.cart);
      if placed.Some? {
        cafe.PlaceOrder(placed.value, stamp, now);
      }
    }
  }

  /** An order card's button wired to `updateOrderStatus`: the order moves
      one step along the pipeline, or nothing happens when it has no next
      step. Only the order list changes. */
  method CardButtonClicked(cafe: Cafe, o: Order)
    requires cafe.Valid()
    modifies cafe
    ensures cafe.Valid()
    ensures Next(o.status).None? ==> cafe.orders == old(cafe.orders)
    ensures Next(o.status).Some? ==>
      cafe.orders == AdminView.UpdateOrderStatus(old(cafe.orders), o.id, Next(o.status).value)
    ensures cafe.role == old(cafe.role) && cafe.menu == old(cafe.menu) && cafe.cart == old(cafe.cart)
    ensures cafe.filter == old(cafe.filter) && cafe.isModalOpen == old(cafe.isModalOpen)
    ensures cafe.lastOrder == old(cafe.lastOrder)
  {
    var action := CardAction(o);
    if action.Some? {
      cafe.UpdateOrderStatus(action.value.orderId, action.value.status);
    }
  }

  /** The menu editor's "Add Item" button wired to `addMenuItem`. The
      button exists only while the form is open; then the menu grows by the
      draft exactly when the form's check accepts it, and the form is reset
      and closed. A refused draft or a hidden form changes nothing. */
  method AddItemClicked(cafe: Cafe, manager: MenuManager, now: int)
    requires cafe.Valid()
    modifies cafe, manager
    ensures cafe.Valid()
    ensures old(manager.isAdding) && DraftAccepted(old(manager.newItem)) ==>
      && cafe.menu == AdminView.AddMenuItem(old(cafe.menu), old(manager.newItem), now)
      && manager.newItem == ResetDraft && !manager.isAdding
    ensures !(old(manager.isAdding) && DraftAccepted(old(manager.newItem))) ==>
      && cafe.menu == old(cafe.menu)
      && manager.newItem == old(manager.newItem) && manager.isAdding == old(manager.isAdding)
    ensures manager.editingItem == old(manager.editingItem)
    ensures cafe.role == old(cafe.role) && cafe.orders == old(cafe.orders) && cafe.cart == old(cafe.cart)
    ensures cafe.filter == old(cafe.filter) && cafe.isModalOpen == old(cafe.isModalOpen)
    ensures cafe.lastOrder == old(cafe.lastOrder)
  {
    if manager.isAdding {
      var added := manager.HandleAdd();
      if added.Some? {
        cafe.AddMenuItem(added.value, now);
      }
    }
  }

  /** The editor's Save button wired to `updateMenuItem`: the edited item,
      if any, replaces the menu item with its id, and the editor closes. */
  method SaveClicked(cafe: Cafe, manager: MenuManager)
    requires cafe.Valid()
    modifies cafe, manager
    ensures cafe.Valid() && manager.editingItem.None?
    ensures old(manager.editingItem).Some? ==>
      cafe.menu == AdminView.UpdateMenuItem(old(cafe.menu), old(manager.editingItem).value)
    ensures old(manager.editingItem).None? ==> cafe.menu == old(cafe.menu)
    ensures manager.isAdding == old(manager.isAdding) && manager.newItem == old(manager.newItem)
    ensures cafe.role == old(cafe.role) && cafe.orders == old(cafe.orders) && cafe.cart == old(cafe.cart)
    ensures cafe.filter == old(cafe.filter) && cafe.isModalOpen == old(cafe.isModalOpen)
    ensures cafe.lastOrder == old(cafe.lastOrder)
  {
    var updated := manager.HandleUpdate();
    if updated.Some? {
      cafe.UpdateMenuItem(updated.value);
    }
  }

  /** An item's Delete button passes that item's own id to
      `deleteMenuItem`. The row of the item being edited shows Save and
      Cancel instead, so a click there changes nothing; elsewhere every
      item with that id goes, which on a menu with distinct ids is exactly
      the clicked item. */
  method DeleteClicked(cafe: Cafe, manager: MenuManager, i: nat)
    requires cafe.Valid() && i < |cafe.menu|
    modifies cafe
    ensures cafe.Valid()
    ensures RowInEditor(manager.editingItem, old(cafe.menu[i])) ==> cafe.menu == old(cafe.menu)
    ensures !RowInEditor(manager.editingItem, old(cafe.menu[i])) ==>
      && cafe.menu == AdminView.DeleteMenuItem(old(cafe.menu), old(cafe.menu[i].id))
      && (KeysDistinct(old(cafe.menu), MenuId) ==>
            cafe.menu == old(cafe.menu[..i] + cafe.menu[i + 1..]) && KeysDistinct(cafe.menu, MenuId))
    ensures cafe.role == old(cafe.role) && cafe.orders == old(cafe.orders) && cafe.cart == old(cafe.cart)
    ensures cafe.filter == old(cafe.filter) && cafe.isModalOpen == old(cafe.isModalOpen)
    ensures cafe.lastOrder == old(cafe.lastOrder)
  {
    if !RowInEditor(manager.editingItem, cafe.menu[i]) {
      if KeysDistinct(cafe.menu, MenuId) {
        DeleteButtonRemovesItem(cafe.menu, i);
      }
      cafe.DeleteMenuItem(cafe.menu[i].id);
    }
  }

  /** Clicking Place Order twice within the one-second reset places one
      order, even when an item is added in between: the second click finds
      the button disabled. */
  method SecondClickIgnored(name: string, item: MenuItem, stamp1: nat, stamp2: nat, now: int)
    returns (placed: nat)
    requires !IsBlank(name)
    ensures placed == 1
  {
    var cafe := new Cafe();
    var panel := new CartPanel();
    panel.TypeName(name);
    cafe.AddToCart(item);
    PlaceOrderClicked(cafe, panel, stamp1, now);
    cafe.AddToCart(item);
    PlaceOrderClicked(cafe, panel, stamp2, now);
    placed := |cafe.orders|;
  }
}
