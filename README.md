# CafeOrder state logic in Dafny

CafeOrder is a small React café app. Customers pick coffees and desserts
from a menu into a cart, type their name and place an order. Staff move
each order along the pipeline Pending, In Progress, Ready, Completed and
manage the menu. This project models the in-memory state logic behind
those screens and proves properties of it:

- the cart engine: merge-or-append, set or remove a quantity, the total,
  and the place-order guard;
- the order list: order creation, prepending, the status write and the
  forward transition table;
- the customer's progress tracker;
- menu add, update and delete, with the add form's check and the inline
  editor;
- the seed catalog;
- the derived views: the category tabs, the tracked order, the
  active/completed lists with their sorts and the cap of four, and the
  newest-first list of the mobile screen.

Money is integer cents, so the seed price 4.50 is 450. Clock readings are
parameters. The React state of the app (`role`, `menu`, `orders`,
`cart`) and of the customer screen (`filter`, `isModalOpen`,
`lastOrder`) is the class `App.Cafe`. The cart panel's local state is
`Cart.CartPanel`, and the menu editor's is `AdminMenuManager.MenuManager`.
A callback such as `onPlaceOrder` or `onAdd` is an out-parameter of the
handler method. Module `App` holds the methods that wire a handler to the
app state.

Files, one module each:

| file | module | models |
|---|---|---|
| types.dfy | Types | types.ts |
| text.dfy | Text | `String.prototype.trim`, `Number.prototype.toString` |
| seqs.dfy | Seqs | `Array.prototype.filter`, stable `Array.prototype.sort`, `slice` |
| cart.dfy | Cart | components/Cart.tsx |
| customer_view.dfy | CustomerView | views/CustomerView.tsx |
| order_status_tracker.dfy | OrderStatusTracker | components/OrderStatusTracker.tsx |
| order_card.dfy | OrderCard | components/OrderCard.tsx |
| admin_view.dfy | AdminView | views/AdminView.tsx |
| mobile_orders_view.dfy | MobileOrdersView | views/customer/MobileOrdersView.tsx |
| admin_menu_manager.dfy | AdminMenuManager | components/AdminMenuManager.tsx |
| constants.dfy | Constants | constants.ts |
| app.dfy | App | App.tsx and the state slots of views/CustomerView.tsx |

A few behaviours of the code are worth stating up front; the model
follows them:

- The staff's active list keeps every order that is not Completed
  (views/AdminView.tsx:42), so Cancelled orders are active.
- Only the first four completed orders are shown
  (views/AdminView.tsx:80).
- `updateOrderStatus` writes whatever status it is given, backwards
  included (views/AdminView.tsx:26).
- The cart panel calls `onPlaceOrder` with the name only
  (components/Cart.tsx:20), so an order's `notes` is never set.

## Model

| member | source | states |
|---|---|---|
| Types.WithQuantity | types.ts:28-30 | a cart line carries every menu item field unchanged, plus the given quantity |
| Types.WithId | views/AdminView.tsx:30 | the new menu item has the given id and otherwise exactly the draft's fields |
| Text.TrimStart | components/Cart.tsx:18 | the result is a suffix of the input; it starts with a non-space; every dropped character is white space |
| Text.TrimEnd | components/Cart.tsx:18 | the result is a prefix of the input; it ends with a non-space; every dropped character is white space |
| Text.Trim | components/Cart.tsx:18 | `trim()` is no longer than its input, neither starts nor ends with white space, and is empty (falsy) exactly when every character is ECMAScript white space |
| Text.TrimEmptyIffBlank | components/Cart.tsx:18 | stripping the start and then the end leaves nothing exactly when every character is ECMAScript white space |
| Text.DecimalString | views/CustomerView.tsx:45 | `getTime().toString()` is a non-empty string of decimal digits without a leading zero |
| Text.ParseDecimalString | views/CustomerView.tsx:45 | reading the printed id back gives the timestamp |
| Text.DecimalStringInjective | views/CustomerView.tsx:45 | distinct timestamps give distinct order ids |
| Seqs.Filter | views/AdminView.tsx:42-43 | `filter` keeps exactly the elements that pass, and no more elements than it was given |
| Seqs.FilterConcat | views/CustomerView.tsx:37 | filtering keeps the relative order of the kept elements |
| Seqs.FilterSplit | views/AdminView.tsx:42-43 | a predicate and its negation split a list; every element lands in exactly one part |
| Seqs.FilterKeysDistinct | views/AdminView.tsx:39 | filtering never makes two elements share an id |
| Seqs.Insert | views/AdminView.tsx:42 | inserting into a sorted list keeps it sorted and adds exactly that element |
| Seqs.SortBy | views/AdminView.tsx:42-43 | the sort's result is sorted by the key and is a permutation of its input |
| Seqs.SortByStable | views/AdminView.tsx:42-43 | elements with equal keys keep their input order, as the stable `Array.prototype.sort` requires |
| Seqs.StableSortIsSortBy | views/customer/MobileOrdersView.tsx:11 | any sorted, stable permutation is exactly `SortBy`'s result, so the model gives what the browser's sort gives |
| Seqs.Take | views/AdminView.tsx:80 | `slice(0, n)` is the first min(n, length) elements |
| Seqs.SortedFilter | views/AdminView.tsx:42-43 | `filter` then `sort`: a permutation of the filter's result whose elements all come from the input and pass, in ascending key order |
| Cart.Line | components/Cart.tsx:15 | a line of one unit costs the unit price; a line of quantity 0 costs nothing |
| Cart.TotalNonNegative | components/Cart.tsx:15 | when no line has a negative amount, the total is not negative |
| Cart.TotalAppend | views/CustomerView.tsx:48 | the fold adds the last line's amount to the total of the lines before it |
| Cart.TotalConcat | components/Cart.tsx:15 | the total of two carts laid end to end is the sum of their totals |
| Cart.TotalSingle | components/Cart.tsx:15 | a one-line cart totals price times quantity of that line |
| Cart.TotalWithout | components/Cart.tsx:15 | taking one line out removes its amount from the total |
| Cart.TotalReplace | components/Cart.tsx:15 | replacing a line changes the total by the difference of the two amounts |
| Cart.TotalPermutation | components/Cart.tsx:15 | with integer money, reordering the cart leaves the total unchanged |
| Cart.CanPlaceOrder | components/Cart.tsx:18 | the guard holds exactly when the name has a non-space character and the cart has a line |
| Cart.PlaceButtonDisabled | components/Cart.tsx:73 | the button is disabled exactly when the name is blank, the cart is empty or an order is in flight; enabled implies the guard holds |
| Cart.CartPanel.constructor | components/Cart.tsx:12-13 | the panel starts with an empty name and not ordering |
| Cart.CartPanel.TypeName | components/Cart.tsx:66 | typing sets the name and nothing else |
| Cart.CartPanel.HandlePlaceOrder | components/Cart.tsx:17-26 | the untrimmed name goes to `onPlaceOrder` exactly when the guard holds, and then the panel is ordering; the handler does not look at `isOrdering`; otherwise nothing changes |
| Cart.CartPanel.OrderTimerFires | components/Cart.tsx:21-24 | the timer clears the name and the ordering flag |
| CustomerView.InCartIffRemoveChanges | views/CustomerView.tsx:25 | the `find` test holds exactly when removing that id would change the cart |
| CustomerView.AddToCart | views/CustomerView.tsx:23-33 | a line with the item's id gains exactly one; nothing else changes and the length and order stay; an item not in the cart is appended with quantity 1 |
| CustomerView.UpdateCartQuantity | views/CustomerView.tsx:35-41 | a quantity of 0 or less removes exactly the lines with that id; a positive one becomes their quantity (set, not added) with nothing else changed; an absent id is a no-op |
| CustomerView.UpdateCartQuantityConcat | views/CustomerView.tsx:36-39 | both branches work line by line, so the remaining lines keep their relative order |
| CustomerView.AddToCartKeepsValid | views/CustomerView.tsx:25-31 | adding keeps one line per id and every quantity at least 1 |
| CustomerView.UpdateCartQuantityKeepsValid | views/CustomerView.tsx:35-41 | updating keeps one line per id and every quantity at least 1 |
| CustomerView.LastQuantityWins | views/CustomerView.tsx:38-39 | a positive quantity followed by another quantity has the effect of the second alone |
| CustomerView.RemoveAfterSet | views/CustomerView.tsx:36-39 | removing after setting a quantity leaves the same cart as removing alone |
| CustomerView.AddExistingReplacesLine | views/CustomerView.tsx:26-29 | in a cart with distinct ids, adding an item already present bumps exactly that line |
| CustomerView.LineOneMore | views/CustomerView.tsx:28 | one more unit adds the item's price to the line's amount |
| CustomerView.AddToCartTotal | views/CustomerView.tsx:23-33 | appending raises the total by the item's price; merging raises it by the price stored in the existing line, which a later menu edit does not change |
| CustomerView.AddExistingTotal | views/CustomerView.tsx:26-29 | adding an item already in a cart with distinct ids raises the total by that line's price |
| CustomerView.RemoveUniqueLine | views/CustomerView.tsx:37 | in a cart with distinct ids, removing one id takes out exactly that line |
| CustomerView.RemoveButtonRemovesLine | components/Cart.tsx:50 | the × button (quantity 0) removes the line and its amount from the total |
| CustomerView.MakeOrder | views/CustomerView.tsx:43-51 | the new order's id is the clock reading in decimal, which reads back to that reading; it is Pending, holds the cart's lines, has the cart's total, the given name and time, and no notes |
| CustomerView.MakeOrderIdsDistinct | views/CustomerView.tsx:45 | orders made at distinct timestamps get distinct ids |
| CustomerView.FirstIndexOf | views/CustomerView.tsx:58 | `find` returns the first order with the id, or none when there is none |
| CustomerView.TrackedOrder | views/CustomerView.tsx:58 | a tracked order has the last order's id and is in the list with no earlier order sharing that id; none is found only when no order has the id or there is no last order |
| CustomerView.TrackedOrderFound | views/CustomerView.tsx:58 | the lookup succeeds exactly when some order has the last order's id |
| CustomerView.Shows | views/CustomerView.tsx:60 | the 'All' test passes every item; a category's test passes exactly that category's items |
| CustomerView.FilteredItems | views/CustomerView.tsx:60 | the 'All' tab shows the whole menu; a category tab shows exactly that category's items |
| CustomerView.FilteredItemsConcat | views/CustomerView.tsx:60 | a tab keeps menu order |
| CustomerView.CategoryTabsSplitMenu | views/CustomerView.tsx:60 | the Coffee and Dessert tabs together show every menu item exactly once |
| OrderStatusTracker.FindIndexFrom | components/OrderStatusTracker.tsx:31 | `findIndex` gives the first matching position, or -1 when the status is not there |
| OrderStatusTracker.StepIndex | components/OrderStatusTracker.tsx:13-18 | the steps are Pending, In Progress, Ready, Completed at 0 to 3; Cancelled is not a step |
| OrderStatusTracker.FindIndexIsStepIndex | components/OrderStatusTracker.tsx:31 | `findIndex` over the steps gives the pipeline position, and -1 for Cancelled |
| OrderStatusTracker.Tracker | components/OrderStatusTracker.tsx:21-38 | Cancelled gets its own notice; otherwise there are four steps and a step is current exactly when it is the status |
| OrderStatusTracker.TrackerSteps | components/OrderStatusTracker.tsx:31-38 | exactly one step is current; the completed steps are those below it and there are as many as its index; none is both |
| OrderStatusTracker.TrackerAtCompleted | components/OrderStatusTracker.tsx:13-18 | for Completed the first three steps are completed and the last is current |
| OrderCard.StatusConfig | components/OrderCard.tsx:10-27 | the table has an entry for every status except Cancelled |
| OrderCard.Next | components/OrderCard.tsx:10-27 | Completed and Cancelled have no next status; every other move goes one step forward and never to Pending |
| OrderCard.AdvanceIndex | components/OrderCard.tsx:10-27 | n moves add n to the pipeline position |
| OrderCard.NoCycle | components/OrderCard.tsx:10-27 | no status comes back to itself |
| OrderCard.PipelineFromPending | components/OrderCard.tsx:10-27 | from Pending the chain runs exactly three moves, ending at Completed |
| OrderCard.AdvancePrefix | components/OrderCard.tsx:10-27 | if n moves are possible, so are fewer |
| OrderCard.CardAction | components/OrderCard.tsx:56-63 | the button exists exactly when a next status does, and sends the order's id with that status |
| OrderCard.LineAmounts | components/OrderCard.tsx:48 | each displayed amount is the line's quantity times price |
| OrderCard.LineAmountsSum | components/OrderCard.tsx:48 | the displayed amounts add up to the cart total of the lines |
| AdminView.UpdateOrderStatus | views/AdminView.tsx:25-27 | orders with the id get the status; no other field and no other order changes; the length stays |
| AdminView.UpdateUnknownOrderIsNoOp | views/AdminView.tsx:26 | an unknown id changes nothing |
| AdminView.LastStatusWins | views/AdminView.tsx:26 | of two writes to one order only the last counts |
| AdminView.UpdateOrderStatusKeepsConsistent | views/AdminView.tsx:26 | a status write keeps every order's total equal to its lines' total |
| AdminView.BackwardMoveAccepted | views/AdminView.tsx:26 | a Completed order can be written back to Pending, a move the table never offers |
| AdminView.CardButtonAdvances | components/OrderCard.tsx:58 | the card button moves its order exactly one step forward |
| AdminView.AddMenuItem | views/AdminView.tsx:29-32 | the draft, with the clock reading as id, is appended; earlier items stay |
| AdminView.AddMenuItemKeepsIdsDistinct | views/AdminView.tsx:30 | if the clock reading is not already an id, menu ids stay distinct |
| AdminView.UpdateMenuItem | views/AdminView.tsx:34-36 | every item with the edited item's id is replaced by it; the others and the length stay |
| AdminView.UpdateUnknownItemIsNoOp | views/AdminView.tsx:35 | an item whose id is not on the menu changes nothing |
| AdminView.UpdateMenuItemKeepsIds | views/AdminView.tsx:35 | every position keeps its id, so distinct ids stay distinct |
| AdminView.DeleteMenuItem | views/AdminView.tsx:38-40 | exactly the items with that id go; an absent id is a no-op |
| AdminView.DeleteMenuItemConcat | views/AdminView.tsx:39 | the remaining items keep their relative order |
| AdminView.DeleteButtonRemovesItem | components/AdminMenuManager.tsx:72 | the Delete button passes its own item's id, so on a menu with distinct ids exactly that item goes |
| AdminView.IsCompleted | views/AdminView.tsx:43 | an order is completed exactly when its status has no next step and is not Cancelled |
| AdminView.NotCompleted | views/AdminView.tsx:42 | the active list's test is the negation of the completed list's test |
| AdminView.ActiveOrders | views/AdminView.tsx:42 | the not-Completed orders (Cancelled included), as a permutation of the filter, oldest first |
| AdminView.CompletedOrders | views/AdminView.tsx:43 | the Completed orders, as a permutation of the filter, newest first |
| AdminView.ActiveAndCompletedPartition | views/AdminView.tsx:42-43 | the two lists hold every order exactly once; a Cancelled order is active |
| AdminView.OrderListsStable | views/AdminView.tsx:42-43 | orders with the same time keep their list order in both lists |
| AdminView.ShownCompleted | views/AdminView.tsx:80 | at most four completed orders are shown, the first of the sorted list, none older than one left out |
| MobileOrdersView.SortedOrders | views/customer/MobileOrdersView.tsx:11 | a newest-first permutation of the orders; the input list is a value and stays as it was |
| MobileOrdersView.SortedOrdersIsStableSort | views/customer/MobileOrdersView.tsx:11 | orders with the same time keep their order, and this is the only such sorted list |
| MobileOrdersView.OrdersScreen | views/customer/MobileOrdersView.tsx:16 | the empty notice is shown exactly when there are no orders; otherwise all of them are listed, newest first, as the sorted copy gives them |
| AdminMenuManager.FormNeedsFilling | components/AdminMenuManager.tsx:16-21 | the initial and the reset form are refused; a fresh form needs name, price and URL, a reset one only name and price |
| AdminMenuManager.MenuManager.constructor | components/AdminMenuManager.tsx:13-16 | not adding, not editing, empty draft |
| AdminMenuManager.MenuManager.ToggleAdding | components/AdminMenuManager.tsx:36 | the add form shows or hides; the draft stays |
| AdminMenuManager.MenuManager.EditNewName | components/AdminMenuManager.tsx:42 | sets the draft's name only |
| AdminMenuManager.MenuManager.EditNewCategory | components/AdminMenuManager.tsx:43 | sets the draft's category only |
| AdminMenuManager.MenuManager.EditNewPrice | components/AdminMenuManager.tsx:47 | sets the draft's price only |
| AdminMenuManager.MenuManager.EditNewImageUrl | components/AdminMenuManager.tsx:48 | sets the draft's image URL only |
| AdminMenuManager.MenuManager.HandleAdd | components/AdminMenuManager.tsx:18-24 | the draft goes to `onAdd` exactly when it passes the check, then the form resets with the placeholder URL and closes; a refused draft changes nothing |
| AdminMenuManager.MenuManager.StartEditing | components/AdminMenuManager.tsx:71 | the Edit button copies the item into the editor |
| AdminMenuManager.MenuManager.EditName | components/AdminMenuManager.tsx:58 | sets the edited item's name only |
| AdminMenuManager.MenuManager.EditPrice | components/AdminMenuManager.tsx:59 | sets the edited item's price only |
| AdminMenuManager.MenuManager.CancelEditing | components/AdminMenuManager.tsx:62 | the editor closes |
| AdminMenuManager.MenuManager.HandleUpdate | components/AdminMenuManager.tsx:26-31 | the edited item, if any, goes to `onUpdate` unchecked and the editor closes |
| AdminMenuManager.EditorSkipsCheck | components/AdminMenuManager.tsx:26-31 | an item saved from the editor with a zero price fails the check the add form applies |
| Constants.SeedCatalogWellFormed | constants.ts:4-75 | ten items with ids 1 to 10 (distinct), five coffees then five desserts, all passing the add form's check |
| Constants.TwoLattes | constants.ts:12-18 | the seed Latte costs 450 cents, and two of them added to an empty cart make a 900-cent cart |
| Constants.AddTwiceToEmpty | views/CustomerView.tsx:23-33 | adding one item twice to an empty cart gives a single line of quantity two costing twice the price |
| App.AddOrder | App.tsx:16-18 | the new order is first, followed by the old list unchanged; the length grows by one |
| App.NewOrderIsTracked | App.tsx:16-18 | right after adding, the tracked-order lookup finds the new order, even next to an older order with the same id |
| App.Cafe.constructor | App.tsx:11-14 | customer role, the seed menu, no orders, an empty cart, the 'All' tab, no modal, no last order |
| App.Cafe.SetRole | components/Header.tsx:22-29 | sets the role; leaving the customer screen resets its tab, modal and last order; the cart survives |
| App.Cafe.SetFilter | views/CustomerView.tsx:70 | sets the category tab only |
| App.Cafe.AddToCart | views/CustomerView.tsx:23-33 | the cart becomes `AddToCart` of the old cart; the invariant holds |
| App.Cafe.UpdateCartQuantity | views/CustomerView.tsx:35-41 | the cart becomes `UpdateCartQuantity` of the old cart; the invariant holds |
| App.Cafe.PlaceOrder | views/CustomerView.tsx:43-56 | the new order is prepended and becomes the last order; the cart empties; the modal opens; the invariant holds |
| App.Cafe.CloseModal | views/CustomerView.tsx:89 | the modal closes; the last order stays |
| App.Cafe.UpdateOrderStatus | views/AdminView.tsx:25-27 | the orders become `UpdateOrderStatus` of the old ones; the tracked order is still found |
| App.Cafe.AddMenuItem | views/AdminView.tsx:29-32 | the menu becomes `AddMenuItem` of the old menu |
| App.Cafe.UpdateMenuItem | views/AdminView.tsx:34-36 | the menu becomes `UpdateMenuItem` of the old menu; cart lines keep their old prices |
| App.Cafe.DeleteMenuItem | views/AdminView.tsx:38-40 | the menu becomes `DeleteMenuItem` of the old menu; a cart line for that item stays |
| App.PlaceOrderClicked | components/Cart.tsx:17-26 | a click reaches the handler only while the button is enabled (components/Cart.tsx:73): when the guard holds and no order is being placed, an order with the typed name and the cart's lines goes to the front, becomes the tracked order, the cart empties, the modal opens and the panel is busy; otherwise orders, cart, modal, tracked order and the busy flag stay; role, menu, tab and the typed name always stay |
| App.SecondClickIgnored | components/Cart.tsx:73 | two Place Order clicks within the one-second reset, with an item added in between, place exactly one order |
| App.CardButtonClicked | components/OrderCard.tsx:56-63 | the order moves to its next status, or nothing happens when it has none; only the order list changes |
| App.AddItemClicked | components/AdminMenuManager.tsx:18-24 | the button exists only while the form is open (:40-49); then the menu grows by the draft exactly when the form's check accepts it, and the form is reset and closed; a refused draft or a hidden form changes nothing; orders, cart and the customer screen's state stay |
| App.SaveClicked | components/AdminMenuManager.tsx:26-31 | the menu takes the edited item when one is being edited; the editor closes and the add form is untouched; orders, cart and the customer screen's state stay |
| App.DeleteClicked | components/AdminMenuManager.tsx:56-75 | the row being edited has no Delete button, so a click there changes nothing; elsewhere every item with the clicked item's id goes, which on a menu with distinct ids is exactly the clicked item, and ids stay distinct; nothing else in the app changes |

## Left out

- Rendering, styling and the Tailwind classes. The status badge colours
  are kept as strings in `OrderCard.StatusConfig`.
- Cancelled orders: `statusConfig` has no Cancelled entry, so an order
  card for a Cancelled order reads `.color` from `undefined` and throws
  while rendering. The model keeps the lookup as None; it does not model
  the exception.
- Persistence through `useLocalStorage`. The app starts from empty
  storage, so the stored role, menu and orders are the defaults.
- JavaScript numbers: money is integer cents and quantities are
  integers. Left out are amounts below one cent, and the binary
  floating-point rounding of the source's dollar prices, under which the
  `reduce` total can depend on the order of the lines;
  `Cart.TotalPermutation` holds because cents are exact integers.
- NaN from a cleared number box is not modelled. A cleared quantity box
  gives `parseInt('')`, which is NaN (components/Cart.tsx:47). Since
  `NaN <= 0` is false, `updateCartQuantity` sets the line's quantity to
  NaN (views/CustomerView.tsx:39), and the cart total becomes NaN. A
  cleared price box in the inline editor gives a NaN price
  (components/AdminMenuManager.tsx:59), and `handleUpdate` (:26-31)
  saves it into the menu unchecked. Only the add form's check (:19)
  refuses NaN, since `NaN > 0` is false.
- `Text.DecimalString`: `toString` of a timestamp of 10^21 or more uses
  exponent notation; that case is not modelled.
- Clocks: `Date.now()` and `getTime()` are parameters. The code does not
  make them unique. `AdminView.AddMenuItemKeepsIdsDistinct` and
  `CustomerView.MakeOrderIdsDistinct` take freshness as a precondition.
- Timers: only the cart panel's one-second reset is modelled, as
  `Cart.CartPanel.OrderTimerFires`, a step the caller takes. Its firing
  after the panel unmounts is not modelled.
- The cart panel's and the menu editor's local state are separate objects.
  They are not reset when the role switch unmounts them.
- `timeAgo` and `toLocaleString` on the cards, and `toFixed` display.
- The staff screen's Orders/Menu tab, and its `useEffect`, which does
  nothing.
- components/SortControl.tsx, components/BottomNavBar.tsx,
  components/MenuItemCard.tsx, components/Header.tsx beyond the role
  switch, hooks/useMediaQuery.ts and
  views/customer/MobilePaymentView.tsx. These are presentation, media
  queries or prop forwarding.
- The notes field of an order is in the data type but is never set.
