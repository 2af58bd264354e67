/** The seed catalog (constants.ts), with prices in cents. */
module Constants {
  import opened Types
  import opened Seqs
  import opened Cart
  import opened CustomerView
  import opened AdminView
  import opened AdminMenuManager

  /** `INITIAL_MENU_ITEMS`: five coffees (ids 1 to 5) and five desserts
      (ids 6 to 10). */
  const InitialMenuItems: seq<MenuItem> := [
    MenuItem(1, "Espresso", Coffee, 300, "https://picsum.photos/id/225/400/300"),
    MenuItem(2, "Latte", Coffee, 450, "https://picsum.photos/id/305/400/300"),
    MenuItem(3, "Cappuccino", Coffee, 425, "https://picsum.photos/id/326/400/300"),
    MenuItem(4, "Americano", Coffee, 350, "https://picsum.photos/id/431/400/300"),
    MenuItem(5, "Mocha", Coffee, 500, "https://picsum.photos/id/488/400/300"),
    MenuItem(6, "Croissant", Dessert, 375, "https://picsum.photos/id/368/400/300"),
    MenuItem(7, "Chocolate Cake", Dessert, 550, "https://picsum.photos/id/1074/400/300"),
    MenuItem(8, "Cheesecake", Dessert, 600, "https://picsum.photos/id/0/400/300"),
    MenuItem(9, "Macarons", Dessert, 250, "https://picsum.photos/id/163/400/300"),
    MenuItem(10, "Tiramisu", Dessert, 625, "https://picsum.photos/id/21/400/300")
  ]

  /** The seed ids run 1 to 10 in order, so they are distinct; the first
      five items are coffees and the rest desserts; every seed item would
      pass the add form's check. */
  lemma SeedCatalogWellFormed()
    ensures |InitialMenuItems| == 10
    ensures forall i :: 0 <= i < |InitialMenuItems| ==> InitialMenuItems[i].id == i + 1
    ensures KeysDistinct(InitialMenuItems, MenuId)
    ensures forall i :: 0 <= i < |InitialMenuItems| ==>
              InitialMenuItems[i].category == (if i < 5 then Coffee else Dessert)
    ensures forall i :: 0 <= i < |InitialMenuItems| ==> DraftAccepted(AsDraft(InitialMenuItems[i]))
  {
    var m := InitialMenuItems;
    assert forall i :: 0 <= i < |m| ==> m[i].id == i + 1;
  }

  /** Two lattes added from the seed menu make a 9.00 (900 cent) cart. */
  lemma TwoLattes()
    ensures InitialMenuItems[1].name == "Latte" && InitialMenuItems[1].price == 450
    ensures Total(AddToCart(AddToCart([], InitialMenuItems[1]), InitialMenuItems[1])) == 900
  {
    AddTwiceToEmpty(InitialMenuItems[1]);
  }

  /** Adding the same item twice to an empty cart gives one line of
      quantity two, costing twice the price. */
  lemma AddTwiceToEmpty(item: MenuItem)
    ensures AddToCart(AddToCart([], item), item) == [WithQuantity(item, 2)]
    ensures Total(AddToCart(AddToCart([], item), item)) == 2 * item.price
  {
    var once := AddToCart([], item);
    assert once == [WithQuantity(item, 1)];
    assert InCart(once, item.id) by { assert once[0].id == item.id; }
    var twice := AddToCart(once, item);
    assert |twice| == 1 && twice[0] == WithQuantity(item, 2);
    assert twice == [WithQuantity(item, 2)];
    TotalSingle(WithQuantity(item, 2));
  }
}
