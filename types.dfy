/** The records and enumerations of the café app (types.ts).
    Money is held in integer cents; quantities are integers. */
module Types {

  datatype Option<+T> = None | Some(value: T)

  /** Who is using the app (types.ts, `Role`). */
  datatype Role = Customer | Admin

  /** The two menu categories (types.ts, `Category`). */
  datatype Category = Coffee | Dessert

  /** The five order states (types.ts, `OrderStatus`). */
  datatype Status = Pending | InProgress | Ready | Completed | Cancelled

  /** A purchasable item; `price` is in cents. */
  datatype MenuItem = MenuItem(id: int, name: string, category: Category, price: int, imageUrl: string)

  /** A cart line: every field of a MenuItem plus `quantity`. */
  datatype CartItem = CartItem(id: int, name: string, category: Category, price: int, imageUrl: string, quantity: int)

  /** A placed order. `id` is a string, unlike a menu item's numeric id; `notes` is optional. */
  datatype Order = Order(
    id: string,
    customerName: string,
    items: seq<CartItem>,
    total: int,
    status: Status,
    createdAt: int,
    notes: Option<string>)

  /** A menu item without its id (`Omit<MenuItem, 'id'>`): the admin's add form. */
  datatype Draft = Draft(name: string, category: Category, price: int, imageUrl: string)

  /** `{ ...item, quantity }`: spreads a menu item into a cart line. */
  function WithQuantity(item: MenuItem, quantity: int): (c: CartItem)
    ensures AsMenuItem(c) == item && c.quantity == quantity
  {
    CartItem(item.id, item.name, item.category, item.price, item.imageUrl, quantity)
  }

  /** The MenuItem fields of a cart line. */
  function AsMenuItem(c: CartItem): MenuItem
  {
    MenuItem(c.id, c.name, c.category, c.price, c.imageUrl)
  }

  /** `{ ...draft, id }`: gives a draft its id. */
  function WithId(d: Draft, id: int): (m: MenuItem)
    ensures m.id == id && AsDraft(m) == d
  {
    MenuItem(id, d.name, d.category, d.price, d.imageUrl)
  }

  /** The fields of a menu item other than its id. */
  function AsDraft(m: MenuItem): Draft
  {
    Draft(m.name, m.category, m.price, m.imageUrl)
  }
}
