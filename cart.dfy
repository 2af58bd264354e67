/** The cart panel (components/Cart.tsx): the running total, the
    place-order guard and the panel's own `customerName`/`isOrdering`
    state. */
module Cart {
  import opened Types
  import opened Text
  import opened Seqs

  /** `item.price * item.quantity`, one line's amount in cents. */
  function Line(c: CartItem): (r: int)
    ensures c.quantity == 1 ==> r == c.price
    ensures c.quantity == 0 ==> r == 0
  {
    c.price * c.quantity
  }

  /** `cartItems.reduce((sum, item) => sum + item.price * item.quantity, 0)`:
      a left fold, so the last line is added last. */
  function Total(cart: seq<CartItem>): int
  {
    if cart == [] then 0 else Total(cart[..|cart| - 1]) + Line(cart[|cart| - 1])
  }

  /** A cart whose lines all cost nothing or more totals nothing or more. */
  lemma {:induction false} TotalNonNegative(cart: seq<CartItem>)
    requires forall i :: 0 <= i < |cart| ==> Line(cart[i]) >= 0
    ensures Total(cart) >= 0
  {
    if cart != [] {
      TotalNonNegative(cart[..|cart| - 1]);
    }
  }

  /** The total of two carts laid end to end is the sum of their totals. */
  lemma {:induction false} TotalConcat(a: seq<CartItem>, b: seq<CartItem>)
    ensures Total(a + b) == Total(a) + Total(b)
  {
    if b == [] {
      assert a + b == a;
    } else {
      var n := |b| - 1;
      assert (a + b)[..|a + b| - 1] == a + b[..n];
      TotalConcat(a, b[..n]);
    }
  }

  /** The total of a one-line cart is that line's amount. */
  lemma TotalSingle(c: CartItem)
    ensures Total([c]) == Line(c)
  {
    assert [c][..0] == [];
  }

  /** Taking one line out of a cart removes its amount from the total. */
  lemma TotalWithout(b: seq<CartItem>, j: nat)
    requires j < |b|
    ensures Total(b) == Total(b[..j] + b[j + 1..]) + Line(b[j])
  {
    var pre, post := b[..j], b[j + 1..];
    assert b[..j + 1] + post == b;
    TotalConcat(b[..j + 1], post);
    assert b[..j + 1][..j] == pre;
    TotalConcat(pre, post);
  }

  /** Adding a line at the end adds its amount. */
  lemma TotalAppend(a: seq<CartItem>, c: CartItem)
    ensures Total(a + [c]) == Total(a) + Line(c)
  {
    assert (a + [c])[..|a|] == a;
  }

  /** Replacing one line changes the total by the difference of the two
      lines' amounts. */
  lemma TotalReplace(b: seq<CartItem>, j: nat, c: CartItem)
    requires j < |b|
    ensures Total(b[j := c]) == Total(b) - Line(b[j]) + Line(c)
  {
    var b' := b[j := c];
    assert b'[..j] + b'[j + 1..] == b[..j] + b[j + 1..];
    TotalWithout(b, j);
    TotalWithout(b', j);
  }

  /** With exact (integer) money, reordering the cart does not change the total. */
  lemma {:induction false} TotalPermutation(a: seq<CartItem>, b: seq<CartItem>)
    requires multiset(a) == multiset(b)
    ensures Total(a) == Total(b)
    decreases |a|
  {
    if a != [] {
      var n := |a| - 1;
      var x := a[n];
      assert a == a[..n] + [x];
      assert multiset(a[..n]) == multiset(a) - multiset{x};
      assert x in multiset(b);
      var j :| 0 <= j < |b| && b[j] == x;
      TotalWithout(b, j);
      MultisetWithout(b, j);
      TotalPermutation(a[..n], b[..j] + b[j + 1..]);
    }
  }

  /** `customerName.trim() && cartItems.length > 0`: the guard of
      `handlePlaceOrder`; it holds exactly when the name has a non-space
      character and the cart has a line. */
  function CanPlaceOrder(customerName: string, cart: seq<CartItem>): (ok: bool)
    ensures ok <==> !IsBlank(customerName) && |cart| > 0
  {
    Trim(customerName) != [] && |cart| > 0
  }

  /** The `disabled` attribute of the place-order button. */
  function PlaceButtonDisabled(customerName: string, cart: seq<CartItem>, isOrdering: bool): (disabled: bool)
    ensures disabled <==> IsBlank(customerName) || cart == [] || isOrdering
    ensures !disabled ==> CanPlaceOrder(customerName, cart)
  {
    Trim(customerName) == [] || |cart| == 0 || isOrdering
  }

  /** The panel's local React state. */
  class CartPanel {
    var customerName: string
    var isOrdering: bool

    constructor ()
      ensures customerName == "" && !isOrdering
    {
      customerName := "";
      isOrdering := false;
    }

    /** The name input's `onChange`. */
    method TypeName(name: string)
      modifies this
      ensures customerName == name && isOrdering == old(isOrdering)
    {
      customerName := name;
    }

    /** `handlePlaceOrder`: when the guard holds, marks the panel busy and
        hands the name, untrimmed, to `onPlaceOrder` (returned in `placed`);
        otherwise does nothing. The name is cleared only later, by the timer. */
    method HandlePlaceOrder(cart: seq<CartItem>) returns (placed: Option<string>)
      modifies this
      ensures placed == if CanPlaceOrder(old(customerName), cart) then Some(old(customerName)) else None
      ensures isOrdering == (old(isOrdering) || placed.Some?)
      ensures customerName == old(customerName)
    {
      placed := None;
      if Trim(customerName) != [] && |cart| > 0 {
        isOrdering := true;
        placed := Some(customerName);
      }
    }

    /** The callback of the one-second `setTimeout` scheduled by `handlePlaceOrder`. */
    method OrderTimerFires()
      modifies this
      ensures customerName == "" && !isOrdering
    {
      customerName := "";
      isOrdering := false;
    }
  }
}
