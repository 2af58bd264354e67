/** The staff's order card (components/OrderCard.tsx): the `statusConfig`
    table, the single forward action it offers and the displayed line
    amounts. */
module OrderCard {
  import opened Types
  import opened Cart
  import opened OrderStatusTracker

  /** One entry of `statusConfig`: a badge colour and the next status. */
  datatype StatusStyle = StatusStyle(color: string, next: Option<Status>)

  /** `statusConfig[status]`. The table has no Cancelled entry, so the
      lookup is `undefined` there and reading `.color` or `.next` from it
      throws a TypeError while rendering. */
  function StatusConfig(s: Status): (r: Option<StatusStyle>)
    ensures r.None? <==> s == Cancelled
  {
    match s
    case Pending => Some(StatusStyle("bg-yellow-100 text-yellow-800", Some(InProgress)))
    case InProgress => Some(StatusStyle("bg-blue-100 text-blue-800", Some(Ready)))
    case Ready => Some(StatusStyle("bg-green-100 text-green-800", Some(Completed)))
    case Completed => Some(StatusStyle("bg-gray-100 text-gray-500", None))
    case Cancelled => None
  }

  /** The forward transition `statusConfig[status].next`; none for
      Completed (`null`) and for Cancelled (no entry). Each move goes
      exactly one step along the pipeline, so it never returns to Pending
      and never goes back. */
  function Next(s: Status): (r: Option<Status>)
    ensures r.None? <==> s == Completed || s == Cancelled
    ensures r.Some? ==> StepIndex(r.value) == StepIndex(s) + 1
    ensures r != Some(Pending)
  {
    match StatusConfig(s)
    case None => None
    case Some(style) => style.next
  }

  /** `n` forward moves from `s`, or None when the chain stops first. */
  function Advance(s: Status, n: nat): Option<Status>
    decreases n
  {
    if n == 0 then Some(s)
    else match Next(s)
      case None => None
      case Some(t) => Advance(t, n - 1)
  }

  /** Every forward move adds one to the pipeline position. */
  lemma {:induction false} AdvanceIndex(s: Status, n: nat)
    requires Advance(s, n).Some?
    ensures StepIndex(Advance(s, n).value) == StepIndex(s) + n
    ensures s == Cancelled ==> n == 0
    decreases n
  {
    if n > 0 {
      var t := Next(s).value;
      AdvanceIndex(t, n - 1);
    }
  }

  /** The transition table has no cycle: no status comes back to itself. */
  lemma NoCycle(s: Status, n: nat)
    requires n >= 1
    ensures Advance(s, n) != Some(s)
  {
    if Advance(s, n).Some? {
      AdvanceIndex(s, n);
    }
  }

  /** From Pending the chain runs exactly three moves, ending at Completed. */
  lemma PipelineFromPending(n: nat)
    ensures Advance(Pending, n).Some? <==> n <= 3
    ensures Advance(Pending, 3) == Some(Completed)
  {
    assert Advance(Pending, 3) == Some(Completed) by {
      assert Advance(Completed, 0) == Some(Completed);
    }
    if n <= 3 {
      AdvancePrefix(Pending, 3, n);
    } else if Advance(Pending, n).Some? {
      AdvanceIndex(Pending, n);
    }
  }

  /** When `n` moves are possible, so are fewer. */
  lemma {:induction false} AdvancePrefix(s: Status, n: nat, m: nat)
    requires m <= n && Advance(s, n).Some?
    ensures Advance(s, m).Some?
    decreases m
  {
    if m > 0 {
      AdvancePrefix(Next(s).value, n - 1, m - 1);
    }
  }

  /** The status update a card's button sends (`onUpdateStatus(order.id, next)`). */
  datatype StatusUpdate = StatusUpdate(orderId: string, status: Status)

  /** The card's action button: shown only when a next status exists. */
  function CardAction(o: Order): (a: Option<StatusUpdate>)
    ensures a.Some? <==> Next(o.status).Some?
    ensures a.Some? ==> a.value.orderId == o.id && a.value.status == Next(o.status).value
  {
    match Next(o.status)
    case None => None
    case Some(t) => Some(StatusUpdate(o.id, t))
  }

  /** The amounts shown per line, `item.quantity * item.price`. */
  function LineAmounts(items: seq<CartItem>): (r: seq<int>)
    ensures |r| == |items|
    ensures forall i :: 0 <= i < |r| ==> r[i] == Line(items[i])
  {
    seq(|items|, i requires 0 <= i < |items| => items[i].quantity * items[i].price)
  }

  /** The sum of a list of amounts, added left to right. */
  function Sum(xs: seq<int>): int
  {
    if xs == [] then 0 else Sum(xs[..|xs| - 1]) + xs[|xs| - 1]
  }

  /** The displayed line amounts add up to the cart total of the items,
      so for a consistent order they add up to the displayed total. */
  lemma {:induction false} LineAmountsSum(items: seq<CartItem>)
    ensures Sum(LineAmounts(items)) == Total(items)
  {
    if items != [] {
      var n := |items| - 1;
      assert LineAmounts(items)[..n] == LineAmounts(items[..n]);
      LineAmountsSum(items[..n]);
    }
  }
}
