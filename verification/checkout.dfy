/** The POS checkout: the empty-cart guard, the `{customer_name, items}` payload, and what
    the page keeps or clears once the server has answered. */
module Checkout {
  import opened Wrappers
  import opened Seqs
  import opened Api
  import opened Cart

  const EmptyCartAlert := "Giỏ hàng trống!"
  const PaymentErrorAlert := "Lỗi thanh toán"

  /** The answer to `POST /api/pay` as the page reads it: a parsed JSON body, or a failed
      request (network error or a body that is not JSON). */
  datatype PayReply =
    | Replied(success: bool, orderId: int, message: string)
    | RequestFailed

  /** The page state checkout reads and writes: the cart and the customer-name input. */
  datatype PosState = PosState(cart: seq<CartLine>, customerField: string)

  /** The result of one checkout: the new page state, the request sent (if any), the
      invoice opened (if any) and the alert shown (if any). */
  datatype CheckoutOutcome = CheckoutOutcome(
    state: PosState,
    sent: Option<PayRequest>,
    invoice: Option<int>,
    alert: Option<string>)

  /** The name sent: the input's text, or the walk-in placeholder when it is empty. */
  function CustomerName(field: string): (n: string)
    ensures field == "" ==> n == WalkInCustomer
    ensures field != "" ==> n == field
  {
    if field == "" then WalkInCustomer else field
  }

  /** `cart.map(i => ({id: i.id, quantity: i.quantity}))`: prices are never sent. */
  function PayItems(cart: seq<CartLine>): (items: seq<PayItem>)
    ensures |items| == |cart|
    ensures forall i :: 0 <= i < |cart| ==> items[i] == PayItem(cart[i].Id(), cart[i].quantity)
  {
    seq(|cart|, i requires 0 <= i < |cart| => PayItem(cart[i].Id(), cart[i].quantity))
  }

  /** The ids of a payment's items. */
  function ItemIds(items: seq<PayItem>): (r: seq<int>)
    ensures |r| == |items|
    ensures forall i :: 0 <= i < |items| ==> r[i] == items[i].id
  {
    seq(|items|, i requires 0 <= i < |items| => items[i].id)
  }

  /** A valid cart yields a payload with one entry per product and positive quantities. */
  lemma PayItemsOfValidCart(cart: seq<CartLine>)
    requires Valid(cart)
    ensures ItemIds(PayItems(cart)) == LineIds(cart)
    ensures Distinct(ItemIds(PayItems(cart)))
    ensures forall i :: 0 <= i < |cart| ==> PayItems(cart)[i].quantity >= 1
  {
  }

  /** The request `handleCheckout()` sends: none for an empty cart, otherwise the name and
      the cart's `{id, quantity}` pairs. */
  function CheckoutRequest(s: PosState): (r: Option<PayRequest>)
    ensures r.None? <==> |s.cart| == 0
    ensures r.Some? ==> r.value.customerName == Some(CustomerName(s.customerField))
    ensures r.Some? ==> r.value.items == Some(PayItems(s.cart))
  {
    if |s.cart| == 0 then None
    else Some(PayRequest(Some(CustomerName(s.customerField)), Some(PayItems(s.cart))))
  }

  /** `handleCheckout()` with the server's answer `reply` passed in. An empty cart is
      refused before anything is sent. Otherwise a successful answer opens the invoice
      and clears the cart and the name input; any other answer alerts and leaves the page
      state as it was. */
  function HandleCheckout(s: PosState, reply: PayReply): (r: CheckoutOutcome)
    ensures r.sent == CheckoutRequest(s)
    ensures r.sent.None? ==> r.state == s && r.invoice.None? && r.alert == Some(EmptyCartAlert)
    ensures r.sent.Some? && reply.Replied? && reply.success ==>
              r.state == PosState([], "") && r.invoice == Some(reply.orderId) && r.alert.None?
    ensures r.sent.Some? && reply.Replied? && !reply.success ==>
              r.state == s && r.invoice.None? && r.alert == Some(reply.message)
    ensures r.sent.Some? && reply.RequestFailed? ==>
              r.state == s && r.invoice.None? && r.alert == Some(PaymentErrorAlert)
  {
    match CheckoutRequest(s)
    case None => CheckoutOutcome(s, None, None, Some(EmptyCartAlert))
    case Some(request) =>
      match reply
      case Replied(success, orderId, message) =>
        if success then CheckoutOutcome(PosState([], ""), Some(request), Some(orderId), None)
        else CheckoutOutcome(s, Some(request), None, Some(message))
      case RequestFailed => CheckoutOutcome(s, Some(request), None, Some(PaymentErrorAlert))
  }

  /** Checkout changes the cart only by emptying it, and only on a successful answer. */
  lemma CheckoutKeepsOrEmpties(s: PosState, reply: PayReply)
    ensures var r := HandleCheckout(s, reply);
            (r.state.cart == [] && r.invoice.Some? && |s.cart| > 0) || (r.state == s && r.invoice.None?)
  {
  }
}
