/** The JSON bodies the browser pages send to the server. In a `PayRequest`, `None` stands
    for an absent key. In a `SaveRequest`, it stands for a key that is absent or holds `null`
    (a `NaN` from `parseInt`/`parseFloat` is sent as `null`), which `save_product()` treats
    alike. */
module Api {
  import opened Wrappers

  /** One `{id, quantity}` entry of a payment request. */
  datatype PayItem = PayItem(id: int, quantity: int)

  /** The body of `POST /api/pay`. A key holding `null` has no value here. */
  datatype PayRequest = PayRequest(customerName: Option<string>, items: Option<seq<PayItem>>)

  /** The body of `POST /api/products`. */
  datatype SaveRequest = SaveRequest(id: Option<int>, name: string, price: Option<int>)

  /** The placeholder customer name used when none is given. */
  const WalkInCustomer := "Khách lẻ"
}
