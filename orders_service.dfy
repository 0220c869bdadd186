/** The calls the page makes through `ordersService` (src/services/orders.ts).
    The HTTP client behind them is not modelled: a call's result is given to
    the model as a `Response`, either the decoded body or a rejection (a
    network failure or a non-ok HTTP status). */
module OrdersService {
  import opened OrderFormModel

  datatype Request =
    | ListOrders
    | CreateOrder(form: OrderForm)
    | UpdateOrder(orderId: string, form: OrderForm)
    | DeleteOrder(orderId: string)

  datatype Response<+T> = Ok(value: T) | Failed
}
