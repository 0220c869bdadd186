/** The lifecycle status of an order (the `OrderStatus` enum imported as
    @/enums/order-status-enum). The enum's own file is not part of this model:
    its three members are known from their uses, and `Unrecognized` stands for
    any other value a server message may carry. */
module OrderStatusEnum {
  datatype OrderStatus = Pendente | Processando | Finalizado | Unrecognized
}

/** A persisted order (`Order` in src/models/order-model.ts): the form fields it
    inherits from `OrderForm` plus the identity, status and creation date the
    server assigns. */
module OrderModel {
  import opened Wrappers
  import opened OrderFormModel
  import opened OrderStatusEnum

  /** The creation date is only carried along, never interpreted. */
  type Date = string

  datatype Order = Order(
    id: string,
    status: OrderStatus,
    dataCriacao: Date,
    cliente: string,
    produto: string,
    valor: Number)

  /** The `OrderForm` part of an order (the fields `Order` inherits). */
  function ToForm(o: Order): (f: OrderForm)
    ensures f.cliente == o.cliente && f.produto == o.produto && f.valor == o.valor
  {
    OrderForm(o.cliente, o.produto, o.valor)
  }

  /** The copying constructor `new Order(order)`: the inherited fields go
      through the `OrderForm` constructor, then `id`, `status` and
      `dataCriacao` are copied. The copy equals its argument. */
  function NewOrder(o: Order): (r: Order)
    ensures r.id == o.id
    ensures r.status == o.status
    ensures r.dataCriacao == o.dataCriacao
    ensures ToForm(r) == ToForm(o)
    ensures r == o
  {
    var base := NewOrderForm(Some(o.cliente), Some(o.produto), Some(o.valor));
    Order(o.id, o.status, o.dataCriacao, base.cliente, base.produto, base.valor)
  }

  /** JavaScript truthiness of `order?.id`: there is an order and its id is
      not the empty string. The page uses it to choose between update and
      create, and the dialog to choose between editing and creating. */
  predicate HasTruthyId(order: Option<Order>)
  {
    order.Some? && order.value.id != ""
  }
}
