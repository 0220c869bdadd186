/** The create/edit dialog (src/components/dialogs/create-edit-order-dialog.tsx):
    the form schema, the create-or-edit decision, and the form's field store,
    which is seeded from the order and reset whenever the order changes. */
module CreateEditOrderDialog {
  import opened Wrappers
  import opened OrderFormModel
  import opened OrderModel

  const ClienteTooShort := "Username must be at least 2 characters."

  /** One rejection reported by the schema: the field and its message. */
  datatype Issue = Issue(path: string, message: string)

  /** `formSchema.safeParse`: `cliente` must hold at least two characters;
      `produto` is any string and `valor` any number. */
  function ParseForm(v: OrderForm): (r: Result<OrderForm, seq<Issue>>)
    ensures r.Success? <==> |v.cliente| >= 2
    ensures r.Success? ==> r.value == v
    ensures r.Failure? ==> r.error == [Issue("cliente", ClienteTooShort)]
  {
    if |v.cliente| < 2 then Failure([Issue("cliente", ClienteTooShort)]) else Success(v)
  }

  /** Whether the schema accepts depends on `cliente` alone: an empty product
      and a negative or zero amount are accepted. */
  lemma ParseIgnoresProdutoAndValor(cliente: string, p1: string, v1: Number, p2: string, v2: Number)
    ensures ParseForm(OrderForm(cliente, p1, v1)).Success? == ParseForm(OrderForm(cliente, p2, v2)).Success?
  {
  }

  /** The dialog title; `isEditing = order?.id` is `HasTruthyId(order)`, so
      an order with an empty id is shown as a creation. */
  function Title(order: Option<Order>): (t: string)
    ensures t == "Editar pedido" <==> HasTruthyId(order)
    ensures t == "Criar pedido" <==> !HasTruthyId(order)
  {
    (if HasTruthyId(order) then "Editar" else "Criar") + " pedido"
  }

  /** The form's initial values, `new OrderFormModel(order?.cliente,
      order?.produto, order?.valor)`: with no order every argument is
      `undefined` and takes its default. */
  function DefaultValues(order: Option<Order>): (f: OrderForm)
  {
    if order.Some? then NewOrderForm(Some(order.value.cliente), Some(order.value.produto), Some(order.value.valor))
    else NewOrderForm(None, None, None)
  }

  /** The values the effect writes, `order?.cliente ?? ''` and so on. */
  function ResetValues(order: Option<Order>): (f: OrderForm)
  {
    OrderForm(
      if order.Some? then order.value.cliente else "",
      if order.Some? then order.value.produto else "",
      if order.Some? then order.value.valor else 0.0)
  }

  /** The initial values and the reset values agree: the order's own fields
      when there is an order, `''`, `''` and `0` when there is none. */
  lemma DefaultValuesAreResetValues(order: Option<Order>)
    ensures DefaultValues(order) == ResetValues(order)
    ensures order.Some? ==> ResetValues(order) == ToForm(order.value)
    ensures order.None? ==> ResetValues(order) == OrderForm("", "", 0.0)
  {
  }

  /** The form's field store (`useForm`): the three values the inputs edit. */
  class FormFields {
    var cliente: string
    var produto: string
    var valor: Number

    function Values(): (f: OrderForm)
      reads this
      ensures f.cliente == cliente && f.produto == produto && f.valor == valor
    {
      OrderForm(cliente, produto, valor)
    }

    /** `useForm({ defaultValues: ... })`. */
    constructor (order: Option<Order>)
      ensures Values() == DefaultValues(order)
    {
      var d := DefaultValues(order);
      cliente := d.cliente;
      produto := d.produto;
      valor := d.valor;
    }

    /** The effect run when `order` changes: three `setValue` calls, one per
        field. */
    method ResetTo(order: Option<Order>)
      modifies this
      ensures Values() == ResetValues(order)
    {
      cliente := if order.Some? then order.value.cliente else "";
      produto := if order.Some? then order.value.produto else "";
      valor := if order.Some? then order.value.valor else 0.0;
    }

    /** `form.handleSubmit(onConfirm)`: the current values are handed on only
        when the schema accepts them; otherwise the schema's issues come
        back and nothing is submitted. */
    method HandleSubmit() returns (r: Result<OrderForm, seq<Issue>>)
      ensures r.Success? <==> |cliente| >= 2
      ensures r.Success? ==> r.value == Values()
      ensures r.Failure? ==> r.error == [Issue("cliente", ClienteTooShort)]
    {
      r := ParseForm(Values());
    }
  }
}
