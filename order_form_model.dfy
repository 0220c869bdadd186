/** The editable part of an order: the values the create/edit form submits
    (`OrderForm` in src/app/models/order-form-model.ts). */
module OrderFormModel {
  import opened Wrappers

  /** A JavaScript number; NaN and the infinities are not modelled. */
  type Number = real

  datatype OrderForm = OrderForm(cliente: string, produto: string, valor: Number)

  /** The constructor `new OrderForm(cliente?, produto?, valor?)`: an argument
      passed as `undefined` (here `None`) takes its default, `''`, `''` or `0`;
      a supplied argument is stored as it is, without any validation. */
  function NewOrderForm(cliente: Option<string>, produto: Option<string>, valor: Option<Number>): (f: OrderForm)
    ensures cliente == None ==> f.cliente == ""
    ensures produto == None ==> f.produto == ""
    ensures valor == None ==> f.valor == 0.0
    ensures cliente.Some? ==> f.cliente == cliente.value
    ensures produto.Some? ==> f.produto == produto.value
    ensures valor.Some? ==> f.valor == valor.value
  {
    OrderForm(
      if cliente.Some? then cliente.value else "",
      if produto.Some? then produto.value else "",
      if valor.Some? then valor.value else 0.0)
  }

  /** Supplying every argument reproduces the form exactly, whatever its
      contents: empty strings and negative amounts are accepted. */
  lemma NewOrderFormStoresArguments(f: OrderForm)
    ensures NewOrderForm(Some(f.cliente), Some(f.produto), Some(f.valor)) == f
  {
  }

  /** A form built with no arguments is the all-default form. */
  lemma NewOrderFormDefaults()
    ensures NewOrderForm(None, None, None) == OrderForm("", "", 0.0)
  {
  }
}
