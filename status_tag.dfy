/** The status badge (`StatusTag` in src/components/ui/status-tag.tsx): the
    badge's class string, the check icon and the label shown for a status. */
module StatusTag {
  import opened Wrappers
  import opened OrderStatusEnum

  const FinalizadoClass := "bg-green-600 text-white dark:bg-green-600"
  const ProcessandoClass := "bg-blue-500 text-white dark:bg-blue-600"

  /** `badgeColor`: green for a finished order, blue for one in progress, and
      no extra class for a pending order or any other value. */
  function BadgeClass(status: OrderStatus): (c: string)
    ensures status == Finalizado ==> c == FinalizadoClass
    ensures status == Processando ==> c == ProcessandoClass
    ensures c == "" <==> status != Finalizado && status != Processando
  {
    match status
    case Finalizado => FinalizadoClass
    case Processando => ProcessandoClass
    case Pendente => ""
    case Unrecognized => ""
  }

  /** `status === OrderStatus.Finalizado && <CircleCheck />`. */
  predicate ShowsCheckIcon(status: OrderStatus)
  {
    status == Finalizado
  }

  /** `OrderStatus[status]`: the enum member's name, or `undefined` for a
      value outside the enum. */
  function Label(status: OrderStatus): (name: Option<string>)
    ensures name.None? <==> status == Unrecognized
  {
    match status
    case Pendente => Some("Pendente")
    case Processando => Some("Processando")
    case Finalizado => Some("Finalizado")
    case Unrecognized => None
  }

  /** Distinct statuses show distinct labels (or no label, only for a value
      outside the enum), so the label identifies the status. */
  lemma LabelIdentifiesStatus(a: OrderStatus, b: OrderStatus)
    requires Label(a) == Label(b)
    ensures a == b
  {
  }

  /** The check icon appears exactly on the green badge. */
  lemma CheckIconOnlyOnGreenBadge(status: OrderStatus)
    ensures ShowsCheckIcon(status) <==> BadgeClass(status) == FinalizadoClass
  {
  }
}
