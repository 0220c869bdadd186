# Order list page: state and handlers

This project models the state logic of a browser order-management screen
("Pedidos"). The screen keeps a list of orders, two dialogs (create/edit and
delete confirmation) and two loading flags. Its handlers change that state
after server calls and after order snapshots pushed over a socket. Around that
core sit small pure pieces: the `Order` and `OrderForm` value types, the status
badge, and the create/edit dialog's form schema and field store.

Files:

- `wrappers.dfy`: `Option` (for `undefined`/`null`) and `Result`.
- `order_form_model.dfy`: `OrderForm` and its defaulting constructor.
- `order_model.dfy`: the `OrderStatus` enum, `Order`, its copying constructor,
  and the truthiness test on an order's id.
- `status_tag.dfy`: badge class, check icon and label for a status.
- `order_list.dfy`: the list operations the handlers perform: find the first
  index of an id, replace by id, append, and a stream of pushes. The properties
  of these operations are proved as lemmas.
- `create_edit_order_dialog.dfy`: the form schema as a parse function, the
  create-or-edit decision and title, and the form's field store as a class.
- `orders_service.dfy`: the requests the page sends and the shape of a
  server answer (`Ok(value)` or `Failed`).
- `orders_page.dfy`: class `OrdersListPage`, with one method per handler.
  Each method's `ensures` gives the new state in terms of the old state and
  the functions of `order_list.dfy`.

Modelling choices:

- Every handler runs as one atomic step on the current state. A server answer
  is a parameter of the handler, and the handler returns the requests it sent.
- An update for an id not in the list is dropped. It is not inserted.
- A pushed order goes to the update path with no status comparison; the
  contract of `OrdersPage.OrdersListPage.HandleOrderStatusUpdate` states this.
  A push for an unknown id is therefore dropped, as `OrderList.UpdateOfUnknownId`
  states. A created order is appended with no duplicate check, and
  `OrderList.AppendNoDuplicateIdsIff` states when a duplicate id results.
- `orderToEdit?.id` and `if (orderToDelete)` use JavaScript truthiness. An
  empty id counts as absent, so editing an order with an empty id takes the
  create path. This is `OrderModel.HasTruthyId` and `OrdersPage.IsTruthy`.
- The enum file for `OrderStatus` is not part of this model. Its members
  `Pendente`, `Processando` and `Finalizado` are known from their uses.
  `Unrecognized` stands for any other value a server message may carry. The
  label assumes `OrderStatus[status]` yields the member's name (see
  "## Left out").
- `valor` is a JavaScript number, modelled as `real`. `dataCriacao` is carried
  without being interpreted, so it is modelled as a string.

## Model

| member | source | states |
|---|---|---|
| `OrderFormModel.NewOrderForm` | src/app/models/order-form-model.ts:12-16 | an omitted `cliente` or `produto` defaults to `''` and an omitted `valor` to 0; a supplied argument is stored unchanged, with no validation |
| `OrderFormModel.NewOrderFormStoresArguments` | src/app/models/order-form-model.ts:12-16 | supplying every field reproduces the form exactly, including empty strings and negative amounts |
| `OrderFormModel.NewOrderFormDefaults` | src/app/models/order-form-model.ts:12 | with no arguments the form is `''`, `''`, 0 |
| `OrderModel.ToForm` | src/models/order-model.ts:4-10 | every order projects to an `OrderForm` with the same `cliente`, `produto` and `valor` |
| `OrderModel.NewOrder` | src/models/order-model.ts:15-21 | the copy has the argument's `id`, `status` and `dataCriacao`, and its form fields pass through the `OrderForm` constructor unchanged; the copy equals the argument |
| `StatusTag.BadgeClass` | src/components/ui/status-tag.tsx:11-21 | `Finalizado` gives the green class, `Processando` the blue class, and any other status the empty class string |
| `StatusTag.ShowsCheckIcon` | src/components/ui/status-tag.tsx:28 | the check icon is rendered exactly for `Finalizado` |
| `StatusTag.CheckIconOnlyOnGreenBadge` | src/components/ui/status-tag.tsx:11-28 | the check icon is shown iff the status is `Finalizado`, which is iff the badge is green |
| `StatusTag.Label` | src/components/ui/status-tag.tsx:29 | the label is the enum member's name, and is absent iff the value is not an enum member |
| `StatusTag.LabelIdentifiesStatus` | src/components/ui/status-tag.tsx:29 | two statuses with the same label are the same status |
| `OrderList.FirstIndexOf` | src/app/orders/page.tsx:34 | `findIndex` by id: -1 iff no order has the id; otherwise the index holds the id and no earlier index does |
| `OrderList.Updated` | src/app/orders/page.tsx:33-37 | copy the list and overwrite the slot at the first index with the incoming id, or keep the list when there is none; the length is kept |
| `OrderList.UpdateOfKnownId` | src/app/orders/page.tsx:32-39 | for an id in the list: same length, the first index with that id holds the incoming order, every other slot is unchanged |
| `OrderList.UpdateOfUnknownId` | src/app/orders/page.tsx:35-38 | for an id not in the list, the list is unchanged and nothing is appended |
| `OrderList.UpdateKeepsIds` | src/app/orders/page.tsx:32-39 | an update never changes which id stands at which position |
| `OrderList.UpdateKeepsFirstIndex` | src/app/orders/page.tsx:34-36 | after an update, every id's first index is where it was |
| `OrderList.UpdateIdempotent` | src/app/orders/page.tsx:32-39 | applying the same order twice gives the list that applying it once gives |
| `OrderList.UpdateLastWriteWins` | src/app/orders/page.tsx:32-39 | of two updates for one id, the later one wins as if the earlier had not arrived |
| `OrderList.UpdatesOfDistinctIdsCommute` | src/app/orders/page.tsx:32-39 | updates for different ids give the same list in either arrival order |
| `OrderList.UpdateKeepsNoDuplicateIds` | src/app/orders/page.tsx:32-39 | an update keeps a duplicate-free list duplicate-free |
| `OrderList.AppendNoDuplicateIdsIff` | src/app/orders/page.tsx:41-44 | appending keeps the list duplicate-free iff the new id was absent; nothing prevents a duplicate |
| `OrderList.ApplyPushes` | src/app/orders/page.tsx:46-50 | a stream of pushed orders keeps the list's length |
| `OrderList.PushesKeepIds` | src/app/orders/page.tsx:46-50 | a stream of pushes never inserts, removes or reorders orders |
| `OrderList.PushesOfUnknownIdsDropped` | src/app/orders/page.tsx:46-50 | pushes for ids the list does not hold are all dropped |
| `CreateEditOrderDialog.ParseForm` | src/components/dialogs/create-edit-order-dialog.tsx:33-39 | the schema accepts iff `cliente` has at least 2 characters and then returns the values unchanged; otherwise it rejects with "Username must be at least 2 characters." on `cliente` |
| `CreateEditOrderDialog.ParseIgnoresProdutoAndValor` | src/components/dialogs/create-edit-order-dialog.tsx:37-38 | acceptance does not depend on `produto` or `valor`: an empty product and any amount are accepted |
| `OrderModel.HasTruthyId` | src/app/orders/page.tsx:118 | `orderToEdit?.id` is truthy iff there is an order and its id is non-empty; the dialog's `isEditing` (create-edit-order-dialog.tsx:47) is the same test |
| `CreateEditOrderDialog.Title` | src/components/dialogs/create-edit-order-dialog.tsx:47-59 | the title is 'Editar pedido' iff the order has a non-empty id, and 'Criar pedido' otherwise |
| `CreateEditOrderDialog.DefaultValues` | src/components/dialogs/create-edit-order-dialog.tsx:44 | the initial values are the `OrderForm` constructor applied to the order's fields, all `undefined` when there is no order |
| `CreateEditOrderDialog.ResetValues` | src/components/dialogs/create-edit-order-dialog.tsx:50-52 | the values the effect writes: each field of the order, or `''`, `''`, 0 through `??` when there is no order |
| `CreateEditOrderDialog.DefaultValuesAreResetValues` | src/components/dialogs/create-edit-order-dialog.tsx:44-53 | the initial form values and the values the effect writes agree: the order's `cliente`/`produto`/`valor`, or `''`/`''`/0 with no order |
| `CreateEditOrderDialog.FormFields.constructor` | src/components/dialogs/create-edit-order-dialog.tsx:42-45 | the field store starts at the defaulted form built from the order |
| `CreateEditOrderDialog.FormFields.ResetTo` | src/components/dialogs/create-edit-order-dialog.tsx:49-53 | after the effect, the three fields hold the order's values or the defaults |
| `CreateEditOrderDialog.FormFields.HandleSubmit` | src/components/dialogs/create-edit-order-dialog.tsx:63 | the current values are handed on iff the schema accepts them; otherwise the schema's issue is returned |
| `OrdersPage.FindIndex` | src/app/orders/page.tsx:34 | the loop over the copied array returns exactly `FirstIndexOf` |
| `OrdersPage.IsTruthy` | src/app/orders/page.tsx:91 | `if (orderToDelete)` holds iff an id is set and it is non-empty |
| `OrdersPage.OrdersListPage.CreateEditDialogShown` | src/app/orders/page.tsx:180-181 | the create/edit dialog is rendered iff the create flag is set or `orderToEdit` has a non-empty id |
| `OrdersPage.OrdersListPage.DeleteDialogShown` | src/app/orders/page.tsx:172-173 | the delete confirmation is rendered iff `orderToDelete` is truthy |
| `OrdersPage.OrdersListPage.constructor` | src/app/orders/page.tsx:24-30 | every dialog field is closed or null, the list is empty, and both loading flags are false |
| `OrdersPage.OrdersListPage.HandleUpdatedOrder` | src/app/orders/page.tsx:32-39 | the list becomes `Updated(old list, order)`; nothing else changes |
| `OrdersPage.OrdersListPage.HandleCreatedOrder` | src/app/orders/page.tsx:41-44 | the order is appended at the end, with the old list as prefix; nothing else changes |
| `OrdersPage.OrdersListPage.HandleOrderStatusUpdate` | src/app/orders/page.tsx:46-50 | a pushed order is applied through the update path with no status comparison |
| `OrdersPage.OrdersListPage.FetchData` | src/app/orders/page.tsx:52-62 | on success the list is exactly the response; on failure it is unchanged; the table's loading flag is false afterwards |
| `OrdersPage.OrdersListPage.HandleToggleCreateOrderDialog` | src/app/orders/page.tsx:76-79 | flips the create flag and clears `orderToEdit` only when the dialog was closed; opening shows the dialog in create mode |
| `OrdersPage.OrdersListPage.HandleStartDeleteOrder` | src/app/orders/page.tsx:81-83 | records the id; the confirmation shows iff the id is non-empty |
| `OrdersPage.OrdersListPage.HandleStopDeleteOrder` | src/app/orders/page.tsx:85-87 | clears the id, so the confirmation is hidden |
| `OrdersPage.OrdersListPage.HandleConfirmDeleteOrder` | src/app/orders/page.tsx:89-104 | sends the delete only for a truthy id, then always refreshes through `FetchData`; `orderToDelete` ends null whatever the outcome; the list is only ever replaced by the refresh; the order's loading flag stays true iff there was nothing to delete |
| `OrdersPage.OrdersListPage.HandleStartEditOrder` | src/app/orders/page.tsx:106-108 | records the order; the dialog shows if the create flag is set or the id is non-empty |
| `OrdersPage.OrdersListPage.HandleStopCreateEditOrder` | src/app/orders/page.tsx:110-113 | clears `orderToEdit` and the create flag, so the dialog is hidden |
| `OrdersPage.OrdersListPage.HandleConfirmCreateEditOrder` | src/app/orders/page.tsx:115-132 | sends an update iff `orderToEdit` has a non-empty id, else a create; on success the answer is merged by update or append and the dialog closes with `orderToEdit` null; on failure list and dialog are unchanged; the loading flag ends false |
| `OrdersPage.OrdersListPage.SubmitCreateEditDialog` | src/app/orders/page.tsx:180-186 | the page's confirm handler runs only with values the schema accepts, and then the request, the new list, the dialog state and the loading flag are those of `HandleConfirmCreateEditOrder`; a rejected form sends nothing and changes nothing |
| `OrdersPage.PushScenario` | src/app/orders/page.tsx:46-50 | a repeated pending push leaves the list as it was, a finished push replaces the order in place, and a push for another id is dropped |

## Left out

- The HTTP client and the service functions: each call is a given answer, `Ok(value)` or `Failed`. The client's status rule is not modelled: a non-ok status rejects, and status 204 resolves to `null`. A list call answered with 204 would set the list to `null`, and the model cannot express that.
- The socket and the attaching and detaching of its listener: the model has a method per received message. `JSON.parse` is taken to yield an `Order`; parse failures are not modelled.
- Asynchronous interleaving: each handler is one atomic step on the current state. Stale list values captured by `useCallback` closures, answers racing pushes, and the loading flags' values during an await are not modelled.
- The search term, the table (sorting, filtering, pagination), the detail page, the not-found page and all rendering other than the two dialogs' visibility and title.
- `formatCurrency` and `cn`: floating point, locale formatting and class-name merging.
- `CreateEditOrderDialog.ParseForm`: the form's values are typed here, so zod's type checks (a non-string `cliente`, a non-number or NaN `valor`) are not modelled. Length is counted in characters, not UTF-16 code units.
- `CreateEditOrderDialog.ParseIgnoresProdutoAndValor`: holds for typed values only. The `valor` input (create-edit-order-dialog.tsx:90-98) is a plain `<Input {...field} />`, which writes the typed text as a string, and `z.number()` (line 38) rejects a string. So any amount the user types makes the form fail; only the numeric default or the edited order's number passes.
- `StatusTag.Label`: assumes `OrderStatus[status]` gives the member's name. That holds if the enum is numeric (reverse mapping) or if its string values equal its keys. The enum file is not part of this model.
- The form library's error display and dirty/touched state: `FormFields` holds only the three values.
