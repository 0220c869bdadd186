/** The order list page (`OrdersListPage` in src/app/orders/page.tsx): the
    list of orders, the dialog state and the two loading flags, with one
    method per handler. Each handler runs as one atomic step; the server's
    answers are parameters, and each handler returns the requests it sent. */
module OrdersPage {
  import opened Wrappers
  import opened OrderFormModel
  import opened OrderModel
  import opened OrderList
  import opened OrdersService
  import CreateEditOrderDialog

  /** JavaScript truthiness of `orderToDelete`: set and not empty. */
  predicate IsTruthy(id: Option<string>)
  {
    id.Some? && id.value != ""
  }

  /** `Array.prototype.findIndex` with the predicate `d.id === id`. */
  method FindIndex(a: array<Order>, id: string) returns (index: int)
    ensures index == FirstIndexOf(a[..], id)
  {
    index := 0;
    while index < a.Length
      invariant 0 <= index <= a.Length
      invariant forall j :: 0 <= j < index ==> a[j].id != id
    {
      if a[index].id == id {
        return;
      }
      index := index + 1;
    }
    index := -1;
  }

  class OrdersListPage {
    var isCreateOrderDialogOpen: bool
    var orderToDelete: Option<string>
    var orderToEdit: Option<Order>
    var data: seq<Order>
    var isLoadingTable: bool
    var isLoadingOrder: bool

    /** The state hooks' initial values; the mount effect then runs
        `FetchData`. */
    constructor ()
      ensures !isCreateOrderDialogOpen && orderToDelete == None && orderToEdit == None
      ensures data == [] && !isLoadingTable && !isLoadingOrder
    {
      isCreateOrderDialogOpen := false;
      orderToDelete := None;
      orderToEdit := None;
      data := [];
      isLoadingTable := false;
      isLoadingOrder := false;
    }

    /** Whether the create/edit dialog is rendered: the create flag is set or
        an order with a non-empty id is being edited. */
    predicate CreateEditDialogShown()
      reads this
    {
      isCreateOrderDialogOpen || HasTruthyId(orderToEdit)
    }

    /** Whether the delete confirmation is rendered. */
    predicate DeleteDialogShown()
      reads this
    {
      IsTruthy(orderToDelete)
    }

    /** `handleUpdatedOrder`: copy the list, find the first order with the
        incoming id and overwrite that slot; an unknown id leaves the list
        as it was. */
    method HandleUpdatedOrder(order: Order)
      modifies this`data
      ensures data == Updated(old(data), order)
    {
      var current := data;
      var newData := new Order[|current|](i requires 0 <= i < |current| => current[i]);
      assert newData[..] == current;
      var editedItemIndex := FindIndex(newData, order.id);
      if editedItemIndex > -1 {
        newData[editedItemIndex] := order;
        data := newData[..];
      }
    }

    /** `handleCreatedOrder`: append, with no check for an existing id. */
    method HandleCreatedOrder(order: Order)
      modifies this`data
      ensures data == old(data) + [order]
    {
      data := data + [order];
    }

    /** `handleOrderStatusUpdate`: a pushed order goes straight to the update
        path, whatever its status and whatever the stored status. */
    method HandleOrderStatusUpdate(message: Order)
      modifies this`data
      ensures data == Updated(old(data), message)
    {
      HandleUpdatedOrder(message);
    }

    /** `fetchData`: the list becomes exactly the server's list; on a failed
        call it is kept. The table's loading flag is cleared either way. */
    method FetchData(response: Response<seq<Order>>) returns (request: Request)
      modifies this`data, this`isLoadingTable
      ensures request == ListOrders
      ensures data == (if response.Ok? then response.value else old(data))
      ensures !isLoadingTable
    {
      isLoadingTable := true;
      request := ListOrders;
      if response.Ok? {
        data := response.value;
      }
      isLoadingTable := false;
    }

    /** `handleToggleCreateOrderDialog`: flip the create flag; when the dialog
        was closed (so it is being opened), forget any order being edited. */
    method HandleToggleCreateOrderDialog()
      modifies this`isCreateOrderDialogOpen, this`orderToEdit
      ensures isCreateOrderDialogOpen == !old(isCreateOrderDialogOpen)
      ensures orderToEdit == (if old(isCreateOrderDialogOpen) then old(orderToEdit) else None)
      ensures !old(isCreateOrderDialogOpen) ==> CreateEditDialogShown() && !HasTruthyId(orderToEdit)
      ensures old(isCreateOrderDialogOpen) ==> (CreateEditDialogShown() <==> HasTruthyId(old(orderToEdit)))
    {
      var wasOpen := isCreateOrderDialogOpen;
      isCreateOrderDialogOpen := !isCreateOrderDialogOpen;
      if !wasOpen {
        orderToEdit := None;
      }
    }

    /** `handleStartDeleteOrder`. */
    method HandleStartDeleteOrder(orderId: string)
      modifies this`orderToDelete
      ensures orderToDelete == Some(orderId)
      ensures DeleteDialogShown() <==> orderId != ""
    {
      orderToDelete := Some(orderId);
    }

    /** `handleStopDeleteOrder`. */
    method HandleStopDeleteOrder()
      modifies this`orderToDelete
      ensures orderToDelete == None && !DeleteDialogShown()
    {
      orderToDelete := None;
    }

    /** `handleConfirmDeleteOrder`: with an order to delete, send the delete,
        clear the order on success and the order's loading flag either way;
        with none, the loading flag is set and stays set. Then the list is
        refreshed from the server (it is never edited locally) and the order
        to delete is cleared whatever happened. */
    method HandleConfirmDeleteOrder(deleteResponse: Response<()>, listResponse: Response<seq<Order>>)
      returns (requests: seq<Request>)
      modifies this`orderToDelete, this`isLoadingOrder, this`data, this`isLoadingTable
      ensures requests == (if IsTruthy(old(orderToDelete)) then [DeleteOrder(old(orderToDelete).value)] else [])
                          + [ListOrders]
      ensures orderToDelete == None
      ensures isLoadingOrder == !IsTruthy(old(orderToDelete))
      ensures data == (if listResponse.Ok? then listResponse.value else old(data))
      ensures !isLoadingTable
    {
      isLoadingOrder := true;
      requests := [];
      if IsTruthy(orderToDelete) {
        requests := [DeleteOrder(orderToDelete.value)];
        if deleteResponse.Ok? {
          orderToDelete := None;
        }
        isLoadingOrder := false;
      }
      var refresh := FetchData(listResponse);
      requests := requests + [refresh];
      HandleStopDeleteOrder();
    }

    /** `handleStartEditOrder`. */
    method HandleStartEditOrder(order: Order)
      modifies this`orderToEdit
      ensures orderToEdit == Some(order)
      ensures CreateEditDialogShown() <==> isCreateOrderDialogOpen || order.id != ""
    {
      orderToEdit := Some(order);
    }

    /** `handleStopCreateEditOrder`: forget the edited order and close the
        dialog, which is then not shown. */
    method HandleStopCreateEditOrder()
      modifies this`orderToEdit, this`isCreateOrderDialogOpen
      ensures orderToEdit == None && !isCreateOrderDialogOpen
      ensures !CreateEditDialogShown()
    {
      orderToEdit := None;
      isCreateOrderDialogOpen := false;
    }

    /** `handleConfirmCreateEditOrder`: update when the edited order has a
        non-empty id, create otherwise. On success the server's order goes
        through the update or the append path and the dialog is closed; on
        failure the list and the dialog state are kept. The order's loading
        flag ends cleared. */
    method HandleConfirmCreateEditOrder(form: OrderForm, response: Response<Order>)
      returns (request: Request)
      modifies this`data, this`orderToEdit, this`isCreateOrderDialogOpen, this`isLoadingOrder
      ensures request == (if HasTruthyId(old(orderToEdit)) then UpdateOrder(old(orderToEdit).value.id, form)
                          else CreateOrder(form))
      ensures response.Failed? ==> data == old(data)
      ensures response.Ok? && request.UpdateOrder? ==> data == Updated(old(data), response.value)
      ensures response.Ok? && request.CreateOrder? ==> data == old(data) + [response.value]
      ensures response.Ok? ==> orderToEdit == None && !isCreateOrderDialogOpen
      ensures response.Failed? ==>
                orderToEdit == old(orderToEdit) && isCreateOrderDialogOpen == old(isCreateOrderDialogOpen)
      ensures !isLoadingOrder
    {
      isLoadingOrder := true;
      if HasTruthyId(orderToEdit) {
        request := UpdateOrder(orderToEdit.value.id, form);
        if response.Ok? {
          HandleUpdatedOrder(response.value);
        }
      } else {
        request := CreateOrder(form);
        if response.Ok? {
          HandleCreatedOrder(response.value);
        }
      }
      if response.Ok? {
        HandleStopCreateEditOrder();
      }
      isLoadingOrder := false;
    }

    /** The dialog's save button, `form.handleSubmit(onConfirm)` with
        `onConfirm = handleConfirmCreateEditOrder`: the page's handler runs
        only with values the schema accepts, and then has the effects
        `HandleConfirmCreateEditOrder` states; a rejected form sends nothing
        and changes nothing on the page. */
    method SubmitCreateEditDialog(fields: CreateEditOrderDialog.FormFields, response: Response<Order>)
      returns (request: Option<Request>)
      modifies this`data, this`orderToEdit, this`isCreateOrderDialogOpen, this`isLoadingOrder
      ensures request.Some? <==> |fields.cliente| >= 2
      ensures request.Some? ==>
                request.value == (if HasTruthyId(old(orderToEdit)) then UpdateOrder(old(orderToEdit).value.id, fields.Values())
                                  else CreateOrder(fields.Values()))
      ensures request.Some? && response.Failed? ==>
                data == old(data) && orderToEdit == old(orderToEdit) &&
                isCreateOrderDialogOpen == old(isCreateOrderDialogOpen)
      ensures request.Some? && response.Ok? && request.value.UpdateOrder? ==>
                data == Updated(old(data), response.value)
      ensures request.Some? && response.Ok? && request.value.CreateOrder? ==>
                data == old(data) + [response.value]
      ensures request.Some? && response.Ok? ==> orderToEdit == None && !isCreateOrderDialogOpen
      ensures request.Some? ==> !isLoadingOrder
      ensures request.None? ==>
                data == old(data) && orderToEdit == old(orderToEdit) &&
                isCreateOrderDialogOpen == old(isCreateOrderDialogOpen) && isLoadingOrder == old(isLoadingOrder)
    {
      var submitted := fields.HandleSubmit();
      if submitted.Success? {
        var sent := HandleConfirmCreateEditOrder(submitted.value, response);
        request := Some(sent);
      } else {
        request := None;
      }
    }
  }

  /** The sequence of pushes in which an order is first reported pending and
      then again pending: the repeated status is applied as a write with no
      visible change; a later finished status replaces the order in place. A
      push for an id the page does not hold is dropped. */
  lemma PushScenario(pending: Order, other: Order)
    requires pending.status == OrderStatusEnum.Pendente && other.id != pending.id
    ensures Updated([pending], pending) == [pending]
    ensures Updated([pending], pending.(status := OrderStatusEnum.Finalizado))
            == [pending.(status := OrderStatusEnum.Finalizado)]
    ensures Updated([pending], other) == [pending]
  {
  }
}
