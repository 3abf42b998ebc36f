/**
  The order endpoints' own rules over an order table: the status update, the
  cancellation of pending orders, and the choice between a user's retailer
  orders and customer orders when listing. The table is a map from order id
  to order record; the framework's object lookup answers 404 for an id that
  is not in it.
 */
module Orders {
  import opened Wrappers

  type UserId = nat
  type OrderId = nat

  datatype OrderItem = OrderItem(product: nat, quantity: nat)

  /** An order row: who bought it, who (if anyone) sells it, and its status text. */
  datatype Order = Order(customer: UserId, retailer: Option<UserId>, status: string, items: seq<OrderItem>)

  /** A JSON response: 200 with a message, 400 with an error, or the framework's 404. */
  datatype Reply = Ok(message: string) | BadRequest(error: string) | NotFound

  const StatusUpdated := "Order status updated successfully"
  const StatusRequired := "Status field is required"
  const OrderCancelled := "Order cancelled successfully"
  const NotPending := "Cannot cancel an order that is not pending"
  const Pending := "Pending"

  /** `request.data.get("status")` taken as a Python truth value: present and non-empty. */
  predicate Truthy(status: Option<string>) {
    status.Some? && status.value != ""
  }

  /** The orders on which `user` is the retailer. */
  function RetailerOrders(orders: map<OrderId, Order>, user: UserId): set<OrderId> {
    set id | id in orders && orders[id].retailer == Some(user)
  }

  /** The orders on which `user` is the customer. */
  function CustomerOrders(orders: map<OrderId, Order>, user: UserId): set<OrderId> {
    set id | id in orders && orders[id].customer == user
  }

  /**
    A status change never moves an order between anyone's lists: the
    retailer and customer selections are the same before and after it.
   */
  lemma StatusChangeKeepsSelections(orders: map<OrderId, Order>, id: OrderId, status: string, user: UserId)
    requires id in orders
    ensures var updated := orders[id := orders[id].(status := status)];
            RetailerOrders(updated, user) == RetailerOrders(orders, user) &&
            CustomerOrders(updated, user) == CustomerOrders(orders, user)
  {
    var updated := orders[id := orders[id].(status := status)];
    assert forall k :: k in updated ==> updated[k].retailer == orders[k].retailer && updated[k].customer == orders[k].customer;
  }

  /** Removing an order takes exactly that id out of every user's selections and nothing else. */
  lemma RemovalShrinksSelections(orders: map<OrderId, Order>, id: OrderId, user: UserId)
    ensures RetailerOrders(orders - {id}, user) == RetailerOrders(orders, user) - {id}
    ensures CustomerOrders(orders - {id}, user) == CustomerOrders(orders, user) - {id}
  {
    assert forall k :: k in orders - {id} ==> (orders - {id})[k] == orders[k];
  }

  class OrderStore {
    var orders: map<OrderId, Order>

    constructor (initial: map<OrderId, Order>)
      ensures orders == initial
    {
      orders := initial;
    }

    /**
      PATCH on an order: a truthy `status` replaces the order's status and
      nothing else; a missing or empty one is refused and changes nothing.
     */
    method UpdateStatus(id: OrderId, newStatus: Option<string>) returns (reply: Reply)
      modifies this
      ensures id !in old(orders) ==> reply == NotFound && orders == old(orders)
      ensures id in old(orders) && !Truthy(newStatus) ==>
                reply == BadRequest(StatusRequired) && orders == old(orders)
      ensures id in old(orders) && Truthy(newStatus) ==>
                reply == Ok(StatusUpdated) &&
                orders == old(orders)[id := old(orders)[id].(status := newStatus.value)]
      ensures reply.Ok? <==> id in old(orders) && Truthy(newStatus)
      ensures orders.Keys == old(orders).Keys
      ensures forall k :: k in old(orders) && k != id ==> orders[k] == old(orders)[k]
      ensures id in orders ==>
                orders[id].customer == old(orders)[id].customer &&
                orders[id].retailer == old(orders)[id].retailer &&
                orders[id].items == old(orders)[id].items
    {
      if id !in orders {
        return NotFound;
      }
      var order := orders[id];
      if Truthy(newStatus) {
        orders := orders[id := order.(status := newStatus.value)];
        return Ok(StatusUpdated);
      }
      return BadRequest(StatusRequired);
    }

    /**
      DELETE on an order: an order whose status is exactly `Pending` is
      removed; any other is refused and kept as it was.
     */
    method Cancel(id: OrderId) returns (reply: Reply)
      modifies this
      ensures id !in old(orders) ==> reply == NotFound && orders == old(orders)
      ensures id in old(orders) && old(orders)[id].status == Pending ==>
                reply == Ok(OrderCancelled) && orders == old(orders) - {id}
      ensures id in old(orders) && old(orders)[id].status != Pending ==>
                reply == BadRequest(NotPending) && orders == old(orders)
      ensures reply.Ok? <==> id in old(orders) && old(orders)[id].status == Pending
      ensures forall k :: k in old(orders) && k != id ==> k in orders && orders[k] == old(orders)[k]
      ensures orders.Keys <= old(orders).Keys
    {
      if id !in orders {
        return NotFound;
      }
      var order := orders[id];
      if order.status == Pending {
        orders := orders - {id};
        return Ok(OrderCancelled);
      }
      return BadRequest(NotPending);
    }

    /**
      The orders listed for `user`: those it sells if there is any, otherwise
      those it bought; never a mixture.
     */
    function ListOrders(user: UserId): (r: set<OrderId>)
      reads this
      ensures r <= orders.Keys
      ensures RetailerOrders(orders, user) != {} ==>
                forall id :: id in r <==> id in orders && orders[id].retailer == Some(user)
      ensures RetailerOrders(orders, user) == {} ==>
                forall id :: id in r <==> id in orders && orders[id].customer == user
      ensures r == {} <==> RetailerOrders(orders, user) == {} && CustomerOrders(orders, user) == {}
    {
      var retailerOrders := RetailerOrders(orders, user);
      if retailerOrders != {} then retailerOrders else CustomerOrders(orders, user)
    }
  }

  /**
    The story of the order endpoint tests: a customer's pending order can
    have its status changed, a processed order cannot be cancelled, and a
    pending one is cancelled and gone.
   */
  method OrderLifecycleScenario() {
    var customer, retailer := 1, 2;
    var store := new OrderStore(map[
      10 := Order(customer, None, Pending, [OrderItem(1, 2)]),
      11 := Order(customer, None, "Processing", [])]);
    assert store.ListOrders(customer) == {10, 11};
    assert store.ListOrders(retailer) == {};

    var reply := store.UpdateStatus(10, None);
    assert reply == BadRequest(StatusRequired);
    reply := store.Cancel(11);
    assert reply == BadRequest(NotPending) && 11 in store.orders;
    reply := store.Cancel(10);
    assert reply == Ok(OrderCancelled) && 10 !in store.orders;
    reply := store.UpdateStatus(11, Some("Shipped"));
    assert reply == Ok(StatusUpdated) && store.orders[11].status == "Shipped";
    reply := store.Cancel(10);
    assert reply == NotFound;
  }
}
