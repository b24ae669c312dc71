/** The order handlers of src/controllers/order.controller.ts over an
    in-memory store: the user table they resolve clients in, the order headers
    and the line-item table. Each handler is a method; its `fault` parameter
    says which store call throws, if any. The line-item loops, which the source
    starts without awaiting, run here one entry after another. */
module Orders {
  import opened Common
  import opened Records
  import opened LineItems

  class OrderController {
    var users: map<Id, User>
    var orders: map<Id, Order>
    var items: seq<LineItem>
    /** The id the store gives the next new order. */
    var nextId: nat

    /** Every stored order has an id below `nextId`, so `nextId` is fresh. */
    ghost predicate Valid()
      reads this
    {
      forall k :: k in orders ==> k < nextId
    }

    /** A controller over the given users, with no orders yet. */
    constructor (users: map<Id, User>)
      ensures Valid()
      ensures this.users == users && orders == map[] && items == []
    {
      this.users := users;
      orders := map[];
      items := [];
      nextId := 0;
    }

    /** `getOrders`: every order, or 500 when the query throws
        (`FindFails`). */
    method GetOrders(fault: Fault) returns (code: int, all: map<Id, Order>)
      ensures fault.FindFails? ==> code == ServerError && all == map[]
      ensures !fault.FindFails? ==> code == Ok && all == orders
    {
      if fault.FindFails? {
        return ServerError, map[];
      }
      return Ok, orders;
    }

    /** `getOrder`: 404 when no order has the id, else that order; nothing
        changes. `FindFails`: the `findById` throws. */
    method GetOrder(id: Id, fault: Fault) returns (code: int, order: Option<Order>)
      ensures fault.FindFails? ==> code == ServerError && order.None?
      ensures !fault.FindFails? && id !in orders ==> code == NotFound && order.None?
      ensures !fault.FindFails? && id in orders ==> code == Ok && order == Some(orders[id])
    {
      if fault.FindFails? {
        return ServerError, None;
      }
      if id !in orders {
        return NotFound, None;
      }
      return Ok, Some(orders[id]);
    }

    /** `createOrder`: resolve the client by civil ID, save the header, then
        one line item per `details` entry. `FindFails`: the client lookup
        throws; `WriteFails`: saving the header throws. */
    method CreateOrder(address: string, neigh: string, state: string, total: Number,
                       clientCI: string, details: seq<Detail>, fault: Fault)
      returns (code: int, created: Option<Id>)
      requires Valid()
      modifies this`orders, this`items, this`nextId
      ensures Valid()
      // a failed lookup, an unknown client or a failed save: nothing is written
      ensures fault.FindFails? ==>
        code == ServerError && created.None? && orders == old(orders) && items == old(items)
      ensures !fault.FindFails? && FindUserByCi(users, clientCI).None? ==>
        code == NotFound && created.None? && orders == old(orders) && items == old(items)
      ensures fault.WriteFails? && FindUserByCi(users, clientCI).Some? ==>
        code == ServerError && created.None? && orders == old(orders) && items == old(items)
      // success: a new header for the client, then the entries' line items
      ensures fault.NoFault? && FindUserByCi(users, clientCI).Some? ==>
        && code == Created && created.Some? && created.value !in old(orders)
        && orders == old(orders)[created.value := Order(address, neigh, state, total, FindUserByCi(users, clientCI).value)]
        && items == old(items) + NewItems(created.value, details)
    {
      if fault.FindFails? {
        return ServerError, None;
      }
      var client := FindUserByCi(users, clientCI);
      if client.None? {
        return NotFound, None;
      }
      var id := nextId;
      nextId := nextId + 1;
      var order := Order(address, neigh, state, total, client.value);
      if fault.WriteFails? {
        return ServerError, None;
      }
      orders := orders[id := order];
      var i := 0;
      while i < |details|
        invariant 0 <= i <= |details|
        invariant items == old(items) + NewItems(id, details[..i])
        invariant orders == old(orders)[id := order] && nextId == id + 1
      {
        assert details[..i + 1][..i] == details[..i];
        items := items + [LineItem(id, details[i].productId, Some(details[i].quantity))];
        i := i + 1;
      }
      assert details[..|details|] == details;
      return Created, Some(id);
    }

    /** `updateOrder`: the client is resolved before the order is fetched;
        then the header's fields are overwritten, each `details` entry is
        upserted, and the header is saved. The upsert matches on the entry's
        own `orderId`, never on `id`, writes no quantity, and removes nothing.
        `FindFails`: the client lookup throws; `WriteFails`: the final save
        of the header throws, after the line items were written. */
    method UpdateOrder(id: Id, address: string, neigh: string, state: string, total: Number,
                       clientCI: string, details: seq<Detail>, fault: Fault)
      returns (code: int, updated: Option<Order>)
      requires Valid()
      modifies this`orders, this`items
      ensures Valid()
      ensures fault.FindFails? ==>
        code == ServerError && updated.None? && orders == old(orders) && items == old(items)
      // an unknown client is reported even when the order exists
      ensures !fault.FindFails? && FindUserByCi(users, clientCI).None? ==>
        code == NotFound && updated.None? && orders == old(orders) && items == old(items)
      ensures !fault.FindFails? && FindUserByCi(users, clientCI).Some? && id !in old(orders) ==>
        code == NotFound && updated.None? && orders == old(orders) && items == old(items)
      ensures !fault.FindFails? && FindUserByCi(users, clientCI).Some? && id in old(orders) ==>
        && items == UpsertAll(old(items), details)
        && (fault.WriteFails? ==> code == ServerError && updated.None? && orders == old(orders))
        && (fault.NoFault? ==>
              var order := Order(address, neigh, state, total, FindUserByCi(users, clientCI).value);
              code == Ok && updated == Some(order) && orders == old(orders)[id := order])
    {
      if fault.FindFails? {
        return ServerError, None;
      }
      var client := FindUserByCi(users, clientCI);
      if client.None? {
        return NotFound, None;
      }
      if id !in orders {
        return NotFound, None;
      }
      var order := orders[id];
      order := order.(address := address);
      order := order.(neigh := neigh);
      order := order.(state := state);
      order := order.(total := total);
      order := order.(clientId := client.value);
      var i := 0;
      while i < |details|
        invariant 0 <= i <= |details|
        invariant items == UpsertAll(old(items), details[..i])
        invariant orders == old(orders)
      {
        assert details[..i + 1][..i] == details[..i];
        items := Upsert(items, details[i]);
        i := i + 1;
      }
      assert details[..|details|] == details;
      if fault.WriteFails? {
        return ServerError, None;
      }
      orders := orders[id := order];
      return Ok, Some(order);
    }

    /** `deleteOrder`: every line item of order `id` is deleted first, then the
        header; a missing header is reported (404) only after its line items are
        gone. Success answers 201. `WriteFails`: the `deleteMany` throws;
        `FindFails`: the `findByIdAndRemove` throws. */
    method DeleteOrder(id: Id, fault: Fault) returns (code: int)
      requires Valid()
      modifies this`orders, this`items
      ensures Valid()
      ensures fault.WriteFails? ==> code == ServerError && orders == old(orders) && items == old(items)
      ensures !fault.WriteFails? ==> items == ItemsWithout(old(items), id)
      ensures fault.FindFails? ==> code == ServerError && orders == old(orders)
      ensures fault.NoFault? && id !in old(orders) ==> code == NotFound && orders == old(orders)
      ensures fault.NoFault? && id in old(orders) ==> code == Created && orders == old(orders) - {id}
      // after a delete that did not throw, nothing of order `id` is left
      ensures fault.NoFault? ==> id !in orders && forall k :: 0 <= k < |items| ==> items[k].orderId != id
    {
      if fault.WriteFails? {
        return ServerError;
      }
      items := ItemsWithout(items, id);
      if fault.FindFails? {
        return ServerError;
      }
      if id !in orders {
        return NotFound;
      }
      orders := orders - {id};
      // `order.remove()` then deletes the already-removed document: no effect
      return Created;
    }
  }
}
