/** Orders, trades and price levels of the full-feature engine. */
module FullTypes {
  datatype Side = Buy | Sell
  datatype OrderType = Limit | Market | MarketToLimit | StopLimit | StopMarket
  datatype TimeInForce = Gtc | Gtd | Ioc | Fok | Day
  datatype Status = New | PartiallyFilled | Filled | Cancelled | Expired | Triggered
  datatype Policy = NoPolicy | CancelNewest | CancelOldest | CancelBoth | Decrement

  datatype Order = Order(id: nat, side: Side, kind: OrderType, tif: TimeInForce, price: int, stopPrice: int,
                         quantity: int, remaining: int, minQty: int, display: int, visible: int, postOnly: bool,
                         status: Status, timestamp: nat, expire: nat, group: nat, policy: Policy)

  datatype Trade = Trade(id: nat, price: int, qty: int, aggressor: nat, passive: nat, side: Side, timestamp: nat)

  // One price with its orders, first in first out.
  datatype Level = Level(price: int, queue: seq<Order>)

  function Min(a: int, b: int): int {
    if a < b then a else b
  }

  // A taker of this side prefers price p to price q.
  predicate Better(side: Side, p: int, q: int) {
    if side == Buy then p < q else p > q
  }

  // Price 0 stands for any price.
  predicate CanMatch(inc: Order, price: int) {
    inc.price == 0 || if inc.side == Buy then inc.price >= price else inc.price <= price
  }

  predicate Conflict(a: Order, b: Order) {
    a.group != 0 && b.group != 0 && a.group == b.group
  }

  // The part of what remains that is shown.
  function Shown(display: int, remaining: int): int {
    if display > 0 then Min(display, remaining) else remaining
  }

  // Something is shown of every resting order, all of it unless it is an iceberg, and never more than its display.
  predicate IcebergOk(o: Order) {
    && 0 < o.visible <= o.remaining
    && (if o.display > 0 then o.visible <= o.display else o.visible == o.remaining)
  }
}
