/** Machine integers, request codes and result codes shared by every module. */
module Types {
  const TWO64: int := 0x1_0000_0000_0000_0000
  const TWO32: int := 0x1_0000_0000

  type u64 = x: int | 0 <= x < TWO64
  type u32 = x: int | 0 <= x < TWO32

  // Sides, which also name the two price trees.
  const BUY: u64 := 0
  const SELL: u64 := 1

  // Order types.
  const LIMIT: u64 := 0
  const MARKET: u64 := 1
  const IOC: u64 := 2
  const POST_ONLY: u64 := 3

  // Self-trade-prevention modes.
  const STP_NONE: u64 := 0
  const STP_CANCEL_NEW: u64 := 1
  const STP_CANCEL_OLD: u64 := 2
  const STP_CANCEL_BOTH: u64 := 3
  const STP_DECREMENT: u64 := 4

  // Result codes of the generated matcher.
  const ACCEPTED: u64 := 0
  const CANCELLED: u64 := 1
  const BAD_TYPE: u64 := 2
  const BAD_FIELD: u64 := 3
  const DUPLICATE: u64 := 4
  const NO_CAPACITY: u64 := 5
  const WOULD_CROSS: u64 := 6
  const UNKNOWN_ID: u64 := 7

  datatype Request = Request(id: u64, account: u64, side: u64, otype: u64, stp: u64, price: u64, qty: u64)

  datatype Order = Order(id: u64, account: u64, side: u64, stp: u64, price: u64, qty: u64, remaining: u64)

  datatype Trade = Trade(maker: u64, taker: u64, price: u64, qty: u64)

  function Min(a: int, b: int): int {
    if a < b then a else b
  }
}
