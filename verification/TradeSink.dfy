/** The adapter's trade buffer. */
module TradeSink {
  import opened Types

  /** The adapter's trade buffer: room for one trade more than the capacity. */
  class TradeSink {
    const buf: array<Trade>
    var n: u64

    ghost predicate Valid()
      reads `n
    {
      n <= buf.Length < TWO64
    }

    ghost function Contents(): seq<Trade>
      requires Valid()
      reads `n, buf
    {
      buf[..n]
    }

    constructor (capacity: u64)
      requires capacity + 1 < TWO32
      ensures Valid() && fresh(buf) && buf.Length == capacity + 1 && Contents() == []
    {
      buf := new Trade[capacity + 1](i => Trade(0, 0, 0, 0));
      n := 0;
    }

    method Reset()
      requires Valid()
      modifies `n
      ensures Valid() && Contents() == [] && n == 0
    {
      n := 0;
    }

    method Emit(t: Trade)
      requires Valid() && n < buf.Length
      modifies `n, buf
      ensures Valid() && Contents() == old(Contents()) + [t] && n == old(n) + 1
    {
      buf[n] := t;
      n := n + 1;
    }
  }
}
