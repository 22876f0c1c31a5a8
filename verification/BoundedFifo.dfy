/** The sequential specification of the queue: a FIFO of at most `cap` values. */
module BoundedFifo {
  import opened Options

  /** The payload of the queue. */
  type Value(==, !new)

  datatype Op = Enqueue(v: Value) | Dequeue(x: Value)

  /** The contents after a history, or None when some operation was not possible where it stands. */
  function Fifo(ops: seq<Op>, cap: nat): Option<seq<Value>> {
    if ops == [] then Some([])
    else
      var n := |ops| - 1;
      match Fifo(ops[..n], cap)
      case None => None
      case Some(q) =>
        match ops[n]
        case Enqueue(v) => if |q| < cap then Some(q + [v]) else None
        case Dequeue(x) => if q != [] && q[0] == x then Some(q[1..]) else None
  }

  lemma {:induction false} FifoSnoc(ops: seq<Op>, op: Op, cap: nat)
    ensures Fifo(ops + [op], cap) ==
            match Fifo(ops, cap) {
              case None => None
              case Some(q) =>
                match op {
                  case Enqueue(v) => if |q| < cap then Some(q + [v]) else None
                  case Dequeue(x) => if q != [] && q[0] == x then Some(q[1..]) else None
                }
            }
  {
    assert (ops + [op])[..|ops|] == ops;
  }
}
