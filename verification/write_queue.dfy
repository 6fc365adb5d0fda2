/**
  The outbound write queue shared by every writing reactor: a FIFO of pending
  messages whose front is the one write the runtime has in flight.
 */
module WriteQueue {
  import opened Optional

  /** The queue after one operation, and the message it hands to StartWrite, if any. */
  datatype Advance<M> = Advance(queue: seq<M>, write: Option<M>)

  /** The messages waiting behind the front, which is the write in flight. */
  function Backlog<M>(q: seq<M>): (b: seq<M>)
    ensures |q| > 0 ==> q == [q[0]] + b
    ensures |q| == 0 ==> b == []
  {
    if |q| == 0 then [] else q[1..]
  }

  /**
    push_back, then StartWrite(front) when the size becomes 1: a write starts
    only when none was in flight, and it is the message just pushed.
   */
  function Push<M>(q: seq<M>, m: M): (r: Advance<M>)
    ensures r.queue == q + [m]
    ensures r.write.Some? <==> |q| == 0
    ensures r.write.Some? ==> r.write.value == r.queue[0]
    ensures r.write.ToSeq() + Backlog(r.queue) == Backlog(q) + [m]
  {
    Advance(q + [m], if |q| == 0 then Some(m) else None)
  }

  /**
    The confirmed write leaves: pop_front, then StartWrite(front) while the
    queue is non-empty. What starts or still waits is exactly what waited.
   */
  function Pop<M>(q: seq<M>): (r: Advance<M>)
    requires |q| > 0
    ensures [q[0]] + r.queue == q
    ensures r.write.Some? <==> |r.queue| > 0
    ensures r.write.Some? ==> r.write.value == r.queue[0]
    ensures r.write.ToSeq() + Backlog(r.queue) == Backlog(q)
  {
    var rest := q[1..];
    Advance(rest, if |rest| > 0 then Some(rest[0]) else None)
  }
}
