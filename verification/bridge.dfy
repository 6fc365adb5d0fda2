/**
  A reactor driven by a sequential interleaving of producer and runtime
  events, and what holds after every such trace: the observer ends at most
  once and only with the last notification, writes go out in enqueue order
  one at a time, one read at most is outstanding, and delivered values are
  the values read, in order.
 */
module Bridge {
  import opened Notifications
  import opened Grpc
  import opened WriteQueue
  import Reactor

  /** Something that happens to a reactor: a producer notification or a runtime callback. */
  datatype Event<Req, Resp> =
    | ProducerNext(msg: Req)
    | ProducerError
    | ProducerCompleted
    | ReadDone(ok: bool, value: Resp)   // the runtime read `value` into the slot
    | WriteDone(ok: bool)
    | Done(status: Status)
    | ResponseWritten(value: Resp)      // the runtime stores the single response of a client-streaming call

  /**
    The event can reach the reactor: the reactor still exists, producer events
    reach only writing reactors, the runtime completes only a read it was asked
    for, report success only for the write in flight, and only the client write reactor hands
    its response slot to the runtime.
   */
  predicate Enabled<Req, Resp>(s: Reactor.Reactor<Req, Resp>, e: Event<Req, Resp>) {
    !s.destroyed &&
    match e
    case ProducerNext(_) => s.shape.Writes()
    case ProducerError => s.shape.Writes()
    case ProducerCompleted => s.shape.Writes()
    case ReadDone(_, _) => s.shape.Reads() && s.armed
    case WriteDone(ok) => s.shape.Writes() && (ok ==> |s.queue| > 0)
    case Done(_) => true
    case ResponseWritten(_) => s.shape == Reactor.ClientWrite
  }

  /** Dispatch an event to the reactor's handler. */
  function Step<Req, Resp>(s: Reactor.Reactor<Req, Resp>, e: Event<Req, Resp>): Reactor.Reactor<Req, Resp>
    requires Enabled(s, e)
  {
    match e
    case ProducerNext(m) => Reactor.Enqueue(s, m)
    case ProducerError => Reactor.ProducerError(s)
    case ProducerCompleted => Reactor.ProducerCompleted(s)
    case ReadDone(ok, v) => Reactor.OnReadDone(s, ok, v)
    case WriteDone(ok) => Reactor.OnWriteDone(s, ok)
    case Done(status) => Reactor.OnDone(s, status)
    case ResponseWritten(v) => s.(slot := v)
  }

  /** Every event of `t` is enabled when it arrives. */
  predicate Valid<Req, Resp>(s: Reactor.Reactor<Req, Resp>, t: seq<Event<Req, Resp>>)
    decreases |t|
  {
    |t| == 0 || (Enabled(s, t[0]) && Valid(Step(s, t[0]), t[1..]))
  }

  /** The reactor after the events of `t`, in order. */
  function Run<Req, Resp>(s: Reactor.Reactor<Req, Resp>, t: seq<Event<Req, Resp>>): Reactor.Reactor<Req, Resp>
    requires Valid(s, t)
    decreases |t|
  {
    if |t| == 0 then s else Run(Step(s, t[0]), t[1..])
  }

  /** The reactor a call starts with: add_reactor on a client, make_server_reactor on a server. */
  function Start<Req, Resp>(shape: Reactor.Shape, init: Resp): (r: Reactor.Reactor<Req, Resp>)
    ensures Reactor.Fresh(r, shape, init)
  {
    match shape
    case ServerBidi => Reactor.MakeServerReactor(Reactor.ResponsesAndRequests, init)
    case ServerRead => Reactor.MakeServerReactor(Reactor.RequestsOnly, init)
    case ServerWrite => Reactor.MakeServerReactor(Reactor.ResponsesOnly, init)
    case _ => Reactor.AddReactor(shape, init)
  }

  // ---------------------------------------------------------------------------
  // Projections of a trace

  /** The message an event pushes, if it is the producer's on_next. */
  function PushedBy<Req, Resp>(e: Event<Req, Resp>): seq<Req> {
    if e.ProducerNext? then [e.msg] else []
  }

  /** The messages the producer pushed, in order. */
  function Pushed<Req, Resp>(t: seq<Event<Req, Resp>>): seq<Req> {
    if |t| == 0 then [] else PushedBy(t[0]) + Pushed(t[1..])
  }

  /** 1 when the event confirms a successful write. */
  function ConfirmedBy<Req, Resp>(e: Event<Req, Resp>): nat {
    if e.WriteDone? && e.ok then 1 else 0
  }

  /** The number of writes the runtime confirmed as successful. */
  function Confirmed<Req, Resp>(t: seq<Event<Req, Resp>>): nat {
    if |t| == 0 then 0 else ConfirmedBy(t[0]) + Confirmed(t[1..])
  }

  /** 1 when the event completes a read. */
  function CompletedBy<Req, Resp>(e: Event<Req, Resp>): nat {
    if e.ReadDone? then 1 else 0
  }

  /** The number of reads the runtime completed, successfully or not. */
  function ReadCompletions<Req, Resp>(t: seq<Event<Req, Resp>>): nat {
    if |t| == 0 then 0 else CompletedBy(t[0]) + ReadCompletions(t[1..])
  }

  /** The message a successful read delivers. */
  function ReadBy<Req, Resp>(e: Event<Req, Resp>): seq<Resp> {
    if e.ReadDone? && e.ok then [e.value] else []
  }

  /** The messages of the successful reads, in order. */
  function ReadValues<Req, Resp>(t: seq<Event<Req, Resp>>): seq<Resp> {
    if |t| == 0 then [] else ReadBy(t[0]) + ReadValues(t[1..])
  }

  /** 1 when a write is in flight, that is, when the queue is non-empty. */
  function InFlight<Req, Resp>(s: Reactor.Reactor<Req, Resp>): nat {
    if |s.queue| > 0 then 1 else 0
  }

  /** 1 when a read is armed. */
  function Armed<Req, Resp>(s: Reactor.Reactor<Req, Resp>): nat {
    if s.armed then 1 else 0
  }

  // ---------------------------------------------------------------------------
  // The state invariant

  /**
    What holds of every reachable reactor: a live reactor has told its
    observer nothing terminal and has a read armed iff it reads; a destroyed
    reactor with an observer has ended it exactly once; the subscription is
    disposed exactly when a reactor that holds one is destroyed; the front
    of a non-empty queue is the last message handed to StartWrite; and the
    client write reactor tells its observer nothing while the call lasts, and
    at its end either the stored response and completion, or one error.
   */
  ghost predicate Inv<Req, Resp>(s: Reactor.Reactor<Req, Resp>) {
    && (!s.shape.Writes() ==> s.queue == [] && Writes(s.ops) == [])
    && (!s.shape.HasSink() ==> s.sink == [])
    && (s.disposed <==> s.destroyed && s.shape.HasSubscription())
    && (!s.destroyed ==> (s.armed <==> s.shape.Reads()) && NoTerminal(s.sink))
    && (s.destroyed && s.shape.HasSink() ==> EndsOnce(s.sink))
    && (|s.queue| > 0 ==> |Writes(s.ops)| > 0 && Writes(s.ops)[|Writes(s.ops)| - 1] == s.queue[0])
    && (s.shape == Reactor.ClientWrite && !s.destroyed ==> s.sink == [])
    && (s.shape == Reactor.ClientWrite && s.destroyed ==>
          s.sink == [OnNext(s.slot), OnCompleted] || (|s.sink| == 1 && s.sink[0].OnError?))
  }

  lemma StartInv<Req, Resp>(shape: Reactor.Shape, init: Resp)
    ensures Inv(Start<Req, Resp>(shape, init))
    ensures Writes(Start<Req, Resp>(shape, init).ops) == []
    ensures ReadRequests(Start<Req, Resp>(shape, init).ops) == Armed(Start<Req, Resp>(shape, init))
  {
    var s := Start<Req, Resp>(shape, init);
    var reading := shape.Reads();
    if shape == Reactor.ClientBidi {
      assert s.ops == [Bind, StartRead] + [StartCall];
      ReadCount<Req>([Bind, StartRead], true);
      NoWrites(s.ops);
      Extend<Req>([Bind, StartRead], [StartCall]);
    } else {
      assert forall i | 0 <= i < |s.ops| :: !s.ops[i].StartWrite? && (s.ops[i].StartRead? <==> i == |s.ops| - 1 && reading);
      NoWrites(s.ops);
      ReadCount(s.ops, reading);
    }
  }

  /** A log without StartWrite requests writes nothing. */
  lemma {:induction false} NoWrites<Req>(ops: seq<Op<Req>>)
    requires forall i | 0 <= i < |ops| :: !ops[i].StartWrite?
    ensures Writes(ops) == []
  {
    if |ops| > 0 {
      NoWrites(ops[..|ops| - 1]);
    }
  }

  /** A log whose only StartRead, if any, is its last request holds that many reads. */
  lemma {:induction false} ReadCount<Req>(ops: seq<Op<Req>>, lastReads: bool)
    requires forall i | 0 <= i < |ops| :: ops[i].StartRead? <==> i == |ops| - 1 && lastReads
    ensures ReadRequests(ops) == if lastReads && |ops| > 0 then 1 else 0
  {
    if |ops| > 0 {
      ReadCount(ops[..|ops| - 1], false);
    }
  }

  /** Extending the log by at most one request extends the projections by that request. */
  lemma Extend<Req>(ops: seq<Op<Req>>, more: seq<Op<Req>>)
    requires |more| <= 1
    ensures Writes(ops + more) == Writes(ops) + (if |more| == 1 && more[0].StartWrite? then [more[0].msg] else [])
    ensures ReadRequests(ops + more) == ReadRequests(ops) + (if |more| == 1 && more[0].StartRead? then 1 else 0)
  {
    if |more| == 0 {
      assert ops + more == ops;
    } else {
      assert more == [more[0]];
      IssueOne(ops, more[0]);
    }
  }

  /** The requests one event issues. */
  function Issued<Req, Resp>(s: Reactor.Reactor<Req, Resp>, e: Event<Req, Resp>): (more: seq<Op<Req>>)
    requires Enabled(s, e)
    ensures Step(s, e).ops == s.ops + more
    ensures |more| <= 1
  {
    match e
    case ProducerNext(m) => if |s.queue| == 0 then [StartWrite(m)] else []
    case ProducerError => [Reactor.EndOfWrites(s.shape, true)]
    case ProducerCompleted => [Reactor.EndOfWrites(s.shape, false)]
    case ReadDone(ok, _) => if ok then [StartRead] else []
    case WriteDone(ok) =>
      if ok && |s.queue| > 1 then [StartWrite(s.queue[1])] else []
    case Done(_) => []
    case ResponseWritten(_) => []
  }

  /** The message handed to StartWrite by one event, if any. */
  function NewWrites<Req, Resp>(s: Reactor.Reactor<Req, Resp>, e: Event<Req, Resp>): (w: seq<Req>)
    requires Enabled(s, e)
    ensures Writes(Step(s, e).ops) == Writes(s.ops) + w
    ensures ReadRequests(Step(s, e).ops) == ReadRequests(s.ops) + (if e.ReadDone? && e.ok then 1 else 0)
  {
    var more := Issued(s, e);
    Extend(s.ops, more);
    if |more| == 1 && more[0].StartWrite? then [more[0].msg] else []
  }

  lemma ProducerNextInv<Req, Resp>(s: Reactor.Reactor<Req, Resp>, m: Req)
    requires Inv(s) && Enabled(s, ProducerNext(m))
    ensures Inv(Step(s, ProducerNext(m)))
  {
    var w := NewWrites(s, ProducerNext(m));
  }

  lemma ProducerEndInv<Req, Resp>(s: Reactor.Reactor<Req, Resp>, e: Event<Req, Resp>)
    requires Inv(s) && Enabled(s, e) && (e.ProducerError? || e.ProducerCompleted?)
    ensures Inv(Step(s, e))
  {
    var w := NewWrites(s, e);
  }

  lemma ReadDoneInv<Req, Resp>(s: Reactor.Reactor<Req, Resp>, ok: bool, v: Resp)
    requires Inv(s) && Enabled(s, ReadDone(ok, v))
    ensures Inv(Step(s, ReadDone(ok, v)))
  {
    var w := NewWrites(s, ReadDone(ok, v));
  }

  lemma WriteDoneInv<Req, Resp>(s: Reactor.Reactor<Req, Resp>, ok: bool)
    requires Inv(s) && Enabled(s, WriteDone(ok))
    ensures Inv(Step(s, WriteDone(ok)))
  {
    var w := NewWrites(s, WriteDone(ok));
  }

  lemma DoneInv<Req, Resp>(s: Reactor.Reactor<Req, Resp>, status: Status)
    requires Inv(s) && Enabled(s, Done(status))
    ensures Inv(Step(s, Done(status)))
  {
    var r := Step(s, Done(status));
    assert r.sink == s.sink + Reactor.DoneNotifications(s.shape, s.slot, status);
  }

  /** Every handler keeps the invariant. */
  lemma StepInv<Req, Resp>(s: Reactor.Reactor<Req, Resp>, e: Event<Req, Resp>)
    requires Inv(s) && Enabled(s, e)
    ensures Inv(Step(s, e))
  {
    match e {
      case ProducerNext(m) => ProducerNextInv(s, m);
      case ProducerError => ProducerEndInv(s, e);
      case ProducerCompleted => ProducerEndInv(s, e);
      case ReadDone(ok, v) => ReadDoneInv(s, ok, v);
      case WriteDone(ok) => WriteDoneInv(s, ok);
      case Done(status) => DoneInv(s, status);
      case ResponseWritten(v) =>
    }
  }

  /** A trace keeps the invariant. */
  lemma {:induction false} RunInv<Req, Resp>(s: Reactor.Reactor<Req, Resp>, t: seq<Event<Req, Resp>>)
    requires Inv(s) && Valid(s, t)
    ensures Inv(Run(s, t))
    decreases |t|
  {
    if |t| > 0 {
      StepInv(s, t[0]);
      RunInv(Step(s, t[0]), t[1..]);
    }
  }

  /** Two extensions in a row are one extension by both. */
  lemma Chain<T>(whole: seq<T>, middle: seq<T>, first: seq<T>, p1: seq<T>, p2: seq<T>, both: seq<T>)
    requires whole == middle + p2 && middle == first + p1 && both == p1 + p2
    ensures whole == first + both
  {
  }

  // ---------------------------------------------------------------------------
  // Writes: FIFO order and a single write in flight

  /**
    One event: what has been handed to StartWrite, followed by what waits
    behind the front, grows by exactly the message pushed; and the writes
    issued grow by the confirmations, up to the change in the write in flight.
   */
  lemma StepWrites<Req, Resp>(s: Reactor.Reactor<Req, Resp>, e: Event<Req, Resp>)
    requires Enabled(s, e)
    ensures Writes(Step(s, e).ops) + Backlog(Step(s, e).queue) == Writes(s.ops) + Backlog(s.queue) + PushedBy(e)
    ensures |Writes(Step(s, e).ops)| + InFlight(s) == |Writes(s.ops)| + ConfirmedBy(e) + InFlight(Step(s, e))
  {
    match e {
      case ProducerNext(m) => EnqueueWrites(s, m);
      case WriteDone(ok) => WriteDoneWrites(s, ok);
      case _ => OtherWrites(s, e);
    }
  }

  lemma EnqueueWrites<Req, Resp>(s: Reactor.Reactor<Req, Resp>, m: Req)
    requires Enabled(s, ProducerNext(m))
    ensures Writes(Step(s, ProducerNext(m)).ops) + Backlog(Step(s, ProducerNext(m)).queue) == Writes(s.ops) + Backlog(s.queue) + [m]
    ensures |Writes(Step(s, ProducerNext(m)).ops)| + InFlight(s) == |Writes(s.ops)| + InFlight(Step(s, ProducerNext(m)))
  {
    var r := Reactor.Enqueue(s, m);
    var a := Push(s.queue, m);
    var more := if a.write.Some? then [StartWrite(a.write.value)] else [];
    assert r.ops == s.ops + more && r.queue == a.queue;
    Extend(s.ops, more);
    assert Writes(r.ops) == Writes(s.ops) + a.write.ToSeq();
  }

  lemma WriteDoneWrites<Req, Resp>(s: Reactor.Reactor<Req, Resp>, ok: bool)
    requires Enabled(s, WriteDone(ok))
    ensures Writes(Step(s, WriteDone(ok)).ops) + Backlog(Step(s, WriteDone(ok)).queue) == Writes(s.ops) + Backlog(s.queue)
    ensures |Writes(Step(s, WriteDone(ok)).ops)| + InFlight(s) == |Writes(s.ops)| + (if ok then 1 else 0) + InFlight(Step(s, WriteDone(ok)))
  {
    if ok {
      assert Step(s, WriteDone(ok)) == Reactor.OnWriteDone(s, true);
      WriteConfirmedWrites(s);
    } else {
      var r := Reactor.OnWriteDone(s, false);
      assert r.ops == s.ops && r.queue == s.queue;
    }
  }

  lemma WriteConfirmedWrites<Req, Resp>(s: Reactor.Reactor<Req, Resp>)
    requires !s.destroyed && s.shape.Writes() && |s.queue| > 0
    ensures var r := Reactor.OnWriteDone(s, true);
      && Writes(r.ops) + Backlog(r.queue) == Writes(s.ops) + Backlog(s.queue)
      && |Writes(r.ops)| + InFlight(s) == |Writes(s.ops)| + 1 + InFlight(r)
  {
    var r := Reactor.OnWriteDone(s, true);
    var a := Pop(s.queue);
    var more := if a.write.Some? then [StartWrite(a.write.value)] else [];
    assert r.ops == s.ops + more && r.queue == a.queue;
    Extend(s.ops, more);
    assert Writes(r.ops) == Writes(s.ops) + a.write.ToSeq();
  }

  lemma OtherWrites<Req, Resp>(s: Reactor.Reactor<Req, Resp>, e: Event<Req, Resp>)
    requires Enabled(s, e) && !e.ProducerNext? && !e.WriteDone?
    ensures Writes(Step(s, e).ops) == Writes(s.ops) && Step(s, e).queue == s.queue
  {
    var w := NewWrites(s, e);
  }

  lemma {:induction false} RunWrites<Req, Resp>(s: Reactor.Reactor<Req, Resp>, t: seq<Event<Req, Resp>>)
    requires Valid(s, t)
    ensures Writes(Run(s, t).ops) + Backlog(Run(s, t).queue) == Writes(s.ops) + Backlog(s.queue) + Pushed(t)
    decreases |t|
  {
    if |t| == 0 {
      assert Run(s, t) == s;
    } else {
      var s' := Step(s, t[0]);
      var f := Run(s', t[1..]);
      assert Run(s, t) == f;
      StepWrites(s, t[0]);
      RunWrites(s', t[1..]);
      Chain(Writes(f.ops) + Backlog(f.queue), Writes(s'.ops) + Backlog(s'.queue),
            Writes(s.ops) + Backlog(s.queue), PushedBy(t[0]), Pushed(t[1..]), Pushed(t));
    }
  }

  lemma {:induction false} RunFlight<Req, Resp>(s: Reactor.Reactor<Req, Resp>, t: seq<Event<Req, Resp>>)
    requires Valid(s, t)
    ensures |Writes(Run(s, t).ops)| + InFlight(s) == |Writes(s.ops)| + Confirmed(t) + InFlight(Run(s, t))
    decreases |t|
  {
    if |t| == 0 {
      assert Run(s, t) == s;
    } else {
      var s' := Step(s, t[0]);
      var f := Run(s', t[1..]);
      assert Run(s, t) == f;
      StepWrites(s, t[0]);
      RunFlight(s', t[1..]);
    }
  }

  // ---------------------------------------------------------------------------
  // Reads: one read at most in flight, values delivered in read order

  /** The notifications one event adds to the observer. */
  lemma StepSink<Req, Resp>(s: Reactor.Reactor<Req, Resp>, e: Event<Req, Resp>)
    requires Enabled(s, e)
    requires s.shape != Reactor.ClientWrite
    ensures Values(Step(s, e).sink) == Values(s.sink) + ReadBy(e)
  {
    match e {
      case ReadDone(ok, v) => ReadDoneSink(s, ok, v);
      case WriteDone(ok) => WriteDoneSink(s, ok);
      case Done(status) => DoneSink(s, status);
      case _ =>
    }
  }

  lemma ReadDoneSink<Req, Resp>(s: Reactor.Reactor<Req, Resp>, ok: bool, v: Resp)
    requires !s.destroyed && s.shape.Reads()
    ensures Values(Reactor.OnReadDone(s, ok, v).sink) == Values(s.sink) + (if ok then [v] else [])
  {
    var r := Reactor.OnReadDone(s, ok, v);
    var n := r.sink[|r.sink| - 1];
    assert r.sink == s.sink + [n];
    ValuesSnoc(s.sink, n);
  }

  lemma WriteDoneSink<Req, Resp>(s: Reactor.Reactor<Req, Resp>, ok: bool)
    requires !s.destroyed && s.shape.Writes() && (ok ==> |s.queue| > 0)
    ensures Values(Reactor.OnWriteDone(s, ok).sink) == Values(s.sink)
  {
    var r := Reactor.OnWriteDone(s, ok);
    if !ok && s.shape.HasSink() {
      var n := r.sink[|r.sink| - 1];
      assert r.sink == s.sink + [n];
      ValuesSnoc(s.sink, n);
    }
  }

  lemma DoneSink<Req, Resp>(s: Reactor.Reactor<Req, Resp>, status: Status)
    requires !s.destroyed && s.shape != Reactor.ClientWrite
    ensures Values(Reactor.OnDone(s, status).sink) == Values(s.sink)
  {
    var r := Reactor.OnDone(s, status);
    if s.shape.HasSink() {
      var n := r.sink[|r.sink| - 1];
      assert r.sink == s.sink + [n];
      ValuesSnoc(s.sink, n);
    }
  }

  lemma StepReads<Req, Resp>(s: Reactor.Reactor<Req, Resp>, e: Event<Req, Resp>)
    requires Enabled(s, e)
    ensures ReadRequests(Step(s, e).ops) + Armed(s) == ReadRequests(s.ops) + CompletedBy(e) + Armed(Step(s, e))
  {
    var w := NewWrites(s, e);
  }

  /** Along every trace the reads issued are the reads completed plus the one armed. */
  lemma {:induction false} RunReads<Req, Resp>(s: Reactor.Reactor<Req, Resp>, t: seq<Event<Req, Resp>>)
    requires Valid(s, t)
    ensures ReadRequests(Run(s, t).ops) + Armed(s) == ReadRequests(s.ops) + ReadCompletions(t) + Armed(Run(s, t))
    decreases |t|
  {
    if |t| == 0 {
      assert Run(s, t) == s;
    } else {
      var s' := Step(s, t[0]);
      assert Run(s, t) == Run(s', t[1..]);
      StepReads(s, t[0]);
      RunReads(s', t[1..]);
    }
  }

  /**
    Along every trace of a reactor other than the client writer, the observer's
    values grow by exactly the values read successfully, in order.
   */
  lemma {:induction false} RunReadValues<Req, Resp>(s: Reactor.Reactor<Req, Resp>, t: seq<Event<Req, Resp>>)
    requires Valid(s, t)
    ensures s.shape != Reactor.ClientWrite ==> Values(Run(s, t).sink) == Values(s.sink) + ReadValues(t)
    decreases |t|
  {
    if |t| == 0 {
      assert Run(s, t) == s;
    } else if s.shape != Reactor.ClientWrite {
      var s' := Step(s, t[0]);
      var f := Run(s', t[1..]);
      assert Run(s, t) == f;
      StepSink(s, t[0]);
      assert s'.shape == s.shape;
      RunReadValues(s', t[1..]);
      Chain(Values(f.sink), Values(s'.sink), Values(s.sink), ReadBy(t[0]), ReadValues(t[1..]), ReadValues(t));
    }
  }

  // ---------------------------------------------------------------------------
  // The bridge, end to end

  /**
    For every reactor shape and every trace of events that can reach it:
    - the observer receives at most one terminal notification, only as its
      last, and receives one exactly when a reactor with an observer has
      destroyed itself;
    - the subscription is disposed exactly when a reactor holding one is destroyed;
    - the writes issued, followed by the messages waiting behind the write in
      flight, are exactly the messages pushed, in order;
    - the writes issued are the confirmed ones plus the one in flight, which
      exists exactly when the queue is non-empty;
    - the reads issued are the completed ones plus the one armed;
    - except for the client write reactor, the values the observer receives
      are the values read, in order;
    - the client write reactor, which reads nothing, tells its observer
      nothing while the call lasts, and at its end either its stored
      response followed by completion, or one error.
   */
  lemma BridgeTheorem<Req, Resp>(shape: Reactor.Shape, init: Resp, t: seq<Event<Req, Resp>>)
    requires Valid(Start(shape, init), t)
    ensures var f := Run(Start(shape, init), t);
      && TerminalOnlyLast(f.sink)
      && (EndsOnce(f.sink) <==> f.destroyed && shape.HasSink())
      && (f.disposed <==> f.destroyed && shape.HasSubscription())
      && Writes(f.ops) + Backlog(f.queue) == Pushed(t)
      && |Writes(f.ops)| == Confirmed(t) + InFlight(f)
      && ReadRequests(f.ops) == ReadCompletions(t) + Armed(f)
      && (shape != Reactor.ClientWrite ==> Values(f.sink) == ReadValues(t))
      && (shape == Reactor.ClientWrite && !f.destroyed ==> f.sink == [])
      && (shape == Reactor.ClientWrite && f.destroyed ==>
            f.sink == [OnNext(f.slot), OnCompleted] || (|f.sink| == 1 && f.sink[0].OnError?))
  {
    var s := Start<Req, Resp>(shape, init);
    StartInv<Req, Resp>(shape, init);
    RunInv(s, t);
    RunWrites(s, t);
    RunFlight(s, t);
    RunReads(s, t);
    RunReadValues(s, t);
    var f := Run(s, t);
    assert f.shape == shape by { RunKeepsShape(s, t); }
  }

  lemma {:induction false} RunKeepsShape<Req, Resp>(s: Reactor.Reactor<Req, Resp>, t: seq<Event<Req, Resp>>)
    requires Valid(s, t)
    ensures Run(s, t).shape == s.shape
    decreases |t|
  {
    if |t| > 0 {
      RunKeepsShape(Step(s, t[0]), t[1..]);
    }
  }

  /** The writes issued are a prefix of the messages pushed: writes go out in enqueue order. */
  lemma WritesInEnqueueOrder<Req, Resp>(shape: Reactor.Shape, init: Resp, t: seq<Event<Req, Resp>>)
    requires Valid(Start(shape, init), t)
    ensures Writes(Run(Start(shape, init), t).ops) <= Pushed(t)
    ensures var f := Run(Start(shape, init), t); |f.queue| > 0 ==> Pushed(t) == Writes(f.ops) + f.queue[1..]
  {
    BridgeTheorem(shape, init, t);
  }

  // ---------------------------------------------------------------------------
  // The client write reactor's single response

  /** The response slot after `t`: the last response the runtime stored, or `v` if it stored none. */
  function Response<Req, Resp>(v: Resp, t: seq<Event<Req, Resp>>): Resp
    decreases |t|
  {
    if |t| == 0 then v
    else Response(if t[0].ResponseWritten? then t[0].value else v, t[1..])
  }

  /** Running a trace and then one more event is running the longer trace. */
  lemma {:induction false} RunSnoc<Req, Resp>(s: Reactor.Reactor<Req, Resp>, t: seq<Event<Req, Resp>>, e: Event<Req, Resp>)
    requires Valid(s, t) && Enabled(Run(s, t), e)
    ensures Valid(s, t + [e]) && Run(s, t + [e]) == Step(Run(s, t), e)
    decreases |t|
  {
    if |t| == 0 {
      assert t + [e] == [e];
      assert [e][1..] == [];
    } else {
      assert (t + [e])[0] == t[0];
      assert (t + [e])[1..] == t[1..] + [e];
      RunSnoc(Step(s, t[0]), t[1..], e);
    }
  }

  /** A reactor that reads nothing changes its slot only when the runtime stores a response. */
  lemma {:induction false} RunSlot<Req, Resp>(s: Reactor.Reactor<Req, Resp>, t: seq<Event<Req, Resp>>)
    requires Valid(s, t) && !s.shape.Reads()
    ensures Run(s, t).slot == Response(s.slot, t)
    decreases |t|
  {
    if |t| > 0 {
      var s' := Step(s, t[0]);
      assert s'.shape == s.shape;
      assert s'.slot == (if t[0].ResponseWritten? then t[0].value else s.slot);
      RunSlot(s', t[1..]);
    }
  }

  /**
    The client write reactor over a whole call: while the call lasts its
    observer has received nothing; when the call ends with `status`, the
    observer receives the last response the runtime stored and completion if
    the status is OK, and otherwise one error carrying the status message.
   */
  lemma ClientWriteOutcome<Req, Resp>(init: Resp, t: seq<Event<Req, Resp>>, status: Status)
    requires Valid(Start(Reactor.ClientWrite, init), t)
    requires !Run(Start(Reactor.ClientWrite, init), t).destroyed
    ensures Run(Start(Reactor.ClientWrite, init), t).sink == []
    ensures Valid(Start(Reactor.ClientWrite, init), t + [Done(status)])
    ensures Run(Start(Reactor.ClientWrite, init), t + [Done(status)]).sink ==
              if status.code == OK then [OnNext(Response(init, t)), OnCompleted]
              else [OnError(Failure(ReactorFailed, status.message))]
  {
    var s := Start<Req, Resp>(Reactor.ClientWrite, init);
    StartInv<Req, Resp>(Reactor.ClientWrite, init);
    RunInv(s, t);
    RunKeepsShape(s, t);
    RunSlot(s, t);
    var f := Run(s, t);
    assert f.shape == Reactor.ClientWrite && f.sink == [];
    RunSnoc(s, t, Done(status));
    assert Step(f, Done(status)) == Reactor.OnDone(f, status);
  }
}
