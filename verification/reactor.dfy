/**
  The reactors that bridge a push-based producer and observer onto gRPC's
  callback reactors, as one immutable record per reactor and one pure function
  per callback. The shape tag selects the class: the client reactors, the
  server reactors, and the older client reactors that report typed errors and
  ignore the final status.

  `delete this` is modelled by the `destroyed` flag: every callback requires a
  reactor that is not destroyed, because after deletion no callback can run.
 */
module Reactor {
  import opened Notifications
  import opened Grpc
  import WriteQueue

  datatype Shape =
    | ClientBidi | ClientWrite | ClientRead       // bidi_reactor, write_reactor, read_reactor
    | ServerBidi | ServerWrite | ServerRead       // server_bidi_reactor, server_write_reactor, server_reader_reactor
    | LegacyBidi | LegacyRead                     // the older bidi_reactor and read_reactor
  {
    /** The reactor subscribes to a producer and owns a write queue. */
    predicate Writes() {
      ClientBidi? || ClientWrite? || ServerBidi? || ServerWrite? || LegacyBidi?
    }

    /** The reactor runs the self-re-arming read loop. */
    predicate Reads() {
      !ClientWrite? && !ServerWrite?
    }

    /** The reactor holds an observer; server_write_reactor holds none. */
    predicate HasSink() {
      !ServerWrite?
    }

    /**
      The reactor holds a disposable that Destroy disposes; the client read
      reactors hold none. server_reader_reactor subscribes to no producer: its
      disposable is default-constructed and never assigned, so its `disposed`
      flag records the disposal of an empty wrapper.
     */
    predicate HasSubscription() {
      !ClientRead? && !LegacyRead?
    }

    predicate IsServer() {
      ServerBidi? || ServerWrite? || ServerRead?
    }

    predicate IsLegacy() {
      LegacyBidi? || LegacyRead?
    }
  }

  /** What an observer of responses receives. */
  type Sink<Resp> = seq<Notification<Resp, Failure>>

  /**
    One reactor: its pending writes (the front is in flight), its read slot,
    whether a read is armed, whether it has destroyed itself and disposed its
    subscription, the requests it issued to the runtime, and what its observer
    received.
   */
  datatype Reactor<Req, Resp> = Reactor(
    shape: Shape,
    queue: seq<Req>,
    slot: Resp,
    armed: bool,
    destroyed: bool,
    disposed: bool,
    ops: seq<Op<Req>>,
    sink: Sink<Resp>)

  /** A reactor that has not yet written, received, or torn down anything. */
  ghost predicate Fresh<Req, Resp>(r: Reactor<Req, Resp>, shape: Shape, init: Resp) {
    && r.shape == shape && r.queue == [] && r.slot == init
    && !r.destroyed && !r.disposed && r.sink == []
    && (r.armed <==> shape.Reads())
  }

  /** The error a failed read is reported with. */
  function ReadFailure(shape: Shape): (f: Failure)
    ensures f.message == ReadFailedText
    ensures f.kind == (if shape.IsLegacy() then OnReadDoneNotOk else ReactorFailed)
  {
    Failure(if shape.IsLegacy() then OnReadDoneNotOk else ReactorFailed, ReadFailedText)
  }

  /** The error a failed write is reported with. */
  function WriteFailure(shape: Shape): (f: Failure)
    ensures f.message == WriteFailedText
    ensures f.kind == (if shape.IsLegacy() then OnWriteDoneNotOk else ReactorFailed)
  {
    Failure(if shape.IsLegacy() then OnWriteDoneNotOk else ReactorFailed, WriteFailedText)
  }

  /**
    The constructor. Client reactors only subscribe to their producer; server
    reactors also send the initial metadata and, when they read, arm the first read.
   */
  function Construct<Req, Resp>(shape: Shape, init: Resp): (r: Reactor<Req, Resp>)
    ensures r.shape == shape && r.queue == [] && r.slot == init && r.sink == []
    ensures !r.destroyed && !r.disposed
    ensures !shape.IsServer() ==> r.ops == [] && !r.armed
    ensures shape.IsServer() ==> r.ops == [StartSendInitialMetadata] + (if shape.Reads() then [StartRead] else [])
    ensures shape.IsServer() ==> Fresh(r, shape, init)
  {
    if shape.IsServer() then
      Reactor(shape, [], init, shape.Reads(), false, false,
              [StartSendInitialMetadata] + (if shape.Reads() then [StartRead] else []), [])
    else
      Reactor(shape, [], init, false, false, false, [], [])
  }

  /**
    Init: the client bidi reactor arms its read before starting the call, the
    client read reactor and both older reactors start the call first, and the
    client write reactor only starts the call.
   */
  function Init<Req, Resp>(s: Reactor<Req, Resp>): (r: Reactor<Req, Resp>)
    requires !s.shape.IsServer() && !s.destroyed
    ensures s.shape == ClientBidi ==> r.ops == s.ops + [StartRead, StartCall]
    ensures s.shape in {ClientRead, LegacyBidi, LegacyRead} ==> r.ops == s.ops + [StartCall, StartRead]
    ensures s.shape == ClientWrite ==> r.ops == s.ops + [StartCall]
    ensures r.armed <==> s.armed || s.shape.Reads()
    ensures r.(ops := s.ops, armed := s.armed) == s
  {
    var ops :=
      if s.shape == ClientBidi then [StartRead, StartCall]
      else if s.shape.Reads() then [StartCall, StartRead]
      else [StartCall];
    s.(ops := s.ops + ops, armed := s.armed || s.shape.Reads())
  }

  /**
    add_reactor: construct the reactor, bind it to the call with
    `(async.*method)`, then Init. The overload, chosen by the method's
    signature, fixes the shape.
   */
  function AddReactor<Req, Resp>(shape: Shape, init: Resp): (r: Reactor<Req, Resp>)
    requires !shape.IsServer()
    ensures Fresh(r, shape, init)
    ensures |r.ops| > 0 && r.ops[0] == Bind
    ensures shape == ClientBidi ==> r.ops == [Bind, StartRead, StartCall]
    ensures shape in {ClientRead, LegacyBidi, LegacyRead} ==> r.ops == [Bind, StartCall, StartRead]
    ensures shape == ClientWrite ==> r.ops == [Bind, StartCall]
  {
    var s := Construct<Req, Resp>(shape, init);
    Init(s.(ops := s.ops + [Bind]))
  }

  /** The argument lists make_server_reactor is overloaded on. */
  datatype ServerArgs = ResponsesAndRequests | RequestsOnly | ResponsesOnly {

    predicate HasResponses() {
      !RequestsOnly?
    }

    predicate HasRequests() {
      !ResponsesOnly?
    }
  }

  /**
    make_server_reactor: a responses observable makes the reactor write, a
    requests observer makes it read; construction sends the initial metadata
    and arms the first read of a reading reactor.
   */
  function MakeServerReactor<Req, Resp>(args: ServerArgs, init: Resp): (r: Reactor<Req, Resp>)
    ensures r.shape.IsServer() && Fresh(r, r.shape, init)
    ensures r.shape.Writes() <==> args.HasResponses()
    ensures r.shape.Reads() <==> args.HasRequests()
    ensures r.ops == [StartSendInitialMetadata] + (if args.HasRequests() then [StartRead] else [])
  {
    var shape := match args
      case ResponsesAndRequests => ServerBidi
      case RequestsOnly => ServerRead
      case ResponsesOnly => ServerWrite;
    Construct(shape, init)
  }

  /**
    Destroy: dispose the subscription, if the reactor holds one, then delete
    the reactor. Nothing else changes.
   */
  function Destroy<Req, Resp>(s: Reactor<Req, Resp>): (r: Reactor<Req, Resp>)
    ensures r.destroyed
    ensures r.disposed <==> s.disposed || s.shape.HasSubscription()
    ensures r.(destroyed := s.destroyed, disposed := s.disposed) == s
  {
    s.(destroyed := true, disposed := s.disposed || s.shape.HasSubscription())
  }

  /**
    The producer's on_next: the message joins the tail of the queue, and a
    StartWrite of it is issued exactly when no write was in flight.
   */
  function Enqueue<Req, Resp>(s: Reactor<Req, Resp>, m: Req): (r: Reactor<Req, Resp>)
    requires !s.destroyed && s.shape.Writes()
    ensures r.queue == s.queue + [m]
    ensures |s.queue| == 0 ==> r.ops == s.ops + [StartWrite(m)]
    ensures |s.queue| > 0 ==> r.ops == s.ops
    ensures r.(queue := s.queue, ops := s.ops) == s
  {
    var a := WriteQueue.Push(s.queue, m);
    s.(queue := a.queue, ops := s.ops + if a.write.Some? then [StartWrite(a.write.value)] else [])
  }

  /** The single request a producer's end issues: StartWritesDone on a client, Finish on a server. */
  function EndOfWrites<Req>(shape: Shape, failed: bool): (op: Op<Req>)
    ensures !shape.IsServer() ==> op == StartWritesDone
    ensures shape.IsServer() ==> op == Finish(if failed then InternalError else StatusOk)
  {
    if !shape.IsServer() then StartWritesDone
    else if failed then Finish(InternalError)
    else Finish(StatusOk)
  }

  /**
    The producer's on_error: a client asks for the writes-done handshake, a
    server finishes with INTERNAL "Internal error happens". Nothing else
    changes; in particular the observer is not told.
   */
  function ProducerError<Req, Resp>(s: Reactor<Req, Resp>): (r: Reactor<Req, Resp>)
    requires !s.destroyed && s.shape.Writes()
    ensures !s.shape.IsServer() ==> r.ops == s.ops + [StartWritesDone]
    ensures s.shape.IsServer() ==> r.ops == s.ops + [Finish(Status(INTERNAL, "Internal error happens"))]
    ensures r.(ops := s.ops) == s
  {
    s.(ops := s.ops + [EndOfWrites(s.shape, true)])
  }

  /**
    The producer's on_completed: a client asks for the writes-done handshake,
    a server finishes with OK. Nothing else changes.
   */
  function ProducerCompleted<Req, Resp>(s: Reactor<Req, Resp>): (r: Reactor<Req, Resp>)
    requires !s.destroyed && s.shape.Writes()
    ensures !s.shape.IsServer() ==> r.ops == s.ops + [StartWritesDone]
    ensures s.shape.IsServer() ==> r.ops == s.ops + [Finish(Status(OK, ""))]
    ensures r.(ops := s.ops) == s
  {
    s.(ops := s.ops + [EndOfWrites(s.shape, false)])
  }

  /**
    OnReadDone, with `v` the message the runtime read into the slot. On
    success the observer gets exactly that message and one new read is armed;
    on failure the observer gets the read error, no read is armed, and the
    reactor destroys itself.
   */
  function OnReadDone<Req, Resp>(s: Reactor<Req, Resp>, ok: bool, v: Resp): (r: Reactor<Req, Resp>)
    requires !s.destroyed && s.shape.Reads()
    ensures r.queue == s.queue && r.shape == s.shape
    ensures ok ==> && r.sink == s.sink + [OnNext(v)] && r.ops == s.ops + [StartRead]
                   && r.slot == v && r.armed && !r.destroyed && r.disposed == s.disposed
    ensures !ok ==> && r.sink == s.sink + [OnError(Failure(if s.shape.IsLegacy() then OnReadDoneNotOk else ReactorFailed,
                                                           "OnReadDone is not ok"))]
                    && r.ops == s.ops && !r.armed && r.destroyed
                    && (r.disposed <==> s.disposed || s.shape.HasSubscription())
  {
    if !ok then
      Destroy(s.(sink := s.sink + [OnError(ReadFailure(s.shape))], armed := false))
    else
      s.(slot := v, sink := s.sink + [OnNext(v)], ops := s.ops + [StartRead], armed := true)
  }

  /**
    OnWriteDone. On success the confirmed front leaves the queue and the next
    message, if any, is written; the observer, the read slot and the read loop
    are untouched. On failure nothing is popped or written, the observer (if
    the reactor has one) gets the write error, and the reactor destroys itself.
   */
  function OnWriteDone<Req, Resp>(s: Reactor<Req, Resp>, ok: bool): (r: Reactor<Req, Resp>)
    requires !s.destroyed && s.shape.Writes()
    requires ok ==> |s.queue| > 0
    ensures r.shape == s.shape && r.slot == s.slot && r.armed == s.armed
    ensures ok ==> && [s.queue[0]] + r.queue == s.queue
                   && r.ops == s.ops + (if |r.queue| > 0 then [StartWrite(r.queue[0])] else [])
                   && r.sink == s.sink && !r.destroyed && r.disposed == s.disposed
    ensures !ok ==> r.queue == s.queue && r.ops == s.ops && r.destroyed && r.disposed
    ensures !ok && s.shape.HasSink() ==>
              r.sink == s.sink + [OnError(Failure(if s.shape.IsLegacy() then OnWriteDoneNotOk else ReactorFailed,
                                                  "OnWriteDone is not ok"))]
    ensures !ok && !s.shape.HasSink() ==> r.sink == s.sink
  {
    if !ok then
      if s.shape.HasSink() then Destroy(s.(sink := s.sink + [OnError(WriteFailure(s.shape))]))
      else Destroy(s)
    else
      var a := WriteQueue.Pop(s.queue);
      s.(queue := a.queue, ops := s.ops + if a.write.Some? then [StartWrite(a.write.value)] else [])
  }

  /** What OnDone tells the observer, by shape and final status. */
  function DoneNotifications<Resp>(shape: Shape, slot: Resp, status: Status): Sink<Resp> {
    match shape
    case ClientBidi | ClientRead =>
      if status.Ok() then [OnCompleted] else [OnError(Failure(ReactorFailed, status.message))]
    case ClientWrite =>
      if status.Ok() then [OnNext(slot), OnCompleted] else [OnError(Failure(ReactorFailed, status.message))]
    case ServerBidi | ServerRead | LegacyBidi | LegacyRead => [OnCompleted]
    case ServerWrite => []
  }

  /**
    OnDone, the call's end. The client reactors report the status: completion
    when it is OK, otherwise an error carrying its message; the client write
    reactor first hands over the single response. The server and older
    reactors ignore the status and complete. Then the reactor destroys itself.
   */
  function OnDone<Req, Resp>(s: Reactor<Req, Resp>, status: Status): (r: Reactor<Req, Resp>)
    requires !s.destroyed
    ensures r.destroyed && (r.disposed <==> s.disposed || s.shape.HasSubscription())
    ensures r.queue == s.queue && r.ops == s.ops && r.slot == s.slot && r.shape == s.shape
    ensures s.shape in {ClientBidi, ClientRead} ==>
              r.sink == s.sink + [if status.code == OK then OnCompleted else OnError(Failure(ReactorFailed, status.message))]
    ensures s.shape == ClientWrite && status.code == OK ==> r.sink == s.sink + [OnNext(s.slot), OnCompleted]
    ensures s.shape == ClientWrite && status.code != OK ==> r.sink == s.sink + [OnError(Failure(ReactorFailed, status.message))]
    ensures s.shape in {ServerBidi, ServerRead, LegacyBidi, LegacyRead} ==> r.sink == s.sink + [OnCompleted]
    ensures s.shape == ServerWrite ==> r.sink == s.sink
  {
    Destroy(s.(sink := s.sink + DoneNotifications(s.shape, s.slot, status)))
  }

  /** The server reactors and the older reactors end the same way whatever status the call ends with. */
  lemma DoneIgnoresStatus<Req, Resp>(s: Reactor<Req, Resp>, a: Status, b: Status)
    requires !s.destroyed && (s.shape.IsServer() || s.shape.IsLegacy())
    ensures OnDone(s, a) == OnDone(s, b)
  {
  }
}
