/**
  The gRPC runtime as the reactors see it: the call status, the requests a
  reactor issues to the runtime, and the errors a reactor hands its observer.
  The runtime itself is not modelled; each request it receives is recorded as
  an entry of an operation log.
 */
module Grpc {

  datatype StatusCode = OK | INTERNAL | OtherCode(code: nat)

  /** A call status: a code and a diagnostic message. */
  datatype Status = Status(code: StatusCode, message: string) {

    /** grpc::Status::ok() */
    predicate Ok() {
      code == OK
    }
  }

  /** grpc::Status::OK */
  const StatusOk := Status(OK, "")

  /** The status a server reactor finishes with when its producer fails. */
  const InternalError := Status(INTERNAL, "Internal error happens")

  /** A request a reactor issues to the runtime, in the order it is issued. */
  datatype Op<+Req> =
    | Bind                      // (async.*method)(context, ..., reactor)
    | StartCall
    | StartRead
    | StartWrite(msg: Req)
    | StartWritesDone
    | StartSendInitialMetadata
    | Finish(status: Status)

  /**
    The exception type an error is wrapped in. The client and server reactors
    use a single type; the older reactors use one type per failure.
   */
  datatype ErrorKind = ReactorFailed | OnReadDoneNotOk | OnWriteDoneNotOk

  /** The error delivered to an observer's on_error: the exception's type and its what() text. */
  datatype Failure = Failure(kind: ErrorKind, message: string)

  const ReadFailedText := "OnReadDone is not ok"
  const WriteFailedText := "OnWriteDone is not ok"

  /** The messages of the StartWrite requests of `ops`, in issue order. */
  function Writes<Req>(ops: seq<Op<Req>>): (ws: seq<Req>)
    ensures |ws| <= |ops|
  {
    if |ops| == 0 then []
    else
      var last := ops[|ops| - 1];
      Writes(ops[..|ops| - 1]) + (if last.StartWrite? then [last.msg] else [])
  }

  /** The number of StartRead requests in `ops`. */
  function ReadRequests<Req>(ops: seq<Op<Req>>): (n: nat)
    ensures n <= |ops|
  {
    if |ops| == 0 then 0
    else ReadRequests(ops[..|ops| - 1]) + (if ops[|ops| - 1].StartRead? then 1 else 0)
  }

  /** Issuing one more request extends both projections by that request alone. */
  lemma IssueOne<Req>(ops: seq<Op<Req>>, op: Op<Req>)
    ensures Writes(ops + [op]) == Writes(ops) + (if op.StartWrite? then [op.msg] else [])
    ensures ReadRequests(ops + [op]) == ReadRequests(ops) + (if op.StartRead? then 1 else 0)
  {
    assert (ops + [op])[..|ops|] == ops;
  }
}
