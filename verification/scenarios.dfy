/**
  Concrete calls replayed on the model: the situations the rppgrpc client
  test drives through a mocked stub, and what the reactors make of them.
 */
module Scenarios {
  import opened Notifications
  import opened Grpc
  import opened Reactor

  /** A bidi call that writes one message, reads one, and ends OK. */
  lemma BidiRoundTrip()
    ensures var s0 := AddReactor<int, int>(ClientBidi, 0);
      var s1 := Enqueue(s0, 10);
      var s2 := OnWriteDone(s1, true);
      var s3 := OnReadDone(s2, true, 3);
      var s4 := OnDone(s3, StatusOk);
      && s4.ops == [Bind, StartRead, StartCall, StartWrite(10), StartRead]
      && s4.sink == [OnNext(3), OnCompleted]
      && s4.destroyed && s4.disposed
  {
  }

  /** Writes 10, 3, 15, 20, each confirmed before the next: each goes to StartWrite once, in order. */
  lemma BidiWrites()
    ensures var s0 := AddReactor<int, int>(ClientBidi, 0);
      var s1 := OnWriteDone(Enqueue(s0, 10), true);
      var s2 := OnWriteDone(Enqueue(s1, 3), true);
      var s3 := OnWriteDone(Enqueue(s2, 15), true);
      var s4 := OnWriteDone(Enqueue(s3, 20), true);
      && s4.ops == [Bind, StartRead, StartCall, StartWrite(10), StartWrite(3), StartWrite(15), StartWrite(20)]
      && s4.queue == [] && s4.sink == [] && !s4.destroyed
  {
  }

  /** Reads 3, 5, 2, 1: the observer gets each value as soon as it is read, and each read re-arms. */
  lemma BidiReads()
    ensures var s0 := AddReactor<int, int>(ClientBidi, 0);
      var s1 := OnReadDone(s0, true, 3);
      var s2 := OnReadDone(s1, true, 5);
      var s3 := OnReadDone(s2, true, 2);
      var s4 := OnReadDone(s3, true, 1);
      && s1.sink == [OnNext(3)]
      && s4.sink == [OnNext(3), OnNext(5), OnNext(2), OnNext(1)]
      && s4.ops == [Bind, StartRead, StartCall, StartRead, StartRead, StartRead, StartRead]
  {
  }

  /**
    A failed write reaches the observer as the write error, and the reactor
    tears down; the server writer, having no observer, only tears down.
   */
  lemma WriteFailure()
    ensures var s := OnWriteDone(AddReactor<int, int>(ClientBidi, 0), false);
      && s.sink == [OnError(Failure(ReactorFailed, "OnWriteDone is not ok"))]
      && s.ops == [Bind, StartRead, StartCall]
      && s.destroyed && s.disposed
    ensures var s := OnWriteDone(MakeServerReactor<int, int>(ResponsesOnly, 0), false);
      && s.sink == [] && s.ops == [StartSendInitialMetadata] && s.destroyed && s.disposed
  {
  }

  /** A failed read reaches the observer as the read error; the older reactor types it. */
  lemma ReadFailure()
    ensures var s := OnReadDone(AddReactor<int, int>(ClientRead, 0), false, 0);
      && s.sink == [OnError(Failure(ReactorFailed, "OnReadDone is not ok"))]
      && s.destroyed && !s.disposed && !s.armed
    ensures var s := OnReadDone(AddReactor<int, int>(LegacyRead, 0), false, 0);
      && s.sink == [OnError(Failure(OnReadDoneNotOk, "OnReadDone is not ok"))]
      && s.destroyed && !s.disposed && !s.armed
  {
  }

  /**
    Client streaming: three writes, the producer completes, the runtime
    fills in the single response, and the call ends OK. The observer sees
    the response only when the call ends.
   */
  lemma ClientStreaming()
    ensures var s1 := Enqueue(Enqueue(Enqueue(AddReactor<int, int>(ClientWrite, 0), 1), 2), 3);
      var s2 := OnWriteDone(OnWriteDone(OnWriteDone(s1, true), true), true);
      var s3 := ProducerCompleted(s2);
      var s4 := s3.(slot := 30);
      var s5 := OnDone(s4, StatusOk);
      && s3.ops == [Bind, StartCall, StartWrite(1), StartWrite(2), StartWrite(3), StartWritesDone]
      && s4.sink == []
      && s5.sink == [OnNext(30), OnCompleted]
  {
  }

  /**
    A producer that completes while a write is still queued makes the
    reactor ask for writes-done before it writes the queued message.
   */
  lemma WritesDoneBeforeQueuedWrite()
    ensures var s1 := Enqueue(Enqueue(AddReactor<int, int>(ClientBidi, 0), 1), 2);
      var s2 := OnWriteDone(ProducerCompleted(s1), true);
      s2.ops == [Bind, StartRead, StartCall, StartWrite(1), StartWritesDone, StartWrite(2)]
  {
  }

  /** A server whose response producer fails finishes the call with INTERNAL. */
  lemma ServerProducerError()
    ensures var s := ProducerError(MakeServerReactor<int, int>(ResponsesOnly, 0));
      && s.ops == [StartSendInitialMetadata, Finish(Status(INTERNAL, "Internal error happens"))]
      && s.sink == [] && !s.destroyed
  {
  }

  /** A failed status: the client reactor reports it, the older reactor completes. */
  lemma FailedStatus()
    ensures var st := Status(OtherCode(14), "unavailable");
      && OnDone(AddReactor<int, int>(ClientBidi, 0), st).sink == [OnError(Failure(ReactorFailed, "unavailable"))]
      && OnDone(AddReactor<int, int>(LegacyBidi, 0), st).sink == [OnCompleted]
  {
  }
}
