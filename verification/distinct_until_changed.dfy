/**
  distinct_until_changed: suppress a value when the comparator says it equals
  the last value the operator let through. The strategy keeps that last
  emitted value as an optional; a suppressed value leaves it alone.
 */
module DistinctUntilChanged {
  import opened Optional
  import opened Notifications
  import opened OperatorStrategy

  /** `v` is dropped: a value was emitted before and the comparator calls `v` equal to it. */
  predicate Suppressed<T>(eq: (T, T) -> bool, last: Option<T>, v: T) {
    last.Some? && eq(last.value, v)
  }

  /**
    The strategy's on_next. A suppressed value changes nothing; any other
    value becomes the last value and reaches the observer unchanged.
   */
  function DistinctOnNext<T, E>(eq: (T, T) -> bool, f: Frame<Option<T>, T, E>, v: T): (r: Frame<Option<T>, T, E>)
    ensures Suppressed(eq, f.state, v) ==> r == f
    ensures !Suppressed(eq, f.state, v) ==> r.state == Some(v) && r.observer == Deliver(f.observer, OnNext(v))
    ensures f.state.None? ==> r.observer.received == f.observer.received + [OnNext(v)]
  {
    if Suppressed(eq, f.state, v) then f
    else Frame(Some(v), Deliver(f.observer, OnNext(v)))
  }

  /** distinct_until_changed_observer_strategy: its own on_next, the forwarding members for the rest. */
  function DistinctStrategy<T, E>(eq: (T, T) -> bool): Strategy<Option<T>, T, T, E> {
    Strategy(
      f => EmptyOnSubscribe(f),
      (f, v) => DistinctOnNext(eq, f, v),
      (f, e) => ForwardOnError(f, e),
      f => ForwardOnCompleted(f),
      (f, d) => ForwardSetUpstream(f, d),
      s => ForwardIsDisposed(s))
  }

  /** The values let through from `vs`, starting from the last emitted value `last`. */
  function Distinct<T>(eq: (T, T) -> bool, last: Option<T>, vs: seq<T>): (out: seq<T>)
    ensures |out| <= |vs|
    ensures |vs| > 0 && !Suppressed(eq, last, vs[0]) ==> |out| > 0 && out[0] == vs[0]
    decreases |vs|
  {
    if |vs| == 0 then []
    else if Suppressed(eq, last, vs[0]) then Distinct(eq, last, vs[1..])
    else [vs[0]] + Distinct(eq, Some(vs[0]), vs[1..])
  }

  /** The last emitted value once `vs` has gone through. */
  function LastAfter<T>(eq: (T, T) -> bool, last: Option<T>, vs: seq<T>): Option<T>
    decreases |vs|
  {
    if |vs| == 0 then last
    else if Suppressed(eq, last, vs[0]) then LastAfter(eq, last, vs[1..])
    else LastAfter(eq, Some(vs[0]), vs[1..])
  }

  /** The comparator the operator defaults to: plain equality. */
  function Equal<T(==)>(): (T, T) -> bool {
    (a: T, b: T) => a == b
  }

  /** `a` is `b` with some elements left out, in the same order. */
  ghost predicate IsSubsequence<T>(a: seq<T>, b: seq<T>)
    decreases |b|
  {
    if |a| == 0 then true
    else if |b| == 0 then false
    else (a[0] == b[0] && IsSubsequence(a[1..], b[1..])) || IsSubsequence(a, b[1..])
  }

  /**
    The operator only drops values: what comes out is the input with some
    values left out, each value unchanged and in its original order.
   */
  lemma {:induction false} OutputIsSubsequence<T>(eq: (T, T) -> bool, last: Option<T>, vs: seq<T>)
    ensures IsSubsequence(Distinct(eq, last, vs), vs)
    decreases |vs|
  {
    if |vs| > 0 {
      var out := Distinct(eq, last, vs);
      if Suppressed(eq, last, vs[0]) {
        OutputIsSubsequence(eq, last, vs[1..]);
      } else {
        OutputIsSubsequence(eq, Some(vs[0]), vs[1..]);
        assert out[0] == vs[0] && out[1..] == Distinct(eq, Some(vs[0]), vs[1..]);
      }
    }
  }

  /**
    A value is dropped exactly when the comparator calls it equal to the last
    value let through, and a dropped value does not become the last value.
   */
  lemma StepSemantics<T>(eq: (T, T) -> bool, last: Option<T>, v: T, vs: seq<T>)
    ensures Suppressed(eq, last, v) ==> Distinct(eq, last, [v] + vs) == Distinct(eq, last, vs)
    ensures !Suppressed(eq, last, v) ==> Distinct(eq, last, [v] + vs) == [v] + Distinct(eq, Some(v), vs)
    ensures last.None? ==> Distinct(eq, last, [v] + vs) == [v] + Distinct(eq, Some(v), vs)
  {
    assert ([v] + vs)[0] == v && ([v] + vs)[1..] == vs;
  }

  /**
    With plain equality no two neighbours of the output are equal, and the
    first output differs from the value emitted before the run.
   */
  lemma {:induction false} NoAdjacentDuplicates<T>(last: Option<T>, vs: seq<T>)
    ensures var out := Distinct(Equal(), last, vs);
      && (forall i | 0 < i < |out| :: out[i - 1] != out[i])
      && (last.Some? && |out| > 0 ==> out[0] != last.value)
    decreases |vs|
  {
    if |vs| > 0 {
      var eq := Equal<T>();
      var out := Distinct(eq, last, vs);
      if Suppressed(eq, last, vs[0]) {
        NoAdjacentDuplicates(last, vs[1..]);
        assert out == Distinct(eq, last, vs[1..]);
      } else {
        var rest := Distinct(eq, Some(vs[0]), vs[1..]);
        NoAdjacentDuplicates(Some(vs[0]), vs[1..]);
        assert out == [vs[0]] + rest;
        forall i | 0 < i < |out|
          ensures out[i - 1] != out[i]
        {
          if i == 1 {
            assert out[0] == vs[0] && out[1] == rest[0];
          } else {
            assert out[i - 1] == rest[i - 2] && out[i] == rest[i - 1];
          }
        }
      }
    }
  }

  /**
    The reference behaviour for plain equality: keep a value exactly when it
    differs from the value just before it in the input.
   */
  function DropRepeats<T(==)>(prev: Option<T>, vs: seq<T>): seq<T>
    decreases |vs|
  {
    if |vs| == 0 then []
    else (if prev == Some(vs[0]) then [] else [vs[0]]) + DropRepeats(Some(vs[0]), vs[1..])
  }

  /**
    With plain equality, comparing with the last emitted value is the same as
    comparing with the previous input: a dropped value equals the last one.
   */
  lemma {:induction false} EqualityDropsRepeats<T>(last: Option<T>, vs: seq<T>)
    ensures Distinct(Equal(), last, vs) == DropRepeats(last, vs)
    decreases |vs|
  {
    if |vs| > 0 {
      if Suppressed(Equal(), last, vs[0]) {
        assert Some(vs[0]) == last;
        EqualityDropsRepeats(last, vs[1..]);
      } else {
        EqualityDropsRepeats(Some(vs[0]), vs[1..]);
      }
    }
  }

  /** The documented marble: 1 1 2 2 3 2 1 comes out as 1 2 3 2 1. */
  lemma Marble()
    ensures Distinct(Equal(), None, [1, 1, 2, 2, 3, 2, 1]) == [1, 2, 3, 2, 1]
  {
    var eq := Equal<int>();
    assert Distinct(eq, Some(1), [1]) == [];
    assert Distinct(eq, Some(2), [1]) == [1];
    assert Distinct(eq, Some(3), [2, 1]) == [2, 1];
    assert Distinct(eq, Some(2), [2, 3, 2, 1]) == [3, 2, 1];
    assert Distinct(eq, Some(1), [1, 2, 2, 3, 2, 1]) == [2, 3, 2, 1];
  }

  /** Values within one of each other count as equal. */
  function Near(): (eq: (int, int) -> bool)
    ensures forall a: int, b: int :: eq(a, b) <==> -1 <= a - b <= 1
  {
    (a: int, b: int) => -1 <= a - b <= 1
  }

  /**
    The comparison is against the last emitted value, not the previous input:
    with "within one" as the comparator, 1 2 3 lets 1 and 3 through, because
    the suppressed 2 is never compared with 3.
   */
  lemma ComparesWithLastEmitted()
    ensures Distinct(Near(), None, [1, 2, 3]) == [1, 3]
    ensures LastAfter(Near(), None, [1, 2, 3]) == Some(3)
  {
    var eq := Near();
    assert Distinct(eq, Some(1), [3]) == [3];
    assert Distinct(eq, Some(1), [2, 3]) == [3];
    assert LastAfter(eq, Some(1), [2, 3]) == LastAfter(eq, Some(1), [3]);
  }

  /**
    The strategy's other members: subscribing leaves the frame alone, the
    frame is disposed exactly when its observer is, and errors and
    completion reach the observer unchanged without touching the last value.
   */
  lemma ForwardingMembers<T, E>(eq: (T, T) -> bool, last: Option<T>, o: Observer<T, E>, e: E)
    ensures Construct(DistinctStrategy<T, E>(eq), last, o) == Frame(last, o)
    ensures IsDisposed(DistinctStrategy<T, E>(eq), Frame(last, o)) <==> o.disposed
    ensures Receive(DistinctStrategy(eq), Frame(last, o), OnError(e)) == Frame(last, Deliver(o, OnError(e)))
    ensures Receive(DistinctStrategy<T, E>(eq), Frame(last, o), OnCompleted) == Frame(last, Deliver(o, OnCompleted))
  {
  }

  /** The strategy's on_next is DistinctOnNext. */
  lemma StrategyOnNext<T, E>(eq: (T, T) -> bool, f: Frame<Option<T>, T, E>, vs: seq<T>)
    requires |vs| > 0
    ensures Feed(DistinctStrategy<T, E>(eq), f, Nexts(vs)) == Feed(DistinctStrategy<T, E>(eq), DistinctOnNext(eq, f, vs[0]), Nexts(vs[1..]))
  {
    FeedValues(DistinctStrategy<T, E>(eq), f, vs);
  }

  /**
    The strategy inside its frame: a stream of values reaches the observer
    filtered by Distinct, and the frame ends up holding the last value let through.
   */
  lemma {:induction false} FrameFilters<T, E>(eq: (T, T) -> bool, last: Option<T>, o: Observer<T, E>, vs: seq<T>)
    ensures var f := Feed(DistinctStrategy<T, E>(eq), Frame(last, o), Nexts(vs));
      && f.state == LastAfter(eq, last, vs)
      && f.observer == o.(received := o.received + Nexts(Distinct(eq, last, vs)))
    decreases |vs|
  {
    if |vs| > 0 {
      var v, rest := vs[0], vs[1..];
      var g := DistinctOnNext(eq, Frame(last, o), v);
      StrategyOnNext(eq, Frame(last, o), vs);
      FrameFilters(eq, g.state, g.observer, rest);
      StepSemantics(eq, last, v, rest);
      if !Suppressed(eq, last, v) {
        var out := Distinct(eq, Some(v), rest);
        NextsCons<T, E>(v, out);
        assert g.observer.received + Nexts<T, E>(out) == o.received + Nexts([v] + out);
      }
    }
  }

  /**
    The strategy is the forwarding strategy with on_next gated: every other
    member does what the forwarding member does, and on_next either leaves
    the frame alone or forwards the value exactly as the forwarding on_next
    does and remembers it as the last value.
   */
  lemma GatedForwarding<T, E>(eq: (T, T) -> bool, f: Frame<Option<T>, T, E>, v: T, e: E, d: nat)
    ensures Construct(DistinctStrategy<T, E>(eq), f.state, f.observer) == Construct(Forwarding<Option<T>, T, E>(), f.state, f.observer)
    ensures IsDisposed(DistinctStrategy<T, E>(eq), f) == IsDisposed(Forwarding<Option<T>, T, E>(), f)
    ensures Receive(DistinctStrategy(eq), f, OnError(e)) == Receive(Forwarding<Option<T>, T, E>(), f, OnError(e))
    ensures Receive(DistinctStrategy<T, E>(eq), f, OnCompleted) == Receive(Forwarding<Option<T>, T, E>(), f, OnCompleted)
    ensures SetUpstream(DistinctStrategy<T, E>(eq), f, d) == SetUpstream(Forwarding<Option<T>, T, E>(), f, d)
    ensures Receive(DistinctStrategy<T, E>(eq), f, OnNext(v)) ==
              if Suppressed(eq, f.state, v) then f
              else Receive(Forwarding<Option<T>, T, E>(), f, OnNext(v)).(state := Some(v))
  {
  }

  /**
    The operator never disposes on its own: before and after any stream of
    values, the frame reports disposed exactly when its observer is disposed.
   */
  lemma DisposalIsObservers<T, E>(eq: (T, T) -> bool, last: Option<T>, o: Observer<T, E>, vs: seq<T>)
    ensures IsDisposed(DistinctStrategy<T, E>(eq), Frame(last, o)) <==> o.disposed
    ensures IsDisposed(DistinctStrategy<T, E>(eq), Feed(DistinctStrategy<T, E>(eq), Frame(last, o), Nexts(vs))) <==> o.disposed
  {
    FrameFilters(eq, last, o, vs);
  }
}
