/**
  The decorator frame the reactive operators plug into: `operator_strategy_base`
  holds the downstream observer beside an operator strategy and routes every
  callback through the strategy, which decides what reaches the observer.

  A strategy is a record of its callbacks. Each callback receives the frame,
  that is the strategy's own mutable state together with the observer, and
  returns the frame after the call. Upstream disposables are named by numbers.
 */
module OperatorStrategy {
  import opened Notifications

  /** A downstream observer: what it received, the upstreams handed to it, and whether it is disposed. */
  datatype Observer<T, E> = Observer(received: seq<Notification<T, E>>, upstreams: seq<nat>, disposed: bool)

  /** The observer receives one notification. */
  function Deliver<T, E>(o: Observer<T, E>, n: Notification<T, E>): (r: Observer<T, E>)
    ensures r.received == o.received + [n]
    ensures r.(received := o.received) == o
  {
    o.(received := o.received + [n])
  }

  /** The observer is handed one upstream disposable. */
  function Attach<T, E>(o: Observer<T, E>, d: nat): (r: Observer<T, E>)
    ensures r.upstreams == o.upstreams + [d]
    ensures r.(upstreams := o.upstreams) == o
  {
    o.(upstreams := o.upstreams + [d])
  }

  /** The members of an operator_strategy_base: the strategy's state and the observer it decorates. */
  datatype Frame<S, U, E> = Frame(state: S, observer: Observer<U, E>)

  /** An operator strategy from values of type T to an observer of values of type U. */
  datatype Strategy<!S, !T, !U, !E> = Strategy(
    onSubscribe: Frame<S, U, E> -> Frame<S, U, E>,
    onNext: (Frame<S, U, E>, T) -> Frame<S, U, E>,
    onError: (Frame<S, U, E>, E) -> Frame<S, U, E>,
    onCompleted: Frame<S, U, E> -> Frame<S, U, E>,
    setUpstream: (Frame<S, U, E>, nat) -> Frame<S, U, E>,
    isDisposed: S -> bool)

  /** The constructor stores the observer and the strategy, then lets the strategy see the observer once. */
  function Construct<S, T, U, E>(st: Strategy<S, T, U, E>, state: S, observer: Observer<U, E>): (f: Frame<S, U, E>)
    ensures f == st.onSubscribe(Frame(state, observer))
  {
    st.onSubscribe(Frame(state, observer))
  }

  /** The frame reports disposed when the strategy or the observer does. */
  predicate IsDisposed<S, T, U, E>(st: Strategy<S, T, U, E>, f: Frame<S, U, E>) {
    st.isDisposed(f.state) || f.observer.disposed
  }

  /** One incoming notification, routed to the strategy callback of its kind with the stored observer. */
  function Receive<S, T, U, E>(st: Strategy<S, T, U, E>, f: Frame<S, U, E>, n: Notification<T, E>): (r: Frame<S, U, E>)
    ensures n.OnNext? ==> r == st.onNext(f, n.value)
    ensures n.OnError? ==> r == st.onError(f, n.error)
    ensures n.OnCompleted? ==> r == st.onCompleted(f)
  {
    match n
    case OnNext(v) => st.onNext(f, v)
    case OnError(e) => st.onError(f, e)
    case OnCompleted => st.onCompleted(f)
  }

  /** set_upstream hands the disposable to the strategy together with the stored observer. */
  function SetUpstream<S, T, U, E>(st: Strategy<S, T, U, E>, f: Frame<S, U, E>, d: nat): (r: Frame<S, U, E>)
    ensures r == st.setUpstream(f, d)
  {
    st.setUpstream(f, d)
  }

  /** A stream of notifications received one after another. */
  function Feed<S, T, U, E>(st: Strategy<S, T, U, E>, f: Frame<S, U, E>, ns: seq<Notification<T, E>>): Frame<S, U, E>
    decreases |ns|
  {
    if |ns| == 0 then f else Feed(st, Receive(st, f, ns[0]), ns[1..])
  }

  /** Feeding a stream of values hands the first one to on_next, then feeds the rest. */
  lemma FeedValues<S, T, U, E>(st: Strategy<S, T, U, E>, f: Frame<S, U, E>, vs: seq<T>)
    requires |vs| > 0
    ensures Feed(st, f, Nexts(vs)) == Feed(st, st.onNext(f, vs[0]), Nexts(vs[1..]))
  {
    assert Nexts<T, E>(vs)[1..] == Nexts(vs[1..]);
  }

  /** forwarding_on_next_strategy: the value reaches the observer unchanged. */
  function ForwardOnNext<S, T, E>(f: Frame<S, T, E>, v: T): (r: Frame<S, T, E>)
    ensures r.observer.received == f.observer.received + [OnNext(v)]
    ensures r.state == f.state
    ensures r.observer.(received := f.observer.received) == f.observer
  {
    f.(observer := Deliver(f.observer, OnNext(v)))
  }

  /** forwarding_on_error_strategy: the error reaches the observer unchanged. */
  function ForwardOnError<S, U, E>(f: Frame<S, U, E>, e: E): (r: Frame<S, U, E>)
    ensures r.observer.received == f.observer.received + [OnError(e)]
    ensures r.state == f.state
    ensures r.observer.(received := f.observer.received) == f.observer
  {
    f.(observer := Deliver(f.observer, OnError(e)))
  }

  /** forwarding_on_completed_strategy: completion reaches the observer. */
  function ForwardOnCompleted<S, U, E>(f: Frame<S, U, E>): (r: Frame<S, U, E>)
    ensures r.observer.received == f.observer.received + [OnCompleted]
    ensures r.state == f.state
    ensures r.observer.(received := f.observer.received) == f.observer
  {
    f.(observer := Deliver(f.observer, OnCompleted))
  }

  /** forwarding_set_upstream_strategy: the observer is handed the same disposable. */
  function ForwardSetUpstream<S, U, E>(f: Frame<S, U, E>, d: nat): (r: Frame<S, U, E>)
    ensures r.observer.upstreams == f.observer.upstreams + [d]
    ensures r.state == f.state
    ensures r.observer.(upstreams := f.observer.upstreams) == f.observer
  {
    f.(observer := Attach(f.observer, d))
  }

  /** forwarding_is_disposed_strategy: the strategy itself never reports disposed. */
  function ForwardIsDisposed<S>(s: S): (b: bool)
    ensures !b
  {
    false
  }

  /** empty_on_subscribe: subscribing changes nothing. */
  function EmptyOnSubscribe<S, U, E>(f: Frame<S, U, E>): (r: Frame<S, U, E>)
    ensures r == f
  {
    f
  }

  /** The strategy built from the forwarding members alone. */
  function Forwarding<S, T, E>(): Strategy<S, T, T, E> {
    Strategy(
      f => EmptyOnSubscribe(f),
      (f, v) => ForwardOnNext(f, v),
      (f, e) => ForwardOnError(f, e),
      f => ForwardOnCompleted(f),
      (f, d) => ForwardSetUpstream(f, d),
      s => ForwardIsDisposed(s))
  }

  /**
    A frame around the forwarding strategy is transparent: construction
    leaves the observer alone, disposal is the observer's, before and after
    any stream, every stream of notifications reaches the observer exactly as
    it came, and the observer is handed every upstream disposable.
   */
  lemma {:induction false} ForwardingTransparent<S, T, E>(s: S, o: Observer<T, E>, ns: seq<Notification<T, E>>, d: nat)
    ensures Construct(Forwarding<S, T, E>(), s, o) == Frame(s, o)
    ensures IsDisposed(Forwarding<S, T, E>(), Frame(s, o)) <==> o.disposed
    ensures Feed(Forwarding<S, T, E>(), Frame(s, o), ns) == Frame(s, o.(received := o.received + ns))
    ensures IsDisposed(Forwarding<S, T, E>(), Feed(Forwarding<S, T, E>(), Frame(s, o), ns)) <==> o.disposed
    ensures SetUpstream(Forwarding<S, T, E>(), Frame(s, o), d) == Frame(s, o.(upstreams := o.upstreams + [d]))
    decreases |ns|
  {
    if |ns| > 0 {
      var o' := o.(received := o.received + [ns[0]]);
      assert Receive(Forwarding<S, T, E>(), Frame(s, o), ns[0]) == Frame(s, o');
      ForwardingTransparent(s, o', ns[1..], d);
      assert o'.received + ns[1..] == o.received + ns;
    }
  }
}
