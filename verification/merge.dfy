/**
  merge: one subscriber receives the values of every inner observable the
  outer observable emits. A shared counter holds how many completions are
  still needed: one for the outer source plus one per inner source
  subscribed so far. Every completion decrements it, and the one that takes
  it from 1 to 0 completes downstream.

  The counter is a `std::atomic_size_t`, so its arithmetic wraps modulo
  2^64; the model writes the wrap out. Threads, atomics and the serializing
  mutex are replaced by one sequential interleaving of events.
 */
module Merge {
  import opened Notifications

  /** The number of values a 64-bit `size_t` can hold. */
  const SizeModulus: nat := 0x1_0000_0000_0000_0000

  type Size = c: nat | c < SizeModulus

  /** fetch_add(1) on a size_t. */
  function Increment(c: Size): (r: Size)
    ensures c + 1 < SizeModulus ==> r == c + 1
    ensures c + 1 == SizeModulus ==> r == 0
  {
    (c + 1) % SizeModulus
  }

  /** fetch_sub(1) on a size_t. */
  function Decrement(c: Size): (r: Size)
    ensures c > 0 ==> r == c - 1
    ensures c == 0 ==> r == SizeModulus - 1
  {
    (c - 1) % SizeModulus
  }

  /** The merge state's counter and what the downstream subscriber received. */
  datatype Merger<T, E> = Merger(count: Size, out: seq<Notification<T, E>>)

  /** merge_impl: the counter starts at zero and is incremented once for the outer source. */
  function Subscribe<T, E>(): (m: Merger<T, E>)
    ensures m.count == 1 && m.out == []
  {
    Merger(Increment(0), [])
  }

  /** merge_on_next: an inner observable arrives; the counter is incremented before it is subscribed. */
  function OnInner<T, E>(m: Merger<T, E>): (r: Merger<T, E>)
    ensures m.count + 1 < SizeModulus ==> r.count == m.count + 1
    ensures r.out == m.out
  {
    m.(count := Increment(m.count))
  }

  /** The inner subscribers' on_next: the value is forwarded downstream unchanged. */
  function OnInnerValue<T, E>(m: Merger<T, E>, v: T): (r: Merger<T, E>)
    ensures r.out == m.out + [OnNext(v)] && r.count == m.count
  {
    m.(out := m.out + [OnNext(v)])
  }

  /**
    merge_on_completed, for the outer and every inner source: the counter is
    decremented, and downstream completes exactly when it was 1.
   */
  function OnSourceCompleted<T, E>(m: Merger<T, E>): (r: Merger<T, E>)
    ensures m.count > 0 ==> r.count == m.count - 1
    ensures m.count == 1 ==> r.out == m.out + [OnCompleted]
    ensures m.count != 1 ==> r.out == m.out
  {
    Merger(Decrement(m.count), if m.count == 1 then m.out + [OnCompleted] else m.out)
  }

  /** What happens to a merge: inner sources start, emit and complete; the outer source completes. */
  datatype Event<T> =
    | InnerStarted(id: nat)
    | InnerValue(id: nat, value: T)
    | InnerCompleted(id: nat)
    | OuterCompleted

  /** The reference view: whether the outer source completed and which inner sources are live. */
  datatype Sources = Sources(outerDone: bool, live: set<nat>)

  /** How many completions the sources still owe. */
  function Owed(s: Sources): nat {
    |s.live| + (if s.outerDone then 0 else 1)
  }

  /** The sources and the merge's state, side by side. */
  datatype State<T, E> = State(sources: Sources, merger: Merger<T, E>)

  /** A freshly subscribed merge: the outer source is live, no inner one has started. */
  function Initial<T, E>(): State<T, E> {
    State(Sources(false, {}), Subscribe())
  }

  /**
    The events a source can deliver: the outer source emits inner sources
    until it completes, once; only a live inner source emits or completes.
    At most 2^64 - 2 inner sources are live at once, so the counter never wraps.
   */
  predicate Enabled<T>(s: Sources, e: Event<T>) {
    match e
    case InnerStarted(id) => !s.outerDone && id !in s.live && |s.live| + 2 < SizeModulus
    case InnerValue(id, _) => id in s.live
    case InnerCompleted(id) => id in s.live
    case OuterCompleted => !s.outerDone
  }

  function Track<T>(s: Sources, e: Event<T>): Sources {
    match e
    case InnerStarted(id) => s.(live := s.live + {id})
    case InnerValue(_, _) => s
    case InnerCompleted(id) => s.(live := s.live - {id})
    case OuterCompleted => s.(outerDone := true)
  }

  function Step<T, E>(st: State<T, E>, e: Event<T>): State<T, E> {
    var m := match e
      case InnerStarted(_) => OnInner(st.merger)
      case InnerValue(_, v) => OnInnerValue(st.merger, v)
      case InnerCompleted(_) => OnSourceCompleted(st.merger)
      case OuterCompleted => OnSourceCompleted(st.merger);
    State(Track(st.sources, e), m)
  }

  /** Every event of `t` is one its source can deliver at that point. */
  predicate Valid<T, E>(st: State<T, E>, t: seq<Event<T>>)
    decreases |t|
  {
    |t| == 0 || (Enabled(st.sources, t[0]) && Valid(Step(st, t[0]), t[1..]))
  }

  function Run<T, E>(st: State<T, E>, t: seq<Event<T>>): State<T, E>
    decreases |t|
  {
    if |t| == 0 then st else Run(Step(st, t[0]), t[1..])
  }

  /** The values the inner sources emit in `t`, in order. */
  function Emitted<T>(t: seq<Event<T>>): seq<T>
    decreases |t|
  {
    if |t| == 0 then []
    else (if t[0].InnerValue? then [t[0].value] else []) + Emitted(t[1..])
  }

  /** Every source has completed. */
  predicate AllDone(s: Sources) {
    s.outerDone && s.live == {}
  }

  /**
    The merge's invariant: the counter equals the completions still owed,
    and downstream has completed exactly once, as its last notification,
    when nothing is owed, and not at all before.
   */
  predicate Inv<T, E>(st: State<T, E>) {
    && st.merger.count == Owed(st.sources)
    && (if AllDone(st.sources) then EndsOnce(st.merger.out) else NoTerminal(st.merger.out))
  }

  lemma InitialInv<T, E>()
    ensures Inv(Initial<T, E>())
    ensures Owed(Initial<T, E>().sources) == 1
  {
  }

  /** Completing downstream once after a terminal-free stream makes it end once. */
  lemma CompleteOnce<T, E>(out: seq<Notification<T, E>>)
    requires NoTerminal(out)
    ensures EndsOnce(out + [OnCompleted])
  {
    var r := out + [OnCompleted];
    assert forall i | 0 <= i < |r| - 1 :: r[i] == out[i];
  }

  /** Every enabled event keeps the invariant. */
  lemma StepInv<T, E>(st: State<T, E>, e: Event<T>)
    requires Inv(st) && Enabled(st.sources, e)
    ensures Inv(Step(st, e))
  {
    var s, m := st.sources, st.merger;
    var r := Step(st, e);
    assert !AllDone(s);
    match e
    case InnerStarted(id) =>
      assert |r.sources.live| == |s.live| + 1;
    case InnerValue(_, v) =>
      assert forall i | 0 <= i < |r.merger.out| :: r.merger.out[i] == (m.out + [OnNext(v)])[i];
    case InnerCompleted(id) =>
      assert |r.sources.live| == |s.live| - 1;
      if m.count == 1 {
        CompleteOnce(m.out);
      }
    case OuterCompleted =>
      if m.count == 1 {
        CompleteOnce(m.out);
      }
  }

  /** One event, then the rest: the values forwarded grow by the event's value. */
  lemma StepValues<T, E>(st: State<T, E>, e: Event<T>)
    ensures Values(Step(st, e).merger.out) == Values(st.merger.out) + (if e.InnerValue? then [e.value] else [])
  {
    match e
    case InnerValue(_, v) => ValuesSnoc(st.merger.out, OnNext(v));
    case InnerStarted(_) =>
    case InnerCompleted(_) =>
      if st.merger.count == 1 { ValuesSnoc(st.merger.out, OnCompleted); }
    case OuterCompleted =>
      if st.merger.count == 1 { ValuesSnoc(st.merger.out, OnCompleted); }
  }

  /** The invariant holds along a valid run. */
  lemma {:induction false} RunInv<T, E>(st: State<T, E>, t: seq<Event<T>>)
    requires Inv(st) && Valid(st, t)
    ensures Inv(Run(st, t))
    decreases |t|
  {
    if |t| > 0 {
      StepInv(st, t[0]);
      RunInv(Step(st, t[0]), t[1..]);
    }
  }

  /** Downstream receives, as values, exactly the inner sources' values, in order. */
  lemma {:induction false} RunValues<T, E>(st: State<T, E>, t: seq<Event<T>>)
    ensures Values(Run(st, t).merger.out) == Values(st.merger.out) + Emitted(t)
    decreases |t|
  {
    if |t| > 0 {
      var e, next := t[0], Step(st, t[0]);
      var before, own, later := Values(st.merger.out), (if e.InnerValue? then [e.value] else []), Emitted(t[1..]);
      StepValues(st, e);
      RunValues(next, t[1..]);
      assert Run(st, t) == Run(next, t[1..]);
      assert Emitted(t) == own + later;
      assert (before + own) + later == before + (own + later);
    }
  }

  /**
    Along every valid interleaving from a fresh subscription: the counter
    is the number of completions still owed; downstream completes exactly
    once and last if every source has completed, and not at all otherwise,
    so an outer completion with a live inner source does not complete it;
    and downstream received exactly the inner sources' values, in order.
   */
  lemma MergeTheorem<T, E>(t: seq<Event<T>>)
    requires Valid(Initial<T, E>(), t)
    ensures var f := Run(Initial<T, E>(), t);
      && f.merger.count == Owed(f.sources)
      && (EndsOnce(f.merger.out) <==> AllDone(f.sources))
      && TerminalOnlyLast(f.merger.out)
      && Values(f.merger.out) == Emitted(t)
  {
    InitialInv<T, E>();
    RunInv(Initial<T, E>(), t);
    RunValues(Initial<T, E>(), t);
    var f := Run(Initial<T, E>(), t);
    if !AllDone(f.sources) && |f.merger.out| > 0 {
      assert !f.merger.out[|f.merger.out| - 1].IsTerminal();
    }
  }

  /** Running two parts of a trace one after the other is running the whole trace. */
  lemma {:induction false} RunAppend<T, E>(st: State<T, E>, a: seq<Event<T>>, b: seq<Event<T>>)
    ensures Run(st, a + b) == Run(Run(st, a), b)
    ensures Valid(st, a + b) <==> Valid(st, a) && Valid(Run(st, a), b)
    decreases |a|
  {
    if |a| == 0 {
      assert a + b == b;
    } else {
      assert (a + b)[0] == a[0] && (a + b)[1..] == a[1..] + b;
      RunAppend(Step(st, a[0]), a[1..], b);
    }
  }

  /** An inner source that emits `vs` as soon as it is subscribed. */
  function InnerValues<T>(id: nat, vs: seq<T>): (t: seq<Event<T>>)
    ensures |t| == |vs|
    decreases |vs|
  {
    if |vs| == 0 then [] else [InnerValue(id, vs[0])] + InnerValues(id, vs[1..])
  }

  /** One inner source, delivered synchronously: it starts, emits `vs`, and completes. */
  function Synchronous<T>(id: nat, vs: seq<T>): seq<Event<T>> {
    [InnerStarted(id)] + InnerValues(id, vs) + [InnerCompleted(id)]
  }

  /**
    merge_with: `just` on the immediate scheduler emits the observables one
    after another and then completes; each one, being synchronous, runs to
    completion inside its subscription. Inner sources are numbered from `id`.
   */
  function MergeWithTrace<T>(id: nat, sources: seq<seq<T>>): seq<Event<T>>
    decreases |sources|
  {
    if |sources| == 0 then [OuterCompleted]
    else Synchronous(id, sources[0]) + MergeWithTrace(id + 1, sources[1..])
  }

  /** All the values of `sources`, one source after another. */
  function Concat<T>(sources: seq<seq<T>>): seq<T>
    decreases |sources|
  {
    if |sources| == 0 then [] else sources[0] + Concat(sources[1..])
  }

  /** A live inner source's values all go downstream and change nothing else. */
  lemma {:induction false} InnerValuesRun<T, E>(st: State<T, E>, id: nat, vs: seq<T>)
    requires id in st.sources.live
    ensures Valid(st, InnerValues(id, vs))
    ensures Run(st, InnerValues(id, vs)) == State(st.sources, st.merger.(out := st.merger.out + Nexts(vs)))
    decreases |vs|
  {
    if |vs| > 0 {
      var t := InnerValues(id, vs);
      assert t[0] == InnerValue(id, vs[0]) && t[1..] == InnerValues(id, vs[1..]);
      var next := Step(st, t[0]);
      InnerValuesRun(next, id, vs[1..]);
      NextsCons<T, E>(vs[0], vs[1..]);
      assert next.merger.out + Nexts(vs[1..]) == st.merger.out + Nexts(vs);
    } else {
      assert st.merger.out + Nexts<T, E>(vs) == st.merger.out;
    }
  }

  /** A synchronous inner source, between two emissions of the outer one, leaves the counter where it was. */
  lemma SynchronousRun<T, E>(out: seq<Notification<T, E>>, id: nat, vs: seq<T>)
    ensures var st := State(Sources(false, {}), Merger(1, out));
      && Valid(st, Synchronous(id, vs))
      && Run(st, Synchronous(id, vs)) == State(Sources(false, {}), Merger(1, out + Nexts(vs)))
  {
    var st := State(Sources(false, {}), Merger(1, out));
    var started := Step(st, InnerStarted(id));
    assert started == State(Sources(false, {id}), Merger(2, out));
    InnerValuesRun(started, id, vs);
    var emitted := Run(started, InnerValues(id, vs));
    var done := State(Sources(false, {}), Merger(1, out + Nexts(vs)));
    assert Step(emitted, InnerCompleted(id)) == done;
    assert Valid(emitted, [InnerCompleted(id)]) && Run(emitted, [InnerCompleted(id)]) == done;
    RunAppend(started, InnerValues(id, vs), [InnerCompleted(id)]);
    var rest := InnerValues(id, vs) + [InnerCompleted(id)];
    assert Synchronous(id, vs) == [InnerStarted(id)] + rest;
    assert Synchronous(id, vs)[1..] == rest;
  }

  /** The sources of merge_with, from the point where `out` has been received. */
  lemma {:induction false} MergeWithRun<T, E>(out: seq<Notification<T, E>>, id: nat, sources: seq<seq<T>>)
    ensures var st := State(Sources(false, {}), Merger(1, out));
      && Valid(st, MergeWithTrace(id, sources))
      && Run(st, MergeWithTrace(id, sources)) == State(Sources(true, {}), Merger(0, out + Nexts(Concat(sources)) + [OnCompleted]))
    decreases |sources|
  {
    var st := State(Sources(false, {}), Merger(1, out));
    if |sources| == 0 {
      assert Run(st, [OuterCompleted]) == Step(st, OuterCompleted);
      assert out + Nexts<T, E>([]) == out;
    } else {
      var vs, more := sources[0], sources[1..];
      SynchronousRun(out, id, vs);
      MergeWithRun(out + Nexts(vs), id + 1, more);
      RunAppend(st, Synchronous(id, vs), MergeWithTrace(id + 1, more));
      NextsAppend<T, E>(vs, Concat(more));
      assert out + Nexts(vs) + Nexts(Concat(more)) == out + Nexts(Concat(sources));
    }
  }

  /** Wrapping two runs of values wraps their concatenation. */
  lemma {:induction false} NextsAppend<T, E>(a: seq<T>, b: seq<T>)
    ensures Nexts<T, E>(a + b) == Nexts(a) + Nexts(b)
    decreases |a|
  {
    if |a| > 0 {
      assert (a + b)[1..] == a[1..] + b;
      assert a + b == [a[0]] + (a[1..] + b);
      NextsCons<T, E>(a[0], a[1..] + b);
      NextsCons<T, E>(a[0], a[1..]);
      NextsAppend<T, E>(a[1..], b);
    } else {
      assert a + b == b;
    }
  }

  /**
    merge_with of synchronous finite observables: downstream receives every
    value of the first, then of the second, and so on, then completes once;
    no completion is owed afterwards.
   */
  lemma MergeWithConcatenates<T, E>(sources: seq<seq<T>>)
    ensures Valid(Initial<T, E>(), MergeWithTrace(0, sources))
    ensures var f := Run(Initial<T, E>(), MergeWithTrace(0, sources));
      && f.merger.out == Nexts(Concat(sources)) + [OnCompleted] && f.merger.count == 0
      && Values(f.merger.out) == Concat(sources)
  {
    MergeWithRun<T, E>([], 0, sources);
    assert [] + Nexts<T, E>(Concat(sources)) == Nexts(Concat(sources));
    ValuesSnoc(Nexts<T, E>(Concat(sources)), OnCompleted);
    ValuesOfNexts<T, E>(Concat(sources));
  }
}
