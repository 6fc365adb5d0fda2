/**
  The three notifications an observer receives: a value, an error that ends
  the stream, or completion that ends the stream.
 */
module Notifications {

  datatype Notification<+T, +E> = OnNext(value: T) | OnError(error: E) | OnCompleted {

    /** on_error and on_completed end a stream. */
    predicate IsTerminal() {
      !OnNext?
    }
  }

  /** No notification of `ns` ends the stream. */
  predicate NoTerminal<T, E>(ns: seq<Notification<T, E>>) {
    forall i | 0 <= i < |ns| :: !ns[i].IsTerminal()
  }

  /** Only the last notification of `ns` may end the stream: nothing follows a terminal one. */
  predicate TerminalOnlyLast<T, E>(ns: seq<Notification<T, E>>) {
    forall i | 0 <= i < |ns| - 1 :: !ns[i].IsTerminal()
  }

  /** `ns` holds exactly one terminal notification, and it is the last one. */
  predicate EndsOnce<T, E>(ns: seq<Notification<T, E>>) {
    |ns| > 0 && ns[|ns| - 1].IsTerminal() && TerminalOnlyLast(ns)
  }

  /** The values carried by the OnNext notifications of `ns`, in order. */
  function Values<T, E>(ns: seq<Notification<T, E>>): (vs: seq<T>)
    ensures |vs| <= |ns|
    ensures NoTerminal(ns) ==> |vs| == |ns|
  {
    if |ns| == 0 then []
    else
      var last := ns[|ns| - 1];
      Values(ns[..|ns| - 1]) + (if last.OnNext? then [last.value] else [])
  }

  /** Appending one notification extends the values by at most its own. */
  lemma ValuesSnoc<T, E>(ns: seq<Notification<T, E>>, n: Notification<T, E>)
    ensures Values(ns + [n]) == Values(ns) + (if n.OnNext? then [n.value] else [])
  {
    assert (ns + [n])[..|ns|] == ns;
  }

  /** Every value wrapped as an OnNext notification, in order. */
  function Nexts<T, E>(vs: seq<T>): (ns: seq<Notification<T, E>>)
    ensures |ns| == |vs|
  {
    if |vs| == 0 then [] else [OnNext(vs[0])] + Nexts(vs[1..])
  }

  /** Wrapping a value in front of others wraps them one by one. */
  lemma NextsCons<T, E>(v: T, vs: seq<T>)
    ensures Nexts<T, E>([v] + vs) == [OnNext(v)] + Nexts(vs)
  {
    assert ([v] + vs)[1..] == vs;
  }

  /** Wrapping a value behind others wraps them one by one. */
  lemma {:induction false} NextsSnoc<T, E>(vs: seq<T>, v: T)
    ensures Nexts<T, E>(vs + [v]) == Nexts(vs) + [OnNext(v)]
    decreases |vs|
  {
    if |vs| == 0 {
      assert vs + [v] == [v];
    } else {
      assert (vs + [v])[1..] == vs[1..] + [v];
      NextsSnoc<T, E>(vs[1..], v);
    }
  }

  /** Extracting the values of wrapped values gives the values back. */
  lemma {:induction false} ValuesOfNexts<T, E>(vs: seq<T>)
    ensures Values(Nexts<T, E>(vs)) == vs
    decreases |vs|
  {
    if |vs| > 0 {
      var init, last := vs[..|vs| - 1], vs[|vs| - 1];
      assert vs == init + [last];
      NextsSnoc<T, E>(init, last);
      ValuesSnoc(Nexts<T, E>(init), OnNext(last));
      ValuesOfNexts<T, E>(init);
    }
  }
}
