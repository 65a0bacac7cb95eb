/** The observer registry: an ordered list of callbacks, appended to by
    `observe`, filtered by `unobserve` and walked in order by `notify`.
    A callback is identified by an `ObserverId` (the identity `!==`
    compares); instead of running it, `notify` records the call it makes in
    `invocations`, so that the order, multiplicity and arguments of the
    calls can be stated. */
module Observers {
  import opened Reasons

  type ObserverId = nat

  /** One invocation `observer(oldVal, newVal, reason)`. */
  datatype Call<T> = Call(observer: ObserverId, oldVal: T, newVal: T, reason: ChangeReason)

  /** The calls one notification makes: one per registry entry, in
      registration order. */
  function Calls<T>(observers: seq<ObserverId>, oldVal: T, newVal: T, reason: ChangeReason): seq<Call<T>>
  {
    if observers == [] then []
    else [Call(observers[0], oldVal, newVal, reason)] + Calls(observers[1..], oldVal, newVal, reason)
  }

  /** The registry after `unobserve(o)`: every entry other than `o`. */
  function Without(observers: seq<ObserverId>, o: ObserverId): seq<ObserverId>
  {
    if observers == [] then []
    else (if observers[0] == o then [] else [observers[0]]) + Without(observers[1..], o)
  }

  /** `a` can be obtained from `b` by deleting entries (order is kept). */
  predicate IsSubsequence(a: seq<ObserverId>, b: seq<ObserverId>)
    decreases |b|
  {
    a == [] || (b != [] && ((a[0] == b[0] && IsSubsequence(a[1..], b[1..])) || IsSubsequence(a, b[1..])))
  }

  lemma {:induction false} CallsAppend<T>(a: seq<ObserverId>, b: seq<ObserverId>, oldVal: T, newVal: T, reason: ChangeReason)
    ensures Calls(a + b, oldVal, newVal, reason) == Calls(a, oldVal, newVal, reason) + Calls(b, oldVal, newVal, reason)
  {
    if a == [] {
      assert a + b == b;
    } else {
      assert (a + b)[0] == a[0];
      assert (a + b)[1..] == a[1..] + b;
      CallsAppend(a[1..], b, oldVal, newVal, reason);
    }
  }

  /** A notification calls exactly the registered observers, once per entry
      (an observer registered twice is called twice) and in registration
      order, each with the same `(oldVal, newVal, reason)`. */
  lemma {:induction false} CallsInOrder<T>(observers: seq<ObserverId>, oldVal: T, newVal: T, reason: ChangeReason)
    ensures |Calls(observers, oldVal, newVal, reason)| == |observers|
    ensures forall i :: 0 <= i < |observers| ==>
              Calls(observers, oldVal, newVal, reason)[i] == Call(observers[i], oldVal, newVal, reason)
  {
    if observers != [] {
      CallsInOrder(observers[1..], oldVal, newVal, reason);
    }
  }

  /** `unobserve(o)` drops every entry equal to `o` and keeps the count of
      every other observer. */
  lemma {:induction false} WithoutContents(observers: seq<ObserverId>, o: ObserverId)
    ensures multiset(Without(observers, o)) == multiset(observers)[o := 0]
  {
    if observers != [] {
      WithoutContents(observers[1..], o);
      assert observers == [observers[0]] + observers[1..];
    }
  }

  /** `unobserve(o)` keeps the remaining entries in their original order. */
  lemma {:induction false} WithoutKeepsOrder(observers: seq<ObserverId>, o: ObserverId)
    ensures IsSubsequence(Without(observers, o), observers)
  {
    if observers != [] {
      var rest := Without(observers[1..], o);
      WithoutKeepsOrder(observers[1..], o);
      if observers[0] == o {
        assert Without(observers, o) == rest;
        SubsequenceOfTail(rest, observers);
      } else {
        assert Without(observers, o) == [observers[0]] + rest;
      }
    }
  }

  lemma {:induction false} SubsequenceOfTail(a: seq<ObserverId>, b: seq<ObserverId>)
    requires b != [] && IsSubsequence(a, b[1..])
    ensures IsSubsequence(a, b)
  {
  }

  /** `unobserve` of an observer that is not registered changes nothing. */
  lemma {:induction false} WithoutAbsent(observers: seq<ObserverId>, o: ObserverId)
    requires o !in observers
    ensures Without(observers, o) == observers
  {
    if observers != [] {
      WithoutAbsent(observers[1..], o);
      assert observers == [observers[0]] + observers[1..];
    }
  }

  /** `Observable`: the registry object that `Root` extends. */
  class Observable<T> {
    var observers: seq<ObserverId>
    var invocations: seq<Call<T>>

    constructor ()
      ensures observers == [] && invocations == []
    {
      observers := [];
      invocations := [];
    }

    /** `observe`: push one entry, even if the observer is already there. */
    method Observe(o: ObserverId)
      modifies this`observers
      ensures observers == old(observers) + [o]
    {
      observers := observers + [o];
    }

    /** `unobserve`: replace the registry by the entries not equal to `o`. */
    method Unobserve(o: ObserverId)
      modifies this`observers
      ensures observers == Without(old(observers), o)
      ensures multiset(observers) == multiset(old(observers))[o := 0]
      ensures IsSubsequence(observers, old(observers))
    {
      WithoutContents(observers, o);
      WithoutKeepsOrder(observers, o);
      observers := Without(observers, o);
    }

    /** `notify`: call every entry in registration order. */
    method Notify(reason: ChangeReason, oldVal: T, newVal: T)
      modifies this`invocations
      ensures invocations == old(invocations) + Calls(observers, oldVal, newVal, reason)
    {
      var i := 0;
      while i < |observers|
        invariant 0 <= i <= |observers|
        invariant invocations == old(invocations) + Calls(observers[..i], oldVal, newVal, reason)
      {
        CallsAppend(observers[..i], [observers[i]], oldVal, newVal, reason);
        assert observers[..i + 1] == observers[..i] + [observers[i]];
        invocations := invocations + [Call(observers[i], oldVal, newVal, reason)];
        i := i + 1;
      }
      assert observers[..i] == observers;
    }
  }
}
