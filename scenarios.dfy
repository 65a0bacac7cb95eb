/** Client code written against the contracts alone, following the library's
    own usage examples: what a caller can conclude about reads, writes,
    notifications and the two misuse errors. */
module Scenarios {
  import opened Wrappers
  import opened Values
  import opened Reasons
  import opened Observers
  import opened Structs

  function MinusFive(w: Value): Value
  {
    if w.Leaf? && w.atom.Num? then Leaf(Num(w.atom.n - 5)) else w
  }

  function AppendD(w: Value): Value
  {
    if w.Leaf? && w.atom.Str? then Leaf(Str(w.atom.s + "d")) else w
  }

  /** Who was called, in the order of the log. */
  function Callees(log: seq<Call<Ref>>): (r: seq<ObserverId>)
    ensures |r| == |log|
  {
    seq(|log|, i requires 0 <= i < |log| => log[i].observer)
  }

  /** `data.get('a')` reads 5, `.val(10)` makes it read 10, the observer sees
      the live root as the new value and a cursor on the old value that still
      reads 5 after a further `update(x => x - 5)`; the second notification's
      old value reads 10. */
  method ValThenUpdate() returns (before: Option<Value>, afterVal: Option<Value>, oldSeen: Option<Value>,
                                  newIsLive: bool, afterUpdate: Option<Value>, oldSeenLater: Option<Value>,
                                  secondOld: Option<Value>)
    ensures before == Some(Leaf(Num(5))) && afterVal == Some(Leaf(Num(10)))
    ensures oldSeen == Some(Leaf(Num(5))) && newIsLive
    ensures afterUpdate == Some(Leaf(Num(5)))
    ensures oldSeenLater == Some(Leaf(Num(5))) && secondOld == Some(Leaf(Num(10)))
  {
    var data := Struct(MapV(map["a" := Leaf(Num(5)), "b" := Leaf(Str("hey"))]));
    data.Observe(1);
    var a := data.Get(Name("a"));
    DerefChild(data, a, Name("a"));
    before := a.Deref();
    var reason := NewChangeReason(None, None, None);
    var res;
    ghost var snapshot: Ref?;
    res, snapshot := a.Val(Leaf(Num(10)), reason);
    CallsInOrder<Ref>([1], snapshot, data, reason);
    afterVal := a.Deref();
    var first := data.root.registry.invocations[0];
    newIsLive := first.newVal == data;
    var oldA := first.oldVal.Get(Name("a"));
    DerefChild(first.oldVal, oldA, Name("a"));
    oldSeen := oldA.Deref();
    res, snapshot := a.Update(MinusFive, reason);
    CallsInOrder<Ref>([1], snapshot, data, reason);
    afterUpdate := a.Deref();
    oldSeenLater := oldA.Deref();
    var second := data.root.registry.invocations[1];
    var secondA := second.oldVal.Get(Name("a"));
    DerefChild(second.oldVal, secondA, Name("a"));
    secondOld := secondA.Deref();
  }

  /** The old cursor an observer receives is not read-only: its root carries
      the live owner, so a write through it succeeds. That write changes only
      the frozen root, whose registry is empty, so nobody is notified and the
      live root keeps its value. */
  method WriteThroughOldCursor() returns (written: Result<Ref, StructError>, oldNow: Option<Value>,
                                          liveNow: Option<Value>, liveCalls: nat, frozenCalls: nat)
    ensures written.Success? && oldNow == Some(Leaf(Num(99)))
    ensures liveNow == Some(Leaf(Num(10)))
    ensures liveCalls == 1 && frozenCalls == 0
  {
    var data := Struct(MapV(map["a" := Leaf(Num(5))]));
    data.Observe(1);
    var a := data.Get(Name("a"));
    DerefChild(data, a, Name("a"));
    var reason := NewChangeReason(None, None, None);
    var res;
    ghost var snapshot: Ref?;
    res, snapshot := a.Val(Leaf(Num(10)), reason);
    CallsInOrder<Ref>([1], snapshot, data, reason);
    var oldRef := data.root.registry.invocations[0].oldVal;
    var oldA := oldRef.Get(Name("a"));
    DerefChild(oldRef, oldA, Name("a"));
    written, snapshot := oldA.Val(Leaf(Num(99)), reason);
    oldNow := oldA.Deref();
    liveNow := a.Deref();
    liveCalls := |data.root.registry.invocations|;
    frozenCalls := |oldRef.root.registry.invocations|;
  }

  /** `get('g').get(0).get('b').get(0).update(x => x + 'd')` on
      `{g: [{a: 40, b: ['d']}]}` reads `'dd'` afterwards. */
  method NestedUpdate() returns (before: Option<Value>, after: Option<Value>)
    ensures before == Some(Leaf(Str("d"))) && after == Some(Leaf(Str("dd")))
  {
    var item := MapV(map["a" := Leaf(Num(40)), "b" := ListV([Leaf(Str("d"))])]);
    var data := Struct(MapV(map["g" := ListV([item])]));
    var g := data.Get(Name("g"));
    DerefChild(data, g, Name("g"));
    var g0 := g.Get(Index(0));
    DerefChild(g, g0, Index(0));
    var b := g0.Get(Name("b"));
    DerefChild(g0, b, Name("b"));
    var b0 := b.Get(Index(0));
    DerefChild(b, b0, Index(0));
    before := b0.Deref();
    var res;
    ghost var snapshot: Ref?;
    assert "d" + "d" == "dd";
    res, snapshot := b0.Update(AppendD, NewChangeReason(None, None, None));
    after := b0.Deref();
  }

  /** Observers 1, 2, 1 registered in that order are called 1, 2, 1 by one
      mutation; after `unobserve(1)` the next mutation calls only 2. */
  method ObserverOrder() returns (first: seq<ObserverId>, second: seq<ObserverId>)
    ensures first == [1, 2, 1] && second == [2]
  {
    var data := Struct(MapV(map["a" := Leaf(Num(5))]));
    data.Observe(1);
    data.Observe(2);
    data.Observe(1);
    assert data.root.registry.observers == [1, 2, 1];
    var reason := NewChangeReason(None, None, None);
    var res;
    ghost var snapshot: Ref?;
    res, snapshot := data.Val(MapV(map["a" := Leaf(Num(6))]), reason);
    CallsInOrder<Ref>([1, 2, 1], snapshot, data, reason);
    first := Callees(data.root.registry.invocations);
    data.Unobserve(1);
    assert Without([1, 2, 1], 1) == [] + Without([2, 1], 1);
    assert Without([2, 1], 1) == [2] + Without([1], 1);
    assert Without([1], 1) == [] + Without([], 1);
    assert data.root.registry.observers == [2];
    var n := |data.root.registry.invocations|;
    res, snapshot := data.Val(MapV(map["a" := Leaf(Num(7))]), reason);
    CallsInOrder<Ref>([2], snapshot, data, reason);
    assert data.root.registry.invocations[n..] == Calls<Ref>([2], snapshot, data, reason);
    second := Callees(data.root.registry.invocations[n..]);
  }

  /** A second `setOwner` throws "Owner already set"; `set` on a root that
      has no owner throws "Owner not set" and leaves the value alone. */
  method MisuseErrors() returns (secondOwner: Outcome<StructError>, early: Outcome<StructError>, kept: Value)
    ensures secondOwner == Fail(OwnerAlreadySet)
    ensures early == Fail(OwnerNotSet) && kept == Leaf(Num(1))
  {
    var orphan := new Root(Leaf(Num(1)), None);
    ghost var snapshot: Ref?;
    early, snapshot := orphan.Set(Leaf(Num(2)), NewChangeReason(None, None, None));
    kept := orphan.Deref();
    var data := Struct(MapV(map[]));
    var intruder := data.Get(Name("x"));
    secondOwner := data.root.SetOwner(intruder);
  }
}
