/** The root cell and the path cursors over it.

    A `Root` holds the current snapshot, a write-once back-reference to the
    cursor that owns it, and (as the `Observable` it extends) the observer
    registry. A `Ref` is a (root, path) pair: it reads the root's current
    value at its path and writes back through `Root.Set`. The three cursor
    classes of the library (`Ref`, the internal snapshot cursor handed to
    observers as the old value, and `RootRef`, the owner that also exposes
    the observer API) are one class here, told apart by `kind`. */
module Structs {
  import opened Wrappers
  import opened Values
  import opened Reasons
  import opened Observers

  /** The two misuse errors the library throws, and the failed write through
      a path that does not resolve. */
  datatype StructError = OwnerAlreadySet | OwnerNotSet | PathNotFound

  /** Which cursor class a `Ref` stands for. */
  datatype RefKind = Cursor | EventSnapshot | RootHandle

  class Root {
    var value: Value
    var owner: Option<Ref>
    /** The observer registry `Root` inherits from `Observable`. */
    const registry: Observable<Ref>

    constructor (value: Value, owner: Option<Ref>)
      ensures this.value == value && this.owner == owner
      ensures fresh(registry) && registry.observers == [] && registry.invocations == []
    {
      this.value := value;
      this.owner := owner;
      registry := new Observable();
    }

    /** Install the owner, once; a second call throws and keeps the first. */
    method SetOwner(o: Ref) returns (outcome: Outcome<StructError>)
      modifies this`owner
      ensures old(owner).Some? ==> outcome == Fail(OwnerAlreadySet) && owner == old(owner)
      ensures old(owner).None? ==> outcome == Pass && owner == Some(o)
    {
      if owner.Some? {
        return Fail(OwnerAlreadySet);
      }
      owner := Some(o);
      outcome := Pass;
    }

    /** `deref()`: the current snapshot, read without side effects. */
    function Deref(): (r: Value)
      reads this
      ensures r == value
    {
      value
    }

    /** Swap in `v`, then notify every observer with a cursor on a frozen copy
        of the old value and with the live owner. Without an owner it throws
        and neither swaps nor notifies. `snapshot` names the frozen cursor. */
    method Set(v: Value, reason: ChangeReason) returns (outcome: Outcome<StructError>, ghost snapshot: Ref?)
      modifies this, registry
      ensures owner == old(owner) && registry.observers == old(registry.observers)
      ensures old(owner).None? ==> outcome == Fail(OwnerNotSet) && unchanged(this, registry)
      ensures old(owner).Some? ==>
                && outcome == Pass
                && value == v
                && snapshot != null && fresh(snapshot) && fresh(snapshot.root)
                && snapshot.kind == EventSnapshot && snapshot.path == []
                && snapshot.root.value == old(value) && snapshot.root.owner == owner
                && fresh(snapshot.root.registry)
                && snapshot.root.registry.observers == [] && snapshot.root.registry.invocations == []
                && registry.invocations == old(registry.invocations) + Calls<Ref>(registry.observers, snapshot, owner.value, reason)
    {
      snapshot := null;
      if owner.None? {
        return Fail(OwnerNotSet), snapshot;
      }
      var frozen := new Root(value, owner);
      var oldRef := new Ref.ForEvent(frozen);
      value := v;
      registry.Notify(reason, oldRef, owner.value);
      outcome, snapshot := Pass, oldRef;
    }
  }

  class Ref {
    const root: Root
    const path: Path
    const kind: RefKind

    /** A `RootRef` is the owner of its root and sits at the empty path. */
    ghost predicate Valid()
      reads this, root
    {
      kind == RootHandle ==> path == [] && root.owner == Some(this)
    }

    /** `new Ref(root, path)`, the cursor that `get` builds. */
    constructor At(root: Root, path: Path)
      ensures this.root == root && this.path == path && kind == Cursor
    {
      this.root := root;
      this.path := path;
      kind := Cursor;
    }

    /** `InternalRootRefForEvent`: a cursor at the empty path of `root`. */
    constructor ForEvent(root: Root)
      ensures this.root == root && path == [] && kind == EventSnapshot
    {
      this.root := root;
      path := [];
      kind := EventSnapshot;
    }

    /** `new RootRef(x)`: a fresh root holding `x`, with this cursor, at the
        empty path, installed as its owner. */
    constructor RootRef(x: Value)
      ensures kind == RootHandle && path == [] && Valid()
      ensures fresh(root) && fresh(root.registry) && root.value == x
      ensures root.registry.observers == [] && root.registry.invocations == []
    {
      root := new Root(x, None);
      path := [];
      kind := RootHandle;
      new;
      var outcome := root.SetOwner(this);
    }

    /** `get(k)`: a new cursor on the same root one segment further down; the
        root is not read. */
    method Get(k: Key) returns (child: Ref)
      ensures fresh(child) && child.kind == Cursor
      ensures child.root == root && child.path == path + [k]
    {
      child := new Ref.At(root, path + [k]);
    }

    /** `deref()`: the root's current value read at this cursor's path. */
    function Deref(): (r: Option<Value>)
      reads root
      ensures r == GetIn(root.value, path)
      ensures path == [] ==> r == Some(root.value)
    {
      GetIn(root.Deref(), path)
    }

    /** `update(f, reason)`: rebuild the root's value with `f` applied at
        this path and push it through `Root.Set`; returns this cursor. */
    method Update(f: Value -> Value, reason: ChangeReason) returns (res: Result<Ref, StructError>, ghost snapshot: Ref?)
      modifies root, root.registry
      ensures root.owner == old(root.owner) && root.registry.observers == old(root.registry.observers)
      ensures old(Deref()).None? ==>
                res == Failure(PathNotFound) && unchanged(root, root.registry)
      ensures old(Deref()).Some? && old(root.owner).None? ==>
                res == Failure(OwnerNotSet) && unchanged(root, root.registry)
      ensures old(Deref()).Some? && old(root.owner).Some? ==>
                && res == Success(this)
                && Some(root.value) == UpdateIn(old(root.value), path, f)
                && Deref() == Some(f(old(Deref()).value))
                && snapshot != null && fresh(snapshot) && fresh(snapshot.root)
                && snapshot.kind == EventSnapshot && snapshot.path == []
                && snapshot.root.value == old(root.value) && snapshot.root.owner == root.owner
                && fresh(snapshot.root.registry)
                && snapshot.root.registry.observers == [] && snapshot.root.registry.invocations == []
                && root.registry.invocations ==
                     old(root.registry.invocations) + Calls<Ref>(root.registry.observers, snapshot, root.owner.value, reason)
    {
      snapshot := null;
      UpdateInDefinedIff(root.Deref(), path, f);
      var next := UpdateIn(root.Deref(), path, f);
      if next.None? {
        return Failure(PathNotFound), snapshot;
      }
      GetAfterUpdateIn(root.Deref(), path, f);
      var outcome;
      outcome, snapshot := root.Set(next.value, reason);
      if outcome.Fail? {
        return Failure(outcome.error), snapshot;
      }
      res := Success(this);
    }

    /** `val(v, reason)`: the update whose updater ignores the old value. */
    method Val(v: Value, reason: ChangeReason) returns (res: Result<Ref, StructError>, ghost snapshot: Ref?)
      modifies root, root.registry
      ensures root.owner == old(root.owner) && root.registry.observers == old(root.registry.observers)
      ensures old(Deref()).None? ==>
                res == Failure(PathNotFound) && unchanged(root, root.registry)
      ensures old(Deref()).Some? && old(root.owner).None? ==>
                res == Failure(OwnerNotSet) && unchanged(root, root.registry)
      ensures old(Deref()).Some? && old(root.owner).Some? ==>
                && res == Success(this)
                && Some(root.value) == UpdateIn(old(root.value), path, Constant(v))
                && Deref() == Some(v)
                && snapshot != null && fresh(snapshot) && fresh(snapshot.root)
                && snapshot.kind == EventSnapshot && snapshot.path == []
                && snapshot.root.value == old(root.value) && snapshot.root.owner == root.owner
                && fresh(snapshot.root.registry)
                && snapshot.root.registry.observers == [] && snapshot.root.registry.invocations == []
                && root.registry.invocations ==
                     old(root.registry.invocations) + Calls<Ref>(root.registry.observers, snapshot, root.owner.value, reason)
    {
      snapshot := null;
      UpdateInDefinedIff(root.Deref(), path, Constant(v));
      var next := UpdateIn(root.Deref(), path, Constant(v));
      if next.None? {
        return Failure(PathNotFound), snapshot;
      }
      GetAfterUpdateIn(root.Deref(), path, Constant(v));
      var outcome;
      outcome, snapshot := root.Set(next.value, reason);
      if outcome.Fail? {
        return Failure(outcome.error), snapshot;
      }
      res := Success(this);
    }

    /** `RootRef.observe`: register with the root's registry. */
    method Observe(o: ObserverId)
      requires kind == RootHandle
      modifies root.registry`observers
      ensures root.registry.observers == old(root.registry.observers) + [o]
    {
      root.registry.Observe(o);
    }

    /** `RootRef.unobserve`: drop every registration of `o`. */
    method Unobserve(o: ObserverId)
      requires kind == RootHandle
      modifies root.registry`observers
      ensures root.registry.observers == Without(old(root.registry.observers), o)
    {
      root.registry.Unobserve(o);
    }

    /** `RootRef.notify`: a manual notification; an absent old or new value
        defaults to this cursor. */
    method Notify(reason: ChangeReason, oldVal: Option<Ref>, newVal: Option<Ref>)
      requires kind == RootHandle
      modifies root.registry`invocations
      ensures root.registry.invocations == old(root.registry.invocations) +
                Calls<Ref>(root.registry.observers,
                      if oldVal.Some? then oldVal.value else this,
                      if newVal.Some? then newVal.value else this,
                      reason)
    {
      var o := if oldVal.Some? then oldVal.value else this;
      var n := if newVal.Some? then newVal.value else this;
      root.registry.Notify(reason, o, n);
    }
  }

  /** `Struct(x)`: the public entry point, a new `RootRef` on `x`. */
  method Struct(x: Value) returns (r: Ref)
    ensures fresh(r) && fresh(r.root) && fresh(r.root.registry)
    ensures r.kind == RootHandle && r.Valid() && r.root.value == x && r.Deref() == Some(x)
    ensures r.root.registry.observers == [] && r.root.registry.invocations == []
  {
    r := new Ref.RootRef(x);
  }

  /** A cursor made by `get(k)` reads one segment below what its parent
      reads, on the same root. */
  lemma DerefChild(parent: Ref, child: Ref, k: Key)
    requires child.root == parent.root && child.path == parent.path + [k]
    ensures child.Deref() == match parent.Deref() case None => None case Some(x) => Child(x, k)
  {
    var w := parent.root.value;
    GetInAppend(w, parent.path, [k]);
    match GetIn(w, parent.path)
    case None =>
    case Some(x) =>
      assert GetIn(x, [k]) == match Child(x, k) case None => None case Some(c) => GetIn(c, []);
  }
}
