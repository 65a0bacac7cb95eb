# ts-immutable-struct in Dafny

This is a model of the runtime core of `index.ts`, a small state-management library. It has three parts.

- **Root.** A mutable cell holding the current immutable snapshot of the application state. It also holds a write-once back-reference to the cursor that owns it, and an observer registry (the `Observable` it extends).
- **Ref.** A cursor: a pair of a root and a key path. `get(k)` derives a child cursor by extending the path, without reading anything. `deref()` reads the root's current value at the path. `val(v)` and `update(f)` rebuild the root's value at the path and hand the result to `Root.set`.
- **Notification protocol.** `Root.set` refuses to run without an owner. Otherwise it freezes the old value behind a fresh internal cursor, swaps in the new value, and then calls every registered observer in registration order. Each call gets the frozen cursor as the old value and the live owner as the new value.

Modules, one per component:

- `Wrappers` (`wrappers.dfy`): `Option`, `Result`, `Outcome`.
- `Values` (`values.dfy`): the nested value that stands in for the immutable collections. It is a leaf, a string-keyed map or a list. `GetIn` and `UpdateIn` work on key paths, and the lemmas give the read-after-write, frame and updater-independence laws.
- `Reasons` (`change_reason.dfy`): `ChangeReason` and the defaulting of `wasUser`.
- `Observers` (`observable.dfy`): the `Observable` class, plus the functions `Calls` and `Without` that specify `notify` and `unobserve`.
- `Structs` (`structs.dfy`): the `Root` and `Ref` classes and the `Struct` entry point. `Ref` covers the library's three cursor classes, told apart by `kind`:
  - `Cursor` for `Ref`
  - `EventSnapshot` for `InternalRootRefForEvent`
  - `RootHandle` for `RootRef`
- `Scenarios` (`scenarios.dfy`): client methods that re-derive the library's usage examples from the contracts alone.

Observer callbacks are modelled as `ObserverId`s, compared by identity as `!==` compares them. Instead of running a callback, `notify` appends a `Call(observer, oldVal, newVal, reason)` record to the registry's `invocations` log. That makes the order, the multiplicity and the arguments of the calls visible to the contracts.

The old-value cursor is frozen against the live root, and the contracts show why. The cursor that `Root.Set`, `Ref.Val` and `Ref.Update` hand to observers is returned as the ghost out-parameter `snapshot`. It sits on a root that is `fresh`, with a fresh, empty registry of its own, so it is distinct from every root that existed before. A write through a cursor may modify only that cursor's own root and registry, so writes through cursors on other roots (the live one included) leave the snapshot's value alone. `Scenarios.ValThenUpdate` uses this to show that the old cursor still reads 5 after one further write to the live root. The snapshot is not read-only, though: its root carries the live owner (index.ts:121), so a write through the old cursor or one of its children succeeds and changes what it reads. That write notifies nobody, because the frozen root's registry is empty (`Scenarios.WriteThroughOldCursor`).

## Model

| member | source | states |
|---|---|---|
| `Reasons.NewChangeReason` | index.ts:65-69 | `event` and `source` are kept as given. An explicit `wasUser` wins. Without one, `wasUser` holds exactly when an event is present. |
| `Observers.Observable.constructor` | index.ts:78-79 | A new registry has no observers and has made no calls. |
| `Observers.Observable.Observe` | index.ts:81-83 | Appends exactly one entry, even for an observer already registered. Nothing else changes. |
| `Observers.Observable.Unobserve` | index.ts:85-87 | The registry becomes `Without(old, o)`. Every `o` is removed and every other observer keeps its count. The result is an order-preserving subsequence of the old registry. The call log is untouched. |
| `Observers.Observable.Notify` | index.ts:89-93 | The loop appends `Calls(observers, oldVal, newVal, reason)` to the log: one call per entry, in registration order. The registry itself is untouched. |
| `Observers.CallsInOrder` | index.ts:89-93 | One notification makes exactly `|observers|` calls. Call `i` goes to entry `i` with the same `(oldVal, newVal, reason)`, so an observer registered twice is called twice. |
| `Observers.CallsAppend` | index.ts:90-92 | The calls for `a + b` are the calls for `a` followed by those for `b`. The `notify` loop's invariant rests on this. |
| `Observers.WithoutContents` | index.ts:86 | Filtering out `o` leaves the multiset of entries with the count of `o` set to zero and every other count unchanged. |
| `Observers.WithoutKeepsOrder` | index.ts:86 | Filtering out `o` keeps the remaining entries in their original relative order. |
| `Observers.WithoutAbsent` | index.ts:86 | `unobserve` of an observer that is not registered leaves the registry as it was. |
| `Structs.Root.constructor` | index.ts:100-104 | A new root holds the given value and the given owner, if any, and a fresh, empty registry. |
| `Structs.Root.SetOwner` | index.ts:106-111 | With an owner already set, fails with `OwnerAlreadySet` and keeps the first owner. Otherwise it installs the given owner. |
| `Structs.Root.Set` | index.ts:117-124 | Without an owner, fails with `OwnerNotSet` and changes nothing: no swap, no calls. Otherwise the value becomes `v`. A fresh `EventSnapshot` cursor sits on a fresh root that holds the pre-mutation value and the same owner, with a fresh, empty registry. Each registered observer is called once, in order, with that cursor as the old value, the live owner as the new value, and the reason. Owner and registry entries are unchanged. |
| `Structs.Root.Deref` | index.ts:113-115 | Returns the root's current snapshot, `value`, and reads nothing else. |
| `Structs.Ref.At` | index.ts:135-138 | A cursor holds exactly the root and path it is given. |
| `Structs.Ref.ForEvent` | index.ts:169-173 | The internal old-value cursor sits at the empty path of the root it is given. |
| `Structs.Ref.RootRef` | index.ts:226-229 | Builds a fresh root holding `x` with an empty registry. The new cursor is at the empty path and is installed as that root's owner (`Valid`). |
| `Structs.Ref.Get` | index.ts:164-166 | Returns a fresh cursor on the same root with path `path + [k]`. The parent's path is a constant and does not change, and no root state is touched. |
| `Structs.Ref.Deref` | index.ts:140-142 | Returns `getIn(root.value, path)`, the root's current value read at this cursor's path. A cursor at the empty path reads the whole snapshot. The read is live, since it depends on the root's state at call time. |
| `Structs.DerefChild` | index.ts:140-142 | A child made by `get(k)` reads exactly one segment below what its parent reads on the same root, and nothing when the parent reads nothing. |
| `Structs.Ref.Update` | index.ts:149-152 | Errors are checked in the source's order: `PathNotFound` (path absent) first, then `OwnerNotSet` (no owner). Either error leaves the root and registry untouched. On success it returns this same cursor. The root's value becomes `updateIn(old, path, f)`, and `deref()` then yields `f` of the old value at the path. The observers are called exactly as by `Root.Set`, and the owner is unchanged. |
| `Structs.Ref.Val` | index.ts:144-147 | The same outcome and post-state as `Update` with the updater `Constant(v)`. After success, `deref()` yields `v` and the result is this same cursor. |
| `Structs.Ref.Observe` | index.ts:231-233 | On the root cursor, appends one entry to its root's registry. |
| `Structs.Ref.Unobserve` | index.ts:235-237 | On the root cursor, filters every entry equal to `o` out of its root's registry. |
| `Structs.Ref.Notify` | index.ts:239-241 | On the root cursor, calls every registered observer in order. An absent old or new value defaults to the root cursor itself. |
| `Structs.Struct` | index.ts:244-246 | Returns a fresh owning root cursor whose `deref()` is the initial value, with no observers, so writes through it never meet `OwnerNotSet`. |
| `Values.GetInAppend` | index.ts:141 | Reading along `p + q` is reading along `p` and then along `q`, and is absent when the first part is absent. |
| `Values.UpdateInDefinedIff` | index.ts:145 | An `updateIn` at a path succeeds exactly when `getIn` at that path finds a value. Both directions are stated. |
| `Values.GetAfterUpdateIn` | index.ts:150 | Read-after-write: after updating an existing path with `f`, reading that path yields `f` of the previous value. |
| `Values.UpdateInDependsOnlyOnTarget` | index.ts:144-152 | Two updaters that agree on the current value at the path give the same new root value. So `val(v)` and `update(_ => v)` have the same post-state, as does any updater that maps the current value to `v`. |
| `Values.UpdateInFrame` | index.ts:150 | Writing at `p` leaves the value at every path that diverges from `p` unchanged. |
| `Values.UpdateInIdentity` | index.ts:150 | An updater that returns its argument leaves the whole value unchanged. |
| `Scenarios.ValThenUpdate` | tests/index.test.ts:55-66 | `get('a')` reads 5, and `val(10)` makes it read 10. The observer's new value is the live root cursor. The observer's old cursor reads 5, and still does after a further `update(x => x - 5)`. The second notification's old cursor reads 10. |
| `Scenarios.WriteThroughOldCursor` | index.ts:117-124 | A write through the old cursor an observer received succeeds and changes what that cursor reads. The live root keeps its value, the live registry records no new call, and the frozen root's registry records none either. |
| `Scenarios.NestedUpdate` | tests/index.test.ts:96-99 | On `{g: [{a: 40, b: ['d']}]}`, the cursor `g/0/b/0` reads `'d'` and, after `update(x => x + 'd')`, reads `'dd'`. |
| `Scenarios.ObserverOrder` | index.ts:81-93 | With observers 1, 2, 1 registered, one write calls 1, 2, 1 in that order. After `unobserve(1)`, the next write calls only 2. |
| `Scenarios.MisuseErrors` | index.ts:106-124 | A second `setOwner` fails with `OwnerAlreadySet`. `set` on an ownerless root fails with `OwnerNotSet` and keeps its value. |

## Left out

- The immutable collection library is not modelled: structural sharing, hashing, and the `fromJS` deep conversion. `Struct` and `Ref.RootRef` take an already built `Value`.
- `Values.GetIn` treats list indices as natural numbers. Negative indices, which the collection library counts from the end, are not modelled. A string key on a list and a number key on a map always read as absent.
- Structs.Ref.Update: a path that does not resolve is reported as `PathNotFound`, and the root is left unchanged. The collection library would instead create missing map levels, or throw "invalid keyPath" when the path goes through a leaf. Auto-creation of intermediate paths is not modelled.
- Structs.Ref.Val: the same `PathNotFound` policy as `Ref.Update`.
- Observer callbacks are identities, not closures. Their bodies are not run, so reentrant mutation or `unobserve` from inside a callback is not modelled. Neither is a callback that throws. In index.ts:90-92 such a throw would stop the remaining callbacks, since the loop has no isolation.
- `notify` (index.ts:90-92) walks the live `_observers` array and does not isolate a throwing callback; the model's calls never throw and the registry cannot change during a notification.
- `val` and `update` take the `ChangeReason` as a required argument (index.ts:144, 149), and the model does the same.
- Observers are called as `(oldVal, newVal, event)` (index.ts:58, 91); tests/index.test.ts:46 writes its callback with a different parameter order, and the model follows index.ts.
- The DOM `Event` and the free-form `source` payload of a `ChangeReason` are opaque natural-number tokens.
- The compile-time overload interfaces have no runtime behaviour and are not modelled: `Map`, `List`, `ObjectRef`, `ArrayRef`, `ImmutableRef`, `LeafRef` and the `__$typespec__` fields. The same goes for `Raw`, an identity cast, and the `Map()`/`List()` factories, which only wrap the conversion.
- There is no class inheritance: `RootRef` and `InternalRootRefForEvent` are `Ref` objects with a `kind` tag. The observer methods on `Ref` require `kind == RootHandle`; in the source, the static types are what allow them only on `RootRef`.
- Values are compared structurally. Reference identity of snapshots is not modelled, except for cursors and roots, which are objects.
