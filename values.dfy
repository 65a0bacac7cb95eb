/** Nested persistent values: the stand-in for the immutable collections that
    hold a root's state. A value is a primitive leaf, a string-keyed map or a
    list; every operation returns a new value and never changes its input.
    Reading and writing go through a path of keys (`getIn` / `updateIn`). */
module Values {
  import opened Wrappers

  /** Primitive leaves: numbers, strings, booleans, null, and opaque objects
      (a Date, a function, or a value marked as raw). */
  datatype Atom = Null | Bool(b: bool) | Num(n: int) | Str(s: string) | Opaque(id: nat)

  datatype Value =
    | Leaf(atom: Atom)
    | MapV(entries: map<string, Value>)
    | ListV(items: seq<Value>)

  /** One path segment: a map key or a list index. */
  datatype Key = Name(name: string) | Index(index: nat)

  type Path = seq<Key>

  /** The value one segment below `w`, if that segment exists in `w`. */
  function Child(w: Value, k: Key): Option<Value>
  {
    match k
    case Name(s) => if w.MapV? && s in w.entries then Some(w.entries[s]) else None
    case Index(i) => if w.ListV? && i < |w.items| then Some(w.items[i]) else None
  }

  /** `w` with the existing segment `k` replaced by `c`. */
  function Replace(w: Value, k: Key, c: Value): Value
    requires Child(w, k).Some?
  {
    match k
    case Name(s) => MapV(w.entries[s := c])
    case Index(i) => ListV(w.items[i := c])
  }

  /** Read at a path; `None` stands for the collection library's `undefined`
      when a segment is missing or the value below is a leaf. */
  function GetIn(w: Value, p: Path): Option<Value>
    decreases |p|
  {
    if p == [] then Some(w)
    else
      match Child(w, p[0])
      case None => None
      case Some(c) => GetIn(c, p[1..])
  }

  /** Rebuild `w` with the value at the existing path `p` transformed by `f`;
      `None` when the path does not resolve. */
  function UpdateIn(w: Value, p: Path, f: Value -> Value): Option<Value>
    decreases |p|
  {
    if p == [] then Some(f(w))
    else
      match Child(w, p[0])
      case None => None
      case Some(c) =>
        match UpdateIn(c, p[1..], f)
        case None => None
        case Some(c') => Some(Replace(w, p[0], c'))
  }

  /** The updater that `val` hands to `updateIn`: ignore the old value. */
  function Constant(v: Value): Value -> Value
  {
    _ => v
  }

  /** Two paths that part ways at some segment both have. */
  predicate Diverge(p: Path, q: Path)
    decreases |p|
  {
    p != [] && q != [] && (p[0] != q[0] || Diverge(p[1..], q[1..]))
  }

  lemma ChildOfReplace(w: Value, k: Key, c: Value, k': Key)
    requires Child(w, k).Some?
    ensures Child(Replace(w, k, c), k') == if k' == k then Some(c) else Child(w, k')
  {
  }

  /** Reading along `p + q` is reading along `p`, then along `q`: a child
      cursor's read is one more step from its parent's. */
  lemma {:induction false} GetInAppend(w: Value, p: Path, q: Path)
    ensures GetIn(w, p + q) == match GetIn(w, p) case None => None case Some(x) => GetIn(x, q)
  {
    if p == [] {
      assert p + q == q;
    } else {
      assert (p + q)[0] == p[0];
      assert (p + q)[1..] == p[1..] + q;
      match Child(w, p[0])
      case None =>
      case Some(c) => GetInAppend(c, p[1..], q);
    }
  }

  /** A write at `p` succeeds exactly when a read at `p` finds a value. */
  lemma {:induction false} UpdateInDefinedIff(w: Value, p: Path, f: Value -> Value)
    ensures UpdateIn(w, p, f).Some? <==> GetIn(w, p).Some?
    decreases |p|
  {
    if p != [] {
      match Child(w, p[0])
      case None =>
      case Some(c) => UpdateInDefinedIff(c, p[1..], f);
    }
  }

  /** Read-after-write: after updating an existing path with `f`, reading the
      same path yields `f` of what was there. */
  lemma {:induction false} GetAfterUpdateIn(w: Value, p: Path, f: Value -> Value)
    requires GetIn(w, p).Some?
    ensures UpdateIn(w, p, f).Some?
    ensures GetIn(UpdateIn(w, p, f).value, p) == Some(f(GetIn(w, p).value))
    decreases |p|
  {
    if p != [] {
      var c := Child(w, p[0]).value;
      GetAfterUpdateIn(c, p[1..], f);
      ChildOfReplace(w, p[0], UpdateIn(c, p[1..], f).value, p[0]);
    }
  }

  /** An update depends on its updater only through the updater's answer on
      the value at the path; so `val(v)` and `update(_ => v)` agree, and so
      does any updater that maps the current value to `v`. */
  lemma {:induction false} UpdateInDependsOnlyOnTarget(w: Value, p: Path, f: Value -> Value, g: Value -> Value)
    requires GetIn(w, p).Some? ==> f(GetIn(w, p).value) == g(GetIn(w, p).value)
    ensures UpdateIn(w, p, f) == UpdateIn(w, p, g)
    decreases |p|
  {
    if p != [] {
      match Child(w, p[0])
      case None =>
      case Some(c) => UpdateInDependsOnlyOnTarget(c, p[1..], f, g);
    }
  }

  /** Writing at `p` leaves every path that diverges from `p` as it was. */
  lemma {:induction false} UpdateInFrame(w: Value, p: Path, q: Path, f: Value -> Value)
    requires GetIn(w, p).Some?
    requires Diverge(p, q)
    ensures UpdateIn(w, p, f).Some?
    ensures GetIn(UpdateIn(w, p, f).value, q) == GetIn(w, q)
    decreases |p|
  {
    UpdateInDefinedIff(w, p, f);
    var c := Child(w, p[0]).value;
    var c' := UpdateIn(c, p[1..], f).value;
    ChildOfReplace(w, p[0], c', q[0]);
    if p[0] == q[0] {
      UpdateInFrame(c, p[1..], q[1..], f);
    }
  }

  /** An updater that returns what it is given leaves the whole value as it
      was. */
  lemma {:induction false} UpdateInIdentity(w: Value, p: Path, f: Value -> Value)
    requires GetIn(w, p).Some?
    requires f(GetIn(w, p).value) == GetIn(w, p).value
    ensures UpdateIn(w, p, f) == Some(w)
    decreases |p|
  {
    if p != [] {
      var c := Child(w, p[0]).value;
      UpdateInIdentity(c, p[1..], f);
      match p[0]
      case Name(s) => assert w.entries[s := c] == w.entries;
      case Index(i) => assert w.items[i := c] == w.items;
    }
  }
}
