/** Optional values, used wherever the source has an optional property or
    an operation that may throw. */
module Outcomes {
  datatype Option<+T> = None | Some(value: T)

  /** JavaScript's `a ?? b` on optional settings: the first one that is set. */
  function Coalesce<T>(a: Option<T>, b: Option<T>): (r: Option<T>)
    ensures a.Some? ==> r == a
    ensures a.None? ==> r == b
  {
    if a.Some? then a else b
  }
}

/** Decimal rendering of integers, used where the source interpolates a
    number into a default error message. */
module Decimal {
  function DigitChar(d: nat): (c: char)
    requires d < 10
    ensures '0' <= c <= '9'
  {
    "0123456789"[d]
  }

  function NatToString(n: nat): (s: string)
    ensures |s| >= 1
    ensures forall k :: 0 <= k < |s| ==> '0' <= s[k] <= '9'
    decreases n
  {
    if n < 10 then [DigitChar(n)] else NatToString(n / 10) + [DigitChar(n % 10)]
  }

  function IntToString(i: int): string {
    if i < 0 then "-" + NatToString(-i) else NatToString(i)
  }
}

/** The form's data: a JSON-like value tree, property lookup along a path
    (lodash `_.get`) and path update (the store's `setPath`). */
module Values {
  type Key = string

  /** An ordered sequence of property names, from the root downwards. */
  type Path = seq<Key>

  /** A JSON-like value. Arrays are objects whose keys are their decimal
      indices: the engine only ever reads properties, so that is all an
      array needs to be here. */
  datatype Value =
    | Undefined
    | Null
    | Bool(b: bool)
    | Num(n: int)
    | Str(s: string)
    | Obj(props: map<Key, Value>)

  /** JavaScript falsiness: `undefined`, `null`, `false`, `0` and `""`. */
  predicate Falsy(v: Value) {
    match v
    case Undefined => true
    case Null => true
    case Bool(b) => !b
    case Num(n) => n == 0
    case Str(s) => s == ""
    case Obj(_) => false
  }

  /** Reading property `k` of `v`; a missing property and a property of a
      primitive read as `undefined`. */
  function PropertyOf(v: Value, k: Key): Value {
    if v.Obj? && k in v.props then v.props[k] else Undefined
  }

  /** Nested property lookup along a path; `undefined` or `null` met on
      the way make the whole lookup `undefined`, as lodash `_.get` does. */
  function Walk(v: Value, p: Path): Value
    decreases |p|
  {
    if p == [] then v else Walk(PropertyOf(v, p[0]), p[1..])
  }

  /** `_.get(root, p)`: the empty path reads `undefined`, and so does a
      path that meets `undefined` or `null` on the way. */
  function Lookup(root: Value, p: Path): Value {
    if p == [] then Undefined else Walk(root, p)
  }

  /** What the store's `setPath` does with the empty path: ignore it, as
      lodash `_.set` does, or replace the whole tree. */
  datatype EmptyPathPolicy = EmptyPathIgnored | EmptyPathIsRoot

  /** Replaces the value at a non-empty path, creating an object wherever
      the path runs through something that is not one. */
  function Assign(v: Value, p: Path, x: Value): Value
    decreases |p|
  {
    if p == [] then x
    else
      var props := if v.Obj? then v.props else map[];
      Obj(props[p[0] := Assign(PropertyOf(v, p[0]), p[1..], x)])
  }

  /** The store's `setPath(p, x)`. */
  function SetPath(root: Value, p: Path, x: Value, policy: EmptyPathPolicy): Value {
    if p == [] then (if policy == EmptyPathIsRoot then x else root)
    else Assign(root, p, x)
  }

  predicate IsPrefix(p: Path, q: Path) {
    |p| <= |q| && q[..|p|] == p
  }

  /** Paths that address disjoint parts of the tree. */
  predicate Disjoint(p: Path, q: Path) {
    !IsPrefix(p, q) && !IsPrefix(q, p)
  }

  lemma {:induction false} WalkAssign(v: Value, p: Path, x: Value)
    ensures Walk(Assign(v, p, x), p) == x
    decreases |p|
  {
    if p != [] {
      WalkAssign(PropertyOf(v, p[0]), p[1..], x);
    }
  }

  lemma {:induction false} WalkAssignElsewhere(v: Value, p: Path, q: Path, x: Value)
    requires Disjoint(p, q)
    ensures Walk(Assign(v, p, x), q) == Walk(v, q)
    decreases |p|
  {
    assert p != [] && q != [];
    if p[0] == q[0] {
      WalkAssignElsewhere(PropertyOf(v, p[0]), p[1..], q[1..], x);
    }
  }

  /** Walking one more key is reading that property of where the walk ended. */
  lemma {:induction false} WalkSnoc(v: Value, p: Path, k: Key)
    ensures Walk(v, p + [k]) == PropertyOf(Walk(v, p), k)
    decreases |p|
  {
    if p == [] {
      assert Walk(v, [k]) == Walk(PropertyOf(v, k), []);
    } else {
      assert (p + [k])[1..] == p[1..] + [k];
      WalkSnoc(PropertyOf(v, p[0]), p[1..], k);
    }
  }

  /** Walking on from `undefined` or `null` yields `undefined`. */
  lemma {:induction false} WalkFromNullish(v: Value, q: Path)
    requires v.Undefined? || v.Null?
    ensures q != [] ==> Walk(v, q) == Undefined
    decreases |q|
  {
    if |q| > 1 {
      WalkFromNullish(PropertyOf(v, q[0]), q[1..]);
    }
  }

  /** A walk that meets `undefined` or `null` part-way along the path
      ends in `undefined`, however the path goes on. */
  lemma {:induction false} WalkStopsAtNullish(root: Value, p: Path, q: Path)
    requires Walk(root, p).Undefined? || Walk(root, p).Null?
    requires q != []
    ensures Walk(root, p + q) == Undefined
    decreases |p|
  {
    if p == [] {
      assert p + q == q;
      WalkFromNullish(root, q);
    } else {
      assert (p + q)[1..] == p[1..] + q;
      WalkStopsAtNullish(PropertyOf(root, p[0]), p[1..], q);
    }
  }

  /** `_.get` reads `undefined` on the empty path. */
  lemma LookupEmptyPath(root: Value)
    ensures Lookup(root, []) == Undefined
  {
  }

  /** `_.get` reads `undefined` on every path that meets `undefined` or
      `null` before its last key. */
  lemma LookupStopsAtNullish(root: Value, p: Path, i: nat)
    requires i < |p| && (Walk(root, p[..i]).Undefined? || Walk(root, p[..i]).Null?)
    ensures Lookup(root, p) == Undefined
  {
    assert p[..i] + p[i..] == p;
    WalkStopsAtNullish(root, p[..i], p[i..]);
  }

  /** Round trip: reading a non-empty path just written yields the
      written value. */
  lemma SetPathThenLookup(root: Value, p: Path, x: Value, policy: EmptyPathPolicy)
    requires p != []
    ensures Lookup(SetPath(root, p, x, policy), p) == x
  {
    WalkAssign(root, p, x);
  }

  /** The empty path: whatever is written there reads back as `undefined`;
      the store either ignores the write or replaces the whole tree. */
  lemma EmptyPathWrite(root: Value, x: Value, policy: EmptyPathPolicy, q: Path)
    ensures Lookup(SetPath(root, [], x, policy), []) == Undefined
    ensures policy == EmptyPathIgnored ==> Lookup(SetPath(root, [], x, policy), q) == Lookup(root, q)
    ensures policy == EmptyPathIsRoot ==> Lookup(SetPath(root, [], x, policy), q) == Lookup(x, q)
  {
  }

  /** Frame: writing one path leaves every disjoint path as it was. */
  lemma SetPathLeavesDisjointPaths(root: Value, p: Path, q: Path, x: Value, policy: EmptyPathPolicy)
    requires Disjoint(p, q)
    ensures Lookup(SetPath(root, p, x, policy), q) == Lookup(root, q)
  {
    WalkAssignElsewhere(root, p, q, x);
  }
}
