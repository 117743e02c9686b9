/** Resolving a field accessor `s => s.a.b` into the path `["a", "b"]` by
    running it once against a recording stand-in (`createWildcardObject`
    and `detectAccessedPath`). */
module Accessors {
  import opened Outcomes
  import opened Values

  /** A field accessor, as an expression over its one parameter. */
  datatype Accessor =
    | Param                              // the state parameter `s`
    | Const(v: Value)                    // a literal, not derived from `s`
    | Read(target: Accessor, key: Key)   // the property read `target[key]`
    | Then(first: Accessor, last: Accessor) // `(first, last)`: run both, yield `last`

  /** Runs the accessor against a real state. `None` when it throws, which
      a property read on `undefined` or `null` does. */
  function Eval(a: Accessor, s: Value): Option<Value> {
    match a
    case Param => Some(s)
    case Const(v) => Some(v)
    case Read(t, k) =>
      (match Eval(t, s)
       case None => None
       case Some(v) => if v.Undefined? || v.Null? then None else Some(PropertyOf(v, k)))
    case Then(f, l) => if Eval(f, s).None? then None else Eval(l, s)
  }

  /** What an accessor expression evaluates to when run against the
      stand-in: the stand-in itself, or an ordinary value. */
  datatype Probe = Wildcard | Plain(v: Value)

  /** The result of a sub-expression and the shared list of recorded keys. */
  datatype Recording = Recording(result: Probe, path: Path)

  /** Runs the accessor against the stand-in. Every property read on the
      stand-in appends its key to the shared list and answers another
      stand-in sharing that list; reads on ordinary values are not seen.
      The list only ever grows. */
  function Record(a: Accessor, path: Path): (r: Option<Recording>)
    ensures r.Some? ==> IsPrefix(path, r.value.path)
  {
    match a
    case Param => Some(Recording(Wildcard, path))
    case Const(v) => Some(Recording(Plain(v), path))
    case Read(t, k) =>
      (match Record(t, path)
       case None => None
       case Some(Recording(Wildcard, p)) =>
         assert (p + [k])[..|path|] == p[..|path|];
         Some(Recording(Wildcard, p + [k]))
       case Some(Recording(Plain(v), p)) =>
         if v.Undefined? || v.Null? then None else Some(Recording(Plain(PropertyOf(v, k)), p)))
    case Then(f, l) =>
      (match Record(f, path)
       case None => None
       case Some(r) =>
         var r' := Record(l, r.path);
         assert r'.Some? ==> r'.value.path[..|r.path|][..|path|] == r'.value.path[..|path|];
         r')
  }

  /** `detectAccessedPath`: the keys recorded by one run of the accessor,
      `None` when the accessor throws. A chain `s.k1…kn` resolves to
      `[k1,…,kn]`; an accessor that never reads its parameter resolves to
      `[]` unless it throws. */
  function DetectAccessedPath(a: Accessor): (r: Option<Path>)
    ensures IsChain(a) ==> r == Some(ChainKeys(a))
    ensures IgnoresParam(a) && r.Some? ==> r.value == []
  {
    var rec := Record(a, []);
    assert IsChain(a) ==> rec == Some(Recording(Wildcard, ChainKeys(a))) by {
      if IsChain(a) {
        RecordChain(a, []);
        assert [] + ChainKeys(a) == ChainKeys(a);
      }
    }
    assert IgnoresParam(a) && rec.Some? ==> rec.value.path == [] by {
      if IgnoresParam(a) {
        RecordIgnoringParam(a, [], Undefined);
      }
    }
    match rec
    case None => None
    case Some(r) => Some(r.path)
  }

  /** A plain chain of property reads `s.k1.k2…kn` on the parameter. */
  predicate IsChain(a: Accessor) {
    match a
    case Param => true
    case Read(t, _) => IsChain(t)
    case _ => false
  }

  /** The keys a chain reads, in the order it reads them. */
  function ChainKeys(a: Accessor): Path
    requires IsChain(a)
  {
    match a
    case Param => []
    case Read(t, k) => ChainKeys(t) + [k]
  }

  /** An accessor that never mentions its parameter. */
  predicate IgnoresParam(a: Accessor) {
    match a
    case Param => false
    case Const(_) => true
    case Read(t, _) => IgnoresParam(t)
    case Then(f, l) => IgnoresParam(f) && IgnoresParam(l)
  }

  lemma {:induction false} RecordChain(a: Accessor, path: Path)
    requires IsChain(a)
    ensures Record(a, path) == Some(Recording(Wildcard, path + ChainKeys(a)))
  {
    match a
    case Param =>
      assert path + [] == path;
    case Read(t, k) =>
      RecordChain(t, path);
      assert path + ChainKeys(t) + [k] == path + (ChainKeys(t) + [k]);
  }

  lemma {:induction false} EvalChain(a: Accessor, s: Value)
    requires IsChain(a)
    ensures Eval(a, s).Some? ==> Eval(a, s) == Some(Walk(s, ChainKeys(a)))
    ensures Eval(a, s).None? ==> Walk(s, ChainKeys(a)) == Undefined
  {
    match a
    case Param =>
    case Read(t, k) =>
      EvalChain(t, s);
      WalkSnoc(s, ChainKeys(t), k);
  }

  /** For a chain accessor the resolved path is exactly the keys it reads,
      in access order. Looking a non-empty path up agrees with running the
      accessor on the state, and gives `undefined` where the accessor would
      throw. The bare parameter `s => s` resolves to `[]`, which the engine
      reads as `undefined` although the accessor yields the whole state. */
  lemma DetectChainPath(a: Accessor, s: Value)
    requires IsChain(a)
    ensures DetectAccessedPath(a) == Some(ChainKeys(a))
    ensures ChainKeys(a) != [] && Eval(a, s).Some? ==> Eval(a, s) == Some(Lookup(s, ChainKeys(a)))
    ensures Eval(a, s).None? ==> ChainKeys(a) != [] && Lookup(s, ChainKeys(a)) == Undefined
    ensures ChainKeys(a) == [] <==> a == Param
    ensures a == Param ==> Eval(a, s) == Some(s) && Lookup(s, ChainKeys(a)) == Undefined
  {
    EvalChain(a, s);
  }

  /** Sequenced reads `s => (s.a…, s.b…)`: both chains are recorded, one
      after the other, while the accessor yields only the last one's
      value, unless the first one throws. This is where the resolved path
      and the accessor part ways. */
  lemma SequencedReadsRecordBoth(f: Accessor, l: Accessor, s: Value)
    requires IsChain(f) && IsChain(l)
    ensures DetectAccessedPath(Then(f, l)) == Some(ChainKeys(f) + ChainKeys(l))
    ensures Eval(f, s).Some? ==> Eval(Then(f, l), s) == Eval(l, s)
    ensures Eval(f, s).None? ==> Eval(Then(f, l), s).None?
  {
    RecordChain(f, []);
    assert [] + ChainKeys(f) == ChainKeys(f);
    RecordChain(l, ChainKeys(f));
    assert Record(Then(f, l), []) == Record(l, ChainKeys(f));
  }

  lemma {:induction false} RecordIgnoringParam(a: Accessor, path: Path, s: Value)
    requires IgnoresParam(a)
    ensures Record(a, path).Some? <==> Eval(a, s).Some?
    ensures Record(a, path).Some? ==>
      Record(a, path).value == Recording(Plain(Eval(a, s).value), path)
  {
    match a
    case Const(_) =>
    case Read(t, k) =>
      RecordIgnoringParam(t, path, s);
    case Then(f, l) =>
      RecordIgnoringParam(f, path, s);
      RecordIgnoringParam(l, path, s);
  }

  /** An accessor that never touches its parameter records no key: it
      resolves to the empty path, or throws exactly when it throws on any
      real state. */
  lemma ConstantAccessorEmptyPath(a: Accessor, s: Value)
    requires IgnoresParam(a)
    ensures DetectAccessedPath(a).Some? <==> Eval(a, s).Some?
    ensures DetectAccessedPath(a).Some? ==> DetectAccessedPath(a) == Some([])
  {
    RecordIgnoringParam(a, [], s);
  }
}
