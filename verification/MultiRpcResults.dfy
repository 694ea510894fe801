/** `MultiRpcResult` and its algebra: mapping over the results of several providers, and collapsing agreement. */
module MultiRpcResults {
  import opened Common
  import opened RpcTypes

  type Entry<T> = (RpcService, RpcResult<T>)

  datatype MultiRpcResult<T> =
    | Consistent(result: RpcResult<T>)
    | Inconsistent(results: seq<Entry<T>>)

  function MapOk<T, R>(r: RpcResult<T>, f: T -> R): RpcResult<R> {
    match r
    case Ok(t) => Ok(f(t))
    case Err(e) => Err(e)
  }

  function BindOk<T, R>(r: RpcResult<T>, f: T -> RpcResult<R>): RpcResult<R> {
    match r
    case Ok(t) => f(t)
    case Err(e) => Err(e)
  }

  function Map<T, R(==)>(m: MultiRpcResult<T>, f: T -> R): MultiRpcResult<R> {
    match m
    case Consistent(result) => Consistent(MapOk(result, f))
    case Inconsistent(results) =>
      Collapse(Inconsistent(MapSeq((e: Entry<T>) => (e.0, MapOk(e.1, f)), results)))
  }

  function AndThen<T, R(==)>(m: MultiRpcResult<T>, f: T -> RpcResult<R>): MultiRpcResult<R> {
    match m
    case Consistent(result) => Consistent(BindOk(result, f))
    case Inconsistent(results) =>
      Collapse(Inconsistent(MapSeq((e: Entry<T>) => (e.0, BindOk(e.1, f)), results)))
  }

  predicate AllMatch<T(==)>(results: seq<Entry<T>>) {
    results != [] && forall i :: 0 <= i < |results| ==> results[i].1 == results[0].1
  }

  function Collapse<T(==)>(m: MultiRpcResult<T>): MultiRpcResult<T> {
    if m.Inconsistent? && AllMatch(m.results) then Consistent(m.results[0].1) else m
  }

  /** An infallible map is a fallible map that never fails. */
  lemma MapIsAndThen<T, R>(m: MultiRpcResult<T>, f: T -> R)
    ensures Map(m, f) == AndThen(m, t => Ok(f(t)))
  {
    if m.Inconsistent? {
      assert MapSeq((e: Entry<T>) => (e.0, MapOk(e.1, f)), m.results)
          == MapSeq((e: Entry<T>) => (e.0, BindOk(e.1, t => Ok(f(t)))), m.results);
    }
  }

  /** `out` is what a link makes of `result`: a failure passes through unchanged. */
  ghost predicate Linked<T, R>(result: RpcResult<T>, f: T -> RpcResult<R>, out: RpcResult<R>) {
    && (result.Ok? ==> out == f(result.value))
    && (result.Err? ==> out == Err(result.error))
  }

  /**
   What a link does to every result: each keeps its provider and its place; and they collapse to one exactly when
   there are some and all came out the same.
   */
  lemma AndThenExactly<T, R>(m: MultiRpcResult<T>, f: T -> RpcResult<R>)
    ensures m.Consistent? ==> AndThen(m, f).Consistent? && Linked(m.result, f, AndThen(m, f).result)
    ensures m.Inconsistent? && AndThen(m, f).Consistent? ==>
        && m.results != []
        && forall i :: 0 <= i < |m.results| ==> Linked(m.results[i].1, f, AndThen(m, f).result)
    ensures m.Inconsistent? && AndThen(m, f).Inconsistent? ==>
        var out := AndThen(m, f).results;
        && |out| == |m.results|
        && (forall i :: 0 <= i < |out| ==> out[i].0 == m.results[i].0 && Linked(m.results[i].1, f, out[i].1))
        && (out != [] ==> exists i :: 0 <= i < |out| && out[i].1 != out[0].1)
  {
    if m.Inconsistent? {
      var out := MapSeq((e: Entry<T>) => (e.0, BindOk(e.1, f)), m.results);
      assert AndThen(m, f) == Collapse(Inconsistent(out));
    }
  }

  /** Chaining does not depend on grouping, although each link may collapse what it produced. */
  lemma AndThenAssociative<T, R, S>(m: MultiRpcResult<T>, f: T -> RpcResult<R>, g: R -> RpcResult<S>)
    ensures AndThen(AndThen(m, f), g) == AndThen(m, t => BindOk(f(t), g))
  {
    if m.Inconsistent? {
      var once := MapSeq((e: Entry<T>) => (e.0, BindOk(e.1, f)), m.results);
      var twice := MapSeq((e: Entry<R>) => (e.0, BindOk(e.1, g)), once);
      var direct := MapSeq((e: Entry<T>) => (e.0, BindOk(e.1, t => BindOk(f(t), g))), m.results);
      assert direct == twice;
      if AllMatch(once) {
        assert AllMatch(twice);
      }
    }
  }

  /** Mapping twice is mapping the composition. */
  lemma MapComposes<T, R, S>(m: MultiRpcResult<T>, f: T -> R, g: R -> S)
    ensures Map(Map(m, f), g) == Map(m, t => g(f(t)))
  {
    if m.Inconsistent? {
      var once := MapSeq((e: Entry<T>) => (e.0, MapOk(e.1, f)), m.results);
      var twice := MapSeq((e: Entry<R>) => (e.0, MapOk(e.1, g)), once);
      assert MapSeq((e: Entry<T>) => (e.0, MapOk(e.1, t => g(f(t)))), m.results) == twice;
      if AllMatch(once) {
        assert AllMatch(twice);
      }
    }
  }

  lemma CollapseIdempotent<T>(m: MultiRpcResult<T>)
    ensures Collapse(Collapse(m)) == Collapse(m)
  {
  }

  /**
   Mapping the identity collapses; so it changes a value exactly when that value lists at least one result and all
   of them match.
   */
  lemma MapIdentity<T>(m: MultiRpcResult<T>)
    ensures Map(m, t => t) == Collapse(m)
    ensures Map(m, t => t) == m <==> m.Consistent? || !AllMatch(m.results)
  {
    if m.Inconsistent? {
      assert MapSeq((e: Entry<T>) => (e.0, MapOk(e.1, t => t)), m.results) == m.results;
    }
  }

  /** A mapped list of results becomes consistent exactly when every result maps to the same one. */
  lemma MapConsistentIff<T, R>(results: seq<Entry<T>>, f: T -> R, r: RpcResult<R>)
    ensures Map(Inconsistent(results), f) == Consistent(r)
       <==> results != [] && forall i :: 0 <= i < |results| ==> MapOk(results[i].1, f) == r
  {
    var mapped := MapSeq((e: Entry<T>) => (e.0, MapOk(e.1, f)), results);
    assert forall i :: 0 <= i < |results| ==> mapped[i].1 == MapOk(results[i].1, f);
    if results != [] && forall i :: 0 <= i < |results| ==> MapOk(results[i].1, f) == r {
      assert AllMatch(mapped) && mapped[0].1 == r;
    }
  }

  /** The order in which results are listed decides neither whether they collapse nor to what. */
  lemma MapOrderIrrelevant<T, R>(a: seq<Entry<T>>, b: seq<Entry<T>>, f: T -> R, r: RpcResult<R>)
    requires multiset(a) == multiset(b)
    ensures Map(Inconsistent(a), f) == Consistent(r) <==> Map(Inconsistent(b), f) == Consistent(r)
  {
    MapConsistentIff(a, f, r);
    MapConsistentIff(b, f, r);
    assert forall e :: e in a <==> e in multiset(a);
    assert forall e :: e in b <==> e in multiset(b);
    assert |a| == |multiset(a)| == |b|;
    forall i | 0 <= i < |a| ensures a[i] in b { assert a[i] in multiset(a); }
    forall i | 0 <= i < |b| ensures b[i] in a { assert b[i] in multiset(b); }
  }
}
