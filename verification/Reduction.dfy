/**
 The results of a parallel call and their reduction to one (`MultiResults`, `ReductionStrategy`).

 The two reductions belong to another crate. They are described here by relations that leave open what the
 repository does not show: which of several equally supported values wins; under a threshold, whether a set of
 identical errors is reported as one consistent error or as inconsistent results; and under equality, whether results
 that repeat a listed one are listed as well. Everything proved about an outcome is proved for every outcome a relation
 allows; `Reduce` shows that one always exists.
 */
module Reduction {
  import opened Common
  import opened RpcTypes

  /** One result per provider; `errors` and `oks` never share a provider. */
  datatype MultiResults<P, V> = MultiResults(oks: map<P, V>, errors: map<P, RpcError>) {

    predicate Valid() { oks.Keys !! errors.Keys }

    function Providers(): set<P> { oks.Keys + errors.Keys }

    function Get(p: P): RpcResult<V>
      requires p in Providers()
    {
      if p in oks then Ok(oks[p]) else Err(errors[p])
    }

    /** The different results given. */
    ghost function Given(): set<RpcResult<V>> { set p | p in Providers() :: Get(p) }
  }

  /** `insert_once`. */
  function InsertOnce<P, V>(results: MultiResults<P, V>, p: P, r: RpcResult<V>): (r': MultiResults<P, V>)
    requires results.Valid() && p !in results.Providers()
    ensures r'.Valid() && r'.Providers() == results.Providers() + {p}
    ensures r'.Get(p) == r
    ensures forall q :: q in results.Providers() ==> r'.Get(q) == results.Get(q)
  {
    match r
    case Ok(v) => results.(oks := results.oks[p := v])
    case Err(e) => results.(errors := results.errors[p := e])
  }

  datatype ReductionError<P, V> =
    | ConsistentError(error: RpcError)
    | InconsistentResults(results: MultiResults<P, V>)

  type ReducedResult<P, V> = Result<V, ReductionError<P, V>>

  /** The providers whose answer is `v`. */
  ghost function Support<P, V>(results: MultiResults<P, V>, v: V): set<P> {
    set p | p in results.oks && results.oks[p] == v
  }

  /** No provider answered and all errors are `e`. */
  ghost predicate OnlyError<P, V>(results: MultiResults<P, V>, e: RpcError) {
    && results.oks == map[]
    && results.errors != map[]
    && forall p :: p in results.errors ==> results.errors[p] == e
  }

  /** All providers answered, and all with `v`. */
  ghost predicate Unanimous<P, V>(results: MultiResults<P, V>, v: V) {
    && results.errors == map[]
    && results.oks != map[]
    && forall p :: p in results.oks ==> results.oks[p] == v
  }

  /** `rs` lists some of `results`, and every result it leaves out equals one it lists. */
  ghost predicate Represents<P(!new), V>(rs: MultiResults<P, V>, results: MultiResults<P, V>) {
    && rs.Valid()
    && rs.Providers() <= results.Providers()
    && (forall p :: p in rs.Providers() ==> rs.Get(p) == results.Get(p))
    && rs.Given() == results.Given()
  }

  /** A value is returned when enough providers support it, and then one with the most support. */
  ghost predicate ByThreshold<P, V(!new)>(results: MultiResults<P, V>, min: u8, r: ReducedResult<P, V>) {
    match r
    case Ok(v) => |Support(results, v)| >= min && forall u :: |Support(results, u)| <= |Support(results, v)|
    case Err(ConsistentError(e)) => (forall v :: |Support(results, v)| < min) && OnlyError(results, e)
    case Err(InconsistentResults(rs)) => (forall v :: |Support(results, v)| < min) && rs == results
  }

  /** A value is returned when it is the answer of every provider. */
  ghost predicate ByEquality<P(!new), V(!new)>(results: MultiResults<P, V>, r: ReducedResult<P, V>) {
    match r
    case Ok(v) => Unanimous(results, v)
    case Err(ConsistentError(e)) => OnlyError(results, e)
    case Err(InconsistentResults(rs)) =>
      && Represents(rs, results)
      && (forall v :: !Unanimous(results, v))
      && (forall e :: !OnlyError(results, e))
  }

  ghost predicate Reduces<P(!new), V(!new)>(
      strategy: ConsensusStrategy, results: MultiResults<P, V>, r: ReducedResult<P, V>)
  {
    match strategy
    case Equality => ByEquality(results, r)
    case Threshold(_, min) => ByThreshold(results, min, r)
  }

  lemma SupportEmpty<P, V>(results: MultiResults<P, V>, v: V)
    requires v !in results.oks.Values
    ensures Support(results, v) == {}
  {
  }

  /** The most frequent answer, found by counting each candidate's support. */
  method MostFrequent<P, V(==, !new)>(results: MultiResults<P, V>) returns (best: V, votes: nat)
    requires results.oks != map[]
    ensures votes == |Support(results, best)|
    ensures forall u :: |Support(results, u)| <= votes
  {
    var p :| p in results.oks;
    best := results.oks[p];
    votes := |set q | q in results.oks && results.oks[q] == best|;
    var todo := results.oks.Keys;
    while todo != {}
      invariant todo <= results.oks.Keys
      invariant votes == |Support(results, best)|
      invariant forall q :: q in results.oks && q !in todo ==> |Support(results, results.oks[q])| <= votes
      decreases |todo|
    {
      var q :| q in todo;
      var v := results.oks[q];
      var count := |set q' | q' in results.oks && results.oks[q'] == v|;
      assert count == |Support(results, v)|;
      if count > votes {
        best, votes := v, count;
      }
      todo := todo - {q};
    }
    forall u ensures |Support(results, u)| <= votes {
      if u in results.oks.Values {
        var q :| q in results.oks && results.oks[q] == u;
      } else {
        SupportEmpty(results, u);
      }
    }
  }

  /** An error of `results` that all of them equal, if there is one and no provider answered. */
  method CommonError<P, V>(results: MultiResults<P, V>) returns (e: Option<RpcError>)
    ensures e.Some? ==> OnlyError(results, e.value)
    ensures e.None? ==> forall x :: !OnlyError(results, x)
  {
    if results.oks.Keys == {} && results.errors.Keys != {} {
      var p :| p in results.errors;
      if forall q :: q in results.errors.Keys ==> results.errors[q] == results.errors[p] {
        e := Some(results.errors[p]);
      } else {
        e := None;
      }
    } else {
      e := None;
    }
  }

  /** A reduction of the kind described: every strategy has an outcome for every set of results. */
  method Reduce<P(!new), V(==, !new)>(strategy: ConsensusStrategy, results: MultiResults<P, V>)
      returns (r: ReducedResult<P, V>)
    requires results.Valid()
    requires strategy.Threshold? ==> strategy.min > 0
    ensures Reduces(strategy, results, r)
  {
    if results.oks.Keys != {} {
      var v, votes := MostFrequent(results);
      var needed := if strategy.Threshold? then strategy.min else |results.oks.Keys| + |results.errors.Keys|;
      if votes >= needed {
        if strategy.Equality? {
          SubsetCard(Support(results, v), results.oks.Keys);
          FullSupport(results, v);
        }
        return Ok(v);
      }
      if strategy.Equality? {
        forall u ensures Unanimous(results, u) ==> |Support(results, u)| >= needed {
          UnanimousSupport(results, u);
        }
      }
      return Err(InconsistentResults(results));
    }
    forall v ensures Support(results, v) == {} {}
    var e := CommonError(results);
    r := match e case Some(x) => Err(ConsistentError(x)) case None => Err(InconsistentResults(results));
  }

  /** Some value has the most support. */
  lemma BestSupported<P, V(!new)>(results: MultiResults<P, V>, v: V) returns (best: V)
    ensures |Support(results, best)| >= |Support(results, v)|
    ensures forall u :: |Support(results, u)| <= |Support(results, best)|
    decreases |results.oks.Keys| - |Support(results, v)|
  {
    SubsetCard(Support(results, v), results.oks.Keys);
    if u :| |Support(results, u)| > |Support(results, v)| {
      SubsetCard(Support(results, u), results.oks.Keys);
      best := BestSupported(results, u);
    } else {
      best := v;
    }
  }

  /** Whatever the results, the relation allows some outcome. */
  lemma OutcomeExists<P(!new), V(!new)>(strategy: ConsensusStrategy, results: MultiResults<P, V>)
      returns (r: ReducedResult<P, V>)
    requires results.Valid()
    ensures Reduces(strategy, results, r)
  {
    r := Err(InconsistentResults(results));
    match strategy
    case Threshold(_, min) =>
      if v :| |Support(results, v)| >= min {
        var best := BestSupported(results, v);
        r := Ok(best);
      }
    case Equality =>
      if v :| Unanimous(results, v) {
        r := Ok(v);
      } else if e :| OnlyError(results, e) {
        r := Err(ConsistentError(e));
      }
  }

  lemma UnanimousSupport<P, V>(results: MultiResults<P, V>, v: V)
    ensures Unanimous(results, v) ==> |Support(results, v)| == |results.oks.Keys| + |results.errors.Keys|
  {
    if Unanimous(results, v) {
      assert Support(results, v) == results.oks.Keys;
    }
  }

  lemma FullSupport<P, V>(results: MultiResults<P, V>, v: V)
    requires results.oks != map[] && |Support(results, v)| >= |results.oks.Keys| + |results.errors.Keys|
    ensures Unanimous(results, v)
  {
    var s := Support(results, v);
    SubsetCard(s, results.oks.Keys);
    if p :| p in results.oks && p !in s {
      SubsetCard(s, results.oks.Keys - {p});
    }
  }
}
