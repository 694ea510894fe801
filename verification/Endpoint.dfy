/** A whole Candid call: choose providers, query them, reduce, report inconsistency, convert. */
module Endpoint {
  import opened Common
  import opened RpcTypes
  import opened StableSorting
  import opened MultiRpcResults
  import opened Reduction
  import opened Selection
  import opened ServiceUsage
  import opened Quorum
  import opened ParallelCall

  /** A listing of all results; the order is left open. */
  method List<V>(results: ProviderResults<V>) returns (entries: seq<Entry<V>>)
    requires results.Valid()
    ensures Lists(entries, results)
  {
    entries := [];
    var listed := {};
    while !(results.Providers() <= listed)
      invariant ListsSome(entries, results, listed)
      decreases results.Providers() - listed
    {
      var p :| p in results.Providers() && p !in listed;
      ListOneMore(entries, results, listed, p);
      entries := entries + [(p, results.Get(p))];
      listed := listed + {p};
    }
    assert listed == results.Providers();
  }

  /** What became of a call: all results, their reduction and listing, and who answered, in the order recorded. */
  datatype Account<V> = Account(
    results: ProviderResults<V>, reduced: ReducedResult<RpcService, V>, entries: seq<Entry<V>>,
    answered: seq<RpcService>)

  /** A call to `providers` may go as `account` says and end in `reply`. */
  ghost predicate Conducted<V(!new), W>(
      providers: set<RpcService>, strategy: ConsensusStrategy, env: Environment<V>, conv: V -> W,
      account: Account<V>, reply: MultiRpcResult<W>)
  {
    && account.results.Valid() && account.results.Providers() == providers
    && (forall p :: p in providers ==> account.results.Get(p) == ResultOf(env, p))
    && Reduces(strategy, account.results, account.reduced)
    && Reports(account.reduced, account.entries, conv, reply)
    && Distinct(account.answered) && ToSet(account.answered) == account.results.oks.Keys
  }

  /** The uses of the index that recording the answers of a call adds. */
  function Recorded<V>(table: ProviderTable, account: Account<V>, now: Timestamp): seq<Use> {
    Records(Credit(table), account.answered, now)
  }

  /** The uses of the index that choosing its providers adds. */
  function Ranked(source: RpcServices, strategy: ConsensusStrategy, now: Timestamp): seq<Use> {
    RankingUse(UserDefined(source), Supported(source), strategy, now)
  }

  /**
   The call as a caller sees it. A refused configuration gives that error. Otherwise the reply is one that the
   providers' own results can lead to; a consistent answer is backed by all providers queried under equality, and under
   a threshold that names at least `min` different providers, or none, by at least `min` of them. The index gains
   the ranking and one success per answering provider, and the metrics one count per provider reported inconsistent.
   */
  method Call<V(==, !new), W(==, !new)>(
      source: RpcServices, strategy: ConsensusStrategy, env: Environment<V>, conv: V -> W, rpcMethod: string,
      usage: SupportedRpcServiceUsage, metrics: InconsistencyMetrics, asked: Timestamp, settled: Timestamp)
      returns (reply: MultiRpcResult<W>, ghost account: Option<Account<V>>)
    requires usage.Valid() && usage.Timely(asked) && asked <= settled
    modifies usage, metrics
    ensures usage.Valid() && usage.Timely(settled)
    ensures
      match NewProviders(source, Ranking(old(usage.uses), Supported(source), asked), strategy)
      case Err(e) => account.None? && reply == Consistent(Err(RpcError.ProviderError(e)))
      case Ok(providers) =>
        account.Some? && Conducted(providers, strategy, env, conv, account.value, reply)
    ensures account.None? ==>
        && usage.uses == old(usage.uses) + Ranked(source, strategy, asked)
        && metrics.inconsistentResponses == old(metrics.inconsistentResponses)
    ensures account.Some? ==>
        && usage.uses
           == old(usage.uses) + Ranked(source, strategy, asked) + Recorded(env.table, account.value, settled)
        && CountsMore(
             old(metrics.inconsistentResponses), metrics.inconsistentResponses, rpcMethod, HostOf(env.table),
             Inconsistents(account.value.reduced, account.value.entries))
    ensures account.Some? ==> Means(strategy, account.value.results, account.value.reduced, conv, reply)
    ensures account.Some? && reply.Consistent? && reply.result.Ok? ==>
        SourceBacked(source, strategy, account.value.results, conv, reply.result.value)
  {
    ghost var before := usage.uses;
    var chosen := New(usage, source, strategy, asked);
    StrategyPositive(source, Ranking(before, Supported(source), asked), strategy);
    reply, account := Conclude(chosen, strategy, env, conv, rpcMethod, usage, metrics, settled);
    if account.Some? {
      ConductedMeans(chosen.value, strategy, env, conv, account.value, reply);
      ConductedIsBacked(before, asked, source, strategy, chosen.value, env, conv, account.value, reply);
    }
  }

  /** The call once its providers are chosen or refused. */
  method Conclude<V(==, !new), W(==, !new)>(
      chosen: Result<set<RpcService>, ProviderError>, strategy: ConsensusStrategy, env: Environment<V>, conv: V -> W,
      rpcMethod: string, usage: SupportedRpcServiceUsage, metrics: InconsistencyMetrics, settled: Timestamp)
      returns (reply: MultiRpcResult<W>, ghost account: Option<Account<V>>)
    requires usage.Valid() && usage.Timely(settled)
    requires chosen.Ok? && strategy.Threshold? ==> strategy.min > 0
    modifies usage, metrics
    ensures usage.Valid() && usage.Timely(settled)
    ensures
      match chosen
      case Err(e) => account.None? && reply == Consistent(Err(RpcError.ProviderError(e)))
      case Ok(providers) =>
        account.Some? && Conducted(providers, strategy, env, conv, account.value, reply)
    ensures account.None? ==>
        && usage.uses == old(usage.uses)
        && metrics.inconsistentResponses == old(metrics.inconsistentResponses)
    ensures account.Some? ==>
        && usage.uses == old(usage.uses) + Recorded(env.table, account.value, settled)
        && CountsMore(
             old(metrics.inconsistentResponses), metrics.inconsistentResponses, rpcMethod, HostOf(env.table),
             Inconsistents(account.value.reduced, account.value.entries))
  {
    match chosen {
      case Err(e) =>
        reply, account := Consistent(Err(RpcError.ProviderError(e))), None;
      case Ok(providers) =>
        ghost var done;
        reply, done := Ask(providers, strategy, env, conv, rpcMethod, usage, metrics, settled);
        account := Some(done);
    }
  }

  lemma StrategyPositive(
      source: RpcServices, ranked: seq<SupportedRpcService>, strategy: ConsensusStrategy)
    ensures NewProviders(source, ranked, strategy).Ok? && strategy.Threshold? ==> strategy.min > 0
  {
  }

  /** The call once its providers are chosen. */
  method Ask<V(==, !new), W(==, !new)>(
      providers: set<RpcService>, strategy: ConsensusStrategy, env: Environment<V>, conv: V -> W, rpcMethod: string,
      usage: SupportedRpcServiceUsage, metrics: InconsistencyMetrics, settled: Timestamp)
      returns (reply: MultiRpcResult<W>, ghost account: Account<V>)
    requires usage.Valid() && usage.Timely(settled)
    requires strategy.Threshold? ==> strategy.min > 0
    modifies usage, metrics
    ensures usage.Valid() && usage.Timely(settled)
    ensures Conducted(providers, strategy, env, conv, account, reply)
    ensures usage.uses == old(usage.uses) + Recorded(env.table, account, settled)
    ensures CountsMore(
        old(metrics.inconsistentResponses), metrics.inconsistentResponses, rpcMethod, HostOf(env.table),
        Inconsistents(account.reduced, account.entries))
  {
    ghost var answered;
    var results;
    results, answered := Query(providers, env, usage, settled);
    var reduced := Reduce(strategy, results);
    var entries := [];
    if reduced.Err? && reduced.error.InconsistentResults? {
      InconsistentRepresents(strategy, results, reduced.error.results);
      entries := List(reduced.error.results);
    }
    var processed := metrics.ProcessResult(rpcMethod, reduced, entries, HostOf(env.table));
    reply := Map(processed, conv);
    account := Account(results, reduced, entries, answered);
  }

  /** A consistent answer has the backing its strategy promises, provided enough providers were queried. */
  ghost predicate Backed<V, W>(
      strategy: ConsensusStrategy, results: ProviderResults<V>, conv: V -> W, reply: MultiRpcResult<W>)
  {
    reply.Consistent? && reply.result.Ok? ==>
      match strategy
      case Equality => Agreeing(results, conv, reply.result.value) == results.Providers()
      case Threshold(_, min) =>
        |results.Providers()| >= min ==> |Agreeing(results, conv, reply.result.value)| >= min
  }

  /** The same, with a proviso that the caller can check beforehand. */
  ghost predicate SourceBacked<V, W>(
      source: RpcServices, strategy: ConsensusStrategy, results: ProviderResults<V>, conv: V -> W, w: W)
  {
    match strategy
    case Equality => Agreeing(results, conv, w) == results.Providers()
    case Threshold(_, min) =>
      DistinctSpecified(source).None? || DistinctSpecified(source).value >= min
      ==> |Agreeing(results, conv, w)| >= min
  }

  lemma RepliesAreBacked<V(!new), W>(
      strategy: ConsensusStrategy, results: ProviderResults<V>, conv: V -> W, reply: MultiRpcResult<W>)
    requires results.Valid() && Replies(strategy, results, conv, reply)
    ensures Backed(strategy, results, conv, reply)
  {
    if reply.Consistent? && reply.result.Ok? {
      var w := reply.result.value;
      assert reply == Consistent(Ok(w));
      match strategy
      case Equality => EqualityQuorum(results, conv, w);
      case Threshold(total, min) =>
        if |results.Providers()| >= min {
          ThresholdQuorum(total, min, results, conv, w);
        }
    }
  }

  /** However a call goes, its reply means what it should. */
  lemma ConductedMeans<V(!new), W>(
      providers: set<RpcService>, strategy: ConsensusStrategy, env: Environment<V>, conv: V -> W,
      account: Account<V>, reply: MultiRpcResult<W>)
    requires Conducted(providers, strategy, env, conv, account, reply)
    ensures Means(strategy, account.results, account.reduced, conv, reply)
    ensures forall p :: p in providers ==> Becomes(env, p, account.results.Get(p))
  {
    ReplyMeans(strategy, account.results, account.reduced, account.entries, conv, reply);
    forall p | p in providers ensures Becomes(env, p, account.results.Get(p)) {
      ResultBecomes(env, p);
    }
  }

  /** However an accepted call goes, a consistent answer has its backing. */
  lemma ConductedIsBacked<V(!new), W>(
      uses: seq<Use>, asked: Timestamp, source: RpcServices, strategy: ConsensusStrategy, providers: set<RpcService>,
      env: Environment<V>, conv: V -> W, account: Account<V>, reply: MultiRpcResult<W>)
    requires NewProviders(source, Ranking(uses, Supported(source), asked), strategy) == Ok(providers)
    requires Conducted(providers, strategy, env, conv, account, reply)
    ensures reply.Consistent? && reply.result.Ok? ==>
        SourceBacked(source, strategy, account.results, conv, reply.result.value)
  {
    assert Replies(strategy, account.results, conv, reply);
    RepliesAreBacked(strategy, account.results, conv, reply);
    if strategy.Threshold? {
      SortCorrect(Supported(source), RankKey(uses, asked));
      AcceptedThresholdCoversIff(
        source, Ranking(uses, Supported(source), asked), strategy.total, strategy.min, providers);
    }
  }
}
