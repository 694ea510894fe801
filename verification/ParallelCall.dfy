/** Resolving providers, querying them all, and recording who answered (`EthRpcClient::parallel_call`). */
module ParallelCall {
  import opened Common
  import opened RpcTypes
  import opened Counters
  import opened MultiRpcResults
  import opened Reduction
  import opened Selection
  import opened ServiceUsage
  import opened StableSorting
  import opened Quorum

  /** What matters here of an entry of the provider table. `host` is absent when its URL names none. */
  datatype Provider = Provider(id: u64, authenticated: bool, alias: Option<SupportedRpcService>, host: Option<string>)

  type ProviderTable = seq<Provider>

  /** No two entries share an identifier or an alias. */
  ghost predicate WellFormed(table: ProviderTable) {
    forall i, j :: 0 <= i < j < |table| ==>
      && table[i].id != table[j].id
      && (table[i].alias.Some? ==> table[i].alias != table[j].alias)
  }

  function FindById(table: ProviderTable, id: u64): (r: Option<Provider>)
    ensures r.Some? ==> r.value in table && r.value.id == id
    ensures r.None? ==> forall p :: p in table ==> p.id != id
  {
    if table == [] then None
    else if table[0].id == id then Some(table[0])
    else FindById(table[1..], id)
  }

  /** `SERVICE_PROVIDER_MAP`, a map collected from the table. */
  function IdOfAlias(table: ProviderTable, service: SupportedRpcService): (r: Option<u64>)
    ensures r.Some? ==> exists p :: p in table && p.id == r.value && p.alias == Some(service)
    ensures r.None? ==> forall p :: p in table ==> p.alias != Some(service)
  {
    if table == [] then None
    else
      var last := table[|table| - 1];
      if last.alias == Some(service) then Some(last.id)
      else IdOfAlias(table[..|table| - 1], service)
  }

  /** `SupportedRpcService::new`. */
  function SupportedService(table: ProviderTable, service: RpcService): Option<SupportedRpcService> {
    match service
    case Provider(id) => (
      match FindById(table, id)
      case Some(p) => p.alias
      case None => None)
    case Custom(_) => None
    case EthMainnet(s) => Some(SupportedRpcService.EthMainnet(s))
    case EthSepolia(s) => Some(SupportedRpcService.EthSepolia(s))
    case ArbitrumOne(s) => Some(SupportedRpcService.ArbitrumOne(s))
    case BaseMainnet(s) => Some(SupportedRpcService.BaseMainnet(s))
    case OptimismMainnet(s) => Some(SupportedRpcService.OptimismMainnet(s))
  }

  datatype ResolvedRpcService = Api(api: RpcApi) | ProviderEntry(provider: Provider)

  /** `resolve_rpc_service`. */
  function Resolve(table: ProviderTable, service: RpcService): Result<ResolvedRpcService, ProviderError> {
    match service
    case Custom(api) => Ok(Api(api))
    case Provider(id) => LookUp(table, id)
    case _ =>
      match IdOfAlias(table, SupportedService(table, service).value)
      case Some(id) => LookUp(table, id)
      case None => Err(MissingRequiredProvider)
  }

  function LookUp(table: ProviderTable, id: u64): Result<ResolvedRpcService, ProviderError> {
    match FindById(table, id)
    case Some(p) => Ok(ProviderEntry(p))
    case None => Err(ProviderNotFound)
  }

  /** A service resolved to a table entry is credited to that very entry: resolving and recording agree. */
  lemma ResolvedIsCredited(table: ProviderTable, service: RpcService)
    requires WellFormed(table)
    requires Resolve(table, service).Ok? && Resolve(table, service).value.ProviderEntry?
    ensures Resolve(table, service).value.provider.alias == SupportedService(table, service)
  {
    if !service.Provider? {
      var s := SupportedService(table, service).value;
      var id := IdOfAlias(table, s).value;
      var p :| p in table && p.id == id && p.alias == Some(s);
      var q := FindById(table, id).value;
      var i :| 0 <= i < |table| && table[i] == p;
      var j :| 0 <= j < |table| && table[j] == q;
    }
  }

  /**
   What a call meets: the provider table, whether a request to a resolved service can be built (`post`, where `None`
   is success), and what each requested provider ends up replying.
   */
  datatype Environment<!V> = Environment(
    table: ProviderTable, post: ResolvedRpcService -> Option<RpcError>, replies: RpcService -> RpcResult<V>)

  /** The error a provider gets before anything is sent: it does not resolve, or its request cannot be built. */
  function RequestError(
      table: ProviderTable, post: ResolvedRpcService -> Option<RpcError>, p: RpcService): Option<RpcError>
  {
    match Resolve(table, p)
    case Err(e) => Some(RpcError.ProviderError(e))
    case Ok(resolved) => post(resolved)
  }

  /** The result a provider ends up with. */
  function ResultOf<V>(env: Environment<V>, p: RpcService): RpcResult<V> {
    match RequestError(env.table, env.post, p)
    case Some(e) => Err(e)
    case None => env.replies(p)
  }

  /** A custom service is itself and credited to nobody; an identifier stands for its entry and that entry's alias. */
  lemma IdentifierResolves(table: ProviderTable, service: RpcService)
    requires WellFormed(table)
    ensures service.Custom? ==>
        Resolve(table, service) == Ok(Api(service.api)) && SupportedService(table, service) == None
    ensures service.Provider? ==> forall p :: p in table && p.id == service.id ==>
        Resolve(table, service) == Ok(ProviderEntry(p)) && SupportedService(table, service) == p.alias
    ensures service.Provider? && (forall p :: p in table ==> p.id != service.id) ==>
        Resolve(table, service) == Err(ProviderNotFound) && SupportedService(table, service) == None
  {
    SameEntry(table);
  }

  /** A supported provider is credited to itself and stands for the entry that has it as alias. */
  lemma NameResolves(table: ProviderTable, s: SupportedRpcService)
    requires WellFormed(table)
    ensures SupportedService(table, ToRpcService(s)) == Some(s)
    ensures forall p :: p in table && p.alias == Some(s) ==> Resolve(table, ToRpcService(s)) == Ok(ProviderEntry(p))
    ensures (forall p :: p in table ==> p.alias != Some(s)) ==>
        Resolve(table, ToRpcService(s)) == Err(MissingRequiredProvider)
  {
    forall p | p in table && p.alias == Some(s) ensures Resolve(table, ToRpcService(s)) == Ok(ProviderEntry(p)) {
      SameEntry(table);
      assert IdOfAlias(table, s) == Some(p.id);
    }
  }

  /** Entries that share an identifier or an alias are the same. */
  lemma SameEntry(table: ProviderTable)
    requires WellFormed(table)
    ensures forall p, q :: p in table && q in table && p.id == q.id ==> p == q
    ensures forall p, q :: p in table && q in table && p.alias.Some? && p.alias == q.alias ==> p == q
  {
    forall p, q | p in table && q in table && (p.id == q.id || (p.alias.Some? && p.alias == q.alias)) ensures p == q {
      var i :| 0 <= i < |table| && table[i] == p;
      var j :| 0 <= j < |table| && table[j] == q;
    }
  }

  /** `r` is what becomes of `p`: its resolution error, else the error of building its request, else its reply. */
  ghost predicate Becomes<V>(env: Environment<V>, p: RpcService, r: RpcResult<V>) {
    match Resolve(env.table, p)
    case Err(e) => r == Err(RpcError.ProviderError(e))
    case Ok(resolved) =>
      && (env.post(resolved).Some? ==> r == Err(env.post(resolved).value))
      && (env.post(resolved).None? ==> r == env.replies(p))
  }

  lemma ResultBecomes<V>(env: Environment<V>, p: RpcService)
    ensures Becomes(env, p, ResultOf(env, p))
    ensures RequestError(env.table, env.post, p).None?
       <==> Resolve(env.table, p).Ok? && env.post(Resolve(env.table, p).value).None?
  {
  }

  /** Which supported provider an answer is credited to. */
  function Credit(table: ProviderTable): RpcService -> Option<SupportedRpcService> {
    p => SupportedService(table, p)
  }

  /** The uses recorded for providers that answered, in the order visited. */
  function Records<P>(credit: P -> Option<SupportedRpcService>, answered: seq<P>, now: Timestamp): seq<Use> {
    if answered == [] then []
    else
      var s := credit(answered[|answered| - 1]);
      Records(credit, answered[..|answered| - 1], now) + Credited(s, now)
  }

  function Credited(to: Option<SupportedRpcService>, now: Timestamp): seq<Use> {
    if to.Some? then [Record(to.value, now)] else []
  }

  /** The answering providers credited to `s`. */
  ghost function CreditedTo<P>(
      credit: P -> Option<SupportedRpcService>, answered: set<P>, s: SupportedRpcService): set<P>
  {
    set p | p in answered && credit(p) == Some(s)
  }

  /** A parallel call. The order in which providers are visited and replies arrive is left open. */
  method Query<V>(providers: set<RpcService>, env: Environment<V>, usage: SupportedRpcServiceUsage, now: Timestamp)
      returns (results: ProviderResults<V>, ghost answered: seq<RpcService>)
    requires usage.Valid() && usage.Timely(now)
    modifies usage
    ensures usage.Valid() && usage.Timely(now)
    ensures results.Valid() && results.Providers() == providers
    ensures forall p :: p in providers ==> results.Get(p) == ResultOf(env, p)
    ensures forall p :: p in providers ==> Becomes(env, p, results.Get(p))
    ensures Distinct(answered) && ToSet(answered) == results.oks.Keys
    ensures usage.uses == old(usage.uses) + Records(Credit(env.table), answered, now)
  {
    results := Perform(providers, p => ResultOf(env, p), p => RequestError(env.table, env.post, p).None?);
    assert |results.Providers()| == |providers|;  // "BUG: expected 1 result per provider"
    answered := RecordAnswers(results.oks.Keys, Credit(env.table), usage, now);
  }

  /**
   Errors that precede a request are set aside first, then replies are collected in any order, then the errors are
   added. `resultOf` is what becomes of each provider, and `requested` tells which ones are sent a request.
   */
  method Perform<P(==, !new), V>(providers: set<P>, resultOf: P -> RpcResult<V>, requested: P -> bool)
      returns (results: MultiResults<P, V>)
    requires forall p :: !requested(p) ==> resultOf(p).Err?
    ensures results.Valid() && results.Providers() == providers
    ensures forall p :: p in providers ==> results.Get(p) == resultOf(p)
  {
    var requests, errors := Prepare(providers, requested);
    results := Collect(MultiResults(map[], map[]), requests, resultOf);
    results := Collect(results, errors, resultOf);
  }

  /** One request, or one error, per provider. */
  method Prepare<P(==)>(providers: set<P>, requested: P -> bool) returns (requests: set<P>, errors: set<P>)
    ensures requests + errors == providers
    ensures forall p :: p in requests ==> requested(p)
    ensures forall p :: p in errors ==> !requested(p)
  {
    requests, errors := {}, {};
    while !(providers <= requests + errors)
      invariant requests + errors <= providers
      invariant forall p :: p in requests ==> requested(p)
      invariant forall p :: p in errors ==> !requested(p)
      decreases providers - (requests + errors)
    {
      var p :| p in providers && p !in requests + errors;
      if requested(p) {
        requests := requests + {p};
      } else {
        errors := errors + {p};
      }
    }
  }

  /** `results` is `before` with the results of `keys` inserted. */
  ghost predicate Extends<P(!new), V>(
      results: MultiResults<P, V>, before: MultiResults<P, V>, keys: set<P>, resultOf: P -> RpcResult<V>)
  {
    && results.Valid()
    && results.Providers() == before.Providers() + keys
    && (forall p :: p in keys ==> results.Get(p) == resultOf(p))
    && (forall p :: p in before.Providers() ==> results.Get(p) == before.Get(p))
  }

  lemma InsertExtends<P(!new), V>(
      results: MultiResults<P, V>, before: MultiResults<P, V>, keys: set<P>, resultOf: P -> RpcResult<V>, p: P)
    requires Extends(results, before, keys, resultOf) && p !in results.Providers()
    ensures Extends(InsertOnce(results, p, resultOf(p)), before, keys + {p}, resultOf)
  {
  }

  /** Adds one result for each of `keys`, in any order. */
  method Collect<P(==, !new), V>(before: MultiResults<P, V>, keys: set<P>, resultOf: P -> RpcResult<V>)
      returns (results: MultiResults<P, V>)
    requires before.Valid() && forall p :: p in keys ==> p !in before.Providers()
    ensures Extends(results, before, keys, resultOf)
  {
    results := before;
    var arrived := {};
    while !(keys <= arrived)
      invariant arrived <= keys
      invariant Extends(results, before, arrived, resultOf)
      decreases keys - arrived
    {
      var p :| p in keys && p !in arrived;
      InsertExtends(results, before, arrived, resultOf, p);
      results := InsertOnce(results, p, resultOf(p));
      arrived := arrived + {p};
    }
  }

  method RecordAnswers<P(==)>(keys: set<P>, credit: P -> Option<SupportedRpcService>,
                       usage: SupportedRpcServiceUsage, now: Timestamp)
      returns (ghost answered: seq<P>)
    requires usage.Valid() && usage.Timely(now)
    modifies usage
    ensures usage.Valid() && usage.Timely(now)
    ensures Distinct(answered) && ToSet(answered) == keys
    ensures usage.uses == old(usage.uses) + Records(credit, answered, now)
  {
    answered := [];
    var visited := {};
    while !(keys <= visited)
      invariant usage.Valid() && usage.Timely(now)
      invariant visited <= keys && visited == ToSet(answered) && Distinct(answered)
      invariant usage.uses == old(usage.uses) + Records(credit, answered, now)
      decreases keys - visited
    {
      var p :| p in keys && p !in visited;
      RecordsSnoc(old(usage.uses), credit, answered, p, now);
      RecordAnswer(credit(p), usage, now);
      answered, visited := answered + [p], visited + {p};
    }
  }

  method RecordAnswer(credited: Option<SupportedRpcService>, usage: SupportedRpcServiceUsage, now: Timestamp)
    requires usage.Valid() && usage.Timely(now)
    modifies usage
    ensures usage.Valid() && usage.Timely(now)
    ensures usage.uses == old(usage.uses) + Credited(credited, now)
  {
    if credited.Some? {
      usage.RecordEvict(credited.value, now);
    }
  }

  lemma RecordsSnoc<P>(
      uses: seq<Use>, credit: P -> Option<SupportedRpcService>, answered: seq<P>, p: P, now: Timestamp)
    requires Distinct(answered) && p !in ToSet(answered)
    ensures Distinct(answered + [p])
    ensures ToSet(answered + [p]) == ToSet(answered) + {p}
    ensures uses + Records(credit, answered + [p], now)
         == uses + Records(credit, answered, now) + Credited(credit(p), now)
  {
    assert (answered + [p])[..|answered|] == answered;
    ToSetSnoc(answered + [p]);
    assert Records(credit, answered + [p], now) == Records(credit, answered, now) + Credited(credit(p), now);
  }

  lemma CreditedSuccesses(uses: seq<Use>, to: Option<SupportedRpcService>, now: Timestamp, s: SupportedRpcService)
    ensures SuccessesOf(uses + Credited(to, now), s) == SuccessesOf(uses, s) + if to == Some(s) then [now] else []
  {
    var after := uses + Credited(to, now);
    if to.Some? {
      assert after[..|after| - 1] == uses;
    } else {
      assert after == uses;
    }
  }

  lemma RepeatSnoc<T>(x: T, n: nat)
    ensures Repeat(x, n) + [x] == Repeat(x, n + 1)
  {
  }

  lemma RecordedLast<P>(
      uses: seq<Use>, credit: P -> Option<SupportedRpcService>, answered: seq<P>, p: P, now: Timestamp,
      s: SupportedRpcService)
    requires Distinct(answered) && p !in ToSet(answered)
    ensures SuccessesOf(uses + Records(credit, answered + [p], now), s)
         == SuccessesOf(uses + Records(credit, answered, now), s) + if credit(p) == Some(s) then [now] else []
  {
    RecordsSnoc(uses, credit, answered, p, now);
    CreditedSuccesses(uses + Records(credit, answered, now), credit(p), now, s);
  }

  /**
   Exactly the answering providers gain a success, one each: a provider that failed, or that is not supported, gains
   none, and no other provider's history changes.
   */
  lemma {:induction false} RecordedExactly<P>(
      uses: seq<Use>, credit: P -> Option<SupportedRpcService>, answered: seq<P>, now: Timestamp,
      s: SupportedRpcService)
    requires Distinct(answered)
    ensures SuccessesOf(uses + Records(credit, answered, now), s)
         == SuccessesOf(uses, s) + Repeat(now, |CreditedTo(credit, ToSet(answered), s)|)
  {
    if answered == [] {
      assert uses + Records(credit, answered, now) == uses;
      assert CreditedTo(credit, ToSet(answered), s) == {};
    } else {
      var front, last := answered[..|answered| - 1], answered[|answered| - 1];
      RecordedExactly(uses, credit, front, now, s);
      CreditSnoc(credit, answered, s);
      assert front + [last] == answered;
      RecordedLast(uses, credit, front, last, now, s);
      RepeatSnoc(now, |CreditedTo(credit, ToSet(front), s)|);
    }
  }

  lemma CreditSnoc<P>(credit: P -> Option<SupportedRpcService>, answered: seq<P>, s: SupportedRpcService)
    requires answered != [] && Distinct(answered)
    ensures |CreditedTo(credit, ToSet(answered), s)|
         == |CreditedTo(credit, ToSet(answered[..|answered| - 1]), s)|
            + if credit(answered[|answered| - 1]) == Some(s) then 1 else 0
  {
    var front, last := answered[..|answered| - 1], answered[|answered| - 1];
    ToSetSnoc(answered);
    assert last !in front;
    var before, after := CreditedTo(credit, ToSet(front), s), CreditedTo(credit, ToSet(answered), s);
    assert last !in before;
    if credit(last) == Some(s) {
      assert after == before + {last};
    } else {
      assert after == before;
    }
  }

  /** The host an inconsistent result is counted under, if it is counted at all. */
  function CountedHost(table: ProviderTable, service: RpcService): Option<string> {
    match Resolve(table, service)
    case Ok(ProviderEntry(p)) => Some(match p.host case Some(h) => h case None => "(unknown)")
    case _ => None
  }

  /** A table entry is counted under the host of its URL, or as unknown; anything else is not counted. */
  lemma CountedHostExactly(table: ProviderTable, service: RpcService)
    ensures match Resolve(table, service)
            case Ok(ProviderEntry(p)) =>
              && (p.host.Some? ==> CountedHost(table, service) == p.host)
              && (p.host.None? ==> CountedHost(table, service) == Some("(unknown)"))
            case _ => CountedHost(table, service) == None
  {
  }

  /** The services counted under `host`. */
  ghost function CountedUnder<P>(hostOf: P -> Option<string>, services: seq<P>, host: string): nat {
    if services == [] then 0
    else
      CountedUnder(hostOf, services[..|services| - 1], host)
      + if hostOf(services[|services| - 1]) == Some(host) then 1 else 0
  }

  /** `after` counts every one of `services` once more under its host, and nothing else. */
  ghost predicate CountsMore<P>(before: map<(string, string), nat>, after: map<(string, string), nat>,
                                rpcMethod: string, hostOf: P -> Option<string>, services: seq<P>)
  {
    forall m, h ::
      Count(after, (m, h))
      == Count(before, (m, h)) + if m == rpcMethod then CountedUnder(hostOf, services, h) else 0
  }

  function HostOf(table: ProviderTable): RpcService -> Option<string> { p => CountedHost(table, p) }

  function ServicesOf<V>(entries: seq<Entry<V>>): seq<RpcService> { MapSeq((e: Entry<V>) => e.0, entries) }

  /** The services whose results are reported as inconsistent. */
  function Inconsistents<V>(reduced: ReducedResult<RpcService, V>, entries: seq<Entry<V>>): seq<RpcService> {
    if reduced.Err? && reduced.error.InconsistentResults? then ServicesOf(entries) else []
  }

  ghost function AtHost<P>(hostOf: P -> Option<string>, services: set<P>, host: string): set<P> {
    set p | p in services && hostOf(p) == Some(host)
  }

  /** Each provider listed once is counted once: the sum over a listing is the number of providers at the host. */
  lemma {:induction false} CountedOnce<P>(hostOf: P -> Option<string>, services: seq<P>, host: string)
    requires Distinct(services)
    ensures CountedUnder(hostOf, services, host) == |AtHost(hostOf, ToSet(services), host)|
  {
    if services != [] {
      var front, last := services[..|services| - 1], services[|services| - 1];
      CountedOnce(hostOf, front, host);
      ToSetSnoc(services);
      assert last !in front;
      var before, after := AtHost(hostOf, ToSet(front), host), AtHost(hostOf, ToSet(services), host);
      assert last !in before;
      if hostOf(last) == Some(host) {
        assert after == before + {last};
      } else {
        assert after == before;
      }
    }
  }

  /** So inconsistent results count each provider they report once, under its host. */
  lemma ListedOnce<V>(
      hostOf: RpcService -> Option<string>, entries: seq<Entry<V>>, rs: ProviderResults<V>, host: string)
    requires Lists(entries, rs)
    ensures CountedUnder(hostOf, ServicesOf(entries), host) == |AtHost(hostOf, rs.Providers(), host)|
  {
    var services := ServicesOf(entries);
    assert forall i :: 0 <= i < |entries| ==> services[i] == entries[i].0;
    forall p | p in rs.Providers() ensures p in services {
      var i :| 0 <= i < |entries| && entries[i].0 == p;
      assert services[i] == p;
    }
    assert ToSet(services) == rs.Providers();
    CountedOnce(hostOf, services, host);
  }

  lemma CountsNone<P>(m: map<(string, string), nat>, rpcMethod: string, hostOf: P -> Option<string>)
    ensures CountsMore(m, m, rpcMethod, hostOf, [])
  {
    assert forall h :: CountedUnder(hostOf, [], h) == 0;
  }

  /** The counter of inconsistent responses, by method and host. */
  class InconsistencyMetrics {
    var inconsistentResponses: map<(string, string), nat>

    constructor ()
      ensures inconsistentResponses == map[]
    {
      inconsistentResponses := map[];
    }

    /** `process_result`: on inconsistent results, every listed provider's counter goes up by one. */
    method ProcessResult<V>(rpcMethod: string, reduced: ReducedResult<RpcService, V>, entries: seq<Entry<V>>,
                            hostOf: RpcService -> Option<string>)
        returns (r: MultiRpcResult<V>)
      modifies this
      ensures r == Processed(reduced, entries)
      ensures reduced.Ok? ==> r == Consistent(Ok(reduced.value))
      ensures reduced.Err? && reduced.error.ConsistentError? ==> r == Consistent(Err(reduced.error.error))
      ensures reduced.Err? && reduced.error.InconsistentResults? ==> r == Inconsistent(entries)
      ensures CountsMore(
          old(inconsistentResponses), inconsistentResponses, rpcMethod, hostOf, Inconsistents(reduced, entries))
    {
      CountsNone(inconsistentResponses, rpcMethod, hostOf);
      match reduced {
        case Ok(value) => return Consistent(Ok(value));
        case Err(ConsistentError(e)) => return Consistent(Err(e));
        case Err(InconsistentResults(_)) =>
          var services := ServicesOf(entries);
          assert services[..0] == [];
          for i := 0 to |services|
            invariant CountsMore(old(inconsistentResponses), inconsistentResponses, rpcMethod, hostOf, services[..i])
          {
            assert services[..i + 1][..i] == services[..i];
            if hostOf(services[i]).Some? {
              inconsistentResponses := AddEntry(inconsistentResponses, (rpcMethod, hostOf(services[i]).value), 1);
            }
          }
          assert services[..|services|] == services;
          return Inconsistent(entries);
      }
    }
  }
}
