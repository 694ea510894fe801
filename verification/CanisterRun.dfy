/**
 The canister as a whole: any number of Candid calls at once. A call chooses its providers and sends its requests in
 one message; the HTTP stack then makes progress attempt by attempt; and when all its outcalls have ended the call
 records who answered and replies, in another message. Other calls may do anything in between. Messages are atomic and
 time does not run backwards.
 */
module CanisterRun {
  import opened Common
  import opened RpcTypes
  import opened StableSorting
  import opened Counters
  import opened MultiRpcResults
  import opened Reduction
  import opened Selection
  import opened ServiceUsage
  import opened Quorum
  import opened ParallelCall
  import opened Endpoint
  import H = HttpStack

  /** What is fixed: `host` names a provider's host, and `errorOf` is the error that an attempt's failure becomes. */
  datatype Deployment = Deployment(
    table: ProviderTable, post: ResolvedRpcService -> Option<RpcError>, host: RpcService -> string,
    errorOf: H.Outcome -> RpcError)

  datatype Request<!V, !W> = Request(
    source: RpcServices, strategy: ConsensusStrategy, rpcMethod: string, conv: V -> W, estimate: nat)

  datatype Stage<!V, !W> =
    | Refused(error: ProviderError)
    | Querying
    | Replied(replies: RpcService -> RpcResult<V>, account: Account<V>, reply: MultiRpcResult<W>)

  /**
   `usesBefore` is how many uses the index had seen before the call chose. The outcall of `requested[i]` is number
   `first + i` of the HTTP stack.
   */
  datatype CandidCall<!V, !W> = CandidCall(
    request: Request<V, W>, at: Timestamp, usesBefore: nat, providers: set<RpcService>, requested: seq<RpcService>,
    first: nat, stage: Stage<V, W>)

  /** `uses` and `httpActions` remember all that happened; no step looks at them. */
  datatype State<!V, !W> = State(
    clock: Timestamp, store: Store, inconsistentResponses: map<(string, string), nat>, http: H.State,
    calls: seq<CandidCall<V, W>>, uses: seq<Use>, httpActions: seq<H.Action>)

  /** A step of the HTTP stack may also begin a call of an endpoint that is not modelled here. */
  datatype Action<!V, !W> =
    | Start(request: Request<V, W>, now: Timestamp, order: seq<RpcService>)
    | Http(step: H.Action)
    | Finish(
        call: nat, now: Timestamp, replies: RpcService -> RpcResult<V>, account: Account<V>, reply: MultiRpcResult<W>)

  ghost function Initial<V, W>(): State<V, W> { State(0, map[], map[], H.INITIAL, [], [], []) }

  /** The ranking that the stored index gives. */
  ghost function RankedByStore(store: Store, services: seq<SupportedRpcService>, now: Timestamp)
      : seq<SupportedRpcService>
  {
    var evicted := After(store, Rank(services, now));
    Sort(services, (s: SupportedRpcService) => Negated(|Entries(evicted, s)|))
  }

  ghost function Choice<V, W>(s: State<V, W>, request: Request<V, W>, now: Timestamp)
      : Result<set<RpcService>, ProviderError>
  {
    NewProviders(request.source, RankedByStore(s.store, Supported(request.source), now), request.strategy)
  }

  /** The providers that are sent a request. */
  ghost function Requested(d: Deployment, providers: set<RpcService>): set<RpcService> {
    set p | p in providers && RequestError(d.table, d.post, p).None?
  }

  ghost predicate Orders(d: Deployment, order: seq<RpcService>, providers: set<RpcService>) {
    Distinct(order) && ToSet(order) == Requested(d, providers)
  }

  ghost predicate ValidEstimate(estimate: nat) { 1 <= estimate <= H.MAX_PAYLOAD_SIZE }

  ghost function Key<V, W>(d: Deployment, request: Request<V, W>, p: RpcService): H.MethodHost {
    H.MethodHost(request.rpcMethod, d.host(p))
  }

  ghost function Begins<V, W>(d: Deployment, request: Request<V, W>, order: seq<RpcService>): seq<H.Action> {
    MapSeq((p: RpcService) => H.Begin(Key(d, request, p), true, 0, request.estimate), order)
  }

  /** A reply fits the final attempt of its outcall: a value or JSON-RPC error after a response, else its error. */
  ghost predicate Fits<V>(d: Deployment, last: Option<H.Attempt>, reply: RpcResult<V>) {
    && last.Some? && last.value.outcome.Some?
    && match last.value.outcome.value
       case Response(_) => reply.Ok? || reply.error.JsonRpcError?
       case failure => reply == Err(d.errorOf(failure))
  }

  /** All outcalls of a call have ended, as `replies` says. */
  ghost predicate Answered<V, W>(
      d: Deployment, http: H.State, call: CandidCall<V, W>, replies: RpcService -> RpcResult<V>)
  {
    forall i :: 0 <= i < |call.requested| ==>
      Fits(d, H.FinalAttempt(http, call.first + i), replies(call.requested[i]))
  }

  ghost predicate Concluded<V(!new), W>(
      d: Deployment, call: CandidCall<V, W>, replies: RpcService -> RpcResult<V>, account: Account<V>,
      reply: MultiRpcResult<W>)
  {
    Conducted(call.providers, call.request.strategy, Environment(d.table, d.post, replies), call.request.conv,
              account, reply)
  }

  ghost predicate Enabled<V(!new), W>(d: Deployment, s: State<V, W>, a: Action<V, W>) {
    match a
    case Start(request, now, order) =>
      && s.clock <= now
      && var choice := Choice(s, request, now);
         choice.Ok? ==> ValidEstimate(request.estimate) && Orders(d, order, choice.value)
    case Http(_) => true
    case Finish(c, now, replies, account, reply) =>
      && s.clock <= now && c < |s.calls| && s.calls[c].stage.Querying?
      && Answered(d, s.http, s.calls[c], replies)
      && Concluded(d, s.calls[c], replies, account, reply)
  }

  ghost function DoStart<V, W>(
      d: Deployment, s: State<V, W>, request: Request<V, W>, now: Timestamp, order: seq<RpcService>): State<V, W>
  {
    var uses := Ranked(request.source, request.strategy, now);
    var asked := s.(clock := now, store := AfterAll(s.store, uses), uses := s.uses + uses);
    match Choice(s, request, now)
    case Err(e) =>
      asked.(calls := s.calls + [CandidCall(request, now, |s.uses|, {}, [], |s.http.calls|, Refused(e))])
    case Ok(providers) =>
      var begins := Begins(d, request, order);
      asked.(calls := s.calls + [CandidCall(request, now, |s.uses|, providers, order, |s.http.calls|, Querying)],
             http := H.RunFrom(s.http, begins), httpActions := s.httpActions + begins)
  }

  /** The counters after one more count for each of `services`. */
  ghost function CountAll(
      m: map<(string, string), nat>, rpcMethod: string, hostOf: RpcService -> Option<string>, services: seq<RpcService>)
      : map<(string, string), nat>
  {
    if services == [] then m
    else
      var before := CountAll(m, rpcMethod, hostOf, services[..|services| - 1]);
      var host := hostOf(services[|services| - 1]);
      if host.Some? then AddEntry(before, (rpcMethod, host.value), 1) else before
  }

  ghost function DoFinish<V, W>(
      d: Deployment, s: State<V, W>, c: nat, now: Timestamp, stage: Stage<V, W>): State<V, W>
    requires c < |s.calls| && stage.Replied?
  {
    var call, uses := s.calls[c], Recorded(d.table, stage.account, now);
    s.(clock := now, store := AfterAll(s.store, uses), uses := s.uses + uses,
       inconsistentResponses := CountAll(s.inconsistentResponses, call.request.rpcMethod, HostOf(d.table),
                                         Inconsistents(stage.account.reduced, stage.account.entries)),
       calls := s.calls[c := call.(stage := stage)])
  }

  /** A step that is not enabled changes nothing. */
  ghost function Step<V(!new), W>(d: Deployment, s: State<V, W>, a: Action<V, W>): State<V, W> {
    if !Enabled(d, s, a) then s
    else
      match a
      case Start(request, now, order) => DoStart(d, s, request, now, order)
      case Http(step) => s.(http := H.Step(s.http, step), httpActions := s.httpActions + [step])
      case Finish(c, now, replies, account, reply) => DoFinish(d, s, c, now, Replied(replies, account, reply))
  }

  ghost function Run<V(!new), W>(d: Deployment, actions: seq<Action<V, W>>): State<V, W> {
    if actions == [] then Initial()
    else Step(d, Run(d, actions[..|actions| - 1]), actions[|actions| - 1])
  }

  // ----- what every step keeps

  /** The stored index is what its history of uses gives, and the HTTP stack what its history of steps gives. */
  ghost predicate Remembered<V, W>(s: State<V, W>) {
    && InOrder(s.uses) && NoLaterThan(s.uses, s.clock)
    && s.store == ServiceUsage.Run(s.uses)
    && s.http == H.Run(s.httpActions)
  }

  /** What the call chose is what the full history of successes called for at the time. */
  ghost predicate ChoseRightly<V, W>(call: CandidCall<V, W>, uses: seq<Use>) {
    && call.usesBefore <= |uses|
    && var ranked := Ranking(uses[..call.usesBefore], Supported(call.request.source), call.at);
       NewProviders(call.request.source, ranked, call.request.strategy)
       == if call.stage.Refused? then Err(call.stage.error) else Ok(call.providers)
  }

  ghost predicate IsOutcall<V, W>(d: Deployment, call: CandidCall<V, W>, http: H.State, i: nat)
    requires i < |call.requested|
  {
    && call.first + i < |http.calls|
    && var outcall := http.calls[call.first + i];
       && outcall.retry && outcall.start == call.request.estimate
       && outcall.key == Key(d, call.request, call.requested[i])
  }

  /** The outcalls of the call: one per provider that could be sent a request. */
  ghost predicate HasOutcalls<V, W>(d: Deployment, call: CandidCall<V, W>, http: H.State) {
    && Orders(d, call.requested, call.providers)
    && call.first + |call.requested| <= |http.calls|
    && (forall i :: 0 <= i < |call.requested| ==> IsOutcall(d, call, http, i))
  }

  ghost predicate CallSound<V(!new), W>(d: Deployment, s: State<V, W>, call: CandidCall<V, W>) {
    && ChoseRightly(call, s.uses)
    && HasOutcalls(d, call, s.http)
    && (call.stage.Replied? ==>
          && Answered(d, s.http, call, call.stage.replies)
          && Concluded(d, call, call.stage.replies, call.stage.account, call.stage.reply))
  }

  /** The answering providers of the call that are credited to `p`. */
  ghost function CreditsFor<V, W>(d: Deployment, p: SupportedRpcService): CandidCall<V, W> -> nat {
    (call: CandidCall<V, W>) =>
      if call.stage.Replied? then |CreditedTo(Credit(d.table), call.stage.account.results.oks.Keys, p)| else 0
  }

  /** The providers at `host` that the call reported as inconsistent. */
  ghost function ReportedAt<V, W>(d: Deployment, rpcMethod: string, host: string): CandidCall<V, W> -> nat {
    (call: CandidCall<V, W>) =>
      if call.stage.Replied? && call.request.rpcMethod == rpcMethod
      then CountedUnder(HostOf(d.table), Inconsistents(call.stage.account.reduced, call.stage.account.entries), host)
      else 0
  }

  ghost predicate SuccessesBalance<V, W>(d: Deployment, s: State<V, W>, p: SupportedRpcService) {
    |SuccessesOf(s.uses, p)| == SumOver(s.calls, CreditsFor(d, p))
  }

  ghost predicate ReportsBalance<V, W>(d: Deployment, s: State<V, W>, rpcMethod: string, host: string) {
    Count(s.inconsistentResponses, (rpcMethod, host)) == SumOver(s.calls, ReportedAt(d, rpcMethod, host))
  }

  ghost predicate CallsSound<V(!new), W>(d: Deployment, s: State<V, W>) {
    forall c :: 0 <= c < |s.calls| ==> CallSound(d, s, s.calls[c])
  }

  ghost predicate Balanced<V, W>(d: Deployment, s: State<V, W>) {
    && (forall p :: SuccessesBalance(d, s, p))
    && (forall m, h :: ReportsBalance(d, s, m, h))
  }

  /** No two calls share an outcall. */
  ghost predicate OutcallsApart<V, W>(calls: seq<CandidCall<V, W>>) {
    forall b, c :: 0 <= b < c < |calls| ==> calls[b].first + |calls[b].requested| <= calls[c].first
  }

  ghost predicate Invariant<V(!new), W>(d: Deployment, s: State<V, W>) {
    Remembered(s) && CallsSound(d, s) && OutcallsApart(s.calls) && Balanced(d, s)
  }

  // ----- the index

  ghost predicate AllAt(uses: seq<Use>, now: Timestamp) {
    forall i :: 0 <= i < |uses| ==> uses[i].at == now
  }

  lemma MoreUses<V, W>(s: State<V, W>, more: seq<Use>, now: Timestamp)
    requires Remembered(s) && s.clock <= now && AllAt(more, now)
    ensures InOrder(s.uses + more) && NoLaterThan(s.uses + more, now)
    ensures AfterAll(s.store, more) == ServiceUsage.Run(s.uses + more)
  {
    ServiceUsage.RunInParts(s.uses, more);
  }

  lemma {:induction false} RecordsAt<P>(credit: P -> Option<SupportedRpcService>, answered: seq<P>, now: Timestamp)
    ensures AllAt(Records(credit, answered, now), now)
  {
    if answered != [] {
      RecordsAt(credit, answered[..|answered| - 1], now);
    }
  }

  lemma ChoiceFollowsHistory<V, W>(s: State<V, W>, request: Request<V, W>, now: Timestamp)
    requires Remembered(s) && s.clock <= now
    ensures RankedByStore(s.store, Supported(request.source), now)
         == Ranking(s.uses, Supported(request.source), now)
  {
    var services := Supported(request.source);
    EvictedCountsRank(s.uses, services, After(s.store, Rank(services, now)), now);
  }

  // ----- calls under later steps

  lemma ChoiceStays<V, W>(call: CandidCall<V, W>, uses: seq<Use>, more: seq<Use>)
    requires ChoseRightly(call, uses)
    ensures ChoseRightly(call, uses + more)
  {
    assert (uses + more)[..call.usesBefore] == uses[..call.usesBefore];
  }

  lemma OutcallsStay<V, W>(d: Deployment, call: CandidCall<V, W>, http: H.State, http': H.State)
    requires HasOutcalls(d, call, http) && H.Extends(http, http')
    ensures HasOutcalls(d, call, http')
    ensures forall replies :: Answered(d, http, call, replies) ==> Answered(d, http', call, replies)
  {
    forall i | 0 <= i < |call.requested| ensures IsOutcall(d, call, http', i) {
      assert IsOutcall(d, call, http, i);
      assert H.SameCall(http.calls[call.first + i], http'.calls[call.first + i]);
    }
    forall replies | Answered(d, http, call, replies) ensures Answered(d, http', call, replies) {
      forall i | 0 <= i < |call.requested|
        ensures Fits(d, H.FinalAttempt(http', call.first + i), replies(call.requested[i]))
      {
        assert Fits(d, H.FinalAttempt(http, call.first + i), replies(call.requested[i]));
      }
    }
  }

  lemma CallStaysSound<V(!new), W>(
      d: Deployment, s: State<V, W>, s': State<V, W>, call: CandidCall<V, W>, more: seq<Use>)
    requires CallSound(d, s, call)
    requires s'.uses == s.uses + more && H.Extends(s.http, s'.http)
    ensures CallSound(d, s', call)
  {
    ChoiceStays(call, s.uses, more);
    OutcallsStay(d, call, s.http, s'.http);
  }

  // ----- Http

  lemma HttpKeeps<V(!new), W>(d: Deployment, s: State<V, W>, step: H.Action)
    requires Invariant(d, s)
    ensures Invariant(d, Step(d, s, Http(step)))
  {
    var s' := Step(d, s, Http(step));
    H.RunInParts(s.httpActions, [step]);
    H.RunExtends(s.httpActions, [step]);
    assert s'.http == H.Run(s'.httpActions) by {
      assert [step][..0] == [];
      assert H.RunFrom(s.http, [step]) == H.Step(H.RunFrom(s.http, []), step);
    }
    forall c | 0 <= c < |s'.calls| ensures CallSound(d, s', s'.calls[c]) {
      assert s.uses + [] == s.uses;
      CallStaysSound(d, s, s', s.calls[c], []);
    }
    SameBalance(d, s, s');
  }

  lemma SameBalance<V, W>(d: Deployment, s: State<V, W>, s': State<V, W>)
    requires Balanced(d, s)
    requires s'.uses == s.uses && s'.calls == s.calls && s'.inconsistentResponses == s.inconsistentResponses
    ensures Balanced(d, s')
  {
    forall p ensures SuccessesBalance(d, s', p) {
      assert SuccessesBalance(d, s, p);
    }
    forall m, h ensures ReportsBalance(d, s', m, h) {
      assert ReportsBalance(d, s, m, h);
    }
  }

  // ----- Start

  lemma HttpBegins(before: seq<H.Action>, begins: seq<H.Action>)
    ensures H.Extends(H.Run(before), H.RunFrom(H.Run(before), begins))
    ensures H.Run(before + begins) == H.RunFrom(H.Run(before), begins)
  {
    H.RunInParts(before, begins);
    H.RunExtends(before, begins);
  }

  lemma StartRemembers<V(!new), W>(
      d: Deployment, s: State<V, W>, request: Request<V, W>, now: Timestamp, order: seq<RpcService>)
    requires Remembered(s) && Enabled(d, s, Start(request, now, order))
    ensures Remembered(DoStart(d, s, request, now, order))
    ensures H.Extends(s.http, DoStart(d, s, request, now, order).http)
  {
    MoreUses(s, Ranked(request.source, request.strategy, now), now);
    HttpBegins(s.httpActions, Begins(d, request, order));
  }

  lemma StartedChoice<V(!new), W>(
      d: Deployment, s: State<V, W>, request: Request<V, W>, now: Timestamp, order: seq<RpcService>)
    requires Remembered(s) && s.clock <= now
    ensures
      var s' := DoStart(d, s, request, now, order);
      ChoseRightly(s'.calls[|s.calls|], s.uses)
  {
    ChoiceFollowsHistory(s, request, now);
    assert s.uses[..|s.uses|] == s.uses;
  }

  lemma StartedSound<V(!new), W>(
      d: Deployment, s: State<V, W>, request: Request<V, W>, now: Timestamp, order: seq<RpcService>)
    requires Remembered(s) && Enabled(d, s, Start(request, now, order))
    ensures
      var s' := DoStart(d, s, request, now, order);
      CallSound(d, s', s'.calls[|s.calls|])
  {
    var s' := DoStart(d, s, request, now, order);
    var call := s'.calls[|s.calls|];
    StartedChoice(d, s, request, now, order);
    ChoiceStays(call, s.uses, Ranked(request.source, request.strategy, now));
    if !call.stage.Refused? {
      StartedOutcalls(d, s.http, call, order);
    }
  }

  lemma StartedOutcalls<V, W>(d: Deployment, http: H.State, call: CandidCall<V, W>, order: seq<RpcService>)
    requires Orders(d, order, call.providers) && call.requested == order && call.first == |http.calls|
    requires ValidEstimate(call.request.estimate)
    ensures HasOutcalls(d, call, H.RunFrom(http, Begins(d, call.request, order)))
  {
    var begins := Begins(d, call.request, order);
    var http' := H.RunFrom(http, begins);
    H.BeginsAppend(http, begins);
    forall i | 0 <= i < |order| ensures IsOutcall(d, call, http', i) {
      var estimate := call.request.estimate;
      assert begins[i] == H.Begin(Key(d, call.request, order[i]), true, 0, estimate);
      assert http'.calls[|http.calls| + i]
          == H.Call(Key(d, call.request, order[i]), true, 0, estimate, estimate, 0, H.Ready);
    }
  }

  lemma RankingRecordsNothing(uses: seq<Use>, source: RpcServices, strategy: ConsensusStrategy, now: Timestamp,
                              p: SupportedRpcService)
    ensures SuccessesOf(uses + Ranked(source, strategy, now), p) == SuccessesOf(uses, p)
  {
    var more := Ranked(source, strategy, now);
    if more == [] {
      assert uses + more == uses;
    } else {
      assert (uses + more)[..|uses|] == uses;
    }
  }

  lemma NewCallAddsNothing<V, W>(d: Deployment, calls: seq<CandidCall<V, W>>, call: CandidCall<V, W>)
    requires !call.stage.Replied?
    ensures forall p :: SumOver(calls + [call], CreditsFor(d, p)) == SumOver(calls, CreditsFor(d, p))
    ensures forall m, h :: SumOver(calls + [call], ReportedAt(d, m, h)) == SumOver(calls, ReportedAt(d, m, h))
  {
    forall p ensures SumOver(calls + [call], CreditsFor(d, p)) == SumOver(calls, CreditsFor(d, p)) {
      SumOverSnoc(calls, call, CreditsFor(d, p));
    }
    forall m, h ensures SumOver(calls + [call], ReportedAt(d, m, h)) == SumOver(calls, ReportedAt(d, m, h)) {
      SumOverSnoc(calls, call, ReportedAt(d, m, h));
    }
  }

  lemma StartBalances<V, W>(
      d: Deployment, s: State<V, W>, request: Request<V, W>, now: Timestamp, order: seq<RpcService>)
    requires Balanced(d, s)
    ensures Balanced(d, DoStart(d, s, request, now, order))
  {
    var s' := DoStart(d, s, request, now, order);
    NewCallAddsNothing(d, s.calls, s'.calls[|s.calls|]);
    forall p ensures SuccessesBalance(d, s', p) {
      assert SuccessesBalance(d, s, p);
      RankingRecordsNothing(s.uses, request.source, request.strategy, now, p);
    }
    forall m, h ensures ReportsBalance(d, s', m, h) {
      assert ReportsBalance(d, s, m, h);
    }
  }

  lemma OneMoreCallSound<V(!new), W>(
      d: Deployment, s: State<V, W>, s': State<V, W>, call: CandidCall<V, W>, more: seq<Use>)
    requires CallsSound(d, s) && CallSound(d, s', call)
    requires s'.uses == s.uses + more && s'.calls == s.calls + [call] && H.Extends(s.http, s'.http)
    ensures CallsSound(d, s')
  {
    forall c | 0 <= c < |s'.calls| ensures CallSound(d, s', s'.calls[c]) {
      if c < |s.calls| {
        assert CallSound(d, s, s.calls[c]);
        CallStaysSound(d, s, s', s.calls[c], more);
      }
    }
  }

  lemma OutcallsStayApart<V(!new), W>(d: Deployment, s: State<V, W>, call: CandidCall<V, W>)
    requires CallsSound(d, s) && OutcallsApart(s.calls) && call.first == |s.http.calls|
    ensures OutcallsApart(s.calls + [call])
  {
    forall b | 0 <= b < |s.calls| ensures s.calls[b].first + |s.calls[b].requested| <= |s.http.calls| {
      assert CallSound(d, s, s.calls[b]);
    }
  }

  lemma StartKeeps<V(!new), W>(
      d: Deployment, s: State<V, W>, request: Request<V, W>, now: Timestamp, order: seq<RpcService>)
    requires Invariant(d, s) && Enabled(d, s, Start(request, now, order))
    ensures Invariant(d, DoStart(d, s, request, now, order))
  {
    var s' := DoStart(d, s, request, now, order);
    StartRemembers(d, s, request, now, order);
    StartBalances(d, s, request, now, order);
    StartedSound(d, s, request, now, order);
    OutcallsStayApart(d, s, s'.calls[|s.calls|]);
    OneMoreCallSound(d, s, s', s'.calls[|s.calls|], Ranked(request.source, request.strategy, now));
  }

  // ----- Finish

  lemma {:induction false} CountAllCounts(
      m: map<(string, string), nat>, rpcMethod: string, hostOf: RpcService -> Option<string>, services: seq<RpcService>)
    ensures CountsMore(m, CountAll(m, rpcMethod, hostOf, services), rpcMethod, hostOf, services)
  {
    if services == [] {
      CountsNone(m, rpcMethod, hostOf);
    } else {
      CountAllCounts(m, rpcMethod, hostOf, services[..|services| - 1]);
    }
  }

  lemma FinishBalances<V, W>(d: Deployment, s: State<V, W>, c: nat, now: Timestamp, stage: Stage<V, W>)
    requires Balanced(d, s) && c < |s.calls| && s.calls[c].stage.Querying? && stage.Replied?
    requires Distinct(stage.account.answered) && ToSet(stage.account.answered) == stage.account.results.oks.Keys
    ensures Balanced(d, DoFinish(d, s, c, now, stage))
  {
    var s' := DoFinish(d, s, c, now, stage);
    var call, account := s'.calls[c], stage.account;
    forall p ensures SuccessesBalance(d, s', p) {
      assert SuccessesBalance(d, s, p);
      RecordedExactly(s.uses, Credit(d.table), account.answered, now, p);
      SumOverUpdate(s.calls, c, call, CreditsFor(d, p));
    }
    var services := Inconsistents(account.reduced, account.entries);
    CountAllCounts(s.inconsistentResponses, call.request.rpcMethod, HostOf(d.table), services);
    forall m, h ensures ReportsBalance(d, s', m, h) {
      assert ReportsBalance(d, s, m, h);
      SumOverUpdate(s.calls, c, call, ReportedAt(d, m, h));
    }
  }

  lemma FinishRemembers<V, W>(d: Deployment, s: State<V, W>, c: nat, now: Timestamp, stage: Stage<V, W>)
    requires Remembered(s) && s.clock <= now && c < |s.calls| && stage.Replied?
    ensures Remembered(DoFinish(d, s, c, now, stage))
  {
    RecordsAt(Credit(d.table), stage.account.answered, now);
    MoreUses(s, Recorded(d.table, stage.account, now), now);
  }

  lemma StageKeepsApart<V, W>(calls: seq<CandidCall<V, W>>, c: nat, stage: Stage<V, W>)
    requires OutcallsApart(calls) && c < |calls|
    ensures OutcallsApart(calls[c := calls[c].(stage := stage)])
  {
  }

  lemma FinishKeeps<V(!new), W>(
      d: Deployment, s: State<V, W>, c: nat, now: Timestamp, replies: RpcService -> RpcResult<V>, account: Account<V>,
      reply: MultiRpcResult<W>)
    requires Invariant(d, s) && Enabled(d, s, Finish(c, now, replies, account, reply))
    ensures Invariant(d, DoFinish(d, s, c, now, Replied(replies, account, reply)))
  {
    var stage := Replied(replies, account, reply);
    FinishRemembers(d, s, c, now, stage);
    StageKeepsApart(s.calls, c, stage);
    FinishBalances(d, s, c, now, stage);
    FinishKeepsCalls(d, s, DoFinish(d, s, c, now, stage), c, replies, account, reply, Recorded(d.table, account, now));
  }

  lemma FinishKeepsCalls<V(!new), W>(
      d: Deployment, s: State<V, W>, s': State<V, W>, c: nat, replies: RpcService -> RpcResult<V>,
      account: Account<V>, reply: MultiRpcResult<W>, more: seq<Use>)
    requires CallsSound(d, s) && c < |s.calls| && s.calls[c].stage.Querying?
    requires Answered(d, s.http, s.calls[c], replies) && Concluded(d, s.calls[c], replies, account, reply)
    requires s'.uses == s.uses + more && s'.http == s.http
    requires s'.calls == s.calls[c := s.calls[c].(stage := Replied(replies, account, reply))]
    ensures CallsSound(d, s')
  {
    forall k | 0 <= k < |s'.calls| ensures CallSound(d, s', s'.calls[k]) {
      assert CallSound(d, s, s.calls[k]);
      ChoiceStays(s.calls[k], s.uses, more);
      if k == c {
        FinishedSound(d, s', s.calls[c], replies, account, reply);
      }
    }
  }

  lemma FinishedSound<V(!new), W>(
      d: Deployment, s: State<V, W>, call: CandidCall<V, W>, replies: RpcService -> RpcResult<V>,
      account: Account<V>, reply: MultiRpcResult<W>)
    requires CallSound(d, s, call) && call.stage.Querying?
    requires Answered(d, s.http, call, replies) && Concluded(d, call, replies, account, reply)
    ensures CallSound(d, s, call.(stage := Replied(replies, account, reply)))
  {
    var stage := Replied(replies, account, reply);
    StageKeepsChoice(call, s.uses, stage);
    StageKeepsOutcalls(d, call, s.http, stage);
    StageKeepsAnswers(d, call, s.http, stage, replies);
    assert Concluded(d, call.(stage := stage), replies, account, reply);
  }

  lemma StageKeepsChoice<V, W>(call: CandidCall<V, W>, uses: seq<Use>, stage: Stage<V, W>)
    requires ChoseRightly(call, uses) && !call.stage.Refused? && !stage.Refused?
    ensures ChoseRightly(call.(stage := stage), uses)
  {
  }

  lemma StageKeepsOutcalls<V, W>(d: Deployment, call: CandidCall<V, W>, http: H.State, stage: Stage<V, W>)
    requires HasOutcalls(d, call, http)
    ensures HasOutcalls(d, call.(stage := stage), http)
  {
    forall i | 0 <= i < |call.requested| ensures IsOutcall(d, call.(stage := stage), http, i) {
      assert IsOutcall(d, call, http, i);
    }
  }

  lemma StageKeepsAnswers<V, W>(
      d: Deployment, call: CandidCall<V, W>, http: H.State, stage: Stage<V, W>, replies: RpcService -> RpcResult<V>)
    requires Answered(d, http, call, replies)
    ensures Answered(d, http, call.(stage := stage), replies)
  {
  }

  lemma InitialHolds<V(!new), W>(d: Deployment)
    ensures Invariant(d, Initial<V, W>())
  {
    var s := Initial<V, W>();
    forall p ensures SuccessesBalance(d, s, p) {}
    forall m, h ensures ReportsBalance(d, s, m, h) {}
  }

  /** Whatever calls there are and however their steps interleave, the invariant holds. */
  lemma {:induction false} RunKeepsInvariant<V(!new), W>(d: Deployment, actions: seq<Action<V, W>>)
    ensures Invariant(d, Run(d, actions))
  {
    if actions == [] {
      InitialHolds<V, W>(d);
    } else {
      var s, a := Run(d, actions[..|actions| - 1]), actions[|actions| - 1];
      RunKeepsInvariant(d, actions[..|actions| - 1]);
      if Enabled(d, s, a) {
        match a
        case Start(request, now, order) => StartKeeps(d, s, request, now, order);
        case Http(step) => HttpKeeps(d, s, step);
        case Finish(c, now, replies, account, reply) => FinishKeeps(d, s, c, now, replies, account, reply);
      }
    }
  }

  // ----- main results

  /** The index stays faithful: at any later time it counts each provider's recent successes in the whole history. */
  lemma IndexStaysFaithful<V(!new), W>(
      d: Deployment, actions: seq<Action<V, W>>, p: SupportedRpcService, now: Timestamp)
    requires Run(d, actions).clock <= now
    ensures
      var s := Run(d, actions);
      |Live(Entries(s.store, p), now)| == RecentSuccesses(s.uses, p, now)
  {
    RunKeepsInvariant(d, actions);
    IndexRefinesHistory(Run(d, actions).uses, p, now);
  }

  /** A provider's successes in the history are the answers of calls that replied: none is lost or recorded twice. */
  lemma SuccessesConserved<V(!new), W>(d: Deployment, actions: seq<Action<V, W>>, p: SupportedRpcService)
    ensures
      var s := Run(d, actions);
      |SuccessesOf(s.uses, p)| == SumOver(s.calls, CreditsFor(d, p))
  {
    RunKeepsInvariant(d, actions);
    assert SuccessesBalance(d, Run(d, actions), p);
  }

  /** The counters of inconsistent responses are those that calls which replied have reported. */
  lemma ReportsConserved<V(!new), W>(d: Deployment, actions: seq<Action<V, W>>, rpcMethod: string, host: string)
    ensures
      var s := Run(d, actions);
      Count(s.inconsistentResponses, (rpcMethod, host)) == SumOver(s.calls, ReportedAt(d, rpcMethod, host))
  {
    RunKeepsInvariant(d, actions);
    assert ReportsBalance(d, Run(d, actions), rpcMethod, host);
  }

  /** And a call that reported results as inconsistent did so once for each provider it reported. */
  lemma ReportsArePerProvider<V(!new), W>(d: Deployment, actions: seq<Action<V, W>>, c: nat, host: string)
    requires c < |Run(d, actions).calls| && Run(d, actions).calls[c].stage.Replied?
    ensures
      var call := Run(d, actions).calls[c];
      var reduced := call.stage.account.reduced;
      ReportedAt(d, call.request.rpcMethod, host)(call)
      == if reduced.Err? && reduced.error.InconsistentResults?
         then |AtHost(HostOf(d.table), reduced.error.results.Providers(), host)| else 0
  {
    RunKeepsInvariant(d, actions);
    var call := Run(d, actions).calls[c];
    assert CallSound(d, Run(d, actions), call);
    var account := call.stage.account;
    if account.reduced.Err? && account.reduced.error.InconsistentResults? {
      ListedOnce(HostOf(d.table), account.entries, account.reduced.error.results, host);
    }
  }

  /** Conservation of the HTTP metrics, with all calls' outcalls interleaved. */
  lemma OutcallMetricsConserved<V(!new), W>(d: Deployment, actions: seq<Action<V, W>>, key: H.MethodHost)
    ensures
      var http := Run(d, actions).http;
      Count(http.metrics.requests, key)
      == Sum(http.metrics.responses, H.OfKey(key)) + Count(http.metrics.errMaxResponseSizeExceeded, key)
         + Sum(http.metrics.errHttpOutcall, H.OfKey(key))
         + H.Tally(http.attempts, H.Ended(key, H.Unobserved())) + H.Tally(http.attempts, H.InFlight(key))
  {
    RunKeepsInvariant(d, actions);
    H.MetricsConserved(Run(d, actions).httpActions, key);
  }

  /** A call makes at most twelve attempts for each provider it queries. */
  lemma AttemptsOfCallBounded<V(!new), W>(d: Deployment, actions: seq<Action<V, W>>, c: nat)
    requires c < |Run(d, actions).calls|
    ensures
      var s := Run(d, actions);
      var call := s.calls[c];
      H.Tally(s.http.attempts, H.OfCalls(call.first, |call.requested|)) <= 12 * |call.providers|
  {
    RunKeepsInvariant(d, actions);
    var s := Run(d, actions);
    assert CallSound(d, s, s.calls[c]);
    OutcallAttemptsBounded(d, s.httpActions, s.calls[c]);
  }

  lemma OutcallAttemptsBounded<V, W>(d: Deployment, actions: seq<H.Action>, call: CandidCall<V, W>)
    requires HasOutcalls(d, call, H.Run(actions))
    ensures H.Tally(H.Run(actions).attempts, H.OfCalls(call.first, |call.requested|)) <= 12 * |call.providers|
  {
    forall k | call.first <= k < call.first + |call.requested| ensures H.Run(actions).calls[k].retry {
      assert IsOutcall(d, call, H.Run(actions), k - call.first);
    }
    H.AttemptsBounded(actions, call.first, |call.requested|);
    ToSetCard(call.requested);
    SubsetCard(Requested(d, call.providers), call.providers);
  }

  /** The outcall of `p` got a response, within the size limit. */
  ghost predicate GotResponse<V, W>(s: State<V, W>, call: CandidCall<V, W>, p: RpcService) {
    exists i :: 0 <= i < |call.requested| && call.requested[i] == p &&
      var last := H.FinalAttempt(s.http, call.first + i);
      && last.Some? && last.value.limit <= H.HTTP_MAX_SIZE
      && last.value.outcome.Some? && last.value.outcome.value.Response?
  }

  lemma OutcallLimit(actions: seq<H.Action>, c: nat, last: H.Attempt)
    requires H.FinalAttempt(H.Run(actions), c) == Some(last) && H.Run(actions).calls[c].retry
    ensures last.limit <= H.HTTP_MAX_SIZE
  {
    H.SettledCallAccount(actions, c, last);
    H.RetriesBounded(actions, c);
  }

  lemma AnsweringWereRequested<V(!new), W>(
      d: Deployment, call: CandidCall<V, W>, replies: RpcService -> RpcResult<V>, account: Account<V>,
      reply: MultiRpcResult<W>, p: RpcService)
    requires Concluded(d, call, replies, account, reply) && p in account.results.oks
    ensures p in Requested(d, call.providers) && replies(p).Ok?
  {
    assert p in account.results.Providers();
    assert account.results.Get(p) == ResultOf(Environment(d.table, d.post, replies), p);
  }

  /** A provider that counts as having answered did so over HTTP. */
  lemma AnswersGotResponses<V(!new), W>(d: Deployment, s: State<V, W>, call: CandidCall<V, W>, p: RpcService)
    requires s.http == H.Run(s.httpActions) && HasOutcalls(d, call, s.http) && call.stage.Replied?
    requires Answered(d, s.http, call, call.stage.replies)
    requires p in Requested(d, call.providers) && call.stage.replies(p).Ok?
    ensures GotResponse(s, call, p)
  {
    assert p in ToSet(call.requested);
    var i :| 0 <= i < |call.requested| && call.requested[i] == p;
    var last := H.FinalAttempt(s.http, call.first + i);
    assert Fits(d, last, call.stage.replies(call.requested[i]));
    assert IsOutcall(d, call, s.http, i);
    OutcallLimit(s.httpActions, call.first + i, last.value);
  }

  /**
   Safety of every reply of every run: whatever other calls did meanwhile, a consistent answer is backed by all the
   providers queried under equality, and by at least `min` of them under a threshold that names at least `min`
   different ones, or none; and each of those got an HTTP response whose size limit was at most 2,000,000 bytes.
   */
  lemma EveryReplyBacked<V(!new), W>(d: Deployment, actions: seq<Action<V, W>>, c: nat, w: W)
    requires c < |Run(d, actions).calls| && Run(d, actions).calls[c].stage.Replied?
    requires Run(d, actions).calls[c].stage.reply == Consistent(Ok(w))
    ensures
      var s := Run(d, actions);
      var call := s.calls[c];
      var results := call.stage.account.results;
      && results.Providers() == call.providers
      && SourceBacked(call.request.source, call.request.strategy, results, call.request.conv, w)
      && forall p :: p in Agreeing(results, call.request.conv, w) ==> GotResponse(s, call, p)
  {
    RunKeepsInvariant(d, actions);
    var s := Run(d, actions);
    var call := s.calls[c];
    assert CallSound(d, s, call);
    var request, account := call.request, call.stage.account;
    var env := Environment(d.table, d.post, call.stage.replies);
    ConductedIsBacked(s.uses[..call.usesBefore], call.at, request.source, request.strategy, call.providers, env,
                      request.conv, account, call.stage.reply);
    forall p | p in Agreeing(account.results, request.conv, w) ensures GotResponse(s, call, p) {
      AnsweringWereRequested(d, call, call.stage.replies, account, call.stage.reply, p);
      AnswersGotResponses(d, s, call, p);
    }
  }

  /**
   Every call, still querying or not, chose its providers by the full history of successes before it: those it lists,
   or as many as it asks for, none with fewer recent successes at that time than one left out. They are on the network
   of the source.
   */
  lemma EveryCallChoseBest<V(!new), W>(d: Deployment, actions: seq<Action<V, W>>, c: nat)
    requires c < |Run(d, actions).calls| && !Run(d, actions).calls[c].stage.Refused?
    ensures
      var s := Run(d, actions);
      var call := s.calls[c];
      var source, strategy := call.request.source, call.request.strategy;
      && call.usesBefore <= |s.uses|
      && OnNetwork(source, call.providers)
      && match UserDefined(source)
         case Some(list) => forall p :: p in call.providers <==> p in list
         case None =>
           MostSuccessful(s.uses[..call.usesBefore], Supported(source), Asked(strategy), call.at, call.providers)
  {
    RunKeepsInvariant(d, actions);
    var s := Run(d, actions);
    var call := s.calls[c];
    assert CallSound(d, s, call);
    ChoiceByHistory(s.uses[..call.usesBefore], call.request.source, call.request.strategy, call.at, call.providers);
  }

  lemma ChoiceByHistory(
      uses: seq<Use>, source: RpcServices, strategy: ConsensusStrategy, now: Timestamp, providers: set<RpcService>)
    requires NewProviders(source, Ranking(uses, Supported(source), now), strategy) == Ok(providers)
    ensures OnNetwork(source, providers)
    ensures
      match UserDefined(source)
      case Some(list) => forall p :: p in providers <==> p in list
      case None => MostSuccessful(uses, Supported(source), Asked(strategy), now, providers)
  {
    ChosenProviders(uses, source, strategy, now, providers);
    SortCorrect(Supported(source), RankKey(uses, now));
    ChoiceIsOffered(source, Ranking(uses, Supported(source), now), strategy, providers);
  }

  /** The final attempt of `p`'s own outcall, to its host with the call's method, led to `r`. */
  ghost predicate OutcallGave<V, W>(
      d: Deployment, s: State<V, W>, call: CandidCall<V, W>, p: RpcService, r: RpcResult<V>)
  {
    exists i :: 0 <= i < |call.requested| && call.requested[i] == p &&
      var last := H.FinalAttempt(s.http, call.first + i);
      && last.Some? && last.value.outcome.Some?
      && last.value.key == H.MethodHost(call.request.rpcMethod, d.host(p))
      && (last.value.outcome.value.Response? ==> r.Ok? || r.error.JsonRpcError?)
      && (!last.value.outcome.value.Response? ==> r == Err(d.errorOf(last.value.outcome.value)))
  }

  /** `r` is what happened to `p`: it did not resolve, its request could not be built, or its outcall gave it. */
  ghost predicate Happened<V, W>(
      d: Deployment, s: State<V, W>, call: CandidCall<V, W>, p: RpcService, r: RpcResult<V>)
  {
    match Resolve(d.table, p)
    case Err(e) => r == Err(RpcError.ProviderError(e))
    case Ok(resolved) =>
      && (d.post(resolved).Some? ==> r == Err(d.post(resolved).value))
      && (d.post(resolved).None? ==> OutcallGave(d, s, call, p, r))
  }

  lemma OutcallKey(actions: seq<H.Action>, c: nat, last: H.Attempt)
    requires H.FinalAttempt(H.Run(actions), c) == Some(last)
    ensures last.outcome.Some? && last.key == H.Run(actions).calls[c].key
  {
    H.SettledCallAccount(actions, c, last);
    assert last in H.Run(actions).attempts;
  }

  lemma RequestedOutcallGave<V, W>(d: Deployment, s: State<V, W>, call: CandidCall<V, W>, p: RpcService)
    requires s.http == H.Run(s.httpActions) && HasOutcalls(d, call, s.http) && call.stage.Replied?
    requires Answered(d, s.http, call, call.stage.replies)
    requires p in Requested(d, call.providers)
    ensures OutcallGave(d, s, call, p, call.stage.replies(p))
  {
    assert p in ToSet(call.requested);
    var i :| 0 <= i < |call.requested| && call.requested[i] == p;
    assert Fits(d, H.FinalAttempt(s.http, call.first + i), call.stage.replies(call.requested[i]));
    assert IsOutcall(d, call, s.http, i);
    OutcallGaveAt(d, s, call, i, call.stage.replies(p));
  }

  lemma OutcallGaveAt<V, W>(d: Deployment, s: State<V, W>, call: CandidCall<V, W>, i: nat, r: RpcResult<V>)
    requires s.http == H.Run(s.httpActions) && i < |call.requested| && IsOutcall(d, call, s.http, i)
    requires Fits(d, H.FinalAttempt(s.http, call.first + i), r)
    ensures OutcallGave(d, s, call, call.requested[i], r)
  {
    OutcallKey(s.httpActions, call.first + i, H.FinalAttempt(s.http, call.first + i).value);
  }

  /**
   Every reply of every run tells what happened: each provider's result is that of its own outcall, or the error that
   kept it from having one; a list names the reported providers once each with their own results, converted; and an
   error is what every provider gave.
   */
  lemma EveryReplyMeans<V(!new), W>(d: Deployment, actions: seq<Action<V, W>>, c: nat)
    requires c < |Run(d, actions).calls| && Run(d, actions).calls[c].stage.Replied?
    ensures
      var s := Run(d, actions);
      var call := s.calls[c];
      var account := call.stage.account;
      && account.results.Providers() == call.providers
      && (forall p :: p in call.providers ==> Happened(d, s, call, p, account.results.Get(p)))
      && Means(call.request.strategy, account.results, account.reduced, call.request.conv, call.stage.reply)
  {
    RunKeepsInvariant(d, actions);
    var s := Run(d, actions);
    var call := s.calls[c];
    assert CallSound(d, s, call);
    var account, env := call.stage.account, Environment(d.table, d.post, call.stage.replies);
    ConductedMeans(call.providers, call.request.strategy, env, call.request.conv, account, call.stage.reply);
    forall p | p in call.providers ensures Happened(d, s, call, p, account.results.Get(p)) {
      assert Becomes(env, p, account.results.Get(p));
      ResultBecomes(env, p);
      if RequestError(d.table, d.post, p).None? {
        RequestedOutcallGave(d, s, call, p);
      }
    }
  }

  /** In every run, each outcall belongs to one call only. */
  lemma OutcallsNeverShared<V(!new), W>(d: Deployment, actions: seq<Action<V, W>>, b: nat, c: nat, i: nat, j: nat)
    requires b < |Run(d, actions).calls| && c < |Run(d, actions).calls|
    requires i < |Run(d, actions).calls[b].requested| && j < |Run(d, actions).calls[c].requested|
    ensures Run(d, actions).calls[b].first + i == Run(d, actions).calls[c].first + j ==> b == c && i == j
  {
    RunKeepsInvariant(d, actions);
    if b < c {
      assert OutcallsApart(Run(d, actions).calls);
    }
  }

  // ----- no call gets stuck

  lemma {:induction false} OrderExists<T>(s: set<T>) returns (order: seq<T>)
    ensures Distinct(order) && ToSet(order) == s
    decreases |s|
  {
    order := [];
    if x :| x in s {
      var rest := OrderExists(s - {x});
      assert x !in ToSet(rest);
      order := rest + [x];
      ToSetSnoc(order);
      assert order[..|order| - 1] == rest;
    }
  }

  lemma ResultsExist<V>(providers: set<RpcService>, resultOf: RpcService -> RpcResult<V>)
      returns (results: ProviderResults<V>)
    ensures results.Valid() && results.Providers() == providers
    ensures forall p :: p in providers ==> results.Get(p) == resultOf(p)
  {
    results := MultiResults(map p | p in providers && resultOf(p).Ok? :: resultOf(p).value,
                            map p | p in providers && resultOf(p).Err? :: resultOf(p).error);
  }

  ghost function IndexOf<T>(s: seq<T>, x: T): (i: nat)
    requires x in s
    ensures i < |s| && s[i] == x
  {
    if s[0] == x then 0 else 1 + IndexOf(s[1..], x)
  }

  /** Replies that fit: `answer` from every provider that got a response. */
  ghost function FittingReplies<V, W>(d: Deployment, http: H.State, call: CandidCall<V, W>, answer: V)
      : RpcService -> RpcResult<V>
  {
    (p: RpcService) =>
      if p !in call.requested then Ok(answer)
      else
        var last := H.FinalAttempt(http, call.first + IndexOf(call.requested, p));
        if last.Some? && last.value.outcome.Some? && !last.value.outcome.value.Response?
        then Err(d.errorOf(last.value.outcome.value)) else Ok(answer)
  }

  ghost predicate OutcallsEnded<V, W>(http: H.State, call: CandidCall<V, W>) {
    forall k :: call.first <= k < call.first + |call.requested| ==> H.FinalAttempt(http, k).Some?
  }

  lemma ReplyFits<V, W>(d: Deployment, actions: seq<H.Action>, call: CandidCall<V, W>, answer: V, i: nat)
    requires Distinct(call.requested) && i < |call.requested|
    requires H.FinalAttempt(H.Run(actions), call.first + i).Some?
    ensures Fits(d, H.FinalAttempt(H.Run(actions), call.first + i),
                 FittingReplies(d, H.Run(actions), call, answer)(call.requested[i]))
  {
    assert IndexOf(call.requested, call.requested[i]) == i;
    H.SettledCallAccount(actions, call.first + i, H.FinalAttempt(H.Run(actions), call.first + i).value);
  }

  lemma RepliesFit<V, W>(d: Deployment, actions: seq<H.Action>, call: CandidCall<V, W>, answer: V)
    requires Distinct(call.requested) && OutcallsEnded(H.Run(actions), call)
    ensures Answered(d, H.Run(actions), call, FittingReplies(d, H.Run(actions), call, answer))
  {
    var http := H.Run(actions);
    var replies := FittingReplies(d, http, call, answer);
    forall i | 0 <= i < |call.requested|
      ensures Fits(d, H.FinalAttempt(http, call.first + i), replies(call.requested[i]))
    {
      ReplyFits(d, actions, call, answer, i);
    }
  }

  lemma AccountExists<V(!new), W>(
      d: Deployment, call: CandidCall<V, W>, replies: RpcService -> RpcResult<V>)
      returns (account: Account<V>, reply: MultiRpcResult<W>)
    ensures Concluded(d, call, replies, account, reply)
  {
    var env := Environment(d.table, d.post, replies);
    var results := ResultsExist(call.providers, p => ResultOf(env, p));
    var reduced, entries, r := ReportExists(call.request.strategy, results, call.request.conv);
    var answered := OrderExists(results.oks.Keys);
    account, reply := Account(results, reduced, entries, answered), r;
  }

  /** Once its outcalls have ended, a querying call can finish at any time. */
  lemma CanFinish<V(!new), W>(d: Deployment, actions: seq<Action<V, W>>, c: nat, now: Timestamp, answer: V)
      returns (finish: Action<V, W>)
    requires c < |Run(d, actions).calls| && Run(d, actions).calls[c].stage.Querying?
    requires OutcallsEnded(Run(d, actions).http, Run(d, actions).calls[c]) && Run(d, actions).clock <= now
    ensures finish.Finish? && finish.call == c && finish.now == now
    ensures Enabled(d, Run(d, actions), finish)
    ensures Run(d, actions + [finish]).calls[c].stage.Replied?
  {
    RunKeepsInvariant(d, actions);
    var s := Run(d, actions);
    var call := s.calls[c];
    assert CallSound(d, s, call);
    RepliesFit(d, s.httpActions, call, answer);
    var replies := FittingReplies(d, s.http, call, answer);
    var account, reply := AccountExists(d, call, replies);
    finish := Finish(c, now, replies, account, reply);
    assert (actions + [finish])[..|actions|] == actions;
  }
}
