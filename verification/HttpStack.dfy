/**
 The HTTP client stack of a provider call, one attempt at a time: retry with a growing size limit, a fresh request
 identifier for each retriable attempt, and the metric bumped when an attempt starts and when it ends (`http_client`).

 Calls interleave freely: a run is any sequence of steps of any calls. The retry policy belongs to another crate;
 assumed of it: a response that is too large is retried with twice the limit, counted from at least 1024 bytes and
 capped at 2,000,000, and only if that is more than before.
 */
module HttpStack {
  import opened Common
  import opened RpcTypes
  import opened Counters

  const HTTP_MAX_SIZE: nat := 2_000_000
  const HEADER_SIZE_LIMIT: nat := 2 * 1024
  const MAX_PAYLOAD_SIZE: nat := HTTP_MAX_SIZE - HEADER_SIZE_LIMIT

  function NextLimit(e: nat): nat { Min(2 * Max(e, 1024), HTTP_MAX_SIZE) }

  predicate Grows(e: nat) { NextLimit(e) > e }

  datatype RejectCode = SysFatal | SysTransient | DestinationInvalid | CanisterReject | CanisterError | SysUnknown

  function ToLegacy(code: RejectCode): LegacyRejectionCode {
    match code
    case SysFatal => LegacyRejectionCode.SysFatal
    case SysTransient => LegacyRejectionCode.SysTransient
    case DestinationInvalid => LegacyRejectionCode.DestinationInvalid
    case CanisterReject => LegacyRejectionCode.CanisterReject
    case CanisterError => LegacyRejectionCode.CanisterError
    case SysUnknown => LegacyRejectionCode.Unknown
  }

  /** How an attempt ends: a response, or one of the client errors. */
  datatype Outcome =
    | Response(status: nat)
    | IcError(code: RejectCode, tooLarge: bool)
    | UnsuccessfulHttpResponse(status: nat)
    | InvalidJsonResponse(status: nat)
    | InvalidJsonResponseId(status: nat)
    | NotHandledError
    | CyclesAccountingError

  predicate IsResponseTooLarge(o: Outcome) { o.IcError? && o.tooLarge }

  datatype MethodHost = MethodHost(rpcMethod: string, host: string)

  datatype Metrics = Metrics(
    requests: map<MethodHost, nat>,
    responses: map<(MethodHost, nat), nat>,
    errMaxResponseSizeExceeded: map<MethodHost, nat>,
    errHttpOutcall: map<(MethodHost, LegacyRejectionCode), nat>)

  const NO_METRICS := Metrics(map[], map[], map[], map[])

  function ObserveRequest(m: Metrics, key: MethodHost): Metrics {
    m.(requests := AddEntry(m.requests, key, 1))
  }

  /** The status of an outcome that carries an HTTP response. */
  function StatusOf(o: Outcome): Option<nat> {
    match o
    case Response(status) => Some(status)
    case UnsuccessfulHttpResponse(status) => Some(status)
    case InvalidJsonResponse(status) => Some(status)
    case InvalidJsonResponseId(status) => Some(status)
    case _ => None
  }

  /** `on_response` and `on_error`. */
  function Observe(m: Metrics, key: MethodHost, o: Outcome): Metrics {
    match StatusOf(o)
    case Some(status) => m.(responses := AddEntry(m.responses, (key, status), 1))
    case None =>
      if !o.IcError? then m
      else if o.tooLarge then m.(errMaxResponseSizeExceeded := AddEntry(m.errMaxResponseSizeExceeded, key, 1))
      else m.(errHttpOutcall := AddEntry(m.errHttpOutcall, (key, ToLegacy(o.code)), 1))
  }

  /** One HTTPS outcall. `ticket` numbers the identifiers handed out since the last upgrade. */
  datatype Attempt = Attempt(
    call: nat, key: MethodHost, ticket: Option<nat>, requestId: u64, limit: nat, outcome: Option<Outcome>)

  /** Between attempts, waiting for attempt number `attempt`, or ended by it. */
  datatype Phase = Ready | Waiting(attempt: nat) | Settled(attempt: nat)

  /** `limit` is that of the attempt under way, of the last one, or of the next one when the call is ready. */
  datatype Call = Call(key: MethodHost, retry: bool, bodyId: u64, start: nat, limit: nat, made: nat, phase: Phase)

  datatype State = State(metrics: Metrics, counter: u64, issued: nat, attempts: seq<Attempt>, calls: seq<Call>)

  const INITIAL := State(NO_METRICS, 0, 0, [], [])

  datatype Action =
    | Begin(key: MethodHost, retry: bool, bodyId: u64, start: nat)
    | Send(call: nat)
    | Settle(call: nat, outcome: Outcome)

  /** A retrying call starts from a size estimate, which is checked to be between 1 and the payload limit. */
  predicate Enabled(s: State, a: Action) {
    match a
    case Begin(_, retry, _, start) => retry ==> 1 <= start <= MAX_PAYLOAD_SIZE
    case Send(c) => c < |s.calls| && s.calls[c].phase.Ready?
    case Settle(c, _) => c < |s.calls| && s.calls[c].phase.Waiting? && s.calls[c].phase.attempt < |s.attempts|
  }

  function Wrap(n: nat): u64 { n % U64_VALUES }

  /** `generate_request_id` on retriable calls, then `on_request`, then the outcall itself. */
  function DoSend(s: State, c: nat): State
    requires Enabled(s, Send(c))
  {
    var call := s.calls[c];
    var attempt := Attempt(c, call.key, if call.retry then Some(s.issued) else None,
                           if call.retry then s.counter else call.bodyId, call.limit, None);
    State(ObserveRequest(s.metrics, call.key),
          if call.retry then Wrap(s.counter + 1) else s.counter,
          if call.retry then s.issued + 1 else s.issued,
          s.attempts + [attempt],
          s.calls[c := call.(phase := Waiting(|s.attempts|), made := call.made + 1)])
  }

  /** `on_response` or `on_error`, then the retry policy. */
  function DoSettle(s: State, c: nat, o: Outcome): State
    requires Enabled(s, Settle(c, o))
  {
    var call := s.calls[c];
    var i := call.phase.attempt;
    var again := call.retry && IsResponseTooLarge(o) && Grows(call.limit);
    s.(metrics := Observe(s.metrics, call.key, o),
       attempts := s.attempts[i := s.attempts[i].(outcome := Some(o))],
       calls := s.calls[c := if again then call.(phase := Ready, limit := NextLimit(call.limit))
                             else call.(phase := Settled(i))])
  }

  /** A step that is not enabled changes nothing. */
  function Step(s: State, a: Action): State {
    if !Enabled(s, a) then s
    else
      match a
      case Begin(key, retry, bodyId, start) => s.(calls := s.calls + [Call(key, retry, bodyId, start, start, 0, Ready)])
      case Send(c) => DoSend(s, c)
      case Settle(c, o) => DoSettle(s, c, o)
  }

  /** The state after a run that starts from an upgrade. */
  function Run(actions: seq<Action>): State {
    if actions == [] then INITIAL else Step(Run(actions[..|actions| - 1]), actions[|actions| - 1])
  }

  // ----- counting attempts

  ghost function Tally(attempts: seq<Attempt>, p: Attempt -> bool): nat {
    if attempts == [] then 0
    else Tally(attempts[..|attempts| - 1], p) + if p(attempts[|attempts| - 1]) then 1 else 0
  }

  lemma TallySnoc(attempts: seq<Attempt>, a: Attempt, p: Attempt -> bool)
    ensures Tally(attempts + [a], p) == Tally(attempts, p) + if p(a) then 1 else 0
  {
    assert (attempts + [a])[..|attempts|] == attempts;
  }

  lemma {:induction false} TallyUpdate(attempts: seq<Attempt>, i: nat, a: Attempt, p: Attempt -> bool)
    requires i < |attempts|
    ensures Tally(attempts[i := a], p) + (if p(attempts[i]) then 1 else 0)
         == Tally(attempts, p) + if p(a) then 1 else 0
  {
    var front, updated := attempts[..|attempts| - 1], attempts[i := a];
    if i == |attempts| - 1 {
      assert updated[..|updated| - 1] == front;
    } else {
      TallyUpdate(front, i, a, p);
      assert updated[..|updated| - 1] == front[i := a];
    }
  }

  ghost function SentTo(key: MethodHost): Attempt -> bool { (a: Attempt) => a.key == key }

  ghost function Ended(key: MethodHost, how: Outcome -> bool): Attempt -> bool {
    (a: Attempt) => a.key == key && a.outcome.Some? && how(a.outcome.value)
  }

  ghost function InFlight(key: MethodHost): Attempt -> bool { (a: Attempt) => a.key == key && a.outcome.None? }

  ghost function WithStatus(status: nat): Outcome -> bool {
    (o: Outcome) =>
      || o == Response(status) || o == UnsuccessfulHttpResponse(status)
      || o == InvalidJsonResponse(status) || o == InvalidJsonResponseId(status)
  }

  ghost function WithAnyStatus(): Outcome -> bool {
    (o: Outcome) => o.Response? || o.UnsuccessfulHttpResponse? || o.InvalidJsonResponse? || o.InvalidJsonResponseId?
  }

  ghost function TooLarge(): Outcome -> bool { (o: Outcome) => IsResponseTooLarge(o) }

  /** Each code has its legacy counterpart, and the unknown one the unknown one. */
  ghost predicate Legacy(code: RejectCode, legacy: LegacyRejectionCode) {
    || (code.SysFatal? && legacy.SysFatal?)
    || (code.SysTransient? && legacy.SysTransient?)
    || (code.DestinationInvalid? && legacy.DestinationInvalid?)
    || (code.CanisterReject? && legacy.CanisterReject?)
    || (code.CanisterError? && legacy.CanisterError?)
    || (code.SysUnknown? && legacy.Unknown?)
  }

  ghost function RejectedWith(code: LegacyRejectionCode): Outcome -> bool {
    (o: Outcome) => o.IcError? && !o.tooLarge && Legacy(o.code, code)
  }

  ghost function Rejected(): Outcome -> bool { (o: Outcome) => o.IcError? && !o.tooLarge }

  /** Ended by an error that no counter observes. */
  ghost function Unobserved(): Outcome -> bool { (o: Outcome) => o.NotHandledError? || o.CyclesAccountingError? }

  ghost function OfKey<T>(key: MethodHost): ((MethodHost, T)) -> bool {
    (entry: (MethodHost, T)) => entry.0 == key
  }

  /** The responses with a status, and the rejections with a code, are the attempts that ended so. */
  ghost predicate StatusCounted(m: Metrics, attempts: seq<Attempt>, key: MethodHost, status: nat) {
    Count(m.responses, (key, status)) == Tally(attempts, Ended(key, WithStatus(status)))
  }

  ghost predicate CodeCounted(m: Metrics, attempts: seq<Attempt>, key: MethodHost, code: LegacyRejectionCode) {
    Count(m.errHttpOutcall, (key, code)) == Tally(attempts, Ended(key, RejectedWith(code)))
  }

  /** Every counter is the number of attempts it is meant to count, and so is every total over statuses and codes. */
  ghost predicate Ledger(m: Metrics, attempts: seq<Attempt>, key: MethodHost) {
    && TotalsCounted(m, attempts, key)
    && (forall status :: StatusCounted(m, attempts, key, status))
    && (forall code :: CodeCounted(m, attempts, key, code))
  }

  ghost predicate TotalsCounted(m: Metrics, attempts: seq<Attempt>, key: MethodHost) {
    && Count(m.requests, key) == Tally(attempts, SentTo(key))
    && Count(m.errMaxResponseSizeExceeded, key) == Tally(attempts, Ended(key, TooLarge()))
    && Sum(m.responses, OfKey(key)) == Tally(attempts, Ended(key, WithAnyStatus()))
    && Sum(m.errHttpOutcall, OfKey(key)) == Tally(attempts, Ended(key, Rejected()))
  }

  lemma SendKeepsLedger(m: Metrics, attempts: seq<Attempt>, a: Attempt, key: MethodHost)
    requires Ledger(m, attempts, key) && a.outcome.None?
    ensures Ledger(ObserveRequest(m, a.key), attempts + [a], key)
  {
    var m', after := ObserveRequest(m, a.key), attempts + [a];
    TallySnoc(attempts, a, SentTo(key));
    TallySnoc(attempts, a, Ended(key, TooLarge()));
    TallySnoc(attempts, a, Ended(key, WithAnyStatus()));
    TallySnoc(attempts, a, Ended(key, Rejected()));
    forall status ensures StatusCounted(m', after, key, status) {
      TallySnoc(attempts, a, Ended(key, WithStatus(status)));
      assert StatusCounted(m, attempts, key, status);
    }
    forall code ensures CodeCounted(m', after, key, code) {
      TallySnoc(attempts, a, Ended(key, RejectedWith(code)));
      assert CodeCounted(m, attempts, key, code);
    }
  }

  /** Ending an in-flight attempt adds one to the tally of a kind of ending exactly if it ends that way. */
  lemma TallyEnded(attempts: seq<Attempt>, i: nat, o: Outcome, key: MethodHost, how: Outcome -> bool)
    requires i < |attempts| && attempts[i].outcome.None?
    ensures Tally(attempts[i := attempts[i].(outcome := Some(o))], Ended(key, how))
         == Tally(attempts, Ended(key, how)) + if attempts[i].key == key && how(o) then 1 else 0
  {
    TallyUpdate(attempts, i, attempts[i].(outcome := Some(o)), Ended(key, how));
  }

  lemma SettleKeepsTotals(m: Metrics, attempts: seq<Attempt>, i: nat, o: Outcome, key: MethodHost)
    requires i < |attempts| && attempts[i].outcome.None? && TotalsCounted(m, attempts, key)
    ensures TotalsCounted(Observe(m, attempts[i].key, o), attempts[i := attempts[i].(outcome := Some(o))], key)
  {
    TallyUpdate(attempts, i, attempts[i].(outcome := Some(o)), SentTo(key));
    TallyEnded(attempts, i, o, key, TooLarge());
    TallyEnded(attempts, i, o, key, WithAnyStatus());
    TallyEnded(attempts, i, o, key, Rejected());
    ObservedSums(m, attempts[i].key, o, key);
    ObservedTotals(m, attempts[i].key, o, key);
  }

  lemma SettleKeepsLedger(m: Metrics, attempts: seq<Attempt>, i: nat, o: Outcome, key: MethodHost)
    requires i < |attempts| && attempts[i].outcome.None? && Ledger(m, attempts, key)
    ensures Ledger(Observe(m, attempts[i].key, o), attempts[i := attempts[i].(outcome := Some(o))], key)
  {
    var at, after := attempts[i].key, attempts[i := attempts[i].(outcome := Some(o))];
    var m' := Observe(m, at, o);
    SettleKeepsTotals(m, attempts, i, o, key);
    forall status ensures StatusCounted(m', after, key, status) {
      assert StatusCounted(m, attempts, key, status);
      TallyEnded(attempts, i, o, key, WithStatus(status));
      ObservedStatus(m, at, o, key, status);
    }
    forall code ensures CodeCounted(m', after, key, code) {
      assert CodeCounted(m, attempts, key, code);
      TallyEnded(attempts, i, o, key, RejectedWith(code));
      ObservedCode(m, at, o, key, code);
    }
  }

  lemma ObservedStatus(m: Metrics, at: MethodHost, o: Outcome, key: MethodHost, status: nat)
    ensures Count(Observe(m, at, o).responses, (key, status))
         == Count(m.responses, (key, status)) + if at == key && WithStatus(status)(o) then 1 else 0
  {
  }

  lemma ObservedCode(m: Metrics, at: MethodHost, o: Outcome, key: MethodHost, code: LegacyRejectionCode)
    ensures Count(Observe(m, at, o).errHttpOutcall, (key, code))
         == Count(m.errHttpOutcall, (key, code)) + if at == key && RejectedWith(code)(o) then 1 else 0
  {
  }

  lemma ObservedTotals(m: Metrics, at: MethodHost, o: Outcome, key: MethodHost)
    ensures Observe(m, at, o).requests == m.requests
    ensures Count(Observe(m, at, o).errMaxResponseSizeExceeded, key)
         == Count(m.errMaxResponseSizeExceeded, key) + if at == key && TooLarge()(o) then 1 else 0
  {
    if StatusOf(o).Some? {
      assert Observe(m, at, o).errMaxResponseSizeExceeded == m.errMaxResponseSizeExceeded;
    }
  }

  lemma ObservedSums(m: Metrics, at: MethodHost, o: Outcome, key: MethodHost)
    ensures
      var m' := Observe(m, at, o);
      && Sum(m'.responses, OfKey(key))
         == Sum(m.responses, OfKey(key)) + (if at == key && WithAnyStatus()(o) then 1 else 0)
      && Sum(m'.errHttpOutcall, OfKey(key))
         == Sum(m.errHttpOutcall, OfKey(key)) + if at == key && Rejected()(o) then 1 else 0
  {
    if StatusOf(o).Some? {
      SumAddEntry(m.responses, OfKey(key), (at, StatusOf(o).value), 1);
    } else if Rejected()(o) {
      SumAddEntry(m.errHttpOutcall, OfKey(key), (at, ToLegacy(o.code)), 1);
    }
  }

  /** Every attempt is in flight or ended in exactly one of the ways distinguished. */
  lemma {:induction false} AttemptsPartition(attempts: seq<Attempt>, key: MethodHost)
    ensures Tally(attempts, SentTo(key))
         == Tally(attempts, Ended(key, WithAnyStatus())) + Tally(attempts, Ended(key, TooLarge()))
            + Tally(attempts, Ended(key, Rejected())) + Tally(attempts, Ended(key, Unobserved()))
            + Tally(attempts, InFlight(key))
  {
    if attempts != [] {
      AttemptsPartition(attempts[..|attempts| - 1], key);
    }
  }

  // ----- what every step keeps

  /** The limit of attempt number `n` of a call that keeps being told its response is too large. */
  function LimitAt(start: nat, n: nat): nat {
    if n == 0 then start else NextLimit(LimitAt(start, n - 1))
  }

  /** Retries up to number `n` were each an increase. */
  ghost predicate GrewUpTo(start: nat, n: nat) {
    forall k :: 0 <= k < n ==> Grows(LimitAt(start, k))
  }

  ghost function OfCall(c: nat): Attempt -> bool { (a: Attempt) => a.call == c }

  ghost function OfCallTooLarge(c: nat): Attempt -> bool {
    (a: Attempt) => a.call == c && a.outcome.Some? && IsResponseTooLarge(a.outcome.value)
  }

  /** The position of `call.limit` in the call's sequence of limits. */
  function Position(call: Call): int { if call.phase.Ready? then call.made else call.made - 1 }

  ghost predicate LimitConsistent(call: Call) {
    && (call.retry ==> 1 <= call.start <= MAX_PAYLOAD_SIZE)
    && Position(call) >= 0
    && call.limit == LimitAt(call.start, Position(call))
    && GrewUpTo(call.start, Position(call))
    && (!call.retry ==> Position(call) == 0)
  }

  ghost predicate CallConsistent(s: State, c: nat)
    requires c < |s.calls|
  {
    var call := s.calls[c];
    && LimitConsistent(call)
    && Tally(s.attempts, OfCall(c)) == call.made
    && match call.phase
       case Ready => Tally(s.attempts, OfCallTooLarge(c)) == call.made
       case Waiting(i) =>
         && i < |s.attempts| && s.attempts[i].call == c && s.attempts[i].outcome == None
         && s.attempts[i].limit == call.limit
         && s.attempts[i].key == call.key
         && Tally(s.attempts, OfCallTooLarge(c)) == call.made - 1
       case Settled(i) =>
         && i < |s.attempts| && s.attempts[i].call == c && s.attempts[i].outcome.Some?
         && s.attempts[i].limit == call.limit
         && (call.retry && IsResponseTooLarge(s.attempts[i].outcome.value) ==> !Grows(call.limit))
         && Tally(s.attempts, OfCallTooLarge(c))
            == if IsResponseTooLarge(s.attempts[i].outcome.value) then call.made else call.made - 1
  }

  /** Identifiers are the tickets modulo 2^64, and tickets are handed out in order. */
  ghost predicate TicketsInOrder(s: State) {
    && s.counter == Wrap(s.issued)
    && (forall i :: 0 <= i < |s.attempts| && s.attempts[i].ticket.Some? ==>
          s.attempts[i].ticket.value < s.issued && s.attempts[i].requestId == Wrap(s.attempts[i].ticket.value))
    && (forall i, j :: 0 <= i < j < |s.attempts| && s.attempts[i].ticket.Some? && s.attempts[j].ticket.Some? ==>
          s.attempts[i].ticket.value < s.attempts[j].ticket.value)
  }

  /** An attempt that was given a fresh identifier. */
  ghost function Ticketed(): Attempt -> bool { (a: Attempt) => a.ticket.Some? }

  /**
   Attempt `i` carries the identifier due: of a retrying call, the number of identifiers handed out before it; else its
   body's own. Its limit is the one due after the earlier attempts of its call.
   */
  ghost predicate AttemptExact(s: State, i: nat)
    requires i < |s.attempts|
  {
    var a := s.attempts[i];
    && a.call < |s.calls|
    && (a.ticket.Some? <==> s.calls[a.call].retry)
    && (a.ticket.Some? ==> a.ticket.value == Tally(s.attempts[..i], Ticketed()))
    && (a.ticket.None? ==> a.requestId == s.calls[a.call].bodyId)
    && a.limit == LimitAt(s.calls[a.call].start, Tally(s.attempts[..i], OfCall(a.call)))
  }

  ghost predicate AttemptsExact(s: State) {
    && s.issued == Tally(s.attempts, Ticketed())
    && forall i :: 0 <= i < |s.attempts| ==> AttemptExact(s, i)
  }

  ghost predicate AttemptsOwned(s: State) {
    forall i :: 0 <= i < |s.attempts| ==>
      s.attempts[i].call < |s.calls| && s.attempts[i].key == s.calls[s.attempts[i].call].key
  }

  ghost predicate Invariant(s: State) {
    && AttemptsOwned(s)
    && (forall c :: 0 <= c < |s.calls| ==> CallConsistent(s, c))
    && (forall key :: Ledger(s.metrics, s.attempts, key))
    && TicketsInOrder(s)
    && AttemptsExact(s)
  }

  lemma {:induction false} TallyNone(attempts: seq<Attempt>, p: Attempt -> bool)
    requires forall a :: a in attempts ==> !p(a)
    ensures Tally(attempts, p) == 0
  {
    if attempts != [] {
      TallyNone(attempts[..|attempts| - 1], p);
    }
  }

  lemma BeginKeeps(s: State, a: Action)
    requires Invariant(s) && a.Begin? && Enabled(s, a)
    ensures Invariant(Step(s, a))
  {
    var s', c := Step(s, a), |s.calls|;
    TallyNone(s.attempts, OfCall(c));
    TallyNone(s.attempts, OfCallTooLarge(c));
    forall d | 0 <= d < |s'.calls| ensures CallConsistent(s', d) {
      if d < c {
        assert CallConsistent(s, d) && s'.calls[d] == s.calls[d];
      }
    }
    forall i | 0 <= i < |s'.attempts| ensures AttemptExact(s', i) {
      assert AttemptExact(s, i);
    }
  }

  lemma SendKeepsExact(s: State, c: nat)
    requires Enabled(s, Send(c)) && AttemptsExact(s) && CallConsistent(s, c)
    ensures AttemptsExact(DoSend(s, c))
  {
    var s' := DoSend(s, c);
    TallySnoc(s.attempts, s'.attempts[|s.attempts|], Ticketed());
    forall i | 0 <= i < |s'.attempts| ensures AttemptExact(s', i) {
      if i < |s.attempts| {
        assert AttemptExact(s, i);
        assert s'.attempts[..i] == s.attempts[..i];
      } else {
        assert s'.attempts[..i] == s.attempts;
      }
    }
  }

  lemma SendKeeps(s: State, c: nat)
    requires Invariant(s) && Enabled(s, Send(c))
    ensures Invariant(DoSend(s, c))
  {
    var s' := DoSend(s, c);
    var a := s'.attempts[|s.attempts|];
    forall key ensures Ledger(s'.metrics, s'.attempts, key) {
      SendKeepsLedger(s.metrics, s.attempts, a, key);
    }
    forall d | 0 <= d < |s'.calls| ensures CallConsistent(s', d) {
      SendKeepsCall(s, c, d);
    }
    SendKeepsExact(s, c);
    SendKeepsTickets(s, c);
  }

  lemma SendKeepsTickets(s: State, c: nat)
    requires Enabled(s, Send(c)) && TicketsInOrder(s) && AttemptsOwned(s)
    ensures TicketsInOrder(DoSend(s, c)) && AttemptsOwned(DoSend(s, c))
  {
    WrapNext(s.issued);
  }

  lemma WrapNext(n: nat)
    ensures Wrap(Wrap(n) + 1) == Wrap(n + 1)
  {
  }

  lemma SendKeepsCall(s: State, c: nat, d: nat)
    requires Enabled(s, Send(c)) && d < |s.calls| && CallConsistent(s, d)
    ensures CallConsistent(DoSend(s, c), d)
  {
    var a := DoSend(s, c).attempts[|s.attempts|];
    TallySnoc(s.attempts, a, OfCall(d));
    TallySnoc(s.attempts, a, OfCallTooLarge(d));
  }

  lemma SettleKeepsTickets(s: State, c: nat, o: Outcome)
    requires Enabled(s, Settle(c, o)) && TicketsInOrder(s) && AttemptsOwned(s)
    ensures TicketsInOrder(DoSettle(s, c, o)) && AttemptsOwned(DoSettle(s, c, o))
  {
    var s' := DoSettle(s, c, o);
    assert forall i :: 0 <= i < |s.attempts| ==> s'.attempts[i] == s.attempts[i].(outcome := s'.attempts[i].outcome);
    assert forall d :: 0 <= d < |s.calls| ==> s'.calls[d].key == s.calls[d].key;
  }

  /** How an attempt ends changes no tally of what does not depend on it. */
  lemma TallyIgnoresOutcome(attempts: seq<Attempt>, i: nat, o: Outcome, n: nat, p: Attempt -> bool)
    requires i < |attempts| && n <= |attempts|
    requires p(attempts[i].(outcome := Some(o))) == p(attempts[i])
    ensures Tally(attempts[i := attempts[i].(outcome := Some(o))][..n], p) == Tally(attempts[..n], p)
  {
    var a := attempts[i].(outcome := Some(o));
    if i < n {
      assert attempts[i := a][..n] == attempts[..n][i := a];
      TallyUpdate(attempts[..n], i, a, p);
    } else {
      assert attempts[i := a][..n] == attempts[..n];
    }
  }

  lemma SettleKeepsExact(s: State, c: nat, o: Outcome)
    requires Enabled(s, Settle(c, o)) && AttemptsExact(s)
    ensures AttemptsExact(DoSettle(s, c, o))
  {
    var s', k := DoSettle(s, c, o), s.calls[c].phase.attempt;
    TallyIgnoresOutcome(s.attempts, k, o, |s.attempts|, Ticketed());
    assert s'.attempts[..|s.attempts|] == s'.attempts && s.attempts[..|s.attempts|] == s.attempts;
    forall i | 0 <= i < |s'.attempts| ensures AttemptExact(s', i) {
      SettleKeepsAttempt(s, c, o, i);
    }
  }

  lemma SettleKeepsAttempt(s: State, c: nat, o: Outcome, i: nat)
    requires Enabled(s, Settle(c, o)) && i < |s.attempts| && AttemptExact(s, i)
    ensures AttemptExact(DoSettle(s, c, o), i)
  {
    var k, call := s.calls[c].phase.attempt, s.attempts[i].call;
    TallyIgnoresOutcome(s.attempts, k, o, i, Ticketed());
    TallyIgnoresOutcome(s.attempts, k, o, i, OfCall(call));
    var s' := DoSettle(s, c, o);
    assert s'.attempts[i] == s.attempts[i].(outcome := s'.attempts[i].outcome);
    assert SameCall(s.calls[call], s'.calls[call]) && s'.calls[call].bodyId == s.calls[call].bodyId;
  }

  lemma SettleKeeps(s: State, c: nat, o: Outcome)
    requires Invariant(s) && Enabled(s, Settle(c, o))
    ensures Invariant(DoSettle(s, c, o))
  {
    var s', i := DoSettle(s, c, o), s.calls[c].phase.attempt;
    assert CallConsistent(s, c);
    SettleKeepsTickets(s, c, o);
    SettleKeepsExact(s, c, o);
    forall key ensures Ledger(s'.metrics, s'.attempts, key) {
      SettleKeepsLedger(s.metrics, s.attempts, i, o, key);
    }
    forall d | 0 <= d < |s'.calls| ensures CallConsistent(s', d) {
      if d == c {
        SettleKeepsOwn(s, c, o);
      } else {
        SettleKeepsOther(s, c, o, d);
      }
    }
  }

  lemma SettleKeepsOther(s: State, c: nat, o: Outcome, d: nat)
    requires Enabled(s, Settle(c, o)) && d < |s.calls| && d != c
    requires CallConsistent(s, c) && CallConsistent(s, d)
    ensures CallConsistent(DoSettle(s, c, o), d)
  {
    var i := s.calls[c].phase.attempt;
    var a := s.attempts[i].(outcome := Some(o));
    TallyUpdate(s.attempts, i, a, OfCall(d));
    TallyUpdate(s.attempts, i, a, OfCallTooLarge(d));
    assert DoSettle(s, c, o).calls[d] == s.calls[d];
  }

  lemma RetryKeepsLimit(call: Call)
    requires LimitConsistent(call) && call.phase.Waiting? && call.retry && Grows(call.limit)
    ensures LimitConsistent(call.(phase := Ready, limit := NextLimit(call.limit)))
  {
    var again := call.(phase := Ready, limit := NextLimit(call.limit));
    assert Position(again) == Position(call) + 1;
  }

  lemma SettleKeepsOwn(s: State, c: nat, o: Outcome)
    requires Enabled(s, Settle(c, o)) && CallConsistent(s, c)
    ensures CallConsistent(DoSettle(s, c, o), c)
  {
    var i := s.calls[c].phase.attempt;
    var a := s.attempts[i].(outcome := Some(o));
    TallyUpdate(s.attempts, i, a, OfCall(c));
    TallyUpdate(s.attempts, i, a, OfCallTooLarge(c));
    var call := s.calls[c];
    if call.retry && IsResponseTooLarge(o) && Grows(call.limit) {
      RetryKeepsLimit(call);
    } else {
      assert Position(call.(phase := Settled(i))) == Position(call);
    }
  }

  /** Whatever the calls, their outcomes and their interleaving, the invariant holds. */
  lemma {:induction false} RunKeepsInvariant(actions: seq<Action>)
    ensures Invariant(Run(actions))
  {
    if actions != [] {
      var s, a := Run(actions[..|actions| - 1]), actions[|actions| - 1];
      RunKeepsInvariant(actions[..|actions| - 1]);
      if Enabled(s, a) {
        match a
        case Begin(_, _, _, _) => BeginKeeps(s, a);
        case Send(c) => SendKeeps(s, c);
        case Settle(c, o) => SettleKeeps(s, c, o);
      }
    } else {
      forall key ensures Ledger(NO_METRICS, [], key) {
        assert Sum(NO_METRICS.responses, OfKey(key)) == 0;
      }
    }
  }

  // ----- main results

  /** Each counter is exact: it is the number of attempts of the run that it is meant to count. */
  lemma CountersExact(actions: seq<Action>, key: MethodHost)
    ensures Ledger(Run(actions).metrics, Run(actions).attempts, key)
  {
    RunKeepsInvariant(actions);
  }

  /**
   Conservation: for each method and host, the requests are the responses over all statuses, the oversized
   responses, the rejections over all codes, the attempts ended by an unobserved error and those still in flight.
   */
  lemma MetricsConserved(actions: seq<Action>, key: MethodHost)
    ensures
      var s := Run(actions);
      Count(s.metrics.requests, key)
      == Sum(s.metrics.responses, OfKey(key)) + Count(s.metrics.errMaxResponseSizeExceeded, key)
         + Sum(s.metrics.errHttpOutcall, OfKey(key))
         + Tally(s.attempts, Ended(key, Unobserved())) + Tally(s.attempts, InFlight(key))
  {
    CountersExact(actions, key);
    AttemptsPartition(Run(actions).attempts, key);
  }

  function Pow2(n: nat): nat { if n == 0 then 1 else 2 * Pow2(n - 1) }

  /** The limits at least double from 1024 until they reach the cap, which they never exceed. */
  lemma {:induction false} LimitBounds(start: nat, n: nat)
    requires n >= 1
    ensures Min(1024 * Pow2(n), HTTP_MAX_SIZE) <= LimitAt(start, n) <= HTTP_MAX_SIZE
  {
    if n > 1 {
      LimitBounds(start, n - 1);
    } else {
      assert Pow2(1) == 2 * Pow2(0);
    }
  }

  /** `m` doubled `n` times. */
  function Doubled(m: nat, n: nat): nat { if n == 0 then m else 2 * Doubled(m, n - 1) }

  lemma {:induction false} DoubledAtLeast(m: nat, n: nat)
    ensures Doubled(m, n) >= m
  {
    if n > 0 {
      DoubledAtLeast(m, n - 1);
    }
  }

  lemma {:induction false} DoubledIsPow2(n: nat)
    ensures Doubled(1024, n) == 1024 * Pow2(n)
  {
    if n > 0 {
      DoubledIsPow2(n - 1);
    }
  }

  /** Every limit after the first, exactly: the start, or 1024 if that is more, doubled each time up to the cap. */
  lemma {:induction false} LimitExactly(start: nat, n: nat)
    requires n >= 1
    ensures LimitAt(start, n) == Min(Doubled(Max(start, 1024), n), 2_000_000)
  {
    if n > 1 {
      LimitExactly(start, n - 1);
      DoubledAtLeast(Max(start, 1024), n - 1);
    } else {
      assert Doubled(Max(start, 1024), 0) == Max(start, 1024);
    }
  }

  /** From an estimate of at most 1024 bytes the limits are 1024 times the powers of two, up to the cap. */
  lemma LimitFromSmall(start: nat, n: nat)
    requires start <= 1024 && n >= 1
    ensures LimitAt(start, n) == Min(1024 * Pow2(n), HTTP_MAX_SIZE)
  {
    LimitExactly(start, n);
    DoubledIsPow2(n);
  }

  lemma {:induction false} Pow2Monotone(k: nat, n: nat)
    requires k <= n
    ensures 1 <= Pow2(k) <= Pow2(n)
  {
    if k < n {
      Pow2Monotone(k, n - 1);
    } else if n > 0 {
      Pow2Monotone(k - 1, n - 1);
    }
  }

  lemma Pow2Ten()
    ensures Pow2(10) == 1024 && Pow2(11) == 2048
  {
    assert Pow2(3) == 8 && Pow2(6) == 8 * Pow2(3) && Pow2(9) == 8 * Pow2(6);
  }

  lemma EleventhAtCap(start: nat)
    ensures LimitAt(start, 11) == HTTP_MAX_SIZE && !Grows(LimitAt(start, 11))
  {
    LimitBounds(start, 11);
    Pow2Ten();
  }

  /** No more than eleven increases are possible, from any start; from a small one, all eleven happen. */
  lemma AtMostElevenIncreases(start: nat, n: nat)
    ensures GrewUpTo(start, n) ==> n <= 11
    ensures start <= 1024 ==> GrewUpTo(start, 11)
  {
    EleventhAtCap(start);
    if start <= 1024 {
      forall k | 0 <= k < 11 ensures Grows(LimitAt(start, k)) {
        if k > 0 {
          LimitFromSmall(start, k);
          Pow2Monotone(k, 10);
          Pow2Ten();
        }
      }
    }
  }

  /** In any run a retrying call makes at most twelve attempts, with strictly increasing limits within 2,000,000. */
  lemma RetriesBounded(actions: seq<Action>, c: nat)
    requires c < |Run(actions).calls| && Run(actions).calls[c].retry
    ensures
      var s := Run(actions);
      var call := s.calls[c];
      && Position(call) >= 0
      && Tally(s.attempts, OfCall(c)) == call.made <= 12
      && 1 <= call.limit <= 2_000_000
      && 1 <= call.start <= 1_997_952
      && call.limit == LimitAt(call.start, Position(call))
      && (forall i, j :: 0 <= i < j <= Position(call) ==> LimitAt(call.start, i) < LimitAt(call.start, j))
  {
    RunKeepsInvariant(actions);
    var call := Run(actions).calls[c];
    assert CallConsistent(Run(actions), c);
    AtMostElevenIncreases(call.start, Position(call));
    if Position(call) >= 1 {
      LimitBounds(call.start, Position(call));
      Pow2Monotone(0, Position(call));
    }
    forall i, j | 0 <= i < j <= Position(call) ensures LimitAt(call.start, i) < LimitAt(call.start, j) {
      GrowthIsStrict(call.start, i, j, Position(call));
    }
  }

  lemma {:induction false} GrowthIsStrict(start: nat, i: nat, j: nat, n: nat)
    requires i < j <= n && GrewUpTo(start, n)
    ensures LimitAt(start, i) < LimitAt(start, j)
  {
    assert Grows(LimitAt(start, j - 1));
    if i < j - 1 {
      GrowthIsStrict(start, i, j - 1, n);
    }
  }

  /**
   A settled call of k attempts was told k or k - 1 times that its response is too large: every attempt but the last
   was, and the last one only if a retry could not ask for more.
   */
  lemma SettledCallAccount(actions: seq<Action>, c: nat, last: Attempt)
    requires FinalAttempt(Run(actions), c) == Some(last)
    ensures
      var s := Run(actions);
      var call := s.calls[c];
      && last.call == c && last.outcome.Some? && last.limit == call.limit
      && (forall a :: a in s.attempts && a.call == c ==> a.key == call.key)
      && Tally(s.attempts, OfCall(c)) == call.made >= 1
      && Tally(s.attempts, OfCallTooLarge(c))
         == (if IsResponseTooLarge(last.outcome.value) then call.made else call.made - 1)
      && (call.retry && IsResponseTooLarge(last.outcome.value) ==> last.limit >= 2_000_000)
  {
    RunKeepsInvariant(actions);
    assert CallConsistent(Run(actions), c);
  }

  /** The attempt that ended a settled call. */
  ghost function FinalAttempt(s: State, c: nat): Option<Attempt> {
    if c < |s.calls| && s.calls[c].phase.Settled? && s.calls[c].phase.attempt < |s.attempts|
    then Some(s.attempts[s.calls[c].phase.attempt]) else None
  }

  /** The provider answers call `c` with responses of one size: too large exactly when over the attempt's limit. */
  ghost predicate FixedSize(s: State, c: nat, size: nat) {
    forall i :: 0 <= i < |s.attempts| && s.attempts[i].call == c && s.attempts[i].outcome.Some? ==>
      (IsResponseTooLarge(s.attempts[i].outcome.value) <==> size > s.attempts[i].limit)
  }

  /** Against responses of one size, a retrying call fails for size exactly when they exceed 2,000,000 bytes. */
  lemma FixedSizeIff(actions: seq<Action>, c: nat, size: nat, last: Attempt)
    requires FinalAttempt(Run(actions), c) == Some(last) && Run(actions).calls[c].retry
    requires FixedSize(Run(actions), c, size)
    ensures last.outcome.Some? && (IsResponseTooLarge(last.outcome.value) <==> size > 2_000_000)
  {
    SettledCallAccount(actions, c, last);
    RetriesBounded(actions, c);
  }

  /** A limit can grow exactly while it is below the cap. */
  lemma GrowsIff(e: nat)
    ensures Grows(e) <==> e < 2_000_000
  {
  }

  /** A call that may retry is begun exactly from an estimate of 1 to 1,997,952 bytes. */
  lemma StartAcceptedIff(s: State, key: MethodHost, bodyId: u64, start: nat)
    ensures Enabled(s, Begin(key, true, bodyId, start)) <==> 1 <= start <= 1_997_952
    ensures Enabled(s, Begin(key, false, bodyId, start))
  {
  }

  /**
   What ending an attempt does: the outcome goes to that attempt and no other, and the call tries again exactly when it
   may retry, was told that its response is too large, and has not reached the cap.
   */
  lemma SettleExactly(s: State, c: nat, o: Outcome)
    requires Enabled(s, Settle(c, o))
    ensures
      var s', i := Step(s, Settle(c, o)), s.calls[c].phase.attempt;
      && s'.attempts == s.attempts[i := s.attempts[i].(outcome := Some(o))]
      && (s'.calls[c].phase.Ready?
          <==> s.calls[c].retry && o.IcError? && o.tooLarge && s.calls[c].limit < 2_000_000)
      && (!s'.calls[c].phase.Ready? ==> s'.calls[c].phase == Settled(i))
  {
    GrowsIff(s.calls[c].limit);
  }

  /**
   Every attempt of every run, exactly. One of a retrying call carries as identifier the number of identifiers handed
   out before it since the upgrade, modulo 2^64; any other its body's own. The first attempt of a call has the call's
   start as limit, and each later one twice as much, counted from at least 1024 bytes and capped at 2,000,000.
   */
  lemma AttemptExactly(actions: seq<Action>, i: nat)
    requires i < |Run(actions).attempts|
    ensures
      var s := Run(actions);
      var a := s.attempts[i];
      && a.call < |s.calls| && a.key == s.calls[a.call].key
      && (a.ticket.Some? <==> s.calls[a.call].retry)
      && a.requestId == (if s.calls[a.call].retry then Tally(s.attempts[..i], Ticketed()) % 0x1_0000_0000_0000_0000
                         else s.calls[a.call].bodyId)
      && var n := Tally(s.attempts[..i], OfCall(a.call));
         a.limit == if n == 0 then s.calls[a.call].start
                    else Min(Doubled(Max(s.calls[a.call].start, 1024), n), 2_000_000)
  {
    RunKeepsInvariant(actions);
    var s := Run(actions);
    assert AttemptExact(s, i);
    var n := Tally(s.attempts[..i], OfCall(s.attempts[i].call));
    if n > 0 {
      LimitExactly(s.calls[s.attempts[i].call].start, n);
    }
  }

  /**
   Two retriable attempts, of whatever calls, carry the same identifier exactly when the number of identifiers handed
   out from the first up to the second is a multiple of 2^64; in particular not within 2^64 consecutive ones.
   */
  lemma RequestIdsCollideIff(actions: seq<Action>, i: nat, j: nat)
    requires i < j < |Run(actions).attempts|
    requires Run(actions).attempts[i].ticket.Some? && Run(actions).attempts[j].ticket.Some?
    ensures
      var attempts := Run(actions).attempts;
      var distance := Tally(attempts[..j], Ticketed()) - Tally(attempts[..i], Ticketed());
      && distance > 0
      && (attempts[i].requestId == attempts[j].requestId <==> distance % 0x1_0000_0000_0000_0000 == 0)
      && (distance < 0x1_0000_0000_0000_0000 ==> attempts[i].requestId != attempts[j].requestId)
  {
    TicketExactly(actions, i);
    TicketExactly(actions, j);
    LaterTicket(actions, i, j);
    SameResidueIff(Run(actions).attempts[i].ticket.value, Run(actions).attempts[j].ticket.value);
  }

  lemma TicketExactly(actions: seq<Action>, i: nat)
    requires i < |Run(actions).attempts| && Run(actions).attempts[i].ticket.Some?
    ensures
      var a := Run(actions).attempts[i];
      a.ticket.value == Tally(Run(actions).attempts[..i], Ticketed()) && a.requestId == Wrap(a.ticket.value)
  {
    RunKeepsInvariant(actions);
    assert AttemptExact(Run(actions), i);
  }

  lemma LaterTicket(actions: seq<Action>, i: nat, j: nat)
    requires i < j < |Run(actions).attempts|
    requires Run(actions).attempts[i].ticket.Some? && Run(actions).attempts[j].ticket.Some?
    ensures Run(actions).attempts[i].ticket.value < Run(actions).attempts[j].ticket.value
  {
    RunKeepsInvariant(actions);
  }

  lemma SameResidueIff(a: nat, b: nat)
    requires a < b
    ensures Wrap(a) == Wrap(b) <==> (b - a) % U64_VALUES == 0
  {
    var q, r := a / U64_VALUES, a % U64_VALUES;
    var q', r' := b / U64_VALUES, b % U64_VALUES;
    assert b - a == (q' - q) * U64_VALUES + (r' - r);
  }

  // ----- what later steps keep of a call

  predicate SameCall(a: Call, b: Call) { a.key == b.key && a.retry == b.retry && a.start == b.start }

  /** Calls keep their description, and a settled one its final attempt. */
  ghost predicate Extends(s: State, s': State) {
    && |s.calls| <= |s'.calls|
    && (forall c :: 0 <= c < |s.calls| ==> SameCall(s.calls[c], s'.calls[c]))
    && (forall c :: 0 <= c < |s.calls| && FinalAttempt(s, c).Some? ==> FinalAttempt(s', c) == FinalAttempt(s, c))
  }

  lemma StepExtends(s: State, a: Action)
    requires Invariant(s)
    ensures Extends(s, Step(s, a))
  {
    if Enabled(s, a) && a.Settle? {
      assert CallConsistent(s, a.call);
      forall c | 0 <= c < |s.calls| && FinalAttempt(s, c).Some?
        ensures FinalAttempt(Step(s, a), c) == FinalAttempt(s, c)
      {
        assert CallConsistent(s, c);
      }
    }
  }

  /** The state after more steps. */
  function RunFrom(s: State, actions: seq<Action>): State {
    if actions == [] then s else Step(RunFrom(s, actions[..|actions| - 1]), actions[|actions| - 1])
  }

  lemma {:induction false} RunInParts(before: seq<Action>, after: seq<Action>)
    ensures Run(before + after) == RunFrom(Run(before), after)
  {
    if after == [] {
      assert before + after == before;
    } else {
      var front, last := after[..|after| - 1], after[|after| - 1];
      RunInParts(before, front);
      assert (before + after)[..|before + after| - 1] == before + front;
    }
  }

  lemma OneMoreExtends(actions: seq<Action>, a: Action)
    ensures Extends(Run(actions), Run(actions + [a]))
  {
    RunKeepsInvariant(actions);
    StepExtends(Run(actions), a);
    assert (actions + [a])[..|actions|] == actions;
  }

  lemma ExtendsTransitive(s: State, t: State, u: State)
    requires Extends(s, t) && Extends(t, u)
    ensures Extends(s, u)
  {
  }

  lemma {:induction false} RunExtends(before: seq<Action>, after: seq<Action>)
    ensures Extends(Run(before), Run(before + after))
  {
    if after == [] {
      assert before + after == before;
    } else {
      var front, last := after[..|after| - 1], after[|after| - 1];
      RunExtends(before, front);
      OneMoreExtends(before + front, last);
      assert before + after == before + front + [last];
      ExtendsTransitive(Run(before), Run(before + front), Run(before + after));
    }
  }

  /** Beginning several calls appends them in order. */
  lemma {:induction false} BeginsAppend(s: State, begins: seq<Action>)
    requires forall i :: 0 <= i < |begins| ==> begins[i].Begin? && Enabled(s, begins[i])
    ensures |RunFrom(s, begins).calls| == |s.calls| + |begins|
    ensures forall i :: 0 <= i < |begins| ==>
      var a := begins[i];
      RunFrom(s, begins).calls[|s.calls| + i] == Call(a.key, a.retry, a.bodyId, a.start, a.start, 0, Ready)
  {
    if begins != [] {
      BeginsAppend(s, begins[..|begins| - 1]);
    }
  }

  /** An attempt of one of the `n` calls from `first` on. */
  ghost function OfCalls(first: nat, n: nat): Attempt -> bool { (a: Attempt) => first <= a.call < first + n }

  lemma {:induction false} TallySplit(attempts: seq<Attempt>, first: nat, n: nat)
    ensures Tally(attempts, OfCalls(first, n + 1))
         == Tally(attempts, OfCalls(first, n)) + Tally(attempts, OfCall(first + n))
  {
    if attempts != [] {
      TallySplit(attempts[..|attempts| - 1], first, n);
    }
  }

  /** Together, `n` retrying calls make at most 12 n attempts. */
  lemma {:induction false} AttemptsBounded(actions: seq<Action>, first: nat, n: nat)
    requires first + n <= |Run(actions).calls|
    requires forall c :: first <= c < first + n ==> Run(actions).calls[c].retry
    ensures Tally(Run(actions).attempts, OfCalls(first, n)) <= 12 * n
  {
    if n == 0 {
      TallyNone(Run(actions).attempts, OfCalls(first, 0));
    } else {
      AttemptsBounded(actions, first, n - 1);
      TallySplit(Run(actions).attempts, first, n - 1);
      RetriesBounded(actions, first + n - 1);
    }
  }

  // ----- the canister's own form

  /** The metrics and the identifier counter, updated in place as calls proceed. */
  class HttpClient {
    var metrics: Metrics
    var counter: u64
    var attempts: seq<Attempt>
    var calls: seq<Call>
    var issued: nat

    ghost function Now(): State
      reads this
    {
      State(metrics, counter, issued, attempts, calls)
    }

    constructor ()
      ensures Now() == INITIAL
    {
      metrics, counter, attempts, calls, issued := NO_METRICS, 0, [], [], 0;
    }

    /** `next_request_id`. */
    method NextRequestId() returns (id: u64)
      modifies this`counter
      ensures id == old(counter) && counter == Wrap(old(counter) + 1)
    {
      id := counter;
      counter := if counter == U64_VALUES - 1 then 0 else counter + 1;
    }

    method BeginCall(key: MethodHost, retry: bool, bodyId: u64, start: nat)
      requires retry ==> 1 <= start <= MAX_PAYLOAD_SIZE
      modifies this
      ensures Now() == Step(old(Now()), Begin(key, retry, bodyId, start))
    {
      calls := calls + [Call(key, retry, bodyId, start, start, 0, Ready)];
    }

    method SendAttempt(c: nat)
      requires Enabled(Now(), Send(c))
      modifies this
      ensures Now() == Step(old(Now()), Send(c))
    {
      var call := calls[c];
      var id := call.bodyId;
      var ticket := None;
      if call.retry {
        id := NextRequestId();
        ticket := Some(issued);
        issued := issued + 1;
      }
      metrics := metrics.(requests := AddEntry(metrics.requests, call.key, 1));
      calls := calls[c := call.(phase := Waiting(|attempts|), made := call.made + 1)];
      attempts := attempts + [Attempt(c, call.key, ticket, id, call.limit, None)];
    }

    method SettleAttempt(c: nat, o: Outcome)
      requires Enabled(Now(), Settle(c, o))
      modifies this
      ensures Now() == Step(old(Now()), Settle(c, o))
    {
      var call := calls[c];
      var i := call.phase.attempt;
      match o {
        case IcError(code, tooLarge) =>
          if tooLarge {
            metrics := metrics.(
              errMaxResponseSizeExceeded := AddEntry(metrics.errMaxResponseSizeExceeded, call.key, 1));
          } else {
            metrics := metrics.(errHttpOutcall := AddEntry(metrics.errHttpOutcall, (call.key, ToLegacy(code)), 1));
          }
        case NotHandledError =>
        case CyclesAccountingError =>
        case _ =>
          metrics := metrics.(responses := AddEntry(metrics.responses, (call.key, o.status), 1));
      }
      attempts := attempts[i := attempts[i].(outcome := Some(o))];
      if call.retry && IsResponseTooLarge(o) && NextLimit(call.limit) > call.limit {
        calls := calls[c := call.(phase := Ready, limit := NextLimit(call.limit))];
      } else {
        calls := calls[c := call.(phase := Settled(i))];
      }
    }
  }
}
