/**
 From the providers' answers to the canister's reply: reduction, `process_result`, and the conversion every Candid
 endpoint maps over it. The conversion can turn inconsistent results into a consistent one, so the quorum has to be
 argued across all three.
 */
module Quorum {
  import opened Common
  import opened RpcTypes
  import opened MultiRpcResults
  import opened Reduction
  import opened Selection
  import opened ServiceUsage

  type ProviderResults<V> = MultiResults<RpcService, V>

  /** `entries` lists the results of the providers `keys`, once each, in some order. */
  ghost predicate ListsSome<V>(entries: seq<Entry<V>>, results: ProviderResults<V>, keys: set<RpcService>) {
    && keys <= results.Providers()
    && (forall i, j :: 0 <= i < j < |entries| ==> entries[i].0 != entries[j].0)
    && (forall i :: 0 <= i < |entries| ==> entries[i].0 in keys && entries[i].1 == results.Get(entries[i].0))
    && (forall p :: p in keys ==> exists i :: 0 <= i < |entries| && entries[i].0 == p)
  }

  ghost predicate Lists<V>(entries: seq<Entry<V>>, results: ProviderResults<V>) {
    ListsSome(entries, results, results.Providers())
  }

  lemma ListOneMore<V>(entries: seq<Entry<V>>, results: ProviderResults<V>, keys: set<RpcService>, p: RpcService)
    requires ListsSome(entries, results, keys) && p in results.Providers() && p !in keys
    ensures ListsSome(entries + [(p, results.Get(p))], results, keys + {p})
  {
    var more := entries + [(p, results.Get(p))];
    forall q | q in keys + {p} ensures exists i :: 0 <= i < |more| && more[i].0 == q {
      if q == p {
        assert more[|entries|].0 == q;
      } else {
        var i :| 0 <= i < |entries| && entries[i].0 == q;
        assert more[i].0 == q;
      }
    }
  }

  /** `process_result`: `entries` is the list the inconsistent results become. */
  function Processed<V>(reduced: ReducedResult<RpcService, V>, entries: seq<Entry<V>>): MultiRpcResult<V> {
    match reduced
    case Ok(v) => Consistent(Ok(v))
    case Err(ConsistentError(e)) => Consistent(Err(e))
    case Err(InconsistentResults(_)) => Inconsistent(entries)
  }

  /** `reply` is what an endpoint makes of `reduced`: a listing of the results it reports, then the conversion. */
  ghost predicate Reports<V, W>(
      reduced: ReducedResult<RpcService, V>, entries: seq<Entry<V>>, conv: V -> W, reply: MultiRpcResult<W>)
  {
    && (reduced.Err? && reduced.error.InconsistentResults? ==> Lists(entries, reduced.error.results))
    && reply == Map(Processed(reduced, entries), conv)
  }

  /** One reply of an endpoint: some outcome of the reduction, reported. */
  ghost predicate Replies<V(!new), W>(
      strategy: ConsensusStrategy, results: ProviderResults<V>, conv: V -> W, reply: MultiRpcResult<W>)
  {
    exists reduced, entries :: Reduces(strategy, results, reduced) && Reports(reduced, entries, conv, reply)
  }

  /** The providers whose answer converts to `w`. */
  ghost function Agreeing<V, W>(results: ProviderResults<V>, conv: V -> W, w: W): set<RpcService> {
    set p | p in results.oks && conv(results.oks[p]) == w
  }

  lemma {:induction false} ListingExists<V>(results: ProviderResults<V>, keys: set<RpcService>)
      returns (entries: seq<Entry<V>>)
    requires keys <= results.Providers()
    ensures ListsSome(entries, results, keys)
    decreases |keys|
  {
    entries := [];
    if keys != {} {
      var p :| p in keys;
      var rest := ListingExists(results, keys - {p});
      ListOneMore(rest, results, keys - {p}, p);
      assert keys - {p} + {p} == keys;
      entries := rest + [(p, results.Get(p))];
    }
  }

  /** All providers' results convert to `r`. */
  ghost predicate AllConvertTo<V, W>(results: ProviderResults<V>, conv: V -> W, r: RpcResult<W>) {
    forall p :: p in results.Providers() ==> MapOk(results.Get(p), conv) == r
  }

  lemma RepresentedConvert<V, W>(rs: ProviderResults<V>, results: ProviderResults<V>, conv: V -> W, r: RpcResult<W>)
    requires Represents(rs, results)
    ensures AllConvertTo(rs, conv, r) <==> AllConvertTo(results, conv, r)
    ensures rs.Providers() == {} <==> results.Providers() == {}
  {
    if AllConvertTo(rs, conv, r) {
      forall p | p in results.Providers() ensures MapOk(results.Get(p), conv) == r {
        assert results.Get(p) in rs.Given();
        var q :| q in rs.Providers() && rs.Get(q) == results.Get(p);
      }
    }
    if p :| p in results.Providers() {
      assert results.Get(p) in rs.Given();
    }
  }

  /** When reported results collapse: there are some, and all providers map to the same result. */
  lemma ReportedCollapseIff<V, W>(
      results: ProviderResults<V>, rs: ProviderResults<V>, entries: seq<Entry<V>>, conv: V -> W, r: RpcResult<W>)
    requires Represents(rs, results) && Lists(entries, rs)
    ensures Map(Inconsistent(entries), conv) == Consistent(r)
       <==> results.Providers() != {} && AllConvertTo(results, conv, r)
  {
    MapConsistentIff(entries, conv, r);
    RepresentedConvert(rs, results, conv, r);
    assert |entries| > 0 ==> entries[0].0 in rs.Providers();
    if forall i :: 0 <= i < |entries| ==> MapOk(entries[i].1, conv) == r {
      forall p | p in rs.Providers() ensures MapOk(rs.Get(p), conv) == r {
        var i :| 0 <= i < |entries| && entries[i].0 == p;
      }
    }
    if q :| q in rs.Providers() {
      var k :| 0 <= k < |entries| && entries[k].0 == q;
    }
  }

  /** Inconsistent results stand for all results, under either strategy. */
  lemma InconsistentRepresents<V(!new)>(
      strategy: ConsensusStrategy, results: ProviderResults<V>, rs: ProviderResults<V>)
    requires results.Valid() && Reduces(strategy, results, Err(InconsistentResults(rs)))
    ensures Represents(rs, results)
  {
  }

  lemma AgreeingConvert<V, W>(results: ProviderResults<V>, conv: V -> W, w: W)
    requires results.Valid()
    ensures Agreeing(results, conv, w) == results.Providers() <==> AllConvertTo(results, conv, Ok(w))
  {
    if AllConvertTo(results, conv, Ok(w)) {
      forall p | p in results.Providers() ensures p in Agreeing(results, conv, w) {
        assert MapOk(results.Get(p), conv) == Ok(w);
      }
    }
    if Agreeing(results, conv, w) == results.Providers() {
      forall p | p in results.Providers() ensures MapOk(results.Get(p), conv) == Ok(w) {
        assert p in Agreeing(results, conv, w);
      }
    }
  }

  /**
   What a consistent answer means, exactly: the reduction chose a raw value that converts to it, or the reduction
   reported inconsistent results, there were providers, and every single one answered with a value that converts to it.
   */
  lemma ConsistentReplyIff<V(!new), W>(
      strategy: ConsensusStrategy, results: ProviderResults<V>, reduced: ReducedResult<RpcService, V>,
      entries: seq<Entry<V>>, conv: V -> W, w: W, reply: MultiRpcResult<W>)
    requires results.Valid() && Reduces(strategy, results, reduced) && Reports(reduced, entries, conv, reply)
    ensures reply == Consistent(Ok(w))
       <==> if reduced.Ok? then conv(reduced.value) == w
            else reduced.error.InconsistentResults?
                 && results.Providers() != {} && Agreeing(results, conv, w) == results.Providers()
  {
    if reduced.Err? && reduced.error.InconsistentResults? {
      InconsistentRepresents(strategy, results, reduced.error.results);
      ReportedCollapseIff(results, reduced.error.results, entries, conv, Ok(w));
      AgreeingConvert(results, conv, w);
    }
  }

  /**
   `l` tells what the providers of `rs` gave: it names each of them once and no other, with its own value converted or
   its own error.
   */
  ghost predicate Tells<V, W>(l: seq<Entry<W>>, rs: ProviderResults<V>, conv: V -> W) {
    && (forall i, j :: 0 <= i < j < |l| ==> l[i].0 != l[j].0)
    && (forall i :: 0 <= i < |l| ==>
          && l[i].0 in rs.Providers()
          && (l[i].0 in rs.oks ==> l[i].1 == Ok(conv(rs.oks[l[i].0])))
          && (l[i].0 !in rs.oks ==> l[i].1 == Err(rs.errors[l[i].0])))
    && (forall p :: p in rs.Providers() ==> exists i :: 0 <= i < |l| && l[i].0 == p)
  }

  /**
   What a reply that is not a value means. A list tells what the reported providers gave, which are all of them under a
   threshold and stand for all of them under equality. An error is what every single provider gave.
   */
  ghost predicate Means<V, W>(
      strategy: ConsensusStrategy, results: ProviderResults<V>, reduced: ReducedResult<RpcService, V>, conv: V -> W,
      reply: MultiRpcResult<W>)
  {
    && (reply.Inconsistent? ==>
          && reduced.Err? && reduced.error.InconsistentResults?
          && Represents(reduced.error.results, results)
          && (strategy.Threshold? ==> reduced.error.results == results)
          && Tells(reply.results, reduced.error.results, conv)
          && (reply.results != [] ==> exists i :: 0 <= i < |reply.results| && reply.results[i].1 != reply.results[0].1))
    && (reply.Consistent? && reply.result.Err? ==> OnlyError(results, reply.result.error))
  }

  lemma MappedList<V, W>(entries: seq<Entry<V>>, conv: V -> W, l: seq<Entry<W>>)
    requires Map(Inconsistent(entries), conv) == Inconsistent(l)
    ensures |l| == |entries|
    ensures forall i :: 0 <= i < |l| ==> l[i].0 == entries[i].0 && l[i].1 == MapOk(entries[i].1, conv)
    ensures l != [] ==> exists i :: 0 <= i < |l| && l[i].1 != l[0].1
  {
    MapIsAndThen(Inconsistent(entries), conv);
    AndThenExactly(Inconsistent(entries), t => Ok(conv(t)));
  }

  lemma ListTells<V, W>(entries: seq<Entry<V>>, rs: ProviderResults<V>, conv: V -> W, l: seq<Entry<W>>)
    requires Lists(entries, rs) && Map(Inconsistent(entries), conv) == Inconsistent(l)
    ensures Tells(l, rs, conv)
    ensures l != [] ==> exists i :: 0 <= i < |l| && l[i].1 != l[0].1
  {
    MappedList(entries, conv, l);
    forall i | 0 <= i < |l|
      ensures l[i].0 in rs.oks ==> l[i].1 == Ok(conv(rs.oks[l[i].0]))
      ensures l[i].0 !in rs.oks ==> l[i].1 == Err(rs.errors[l[i].0])
    {
      assert entries[i].1 == rs.Get(l[i].0);
    }
    forall p | p in rs.Providers() ensures exists i :: 0 <= i < |l| && l[i].0 == p {
      var i :| 0 <= i < |entries| && entries[i].0 == p;
      assert l[i].0 == p;
    }
  }

  lemma ReplyMeans<V(!new), W>(
      strategy: ConsensusStrategy, results: ProviderResults<V>, reduced: ReducedResult<RpcService, V>,
      entries: seq<Entry<V>>, conv: V -> W, reply: MultiRpcResult<W>)
    requires results.Valid() && Reduces(strategy, results, reduced) && Reports(reduced, entries, conv, reply)
    ensures Means(strategy, results, reduced, conv, reply)
  {
    if reduced.Err? && reduced.error.InconsistentResults? {
      var rs := reduced.error.results;
      InconsistentRepresents(strategy, results, rs);
      if reply.Inconsistent? {
        ListTells(entries, rs, conv, reply.results);
      } else if reply.result.Err? {
        ReportedCollapseIff(results, rs, entries, conv, reply.result);
        AllFailed(results, conv, reply.result.error);
      }
    }
  }

  lemma AllFailed<V, W>(results: ProviderResults<V>, conv: V -> W, e: RpcError)
    requires results.Valid() && results.Providers() != {} && AllConvertTo(results, conv, Err(e))
    ensures OnlyError(results, e)
  {
    forall p | p in results.Providers() ensures p !in results.oks && results.errors[p] == e {
      assert MapOk(results.Get(p), conv) == Err(e);
    }
  }

  /**
   Quorum. When at least `min` providers are queried, a consistent answer is backed by at least `min` different
   providers whose own answers convert to it, whatever arrives, in whatever order, and although conversion may merge
   different raw answers.
   */
  lemma ThresholdQuorum<V(!new), W>(
      total: Option<u8>, min: u8, results: ProviderResults<V>, conv: V -> W, w: W)
    requires results.Valid() && |results.Providers()| >= min
    requires Replies(Threshold(total, min), results, conv, Consistent(Ok(w)))
    ensures |Agreeing(results, conv, w)| >= min
  {
    var reduced, entries :|
      Reduces(Threshold(total, min), results, reduced) && Reports(reduced, entries, conv, Consistent(Ok(w)));
    ReportIsBacked(total, min, results, reduced, entries, conv, w);
  }

  lemma ReportIsBacked<V(!new), W>(
      total: Option<u8>, min: u8, results: ProviderResults<V>, reduced: ReducedResult<RpcService, V>,
      entries: seq<Entry<V>>, conv: V -> W, w: W)
    requires results.Valid() && |results.Providers()| >= min
    requires Reduces(Threshold(total, min), results, reduced) && Reports(reduced, entries, conv, Consistent(Ok(w)))
    ensures |Agreeing(results, conv, w)| >= min
  {
    ConsistentReplyIff(Threshold(total, min), results, reduced, entries, conv, w, Consistent(Ok(w)));
    if reduced.Ok? {
      SubsetCard(Support(results, reduced.value), Agreeing(results, conv, w));
    }
  }

  /** Under equality, a consistent answer is backed by every provider. */
  lemma EqualityQuorum<V(!new), W>(results: ProviderResults<V>, conv: V -> W, w: W)
    requires results.Valid() && Replies(Equality, results, conv, Consistent(Ok(w)))
    ensures Agreeing(results, conv, w) == results.Providers()
  {
    var reduced, entries :|
      Reduces(Equality, results, reduced) && Reports(reduced, entries, conv, Consistent(Ok(w)));
    ConsistentReplyIff(Equality, results, reduced, entries, conv, w, Consistent(Ok(w)));
    if reduced.Ok? {
      assert results.Providers() == results.oks.Keys;
    }
  }

  /** A reduction for thresholds, by the outcomes it may have. */
  type ThresholdReduction<!V> = (ProviderResults<V>, ReducedResult<RpcService, V>) -> bool

  /** `reduction` has no outcome but those `ByThreshold` allows. It may have fewer: it may trap. */
  ghost predicate Within<V(!new)>(reduction: ThresholdReduction<V>, min: u8) {
    forall results: ProviderResults<V>, reduced ::
      results.Valid() && reduction(results, reduced) ==> ByThreshold(results, min, reduced)
  }

  /** No reply that `reduction` leads to, when exactly `providers` are queried, can break the quorum of `min`. */
  ghost predicate QuorumKept<V(!new), W(!new)>(
      reduction: ThresholdReduction<V>, providers: set<RpcService>, min: u8, conv: V -> W)
  {
    forall results: ProviderResults<V>, reduced, entries, w ::
      && results.Valid() && results.Providers() == providers
      && reduction(results, reduced) && Reports(reduced, entries, conv, Consistent(Ok(w)))
      ==> |Agreeing(results, conv, w)| >= min
  }

  /** `reduction` reports as inconsistent some results of `providers` that all convert to the same value. */
  ghost predicate ReportsAgreement<V(!new), W(!new)>(
      reduction: ThresholdReduction<V>, providers: set<RpcService>, conv: V -> W)
  {
    exists results: ProviderResults<V>, w ::
      && results.Valid() && results.Providers() == providers
      && Agreeing(results, conv, w) == providers
      && reduction(results, Err(InconsistentResults(results)))
  }

  /**
   Whatever the reduction does with too few answers, the quorum is kept exactly when at least `min` providers are
   queried, or the reduction never reports agreeing results of too few providers as inconsistent.
   */
  lemma QuorumKeptIff<V(!new), W(!new)>(
      reduction: ThresholdReduction<V>, providers: set<RpcService>, min: u8, conv: V -> W)
    requires providers != {} && Within(reduction, min)
    ensures QuorumKept(reduction, providers, min, conv)
       <==> |providers| >= min || !ReportsAgreement(reduction, providers, conv)
  {
    if |providers| >= min || !ReportsAgreement(reduction, providers, conv) {
      forall results: ProviderResults<V>, reduced, entries, w |
        && results.Valid() && results.Providers() == providers
        && reduction(results, reduced) && Reports(reduced, entries, conv, Consistent(Ok(w)))
        ensures |Agreeing(results, conv, w)| >= min
      {
        OutcomeKeepsQuorum(reduction, providers, min, conv, results, reduced, entries, w);
      }
    } else {
      var results: ProviderResults<V>, w :|
        && results.Valid() && results.Providers() == providers
        && Agreeing(results, conv, w) == providers
        && reduction(results, Err(InconsistentResults(results)));
      var entries := AgreementReported(results, None, min, conv, w);
      assert |Agreeing(results, conv, w)| < min;
    }
  }

  lemma OutcomeKeepsQuorum<V(!new), W(!new)>(
      reduction: ThresholdReduction<V>, providers: set<RpcService>, min: u8, conv: V -> W,
      results: ProviderResults<V>, reduced: ReducedResult<RpcService, V>, entries: seq<Entry<V>>, w: W)
    requires Within(reduction, min)
    requires |providers| >= min || !ReportsAgreement(reduction, providers, conv)
    requires results.Valid() && results.Providers() == providers
    requires reduction(results, reduced) && Reports(reduced, entries, conv, Consistent(Ok(w)))
    ensures |Agreeing(results, conv, w)| >= min
  {
    assert Reduces(Threshold(None, min), results, reduced);
    if |providers| >= min {
      ReportIsBacked(None, min, results, reduced, entries, conv, w);
    } else {
      ConsistentReplyIff(Threshold(None, min), results, reduced, entries, conv, w, Consistent(Ok(w)));
      if reduced.Ok? {
        SubsetCard(Support(results, reduced.value), Agreeing(results, conv, w));
      }
    }
  }

  /** Agreeing results that are reported as inconsistent come back as a consistent answer. */
  lemma AgreementReported<V(!new), W>(
      results: ProviderResults<V>, total: Option<u8>, min: u8, conv: V -> W, w: W) returns (entries: seq<Entry<V>>)
    requires results.Valid() && results.Providers() != {}
    requires Agreeing(results, conv, w) == results.Providers()
    ensures Reports(Err(InconsistentResults(results)), entries, conv, Consistent(Ok(w)))
  {
    entries := ListingExists(results, results.Providers());
    ReportedCollapseIff(results, results, entries, conv, Ok(w));
    AgreeingConvert(results, conv, w);
  }

  /**
   No reply to querying exactly `providers` can break the quorum of `min`. The replies are those of the reduction as
   it is assumed, which reports too few answers as inconsistent results.
   */
  ghost predicate QuorumGuaranteed<V(!new), W(!new)>(
      providers: set<RpcService>, total: Option<u8>, min: u8, conv: V -> W)
  {
    forall results: ProviderResults<V>, w ::
      && results.Valid() && results.Providers() == providers
      && Replies(Threshold(total, min), results, conv, Consistent(Ok(w)))
      ==> |Agreeing(results, conv, w)| >= min
  }

  /** Under the reduction as assumed, the quorum is guaranteed exactly when at least `min` providers are queried. */
  lemma QuorumGuaranteedIff<V(!new), W(!new)>(
      providers: set<RpcService>, total: Option<u8>, min: u8, conv: V -> W, answer: V)
    requires providers != {} && min > 0
    ensures QuorumGuaranteed(providers, total, min, conv) <==> |providers| >= min
  {
    if |providers| >= min {
      forall results: ProviderResults<V>, w |
        && results.Valid() && results.Providers() == providers
        && Replies(Threshold(total, min), results, conv, Consistent(Ok(w)))
        ensures |Agreeing(results, conv, w)| >= min
      {
        ThresholdQuorum(total, min, results, conv, w);
      }
    } else {
      var results := MultiResults(map p | p in providers :: answer, map[]);
      assert results.oks.Keys == providers == results.Providers();
      UnderfilledThresholdReplies(results, total, min, conv, answer);
      assert Agreeing(results, conv, conv(answer)) == providers;
    }
  }

  /**
   With fewer than `min` providers, and a reduction that reports too few answers as inconsistent results, which is
   assumed, their unanimous answer is returned as consistent all the same.
   */
  lemma UnderfilledThresholdReplies<V(!new), W>(
      results: ProviderResults<V>, total: Option<u8>, min: u8, conv: V -> W, answer: V)
    requires results.Valid() && Unanimous(results, answer) && |results.Providers()| < min
    ensures Replies(Threshold(total, min), results, conv, Consistent(Ok(conv(answer))))
  {
    var reduced: ReducedResult<RpcService, V> := Err(InconsistentResults(results));
    TooFewToSupport(results, min);
    assert Reduces(Threshold(total, min), results, reduced);
    assert Agreeing(results, conv, conv(answer)) == results.Providers();
    var entries := AgreementReported(results, total, min, conv, conv(answer));
  }

  lemma TooFewToSupport<V(!new)>(results: ProviderResults<V>, min: u8)
    requires |results.Providers()| < min
    ensures forall v :: |Support(results, v)| < min
  {
    forall v ensures |Support(results, v)| < min {
      SubsetCard(Support(results, v), results.Providers());
    }
  }

  /**
   From the caller's configuration to the quorum: for an accepted threshold, under the reduction as assumed, the quorum
   is guaranteed exactly when the caller left the choice of providers to the canister or named at least `min`
   different ones. That enough different providers are queried does not depend on the assumption.
   */
  lemma ConfigurationQuorumIff<V(!new), W(!new)>(
      source: RpcServices, ranked: seq<SupportedRpcService>, total: Option<u8>, min: u8, providers: set<RpcService>,
      conv: V -> W, answer: V)
    requires multiset(ranked) == multiset(Supported(source))
    requires NewProviders(source, ranked, Threshold(total, min)) == Ok(providers)
    ensures QuorumGuaranteed(providers, total, min, conv)
       <==> DistinctSpecified(source).None? || DistinctSpecified(source).value >= min
  {
    AcceptedThresholdCoversIff(source, ranked, total, min, providers);
    QuorumGuaranteedIff(providers, total, min, conv, answer);
  }

  /** In particular a duplicate-free list guarantees it. */
  lemma DuplicateFreeQuorum<V(!new), W(!new)>(
      source: RpcServices, ranked: seq<SupportedRpcService>, total: Option<u8>, min: u8, providers: set<RpcService>,
      conv: V -> W, answer: V)
    requires multiset(ranked) == multiset(Supported(source))
    requires NewProviders(source, ranked, Threshold(total, min)) == Ok(providers)
    requires UserDefined(source).Some? && Distinct(UserDefined(source).value)
    ensures QuorumGuaranteed(providers, total, min, conv)
  {
    AcceptedThresholdCoversIff(source, ranked, total, min, providers);
    AcceptedListCovers(source, ranked, total, min, providers);
    QuorumGuaranteedIff(providers, total, min, conv, answer);
  }

  /**
   A caller who names one provider three times and asks for three out of three is accepted. If the reduction reports
   too few answers as inconsistent results, which is assumed, that one provider's word is returned as consistent.
   */
  lemma RepeatedProviderBreaksQuorum<V(!new), W(!new)>(
      ranked: seq<SupportedRpcService>, conv: V -> W, answer: V)
    ensures
      var ankr := EthMainnetService.Ankr;
      var chosen := NewProviders(RpcServices.EthMainnet(Some([ankr, ankr, ankr])), ranked, Threshold(Some(3), 3));
      var results := MultiResults(map[RpcService.EthMainnet(ankr) := answer], map[]);
      && chosen == Ok(results.Providers())
      && Replies(Threshold(Some(3), 3), results, conv, Consistent(Ok(conv(answer))))
      && |Agreeing(results, conv, conv(answer))| == 1
  {
    RepeatedProviderAccepted(ranked);
    var ankr := RpcService.EthMainnet(EthMainnetService.Ankr);
    var results := MultiResults(map[ankr := answer], map[]);
    assert results.Providers() == {ankr};
    UnderfilledThresholdReplies(results, Some(3), 3, conv, answer);
    assert Agreeing(results, conv, conv(answer)) == {ankr};
  }

  /** The providers that do not give the raw answer `v`. */
  ghost function Deviating<V>(results: ProviderResults<V>, v: V): set<RpcService> {
    set p | p in results.Providers() && results.Get(p) != Ok(v)
  }

  /** When more providers agree on a converted answer than deviate from a raw one, the two answers are the same. */
  lemma AgreementOutweighsDeviation<V, W>(results: ProviderResults<V>, conv: V -> W, w: W, honest: V)
    requires |Agreeing(results, conv, w)| > |Deviating(results, honest)|
    ensures w == conv(honest)
  {
    if Agreeing(results, conv, w) <= Deviating(results, honest) {
      SubsetCard(Agreeing(results, conv, w), Deviating(results, honest));
    }
  }

  /** Fault bound: when fewer than `min` providers deviate from a raw value, a consistent answer is its conversion. */
  lemma FaultBound<V(!new), W>(
      total: Option<u8>, min: u8, results: ProviderResults<V>, conv: V -> W, w: W, honest: V)
    requires results.Valid() && |results.Providers()| >= min > |Deviating(results, honest)|
    requires Replies(Threshold(total, min), results, conv, Consistent(Ok(w)))
    ensures w == conv(honest)
  {
    ThresholdQuorum(total, min, results, conv, w);
    AgreementOutweighsDeviation(results, conv, w, honest);
  }

  /**
   Liveness: when at least `min` providers give the same raw answer and they outnumber those that do not, the reply
   is that answer, converted, and no other reply is possible.
   */
  lemma MajorityPrevails<V(!new), W>(
      total: Option<u8>, min: u8, results: ProviderResults<V>, conv: V -> W, v: V, reply: MultiRpcResult<W>)
    requires results.Valid() && |Support(results, v)| >= min && |Support(results, v)| > |Deviating(results, v)|
    requires Replies(Threshold(total, min), results, conv, reply)
    ensures reply == Consistent(Ok(conv(v)))
  {
    var reduced, entries :|
      Reduces(Threshold(total, min), results, reduced) && Reports(reduced, entries, conv, reply);
    assert |Support(results, v)| >= min;
    if reduced.value != v {
      SubsetCard(Support(results, reduced.value), Deviating(results, v));
    }
  }

  lemma SupportsDisjoint<V>(results: ProviderResults<V>, u: V, v: V)
    requires u != v
    ensures |Support(results, u)| + |Support(results, v)| <= |results.Providers()|
  {
    assert Support(results, u) !! Support(results, v);
    assert |Support(results, u) + Support(results, v)| == |Support(results, u)| + |Support(results, v)|;
    SubsetCard(Support(results, u) + Support(results, v), results.Providers());
  }

  /** Whatever `providers` answer, at most one value can be returned. */
  ghost predicate ValueDetermined<V(!new)>(providers: set<RpcService>, min: u8) {
    forall results: ProviderResults<V>, u, v ::
      && results.Valid() && results.Providers() == providers
      && ByThreshold(results, min, Ok(u)) && ByThreshold(results, min, Ok(v))
      ==> u == v
  }

  /** The threshold alone settles which value wins, without tie-breaking, if and only if 2 * min > number queried. */
  lemma ValueDeterminedIff<V(!new)>(providers: set<RpcService>, min: u8, a: V, b: V)
    requires min > 0 && a != b
    ensures ValueDetermined<V>(providers, min) <==> 2 * min > |providers|
  {
    if 2 * min > |providers| {
      forall results: ProviderResults<V>, u, v |
        && results.Valid() && results.Providers() == providers
        && ByThreshold(results, min, Ok(u)) && ByThreshold(results, min, Ok(v))
        ensures u == v
      {
        if u != v {
          SupportsDisjoint(results, u, v);
        }
      }
    } else {
      var left := SubsetOfSize(providers, min);
      var right := SubsetOfSize(providers - left, min);
      var results := TiedResults(providers, left, right, a, b);
      assert results.Providers() == providers;
      TieAdmitsBoth(results, left, right, min, a, b);
    }
  }

  lemma SubsetOfSize(s: set<RpcService>, n: nat) returns (t: set<RpcService>)
    requires n <= |s|
    ensures t <= s && |t| == n
  {
    t := {};
    while |t| < n
      invariant t <= s && |t| <= n
    {
      if s <= t {
        SubsetCard(s, t);
      }
      var x :| x in s && x !in t;
      t := t + {x};
    }
  }

  ghost function TiedResults<V>(
      providers: set<RpcService>, left: set<RpcService>, right: set<RpcService>, a: V, b: V): ProviderResults<V>
  {
    MultiResults(map p | p in left + right :: if p in left then a else b,
                 map p | p in providers - left - right :: RpcError.ProviderError(ProviderNotFound))
  }

  lemma TieAdmitsBoth<V(!new)>(
      results: ProviderResults<V>, left: set<RpcService>, right: set<RpcService>, min: u8, a: V, b: V)
    requires left !! right && |left| == |right| == min && a != b
    requires results.oks == map p | p in left + right :: if p in left then a else b
    ensures ByThreshold(results, min, Ok(a)) && ByThreshold(results, min, Ok(b))
  {
    assert Support(results, a) == left;
    assert Support(results, b) == right;
    forall u ensures |Support(results, u)| <= min {
      if u != a && u != b {
        assert Support(results, u) == {};
      }
    }
  }

  /**
   The two ways of reporting identical errors under a threshold give the same reply once the conversion is mapped,
   and so does every listing of the results.
   */
  lemma ErrorReportInvisible<V(!new), W>(
      total: Option<u8>, min: u8, results: ProviderResults<V>, conv: V -> W, e: RpcError, reply: MultiRpcResult<W>)
    requires results.Valid() && OnlyError(results, e) && min > 0
    requires Replies(Threshold(total, min), results, conv, reply)
    ensures reply == Consistent(Err(e))
  {
    var reduced, entries :|
      Reduces(Threshold(total, min), results, reduced) && Reports(reduced, entries, conv, reply);
    OnlyErrorReported(total, min, results, reduced, e);
    if reduced == Err(InconsistentResults(results)) {
      ReportedCollapseIff(results, results, entries, conv, Err(e));
    }
  }

  lemma OnlyErrorReported<V(!new)>(
      total: Option<u8>, min: u8, results: ProviderResults<V>, reduced: ReducedResult<RpcService, V>, e: RpcError)
    requires OnlyError(results, e) && min > 0
    requires Reduces(Threshold(total, min), results, reduced)
    ensures reduced == Err(ConsistentError(e)) || reduced == Err(InconsistentResults(results))
  {
    assert forall v :: Support(results, v) == {};
    var p :| p in results.errors;
  }

  lemma ReportExists<V(!new), W>(strategy: ConsensusStrategy, results: ProviderResults<V>, conv: V -> W)
      returns (reduced: ReducedResult<RpcService, V>, entries: seq<Entry<V>>, reply: MultiRpcResult<W>)
    requires results.Valid()
    ensures Reduces(strategy, results, reduced) && Reports(reduced, entries, conv, reply)
  {
    reduced := OutcomeExists(strategy, results);
    entries := [];
    if reduced.Err? && reduced.error.InconsistentResults? {
      entries := ListingExists(reduced.error.results, reduced.error.results.Providers());
    }
    reply := Map(Processed(reduced, entries), conv);
  }

  /** Every set of results gets some reply, under every strategy. */
  lemma ReplyExists<V(!new), W>(strategy: ConsensusStrategy, results: ProviderResults<V>, conv: V -> W)
      returns (reply: MultiRpcResult<W>)
    requires results.Valid()
    ensures Replies(strategy, results, conv, reply)
  {
    var reduced, entries, r := ReportExists(strategy, results, conv);
    reply := r;
  }

  /** Two raw values with more than half of the providers behind each are the same. */
  lemma MajorityUnique<V(!new)>(results: ProviderResults<V>, min: u8, u: V, v: V)
    requires 2 * min > |results.Providers()|
    requires |Support(results, u)| >= min && |Support(results, v)| >= min
    ensures u == v
  {
    if u != v {
      SupportsDisjoint(results, u, v);
    }
  }

  /** What makes a report consistent: a winning value, one common error, or agreement of all converted results. */
  lemma ConsistentReport<V(!new), W>(
      total: Option<u8>, min: u8, results: ProviderResults<V>, reduced: ReducedResult<RpcService, V>,
      entries: seq<Entry<V>>, conv: V -> W, r: RpcResult<W>)
    requires results.Valid() && Reduces(Threshold(total, min), results, reduced)
    requires Reports(reduced, entries, conv, Consistent(r))
    ensures reduced.Ok? ==> r == Ok(conv(reduced.value))
    ensures reduced.Err? ==> results.Providers() != {} && AllConvertTo(results, conv, r)
  {
    if reduced.Err? && reduced.error.InconsistentResults? {
      ReportedCollapseIff(results, results, entries, conv, r);
    }
  }

  /**
   When 2 * min exceeds the number queried, one consistent reply rules out every other: neither ties, nor the order
   of arrival, nor the way errors are reported can show.
   */
  lemma ReplyDetermined<V(!new), W>(
      total: Option<u8>, min: u8, results: ProviderResults<V>, conv: V -> W, r: RpcResult<W>, other: MultiRpcResult<W>)
    requires results.Valid() && 2 * min > |results.Providers()|
    requires Replies(Threshold(total, min), results, conv, Consistent(r))
    requires Replies(Threshold(total, min), results, conv, other)
    ensures other == Consistent(r)
  {
    var one, listed :|
      Reduces(Threshold(total, min), results, one) && Reports(one, listed, conv, Consistent(r));
    var two, relisted :|
      Reduces(Threshold(total, min), results, two) && Reports(two, relisted, conv, other);
    ConsistentReport(total, min, results, one, listed, conv, r);
    if one.Ok? {
      assert |Support(results, one.value)| >= min;
      MajorityUnique(results, min, one.value, two.value);
    } else {
      SameReport(total, min, results, two, relisted, conv, r, other);
    }
  }

  lemma SameReport<V(!new), W>(
      total: Option<u8>, min: u8, results: ProviderResults<V>, reduced: ReducedResult<RpcService, V>,
      entries: seq<Entry<V>>, conv: V -> W, r: RpcResult<W>, reply: MultiRpcResult<W>)
    requires results.Valid() && Reduces(Threshold(total, min), results, reduced) && reduced.Err?
    requires results.Providers() != {} && AllConvertTo(results, conv, r)
    requires Reports(reduced, entries, conv, reply)
    ensures reply == Consistent(r)
  {
    match reduced.error
    case ConsistentError(e) =>
      var p :| p in results.errors;
      assert MapOk(results.Get(p), conv) == r;
    case InconsistentResults(_) =>
      ReportedCollapseIff(results, results, entries, conv, r);
  }
}
