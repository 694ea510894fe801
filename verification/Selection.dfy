/** Which providers a call queries (`Providers::new`, `choose_providers`). */
module Selection {
  import opened Common
  import opened RpcTypes
  import opened StableSorting
  import opened ServiceUsage

  const DEFAULT_NUM_PROVIDERS_FOR_EQUALITY: nat := 3

  function ToRpcService(s: SupportedRpcService): RpcService {
    match s
    case EthMainnet(service) => RpcService.EthMainnet(service)
    case EthSepolia(service) => RpcService.EthSepolia(service)
    case ArbitrumOne(service) => RpcService.ArbitrumOne(service)
    case BaseMainnet(service) => RpcService.BaseMainnet(service)
    case OptimismMainnet(service) => RpcService.OptimismMainnet(service)
  }

  /** The providers a caller lists, if it lists any list at all. */
  function UserDefined(source: RpcServices): Option<seq<RpcService>> {
    match source
    case Custom(_, apis) => Some(MapSeq(api => RpcService.Custom(api), apis))
    case EthMainnet(Some(l)) => Some(MapSeq(s => RpcService.EthMainnet(s), l))
    case EthSepolia(Some(l)) => Some(MapSeq(s => RpcService.EthSepolia(s), l))
    case ArbitrumOne(Some(l)) => Some(MapSeq(s => RpcService.ArbitrumOne(s), l))
    case BaseMainnet(Some(l)) => Some(MapSeq(s => RpcService.BaseMainnet(s), l))
    case OptimismMainnet(Some(l)) => Some(MapSeq(s => RpcService.OptimismMainnet(s), l))
    case _ => None
  }

  // The providers of each network in their default order.

  function EthMainnetProviders(): (r: seq<SupportedRpcService>)
    ensures Distinct(r) && |r| == 6
  {
    var at := (s: EthMainnetService) => SupportedRpcService.EthMainnet(s);
    [at(EthMainnetService.BlockPi), at(EthMainnetService.Ankr), at(EthMainnetService.PublicNode),
     at(EthMainnetService.Llama), at(EthMainnetService.Alchemy), at(EthMainnetService.Cloudflare)]
  }

  function EthSepoliaProviders(): (r: seq<SupportedRpcService>)
    ensures Distinct(r) && |r| == 5
  {
    var at := (s: EthSepoliaService) => SupportedRpcService.EthSepolia(s);
    [at(EthSepoliaService.PublicNode), at(EthSepoliaService.Ankr), at(EthSepoliaService.BlockPi),
     at(EthSepoliaService.Alchemy), at(EthSepoliaService.Sepolia)]
  }

  function L2Providers(at: L2MainnetService -> SupportedRpcService): (r: seq<SupportedRpcService>)
    requires forall s, t :: at(s) == at(t) ==> s == t
    ensures Distinct(r) && |r| == 5
  {
    [at(L2MainnetService.Llama), at(L2MainnetService.BlockPi), at(L2MainnetService.PublicNode),
     at(L2MainnetService.Alchemy), at(L2MainnetService.Ankr)]
  }

  /** The supported providers of a source's network; a custom chain has none. */
  function Supported(source: RpcServices): (r: seq<SupportedRpcService>)
    ensures Distinct(r) && |r| <= 6
    ensures |r| == 0 <==> source.Custom?
  {
    match source
    case Custom(_, _) => []
    case EthMainnet(_) => EthMainnetProviders()
    case EthSepolia(_) => EthSepoliaProviders()
    case ArbitrumOne(_) => L2Providers(s => SupportedRpcService.ArbitrumOne(s))
    case BaseMainnet(_) => L2Providers(s => SupportedRpcService.BaseMainnet(s))
    case OptimismMainnet(_) => L2Providers(s => SupportedRpcService.OptimismMainnet(s))
  }

  /** The providers of the first `n` in a ranking. */
  function Leading(ranked: seq<SupportedRpcService>, n: nat): set<RpcService> {
    ToSet(MapSeq(ToRpcService, Take(ranked, n)))
  }

  /** The choice of default providers for a threshold. */
  function DefaultChoice(
      supported: seq<SupportedRpcService>, ranked: seq<SupportedRpcService>, total: Option<u8>, min: u8)
      : Result<set<RpcService>, ProviderError>
  {
    if total.None? then Err(InvalidRpcConfig(TotalUnspecified))
    else if min > total.value then Err(InvalidRpcConfig(MinAboveTotal(min, total.value)))
    else if total.value > AsU8(|supported|) then Err(InvalidRpcConfig(TotalAboveSupported(total.value, |supported|)))
    else Ok(Leading(ranked, total.value))
  }

  /**
   `choose_providers`, with `ranked` the ranking of `supported` at the time of the call.
   Lengths are compared after conversion to eight bits, as the source does.
   */
  function Choose(userInput: Option<seq<RpcService>>, supported: seq<SupportedRpcService>,
                  ranked: seq<SupportedRpcService>, strategy: ConsensusStrategy): Result<set<RpcService>, ProviderError>
  {
    match strategy
    case Equality =>
      Ok(match userInput
         case Some(providers) => ToSet(providers)
         case None => Leading(ranked, DEFAULT_NUM_PROVIDERS_FOR_EQUALITY))
    case Threshold(total, min) =>
      if min == 0 then Err(InvalidRpcConfig(MinIsZero))
      else match userInput
        case None => DefaultChoice(supported, ranked, total, min)
        case Some(providers) =>
          if min > AsU8(|providers|) then Err(InvalidRpcConfig(MinAboveSpecified(min, |providers|)))
          else if total.Some? && total.value != AsU8(|providers|) then
            Err(InvalidRpcConfig(TotalNotSpecified(total.value, |providers|)))
          else Ok(ToSet(providers))
  }

  /** A choice of no provider is refused. */
  function RefuseEmpty(choice: Result<set<RpcService>, ProviderError>): Result<set<RpcService>, ProviderError> {
    if choice == Ok({}) then Err(ProviderNotFound) else choice
  }

  /** `Providers::new`. */
  function NewProviders(source: RpcServices, ranked: seq<SupportedRpcService>, strategy: ConsensusStrategy)
      : Result<set<RpcService>, ProviderError>
  {
    RefuseEmpty(Choose(UserDefined(source), Supported(source), ranked, strategy))
  }

  /** What the configuration's documentation asks of a threshold over `specified` listed providers. */
  predicate DocumentedForSpecified(total: Option<u8>, min: u8, specified: nat) {
    0 < min <= specified && (total.Some? ==> total.value == specified)
  }

  predicate AcceptsSpecified(total: Option<u8>, min: u8, specified: nat) {
    min != 0 && min <= AsU8(specified) && (total.Some? ==> total.value == AsU8(specified))
  }

  /** `AcceptsSpecified` is when `choose_providers` accepts a listed set; and it never accepts too small a list. */
  lemma SpecifiedAccepted(
      list: seq<RpcService>, supported: seq<SupportedRpcService>, ranked: seq<SupportedRpcService>,
      total: Option<u8>, min: u8)
    ensures Choose(Some(list), supported, ranked, Threshold(total, min)).Ok? <==> AcceptsSpecified(total, min, |list|)
    ensures AcceptsSpecified(total, min, |list|)
       <==> min != 0 && min <= |list| % 256 && (total.Some? ==> total.value == |list| % 256)
    ensures AcceptsSpecified(total, min, |list|) ==> 0 < min <= |list|
  {
  }

  /** Acceptance is what the documentation says for every threshold exactly when the list has fewer than 256 entries. */
  lemma TruncationHarmlessIff(specified: nat)
    ensures (forall total, min ::
               AcceptsSpecified(total, min, specified) <==> DocumentedForSpecified(total, min, specified))
       <==> specified < 256
  {
    if specified >= 256 {
      var low := AsU8(specified);
      if low == 0 {
        assert AcceptsSpecified(None, 1, specified) != DocumentedForSpecified(None, 1, specified);
      } else {
        assert AcceptsSpecified(Some(low), 1, specified) != DocumentedForSpecified(Some(low), 1, specified);
      }
    }
  }

  lemma ToRpcServiceInjective(s: SupportedRpcService, t: SupportedRpcService)
    ensures ToRpcService(s) == ToRpcService(t) ==> s == t
  {
  }

  lemma RankedAreDistinct(supported: seq<SupportedRpcService>, ranked: seq<SupportedRpcService>, n: nat)
    requires Distinct(supported) && multiset(ranked) == multiset(supported)
    ensures |ranked| == |supported|
    ensures |Leading(ranked, n)| == Min(n, |supported|)
  {
    assert |multiset(ranked)| == |multiset(supported)|;
    DistinctPermutes(supported, ranked);
    var chosen := MapSeq(ToRpcService, Take(ranked, n));
    forall i, j | 0 <= i < j < |chosen| ensures chosen[i] != chosen[j] {
      ToRpcServiceInjective(ranked[i], ranked[j]);
    }
    ToSetCard(chosen);
  }

  lemma DistinctPermutes<T>(a: seq<T>, b: seq<T>)
    requires Distinct(a) && multiset(a) == multiset(b)
    ensures Distinct(b)
  {
    forall i, j | 0 <= i < j < |b| ensures b[i] != b[j] {
      if b[i] == b[j] {
        var x := b[i];
        assert b == b[..i] + [x] + b[i + 1..j] + [x] + b[j + 1..];
        assert multiset(b)[x] >= 2;
        OnceAtMost(a, x);
      }
    }
  }

  lemma {:induction false} OnceAtMost<T>(a: seq<T>, x: T)
    requires Distinct(a)
    ensures multiset(a)[x] <= 1
  {
    if a != [] {
      var front, last := a[..|a| - 1], a[|a| - 1];
      OnceAtMost(front, x);
      assert a == front + [last];
      assert last !in multiset(front);
    }
  }

  predicate AcceptsDefaults(total: Option<u8>, min: u8, supported: nat) {
    total.Some? && 0 < min <= total.value <= AsU8(supported)
  }

  /**
   With default providers a threshold is accepted exactly when 0 < min <= total <= number supported (in eight bits),
   and the set chosen then has exactly `total` members: the source's assertion about duplicates cannot fail.
   */
  lemma DefaultsAccepted(
      supported: seq<SupportedRpcService>, ranked: seq<SupportedRpcService>, total: Option<u8>, min: u8)
    requires Distinct(supported) && multiset(ranked) == multiset(supported)
    ensures Choose(None, supported, ranked, Threshold(total, min)).Ok? <==> AcceptsDefaults(total, min, |supported|)
    ensures AcceptsDefaults(total, min, |supported|)
       <==> total.Some? && 0 < min <= total.value <= |supported| % 256
    ensures AcceptsDefaults(total, min, |supported|) ==>
              |Choose(None, supported, ranked, Threshold(total, min)).value| == total.value
    ensures |supported| < 256 ==>
              (AcceptsDefaults(total, min, |supported|) <==> total.Some? && 0 < min <= total.value <= |supported|)
  {
    if AcceptsDefaults(total, min, |supported|) {
      assert Choose(None, supported, ranked, Threshold(total, min))
          == Ok(Leading(ranked, total.value));
      RankedAreDistinct(supported, ranked, total.value);
    }
  }

  /** How many of the providers that can be queried are different ones: what a caller can count before a call. */
  function DistinctSpecified(source: RpcServices): Option<nat> {
    match UserDefined(source)
    case Some(list) => Some(|ToSet(list)|)
    case None => None
  }

  lemma CoversIff(
      userInput: Option<seq<RpcService>>, supported: seq<SupportedRpcService>, ranked: seq<SupportedRpcService>,
      total: Option<u8>, min: u8, providers: set<RpcService>)
    requires Distinct(supported) && multiset(ranked) == multiset(supported)
    requires RefuseEmpty(Choose(userInput, supported, ranked, Threshold(total, min))) == Ok(providers)
    ensures providers != {} && min > 0
    ensures |providers| >= min <==> userInput.None? || |ToSet(userInput.value)| >= min
  {
    if userInput.None? {
      DefaultsAccepted(supported, ranked, total, min);
    }
  }

  /**
   An accepted threshold queries at least `min` providers exactly when the caller named at least `min` different
   ones; the default providers always suffice.
   */
  lemma AcceptedThresholdCoversIff(
      source: RpcServices, ranked: seq<SupportedRpcService>, total: Option<u8>, min: u8, providers: set<RpcService>)
    requires multiset(ranked) == multiset(Supported(source))
    requires NewProviders(source, ranked, Threshold(total, min)) == Ok(providers)
    ensures providers != {} && min > 0
    ensures |providers| >= min <==> DistinctSpecified(source).None? || DistinctSpecified(source).value >= min
  {
    CoversIff(UserDefined(source), Supported(source), ranked, total, min, providers);
  }

  /** A list without repetition that passes validation always covers the threshold. */
  lemma AcceptedListCovers(
      source: RpcServices, ranked: seq<SupportedRpcService>, total: Option<u8>, min: u8, providers: set<RpcService>)
    requires NewProviders(source, ranked, Threshold(total, min)) == Ok(providers)
    requires UserDefined(source).Some? && Distinct(UserDefined(source).value)
    ensures |providers| == |UserDefined(source).value| >= min
  {
    var list := UserDefined(source).value;
    ToSetCard(list);
    SpecifiedAccepted(list, Supported(source), ranked, total, min);
  }

  /** Naming one provider three times passes a "three out of three" validation and queries one provider. */
  lemma RepeatedProviderAccepted(ranked: seq<SupportedRpcService>)
    ensures
      var ankr := EthMainnetService.Ankr;
      var source := RpcServices.EthMainnet(Some([ankr, ankr, ankr]));
      NewProviders(source, ranked, Threshold(Some(3), 3)) == Ok({RpcService.EthMainnet(ankr)})
  {
    var ankr := EthMainnetService.Ankr;
    var list := MapSeq(s => RpcService.EthMainnet(s), [ankr, ankr, ankr]);
    assert list == [RpcService.EthMainnet(ankr), RpcService.EthMainnet(ankr), RpcService.EthMainnet(ankr)];
    assert ToSet(list) == {RpcService.EthMainnet(ankr)};
  }

  /** How many default providers a strategy asks for. */
  function Asked(strategy: ConsensusStrategy): nat {
    match strategy
    case Equality => DEFAULT_NUM_PROVIDERS_FOR_EQUALITY
    case Threshold(total, _) => if total.Some? then total.value else 0
  }

  lemma InTaken(ranked: seq<SupportedRpcService>, n: nat, p: RpcService)
    ensures p in Leading(ranked, n)
       <==> exists s :: s in Take(ranked, n) && ToRpcService(s) == p
  {
    var taken := Take(ranked, n);
    var mapped := MapSeq(ToRpcService, taken);
    if p in mapped {
      var i :| 0 <= i < |mapped| && mapped[i] == p;
      assert taken[i] in taken;
    }
    if s :| s in taken && ToRpcService(s) == p {
      var i :| 0 <= i < |taken| && taken[i] == s;
      assert mapped[i] == p;
    }
  }

  lemma TakenIff(ranked: seq<SupportedRpcService>, n: nat, s: SupportedRpcService)
    ensures ToRpcService(s) in Leading(ranked, n) <==> s in Take(ranked, n)
  {
    InTaken(ranked, n, ToRpcService(s));
    if t :| t in Take(ranked, n) && ToRpcService(t) == ToRpcService(s) {
      ToRpcServiceInjective(s, t);
    }
  }

  /** `providers` are `n` supported ones, or all; no other supported one has more recent successes. */
  ghost predicate MostSuccessful(
      uses: seq<Use>, supported: seq<SupportedRpcService>, n: nat, now: Timestamp, providers: set<RpcService>)
  {
    && |providers| == Min(n, |supported|)
    && (forall p :: p in providers ==> exists s :: s in supported && ToRpcService(s) == p)
    && (forall s, t :: s in supported && t in supported && ToRpcService(s) in providers && ToRpcService(t) !in providers
          ==> RecentSuccesses(uses, s, now) >= RecentSuccesses(uses, t, now))
  }

  lemma TakenOutrank(
      uses: seq<Use>, supported: seq<SupportedRpcService>, n: nat, now: Timestamp,
      s: SupportedRpcService, t: SupportedRpcService)
    requires t in supported
    requires s in Take(Ranking(uses, supported, now), n) && t !in Take(Ranking(uses, supported, now), n)
    ensures RecentSuccesses(uses, s, now) >= RecentSuccesses(uses, t, now)
  {
    var ranked := Ranking(uses, supported, now);
    RankingIsStableSort(uses, supported, now);
    SameElements(ranked, supported);
    var i :| 0 <= i < |Take(ranked, n)| && Take(ranked, n)[i] == s;
    var j :| 0 <= j < |ranked| && ranked[j] == t;
    assert forall k :: 0 <= k < n && k < |ranked| ==> ranked[k] == Take(ranked, n)[k];
    assert i < j;
  }

  lemma TakenAreSupported(
      uses: seq<Use>, supported: seq<SupportedRpcService>, n: nat, now: Timestamp, p: RpcService)
    requires p in Leading(Ranking(uses, supported, now), n)
    ensures exists s :: s in supported && ToRpcService(s) == p
  {
    var ranked := Ranking(uses, supported, now);
    InTaken(ranked, n, p);
    var s :| s in Take(ranked, n) && ToRpcService(s) == p;
    assert s in ranked;
    SortMembers(supported, RankKey(uses, now), s);
  }

  lemma BestRankedAreMostSuccessful(
      uses: seq<Use>, supported: seq<SupportedRpcService>, n: nat, now: Timestamp, providers: set<RpcService>)
    requires Distinct(supported)
    requires providers == Leading(Ranking(uses, supported, now), n)
    ensures MostSuccessful(uses, supported, n, now, providers)
  {
    var ranked := Ranking(uses, supported, now);
    assert |providers| == Min(n, |supported|) by {
      SortCorrect(supported, RankKey(uses, now));
      RankedAreDistinct(supported, ranked, n);
    }
    forall p | p in providers ensures exists s :: s in supported && ToRpcService(s) == p {
      TakenAreSupported(uses, supported, n, now, p);
    }
    forall s, t | s in supported && t in supported && ToRpcService(s) in providers && ToRpcService(t) !in providers
      ensures RecentSuccesses(uses, s, now) >= RecentSuccesses(uses, t, now)
    {
      TakenIff(ranked, n, s);
      TakenIff(ranked, n, t);
      TakenOutrank(uses, supported, n, now, s, t);
    }
  }

  lemma ChosenAmong(uses: seq<Use>, userInput: Option<seq<RpcService>>, supported: seq<SupportedRpcService>,
                    strategy: ConsensusStrategy, now: Timestamp, providers: set<RpcService>)
    requires Distinct(supported)
    requires Choose(userInput, supported, Ranking(uses, supported, now), strategy) == Ok(providers)
    ensures
      match userInput
      case Some(list) => forall p :: p in providers <==> p in list
      case None => MostSuccessful(uses, supported, Asked(strategy), now, providers)
  {
    if userInput.None? {
      BestRankedAreMostSuccessful(uses, supported, Asked(strategy), now, providers);
    }
  }

  /**
   Who is queried: exactly the providers listed, or as many supported ones as the strategy asks for, none of which
   has fewer recent successes than one left out.
   */
  lemma ChosenProviders(
      uses: seq<Use>, source: RpcServices, strategy: ConsensusStrategy, now: Timestamp, providers: set<RpcService>)
    requires NewProviders(source, Ranking(uses, Supported(source), now), strategy) == Ok(providers)
    ensures
      match UserDefined(source)
      case Some(list) => forall p :: p in providers <==> p in list
      case None => MostSuccessful(uses, Supported(source), Asked(strategy), now, providers)
  {
    ChosenAmong(uses, UserDefined(source), Supported(source), strategy, now, providers);
  }

  /** Whether choosing consults the usage index. */
  predicate UsesRanking(userInput: Option<seq<RpcService>>, supported: nat, strategy: ConsensusStrategy) {
    userInput.None? && match strategy
                       case Equality => true
                       case Threshold(total, min) => AcceptsDefaults(total, min, supported)
  }

  /** The use that choosing makes of the index: none for a listed or refused choice. */
  function RankingUse(userInput: Option<seq<RpcService>>, supported: seq<SupportedRpcService>,
                      strategy: ConsensusStrategy, now: Timestamp): seq<Use>
  {
    if UsesRanking(userInput, |supported|, strategy) then [Rank(supported, now)] else []
  }

  // ----- a source and its network

  /** The caller names providers itself. */
  predicate NamesProviders(source: RpcServices) {
    match source
    case Custom(_, _) => true
    case EthMainnet(list) => list.Some?
    case EthSepolia(list) => list.Some?
    case ArbitrumOne(list) => list.Some?
    case BaseMainnet(list) => list.Some?
    case OptimismMainnet(list) => list.Some?
  }

  /** `p` is on the source's own network and, where the caller names providers, one of those named. */
  predicate Offers(source: RpcServices, p: RpcService) {
    match source
    case Custom(_, apis) => p.Custom? && p.api in apis
    case EthMainnet(list) => p.EthMainnet? && (list.Some? ==> p.mainnet in list.value)
    case EthSepolia(list) => p.EthSepolia? && (list.Some? ==> p.sepolia in list.value)
    case ArbitrumOne(list) => p.ArbitrumOne? && (list.Some? ==> p.arbitrum in list.value)
    case BaseMainnet(list) => p.BaseMainnet? && (list.Some? ==> p.base in list.value)
    case OptimismMainnet(list) => p.OptimismMainnet? && (list.Some? ==> p.optimism in list.value)
  }

  lemma ListIsOffered(source: RpcServices, list: seq<RpcService>, p: RpcService)
    requires UserDefined(source) == Some(list)
    ensures NamesProviders(source)
    ensures p in list <==> Offers(source, p)
  {
    if i :| 0 <= i < |list| && list[i] == p {
      assert Offers(source, list[i]);
    }
    if Offers(source, p) {
      match source
      case Custom(_, apis) =>
        var i :| 0 <= i < |apis| && apis[i] == p.api;
        assert list[i] == p;
      case EthMainnet(Some(l)) =>
        var i :| 0 <= i < |l| && l[i] == p.mainnet;
        assert list[i] == p;
      case EthSepolia(Some(l)) =>
        var i :| 0 <= i < |l| && l[i] == p.sepolia;
        assert list[i] == p;
      case ArbitrumOne(Some(l)) =>
        var i :| 0 <= i < |l| && l[i] == p.arbitrum;
        assert list[i] == p;
      case BaseMainnet(Some(l)) =>
        var i :| 0 <= i < |l| && l[i] == p.base;
        assert list[i] == p;
      case OptimismMainnet(Some(l)) =>
        var i :| 0 <= i < |l| && l[i] == p.optimism;
        assert list[i] == p;
    }
  }

  lemma SupportedIsOffered(source: RpcServices, s: SupportedRpcService)
    requires UserDefined(source).None? && s in Supported(source)
    ensures !NamesProviders(source) && Offers(source, ToRpcService(s))
  {
    var i :| 0 <= i < |Supported(source)| && Supported(source)[i] == s;
  }

  /**
   A call queries its own network: what the caller names, service by service and nothing else, or default providers of
   that very network.
   */
  lemma ChoiceIsOffered(
      source: RpcServices, ranked: seq<SupportedRpcService>, strategy: ConsensusStrategy, providers: set<RpcService>)
    requires multiset(ranked) == multiset(Supported(source))
    requires NewProviders(source, ranked, strategy) == Ok(providers)
    ensures OnNetwork(source, providers)
  {
    ChosenFrom(UserDefined(source), Supported(source), ranked, strategy, providers);
    match UserDefined(source)
    case Some(list) =>
      forall p ensures p in providers <==> Offers(source, p) {
        ListIsOffered(source, list, p);
      }
    case None =>
      forall p | p in providers ensures !NamesProviders(source) && Offers(source, p) {
        var s :| s in Supported(source) && ToRpcService(s) == p;
        SupportedIsOffered(source, s);
      }
      var q :| q in providers;
      assert !NamesProviders(source);
  }

  lemma ChosenFrom(userInput: Option<seq<RpcService>>, supported: seq<SupportedRpcService>,
                   ranked: seq<SupportedRpcService>, strategy: ConsensusStrategy, providers: set<RpcService>)
    requires multiset(ranked) == multiset(supported)
    requires RefuseEmpty(Choose(userInput, supported, ranked, strategy)) == Ok(providers)
    ensures providers != {}
    ensures userInput.Some? ==> forall p :: p in providers <==> p in userInput.value
    ensures userInput.None? ==> forall p :: p in providers ==> exists s :: s in supported && ToRpcService(s) == p
  {
    if userInput.None? {
      forall p | p in providers ensures exists s :: s in supported && ToRpcService(s) == p {
        InTaken(ranked, Asked(strategy), p);
        var s :| s in Take(ranked, Asked(strategy)) && ToRpcService(s) == p;
        assert s in multiset(ranked);
      }
    }
  }

  /** The providers chosen are the source's own, and all that the caller names are among them. */
  ghost predicate OnNetwork(source: RpcServices, providers: set<RpcService>) {
    && (forall p :: p in providers ==> Offers(source, p))
    && (NamesProviders(source) ==> forall p :: Offers(source, p) ==> p in providers)
  }

  /** The providers of a network by name, in their default order. */
  function DefaultNames(source: RpcServices): seq<RpcService> {
    match source
    case Custom(_, _) => []
    case EthMainnet(_) =>
      [RpcService.EthMainnet(EthMainnetService.BlockPi), RpcService.EthMainnet(EthMainnetService.Ankr),
       RpcService.EthMainnet(EthMainnetService.PublicNode), RpcService.EthMainnet(EthMainnetService.Llama),
       RpcService.EthMainnet(EthMainnetService.Alchemy), RpcService.EthMainnet(EthMainnetService.Cloudflare)]
    case EthSepolia(_) =>
      [RpcService.EthSepolia(EthSepoliaService.PublicNode), RpcService.EthSepolia(EthSepoliaService.Ankr),
       RpcService.EthSepolia(EthSepoliaService.BlockPi), RpcService.EthSepolia(EthSepoliaService.Alchemy),
       RpcService.EthSepolia(EthSepoliaService.Sepolia)]
    case ArbitrumOne(_) =>
      [RpcService.ArbitrumOne(L2MainnetService.Llama), RpcService.ArbitrumOne(L2MainnetService.BlockPi),
       RpcService.ArbitrumOne(L2MainnetService.PublicNode), RpcService.ArbitrumOne(L2MainnetService.Alchemy),
       RpcService.ArbitrumOne(L2MainnetService.Ankr)]
    case BaseMainnet(_) =>
      [RpcService.BaseMainnet(L2MainnetService.Llama), RpcService.BaseMainnet(L2MainnetService.BlockPi),
       RpcService.BaseMainnet(L2MainnetService.PublicNode), RpcService.BaseMainnet(L2MainnetService.Alchemy),
       RpcService.BaseMainnet(L2MainnetService.Ankr)]
    case OptimismMainnet(_) =>
      [RpcService.OptimismMainnet(L2MainnetService.Llama), RpcService.OptimismMainnet(L2MainnetService.BlockPi),
       RpcService.OptimismMainnet(L2MainnetService.PublicNode), RpcService.OptimismMainnet(L2MainnetService.Alchemy),
       RpcService.OptimismMainnet(L2MainnetService.Ankr)]
  }

  lemma SupportedNames(source: RpcServices)
    ensures |Supported(source)| == |DefaultNames(source)|
    ensures forall i :: 0 <= i < |Supported(source)| ==> ToRpcService(Supported(source)[i]) == DefaultNames(source)[i]
  {
  }

  lemma UnusedRanking(uses: seq<Use>, services: seq<SupportedRpcService>, now: Timestamp)
    requires forall s :: s in services ==> RecentSuccesses(uses, s, now) == 0
    ensures Ranking(uses, services, now) == services
  {
    var key := RankKey(uses, now);
    assert forall s :: s in services ==> key(s) == 0;
    StableSortUnique(services, services, key);
  }

  /**
   While no provider of the network has a recent success, a default call queries the first ones by name: three under
   equality, and `total` under an accepted threshold.
   */
  lemma UnusedDefaults(
      uses: seq<Use>, source: RpcServices, strategy: ConsensusStrategy, now: Timestamp, providers: set<RpcService>)
    requires forall s :: s in Supported(source) ==> RecentSuccesses(uses, s, now) == 0
    requires !NamesProviders(source)
    requires NewProviders(source, Ranking(uses, Supported(source), now), strategy) == Ok(providers)
    ensures |DefaultNames(source)| >= 3
    ensures strategy.Equality? ==>
        providers == {DefaultNames(source)[0], DefaultNames(source)[1], DefaultNames(source)[2]}
    ensures strategy.Threshold? ==>
        && strategy.total.Some? && strategy.total.value <= |DefaultNames(source)|
        && providers == ToSet(DefaultNames(source)[..strategy.total.value])
  {
    UnusedRanking(uses, Supported(source), now);
    SupportedNames(source);
    assert UserDefined(source) == None;
    FirstNames(Supported(source), DefaultNames(source), strategy, providers);
  }

  lemma FirstNames(
      supported: seq<SupportedRpcService>, names: seq<RpcService>, strategy: ConsensusStrategy,
      providers: set<RpcService>)
    requires |supported| == |names| && forall i :: 0 <= i < |names| ==> ToRpcService(supported[i]) == names[i]
    requires RefuseEmpty(Choose(None, supported, supported, strategy)) == Ok(providers)
    ensures strategy.Equality? && |names| >= 3 ==> providers == {names[0], names[1], names[2]}
    ensures strategy.Threshold? ==>
        strategy.total.Some? && strategy.total.value <= |names| && providers == ToSet(names[..strategy.total.value])
  {
    DefaultsTaken(supported, strategy, providers);
    var n := Asked(strategy);
    if n <= |names| {
      assert MapSeq(ToRpcService, Take(supported, n)) == names[..n];
      if n == 3 {
        assert names[..3] == [names[0], names[1], names[2]];
      }
    }
  }

  lemma DefaultsTaken(supported: seq<SupportedRpcService>, strategy: ConsensusStrategy, providers: set<RpcService>)
    requires RefuseEmpty(Choose(None, supported, supported, strategy)) == Ok(providers)
    ensures providers == Leading(supported, Asked(strategy))
    ensures strategy.Threshold? ==> strategy.total.Some? && strategy.total.value <= |supported|
  {
  }

  // ----- refusals

  /** Every refusal says something true of the configuration it refuses. */
  ghost predicate Truthful(
      e: ProviderError, userInput: Option<seq<RpcService>>, supported: nat, strategy: ConsensusStrategy)
  {
    match strategy
    case Equality => e.ProviderNotFound? && userInput == Some([])
    case Threshold(total, min) =>
      e.InvalidRpcConfig? &&
      match e.fault
      case MinIsZero => min == 0
      case TotalUnspecified => userInput.None? && total.None?
      case MinAboveTotal(m, t) => userInput.None? && m == min && total == Some(t) && m > t
      case TotalAboveSupported(t, n) => userInput.None? && total == Some(t) && n == supported && t > n % 256
      case MinAboveSpecified(m, n) => userInput.Some? && m == min && n == |userInput.value| && m > n % 256
      case TotalNotSpecified(t, n) =>
        userInput.Some? && total == Some(t) && n == |userInput.value| && t != n % 256
  }

  lemma RefusalsTruthful(userInput: Option<seq<RpcService>>, supported: seq<SupportedRpcService>,
                         ranked: seq<SupportedRpcService>, strategy: ConsensusStrategy, e: ProviderError)
    requires multiset(ranked) == multiset(supported) && (userInput.None? ==> supported != [])
    requires RefuseEmpty(Choose(userInput, supported, ranked, strategy)) == Err(e)
    ensures Truthful(e, userInput, |supported|, strategy)
  {
    assert userInput.Some? && userInput.value != [] ==> userInput.value[0] in ToSet(userInput.value);
    if userInput.None? && Asked(strategy) > 0 {
      DefaultsNeverEmpty(supported, ranked, Asked(strategy));
    }
  }

  lemma DefaultsNeverEmpty(supported: seq<SupportedRpcService>, ranked: seq<SupportedRpcService>, n: nat)
    requires multiset(ranked) == multiset(supported) && supported != [] && n > 0
    ensures Leading(ranked, n) != {}
  {
    assert |multiset(ranked)| == |multiset(supported)|;
    var first := Take(ranked, n)[0];
    InTaken(ranked, n, ToRpcService(first));
  }

  /** The `n` best ranked providers, each only once. */
  method BestRanked(usage: SupportedRpcServiceUsage, supported: seq<SupportedRpcService>, n: nat, now: Timestamp)
      returns (providers: set<RpcService>)
    requires usage.Valid() && usage.Timely(now) && Distinct(supported)
    modifies usage
    ensures usage.Valid() && usage.Timely(now)
    ensures usage.uses == old(usage.uses) + [Rank(supported, now)]
    ensures providers == Leading(Ranking(old(usage.uses), supported, now), n)
    ensures |providers| == Min(n, |supported|)
  {
    RankingIsStableSort(usage.uses, supported, now);
    var ranked := usage.RankAscendingEvict(supported, now);
    RankedAreDistinct(supported, ranked, n);
    providers := Leading(ranked, n);
  }

  /** `choose_providers` against the canister's usage index, which a default choice consults and thereby trims. */
  method ChooseProviders(usage: SupportedRpcServiceUsage, userInput: Option<seq<RpcService>>,
                         supported: seq<SupportedRpcService>, strategy: ConsensusStrategy, now: Timestamp)
      returns (r: Result<set<RpcService>, ProviderError>)
    requires usage.Valid() && usage.Timely(now) && Distinct(supported)
    modifies usage
    ensures usage.Valid() && usage.Timely(now)
    ensures r == Choose(userInput, supported, Ranking(old(usage.uses), supported, now), strategy)
    ensures usage.uses == old(usage.uses) + RankingUse(userInput, supported, strategy, now)
  {
    match strategy {
      case Equality =>
        if userInput.Some? {
          return Ok(ToSet(userInput.value));
        }
        var providers := BestRanked(usage, supported, DEFAULT_NUM_PROVIDERS_FOR_EQUALITY, now);
        return Ok(providers);
      case Threshold(total, min) =>
        if min == 0 {
          return Err(InvalidRpcConfig(MinIsZero));
        }
        match userInput {
          case None =>
            r := ChooseDefaults(usage, supported, total, min, now);
          case Some(list) =>
            if min > AsU8(|list|) {
              return Err(InvalidRpcConfig(MinAboveSpecified(min, |list|)));
            }
            if total.Some? && total.value != AsU8(|list|) {
              return Err(InvalidRpcConfig(TotalNotSpecified(total.value, |list|)));
            }
            return Ok(ToSet(list));
        }
    }
  }

  /** The choice for a threshold when no provider is listed. */
  method ChooseDefaults(usage: SupportedRpcServiceUsage, supported: seq<SupportedRpcService>,
                        total: Option<u8>, min: u8, now: Timestamp)
      returns (r: Result<set<RpcService>, ProviderError>)
    requires usage.Valid() && usage.Timely(now) && Distinct(supported) && min > 0
    modifies usage
    ensures usage.Valid() && usage.Timely(now)
    ensures r == DefaultChoice(supported, Ranking(old(usage.uses), supported, now), total, min)
    ensures usage.uses == old(usage.uses)
                          + if AcceptsDefaults(total, min, |supported|) then [Rank(supported, now)] else []
  {
    if total.None? {
      return Err(InvalidRpcConfig(TotalUnspecified));
    }
    if min > total.value {
      return Err(InvalidRpcConfig(MinAboveTotal(min, total.value)));
    }
    if total.value > AsU8(|supported|) {
      return Err(InvalidRpcConfig(TotalAboveSupported(total.value, |supported|)));
    }
    var providers := BestRanked(usage, supported, total.value, now);
    assert |providers| == total.value;  // "BUG: duplicate providers"
    return Ok(providers);
  }

  method ChooseNonEmpty(usage: SupportedRpcServiceUsage, userInput: Option<seq<RpcService>>,
                        supported: seq<SupportedRpcService>, strategy: ConsensusStrategy, now: Timestamp)
      returns (r: Result<set<RpcService>, ProviderError>)
    requires usage.Valid() && usage.Timely(now) && Distinct(supported)
    modifies usage
    ensures usage.Valid() && usage.Timely(now)
    ensures r == RefuseEmpty(Choose(userInput, supported, Ranking(old(usage.uses), supported, now), strategy))
    ensures usage.uses == old(usage.uses) + RankingUse(userInput, supported, strategy, now)
  {
    r := ChooseProviders(usage, userInput, supported, strategy, now);
    if r.Ok? && r.value == {} {
      r := Err(ProviderNotFound);
    }
  }

  /** `Providers::new`. */
  method New(usage: SupportedRpcServiceUsage, source: RpcServices, strategy: ConsensusStrategy, now: Timestamp)
      returns (r: Result<set<RpcService>, ProviderError>)
    requires usage.Valid() && usage.Timely(now)
    modifies usage
    ensures usage.Valid() && usage.Timely(now)
    ensures r == NewProviders(source, Ranking(old(usage.uses), Supported(source), now), strategy)
    ensures r.Ok? ==> OnNetwork(source, r.value)
    ensures usage.uses == old(usage.uses) + RankingUse(UserDefined(source), Supported(source), strategy, now)
  {
    ghost var ranked := Ranking(usage.uses, Supported(source), now);
    SortCorrect(Supported(source), RankKey(usage.uses, now));
    r := ChooseNonEmpty(usage, UserDefined(source), Supported(source), strategy, now);
    if r.Ok? {
      ChoiceIsOffered(source, ranked, strategy, r.value);
    }
  }
}
