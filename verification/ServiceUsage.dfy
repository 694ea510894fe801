/**
 The record of recent successes of each supported provider (`SupportedRpcServiceUsage`), and the ranking it gives.

 The timed, size-bounded map underneath belongs to another crate. Assumed of it: an entry older than the window is
 dropped, the capacity is per key, and when a key is full its oldest entry makes room.
 */
module ServiceUsage {
  import opened Common
  import opened RpcTypes
  import opened StableSorting

  /** Nanoseconds since the Unix epoch. */
  type Timestamp = nat

  const WINDOW: nat := 20 * 60 * 1_000_000_000
  const CAPACITY: nat := 500

  type Store = map<SupportedRpcService, seq<Timestamp>>

  /** Exactly 20 minutes old is still within the window. */
  predicate Expired(at: Timestamp, now: Timestamp) { at + WINDOW < now }

  /** The entries still within the window, oldest first. */
  function Live(entries: seq<Timestamp>, now: Timestamp): (r: seq<Timestamp>)
    ensures |r| <= |entries|
  {
    if entries == [] then []
    else
      var last := entries[|entries| - 1];
      Live(entries[..|entries| - 1], now) + if Expired(last, now) then [] else [last]
  }

  /** `insert_evict` on one key: expired entries leave, then the oldest if the key is full. */
  function InsertEvict(entries: seq<Timestamp>, now: Timestamp): seq<Timestamp> {
    var live := Live(entries, now);
    (if |live| >= CAPACITY then live[1..] else live) + [now]
  }

  function Entries(store: Store, service: SupportedRpcService): seq<Timestamp> {
    if service in store then store[service] else []
  }

  /** One use of the index. */
  datatype Use =
    | Record(service: SupportedRpcService, at: Timestamp)
    | Rank(services: seq<SupportedRpcService>, at: Timestamp)

  /** What one use leaves stored. */
  function After(store: Store, use: Use): Store {
    match use
    case Record(service, at) => store[service := InsertEvict(Entries(store, service), at)]
    case Rank(services, at) => map s | s in store :: if s in services then Live(store[s], at) else store[s]
  }

  function Run(uses: seq<Use>): Store {
    if uses == [] then map[] else After(Run(uses[..|uses| - 1]), uses[|uses| - 1])
  }

  /** The index after more uses. */
  function AfterAll(store: Store, uses: seq<Use>): Store {
    if uses == [] then store else After(AfterAll(store, uses[..|uses| - 1]), uses[|uses| - 1])
  }

  lemma {:induction false} RunInParts(before: seq<Use>, after: seq<Use>)
    ensures Run(before + after) == AfterAll(Run(before), after)
  {
    if after == [] {
      assert before + after == before;
    } else {
      var front := after[..|after| - 1];
      RunInParts(before, front);
      assert (before + after)[..|before + after| - 1] == before + front;
    }
  }

  /** Time does not run backwards between uses. */
  ghost predicate InOrder(uses: seq<Use>) {
    forall i, j :: 0 <= i < j < |uses| ==> uses[i].at <= uses[j].at
  }

  ghost predicate NoLaterThan(uses: seq<Use>, now: Timestamp) {
    forall i :: 0 <= i < |uses| ==> uses[i].at <= now
  }

  /** The full history of one provider's successes: nothing is ever forgotten here. */
  ghost function SuccessesOf(uses: seq<Use>, service: SupportedRpcService): seq<Timestamp> {
    if uses == [] then []
    else
      var last := uses[|uses| - 1];
      SuccessesOf(uses[..|uses| - 1], service)
      + if last.Record? && last.service == service then [last.at] else []
  }

  /** How many of `history` are at most 20 minutes old. */
  ghost function WithinWindow(history: seq<Timestamp>, now: Timestamp): nat {
    if history == [] then 0
    else
      WithinWindow(history[..|history| - 1], now)
      + if now - history[|history| - 1] <= 1_200_000_000_000 then 1 else 0
  }

  /** The number of successes that counts at `now`: those of the last 20 minutes, but no more than 500. */
  ghost function RecentSuccesses(uses: seq<Use>, service: SupportedRpcService, now: Timestamp): nat {
    Min(500, WithinWindow(SuccessesOf(uses, service), now))
  }

  ghost predicate Nondecreasing(s: seq<Timestamp>) {
    forall i, j :: 0 <= i < j < |s| ==> s[i] <= s[j]
  }

  /**
   `entries` stands for the history `h` as of time `latest`: it is a suffix of `h`, and whatever is missing had
   expired or is followed by at least 500 newer successes.
   */
  ghost predicate Tracks(h: seq<Timestamp>, entries: seq<Timestamp>, latest: Timestamp) {
    && Nondecreasing(h)
    && (forall i :: 0 <= i < |h| ==> h[i] <= latest)
    && |entries| <= 500
    && |entries| <= |h|
    && entries == h[|h| - |entries|..]
    && forall i :: 0 <= i < |h| - |entries| ==> Expired(h[i], latest) || |h| - i > 500
  }

  /** What is within the window: every entry of the last 20 minutes, to the nanosecond, as often as it occurs. */
  lemma {:induction false} LiveExactly(entries: seq<Timestamp>, now: Timestamp, at: Timestamp)
    ensures multiset(Live(entries, now))[at] == if now - at <= 1_200_000_000_000 then multiset(entries)[at] else 0
  {
    if entries != [] {
      var front, last := entries[..|entries| - 1], entries[|entries| - 1];
      LiveExactly(front, now, at);
      assert entries == front + [last];
    }
  }

  lemma {:induction false} LiveCount(entries: seq<Timestamp>, now: Timestamp)
    ensures |Live(entries, now)| == WithinWindow(entries, now)
  {
    if entries != [] {
      LiveCount(entries[..|entries| - 1], now);
    }
  }

  /** The live part of an ordered history is the suffix from its first live entry on. */
  lemma {:induction false} LiveIsSuffix(h: seq<Timestamp>, now: Timestamp, first: nat)
    requires Nondecreasing(h) && first <= |h|
    requires forall i :: 0 <= i < first ==> Expired(h[i], now)
    requires first < |h| ==> !Expired(h[first], now)
    ensures Live(h, now) == h[first..]
  {
    if h != [] {
      var front, last := h[..|h| - 1], h[|h| - 1];
      assert Nondecreasing(front);
      if first == |h| {
        LiveIsSuffix(front, now, |h| - 1);
      } else {
        assert h[first] <= last;
        LiveIsSuffix(front, now, first);
        assert h[first..] == front[first..] + [last];
      }
    }
  }

  lemma {:induction false} FirstLive(h: seq<Timestamp>, now: Timestamp) returns (first: nat)
    ensures first <= |h|
    ensures forall i :: 0 <= i < first ==> Expired(h[i], now)
    ensures first < |h| ==> !Expired(h[first], now)
  {
    first := 0;
    while first < |h| && Expired(h[first], now)
      invariant first <= |h|
      invariant forall i :: 0 <= i < first ==> Expired(h[i], now)
    {
      first := first + 1;
    }
  }

  lemma LiveOfSuffix(h: seq<Timestamp>, d: nat, now: Timestamp, m: nat)
    requires Nondecreasing(h) && d <= |h| && m <= |h|
    requires forall i :: 0 <= i < m ==> Expired(h[i], now)
    requires m < |h| ==> !Expired(h[m], now)
    ensures Live(h[d..], now) == h[Max(m, d)..]
  {
    var e, k := h[d..], Max(m - d, 0);
    assert forall i :: 0 <= i < |e| ==> e[i] == h[d + i];
    if k <= |e| {
      if k < |e| {
        assert h[m] <= h[d + k];
      }
      LiveIsSuffix(e, now, k);
      assert e[k..] == h[d + k..];
    }
  }

  /** What had expired before, or was crowded out, stays accounted for when the window moves on by `m` entries. */
  lemma SuffixTracks(h: seq<Timestamp>, d: nat, latest: Timestamp, now: Timestamp, m: nat)
    requires d <= |h| && Tracks(h, h[d..], latest) && latest <= now && m <= |h|
    requires forall i :: 0 <= i < m ==> Expired(h[i], now)
    requires m < |h| ==> !Expired(h[m], now)
    ensures Tracks(h, h[Max(m, d)..], now)
    ensures |h| - Max(m, d) == Min(500, |h| - m)
  {
    assert |h[d..]| == |h| - d;
    if m < d {
      assert h[m] <= h[d - 1];
      assert !Expired(h[d - 1], latest);
      assert |h| - (d - 1) > 500;
    }
    assert forall i :: 0 <= i < d ==> Expired(h[i], latest) || |h| - i > 500;
  }

  /** Eviction keeps the index faithful to the history, and what it leaves is the recent count. */
  lemma EvictionTracks(h: seq<Timestamp>, entries: seq<Timestamp>, latest: Timestamp, now: Timestamp)
    requires Tracks(h, entries, latest) && latest <= now
    ensures Tracks(h, Live(entries, now), now)
    ensures |Live(entries, now)| == Min(500, |Live(h, now)|)
  {
    var d := |h| - |entries|;
    var m := FirstLive(h, now);
    SuffixTracks(h, d, latest, now, m);
    LiveIsSuffix(h, now, m);
    LiveOfSuffix(h, d, now, m);
  }

  lemma InsertionTracks(h: seq<Timestamp>, entries: seq<Timestamp>, latest: Timestamp, now: Timestamp)
    requires Tracks(h, entries, latest) && latest <= now
    ensures Tracks(h + [now], InsertEvict(entries, now), now)
  {
    EvictionTracks(h, entries, latest, now);
    var live := Live(entries, now);
    AppendTracks(h, live, if |live| >= CAPACITY then live[1..] else live, now);
  }

  lemma AppendTracks(h: seq<Timestamp>, live: seq<Timestamp>, kept: seq<Timestamp>, now: Timestamp)
    requires Tracks(h, live, now)
    requires if |live| == 500 then kept == live[1..] else kept == live
    ensures Tracks(h + [now], kept + [now], now)
  {
    var h', d := h + [now], |h| - |kept|;
    assert kept == h[d..];
    assert h'[d..] == kept + [now];
    forall i | 0 <= i < d ensures Expired(h'[i], now) || |h'| - i > 500 {
      assert h'[i] == h[i];
    }
  }

  lemma InOrderPrefix(uses: seq<Use>)
    requires uses != [] && InOrder(uses)
    ensures InOrder(uses[..|uses| - 1]) && NoLaterThan(uses[..|uses| - 1], uses[|uses| - 1].at)
  {
  }

  lemma {:induction false} RunTracks(uses: seq<Use>, service: SupportedRpcService, latest: Timestamp)
    requires InOrder(uses) && NoLaterThan(uses, latest)
    ensures Tracks(SuccessesOf(uses, service), Entries(Run(uses), service), latest)
  {
    if uses != [] {
      var front, last := uses[..|uses| - 1], uses[|uses| - 1];
      InOrderPrefix(uses);
      RunTracks(front, service, last.at);
      UseTracks(SuccessesOf(front, service), Run(front), last, service);
      TracksLater(SuccessesOf(uses, service), Entries(Run(uses), service), last.at, latest);
    }
  }

  lemma UseTracks(h: seq<Timestamp>, store: Store, use: Use, service: SupportedRpcService)
    requires Tracks(h, Entries(store, service), use.at)
    ensures
      var h' := h + if use.Record? && use.service == service then [use.at] else [];
      Tracks(h', Entries(After(store, use), service), use.at)
  {
    var e := Entries(store, service);
    match use
    case Record(s, at) =>
      if s == service {
        InsertionTracks(h, e, at, at);
      } else {
        assert h + [] == h;
      }
    case Rank(services, at) =>
      assert h + [] == h;
      EvictionTracks(h, e, at, at);
  }

  lemma TracksLater(h: seq<Timestamp>, entries: seq<Timestamp>, earlier: Timestamp, later: Timestamp)
    requires Tracks(h, entries, earlier) && earlier <= later
    ensures Tracks(h, entries, later)
  {
  }

  /**
   The bounded, expiring index answers as the full history would: after any run of uses in time order, what is left
   for a provider at `now` counts its successes of the last 20 minutes exactly when these are at most 500, and is
   exactly 500 otherwise.
   */
  lemma IndexRefinesHistory(uses: seq<Use>, service: SupportedRpcService, now: Timestamp)
    requires InOrder(uses) && NoLaterThan(uses, now)
    ensures
      var n := WithinWindow(SuccessesOf(uses, service), now);
      |Live(Entries(Run(uses), service), now)| == if n <= 500 then n else 500
    ensures |Live(Entries(Run(uses), service), now)| == RecentSuccesses(uses, service, now)
  {
    RunTracks(uses, service, now);
    EvictionTracks(SuccessesOf(uses, service), Entries(Run(uses), service), now, now);
    LiveCount(SuccessesOf(uses, service), now);
  }

  /** The index never holds more than 500 entries for a provider, however long the run. */
  lemma IndexIsBounded(uses: seq<Use>, service: SupportedRpcService)
    requires InOrder(uses)
    ensures |Entries(Run(uses), service)| <= 500
  {
    var latest := if uses == [] then 0 else uses[|uses| - 1].at;
    RunTracks(uses, service, latest);
  }

  ghost function RankKey(uses: seq<Use>, now: Timestamp): SupportedRpcService -> int {
    (s: SupportedRpcService) => Negated(RecentSuccesses(uses, s, now))
  }

  function Negated(n: int): int { -n }

  /** The ranking: most recent successes first, ties in the order given. */
  ghost function Ranking(uses: seq<Use>, services: seq<SupportedRpcService>, now: Timestamp): seq<SupportedRpcService> {
    Sort(services, RankKey(uses, now))
  }

  /**
   A ranking is a permutation, is non-increasing in recent successes, and leaves providers with equally many in the
   order given.
   */
  lemma RankingIsStableSort(uses: seq<Use>, services: seq<SupportedRpcService>, now: Timestamp)
    ensures
      var r, key := Ranking(uses, services, now), RankKey(uses, now);
      && multiset(r) == multiset(services)
      && (forall i, j :: 0 <= i < j < |r| ==> RecentSuccesses(uses, r[i], now) >= RecentSuccesses(uses, r[j], now))
      && SameGroups(r, services, key)
  {
    var r, key := Ranking(uses, services, now), RankKey(uses, now);
    SortCorrect(services, key);
    StableSortUnique(services, r, key);
    forall i, j | 0 <= i < j < |r| ensures RecentSuccesses(uses, r[i], now) >= RecentSuccesses(uses, r[j], now) {
      assert key(r[i]) <= key(r[j]);
    }
  }

  ghost function CountKey(uses: seq<Use>, now: Timestamp): SupportedRpcService -> int {
    (s: SupportedRpcService) =>
      var n := WithinWindow(SuccessesOf(uses, s), now);
      if n <= 500 then n else 500
  }

  lemma {:induction false} SelectByCount(uses: seq<Use>, services: seq<SupportedRpcService>, now: Timestamp, n: int)
    ensures Select(services, CountKey(uses, now), n) == Select(services, RankKey(uses, now), -n)
  {
    if services != [] {
      SelectByCount(uses, services[..|services| - 1], now, n);
    }
  }

  /** Those with equally many keep the order given. */
  lemma TiesKeepOrder(uses: seq<Use>, services: seq<SupportedRpcService>, now: Timestamp, n: int)
    ensures Select(Ranking(uses, services, now), CountKey(uses, now), n) == Select(services, CountKey(uses, now), n)
  {
    SortIsStable(services, RankKey(uses, now), -n);
    SelectByCount(uses, Ranking(uses, services, now), now, n);
    SelectByCount(uses, services, now, n);
  }

  /**
   The ranking over the number of successes of the last 20 minutes, counted up to 500: a provider with more comes
   before one with fewer, and those with equally many keep the order given.
   */
  lemma RankingByCount(uses: seq<Use>, services: seq<SupportedRpcService>, now: Timestamp)
    ensures
      var r, count := Ranking(uses, services, now), CountKey(uses, now);
      && multiset(r) == multiset(services)
      && (forall i, j :: 0 <= i < |r| && 0 <= j < |r| && count(r[i]) > count(r[j]) ==> i < j)
      && SameGroups(r, services, count)
  {
    var r, count := Ranking(uses, services, now), CountKey(uses, now);
    SortCorrect(services, RankKey(uses, now));
    forall i, j | 0 <= i < |r| && 0 <= j < |r| && count(r[i]) > count(r[j]) ensures i < j {
      if j <= i {
        RankedInOrder(uses, services, now, j, i);
      }
    }
    forall n ensures Select(r, count, n) == Select(services, count, n) {
      TiesKeepOrder(uses, services, now, n);
    }
  }

  /** When `n` providers succeeded recently, a provider without a recent success is not among the first `n`. */
  lemma FailingProviderNotSelected(
      uses: seq<Use>, services: seq<SupportedRpcService>, now: Timestamp, n: nat, p: SupportedRpcService)
    requires n <= |set s | s in services && RecentSuccesses(uses, s, now) > 0|
    requires RecentSuccesses(uses, p, now) == 0
    ensures p !in Take(Ranking(uses, services, now), n)
  {
    var r := Ranking(uses, services, now);
    var good := set s | s in services && RecentSuccesses(uses, s, now) > 0;
    if i :| 0 <= i < |Take(r, n)| && r[i] == p {
      SucceedingRankAhead(uses, services, now, i);
      SubsetCard(good, ToSet(r[..i]));
      ToSetCard(r[..i]);
    }
  }

  lemma RankedInOrder(uses: seq<Use>, services: seq<SupportedRpcService>, now: Timestamp, i: nat, j: nat)
    requires i <= j < |services|
    ensures
      var r := Ranking(uses, services, now);
      RecentSuccesses(uses, r[i], now) >= RecentSuccesses(uses, r[j], now)
  {
    SortedAt(services, RankKey(uses, now), i, j);
  }

  lemma SucceedingRankAhead(uses: seq<Use>, services: seq<SupportedRpcService>, now: Timestamp, i: nat)
    requires i < |services|
    requires RecentSuccesses(uses, Ranking(uses, services, now)[i], now) == 0
    ensures (set s | s in services && RecentSuccesses(uses, s, now) > 0) <= ToSet(Ranking(uses, services, now)[..i])
  {
    var r := Ranking(uses, services, now);
    forall s | s in services && RecentSuccesses(uses, s, now) > 0 ensures s in ToSet(r[..i]) {
      SortMembers(services, RankKey(uses, now), s);
      var j :| 0 <= j < |r| && r[j] == s;
      if i <= j {
        RankedInOrder(uses, services, now, i, j);
      }
      assert r[..i][j] == s;
    }
  }

  /** The canister's index, updated in place. `uses` remembers every use so far. */
  class SupportedRpcServiceUsage {
    var store: Store
    ghost var uses: seq<Use>

    ghost predicate Valid()
      reads this
    {
      InOrder(uses) && store == Run(uses)
    }

    /** A use at `now` would come after all earlier ones. */
    ghost predicate Timely(now: Timestamp)
      reads this
    {
      NoLaterThan(uses, now)
    }

    constructor ()
      ensures Valid() && uses == []
    {
      store := map[];
      uses := [];
    }

    method RecordEvict(service: SupportedRpcService, now: Timestamp)
      requires Valid() && Timely(now)
      modifies this
      ensures Valid() && Timely(now)
      ensures uses == old(uses) + [Record(service, now)]
    {
      store := store[service := InsertEvict(Entries(store, service), now)];
      uses := uses + [Record(service, now)];
      assert uses[..|uses| - 1] == old(uses);
    }

    /** `evict_expired`: only the keys asked for are touched. */
    method EvictExpired(services: seq<SupportedRpcService>, now: Timestamp)
      modifies this`store
      ensures store == After(old(store), Rank(services, now))
    {
      for i := 0 to |services|
        invariant store == EvictedUpTo(old(store), services, i, now)
      {
        EvictOneMore(old(store), services, i, now);
        if services[i] in store {
          store := store[services[i] := Live(store[services[i]], now)];
        }
      }
      assert services[..|services|] == services;
    }

    method RankAscendingEvict(services: seq<SupportedRpcService>, now: Timestamp)
        returns (ranked: seq<SupportedRpcService>)
      requires Valid() && Timely(now)
      modifies this
      ensures Valid() && Timely(now)
      ensures uses == old(uses) + [Rank(services, now)]
      ensures ranked == Ranking(old(uses), services, now)
    {
      EvictExpired(services, now);
      var evicted := store;
      // sort_keys_by, most entries first
      ranked := Sort(services, (s: SupportedRpcService) => Negated(|Entries(evicted, s)|));
      assert ranked == Ranking(old(uses), services, now) by {
        EvictedCountsRank(old(uses), services, evicted, now);
      }
      uses := uses + [Rank(services, now)];
      assert uses[..|uses| - 1] == old(uses);
    }
  }

  /** Sorting by what eviction left is ranking by recent successes. */
  lemma EvictedCountsRank(uses: seq<Use>, services: seq<SupportedRpcService>, evicted: Store, now: Timestamp)
    requires InOrder(uses) && NoLaterThan(uses, now)
    requires evicted == After(Run(uses), Rank(services, now))
    ensures Sort(services, (s: SupportedRpcService) => Negated(|Entries(evicted, s)|)) == Ranking(uses, services, now)
  {
    var key := (s: SupportedRpcService) => Negated(|Entries(evicted, s)|);
    forall s | s in services ensures key(s) == RankKey(uses, now)(s) {
      IndexRefinesHistory(uses, s, now);
    }
    SortCongruent(services, key, RankKey(uses, now));
  }

  ghost function EvictedUpTo(store: Store, services: seq<SupportedRpcService>, n: nat, now: Timestamp): Store
    requires n <= |services|
  {
    map s | s in store :: if s in services[..n] then Live(store[s], now) else store[s]
  }

  lemma EvictOneMore(store: Store, services: seq<SupportedRpcService>, n: nat, now: Timestamp)
    requires n < |services|
    ensures
      var before, s := EvictedUpTo(store, services, n, now), services[n];
      EvictedUpTo(store, services, n + 1, now) == if s in before then before[s := Live(before[s], now)] else before
  {
    assert services[..n + 1] == services[..n] + [services[n]];
    if services[n] in store {
      LiveIdempotent(store[services[n]], now);
    }
  }

  lemma {:induction false} LiveIdempotent(entries: seq<Timestamp>, now: Timestamp)
    ensures Live(Live(entries, now), now) == Live(entries, now)
  {
    if entries != [] {
      var front, last := entries[..|entries| - 1], entries[|entries| - 1];
      LiveIdempotent(front, now);
      var l := Live(front, now);
      if !Expired(last, now) {
        assert (l + [last])[..|l|] == l;
      } else {
        assert l + [] == l;
      }
    }
  }
}
