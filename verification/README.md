# EVM RPC canister: a verified model

The EVM RPC canister answers Ethereum JSON-RPC requests from the Internet Computer. It chooses providers, queries them
in parallel through replicated HTTPS outcalls, and reduces their answers to one result that a caller can trust as far
as the requested consensus strategy promises. This project models that path and the stored state around it in Dafny
and proves what each part promises, for every input and every run.

`dafny verify dfyconfig.toml` checks the whole project.

| module | models |
|---|---|
| `Common`, `RpcTypes`, `StableSorting` | shared values, the interface's types, and stable sorting with its characterisation |
| `ServiceUsage` | the bounded, expiring record of provider successes and the ranking it gives |
| `Selection` | validation of a consensus strategy and the choice of providers |
| `ParallelCall`, `Reduction`, `MultiRpcResults` | one result per provider, the two reductions, and the result algebra |
| `Quorum`, `Endpoint` | the guarantee across selection, reduction, reporting and conversion, and a whole Candid call |
| `CanisterRun` | any number of Candid calls at once, interleaved message by message and attempt by attempt |
| `Counters`, `HttpStack` | metric maps, and the per-attempt HTTP stack as a step machine over interleaved calls |
| `JsonRpc`, `SendRawTransaction`, `Canonicalisation` | making replicas' response bodies byte-identical |
| `HexCodec`, `Nat256` | the printers, parsers and byte forms of the interface's numbers and hex strings |
| `ApiKeys` | stored API keys and the principals who manage them, over runs of upgrades and updates |

## What the code does that its intent does not say

- **A list that repeats a provider can be accepted with too few providers.** Validation compares `min` with the length
  of the list, and the list then becomes a set (`src/rpc_client/mod.rs:196-213`). Naming Ankr three times and asking
  for three out of three is accepted and queries one provider (`Selection.RepeatedProviderAccepted`). An accepted
  configuration queries at least `min` providers exactly when the caller names no list or at least `min` different
  ones (`Selection.AcceptedThresholdCoversIff`). That much is certain. What such a call replies depends on the
  reduction, whose source is not part of this model: if it reports too few answers as inconsistent results, which is
  assumed, the single answer comes back as consistent, because mapping the conversion collapses a list of one
  (`Quorum.RepeatedProviderBreaksQuorum`); if it traps there, it does not. `Quorum.QuorumKeptIff` covers both: the
  quorum holds exactly when at least `min` providers are queried or the reduction never reports agreeing results of
  too few providers as inconsistent.
- **Eight-bit lengths.** Lengths are converted with `as u8` before they are compared. That never accepts too small a
  list; it agrees with the documented rule for every threshold exactly when the list has fewer than 256 entries
  (`Selection.SpecifiedAccepted`, `Selection.TruncationHarmlessIff`).
- **The Nethermind error parser never matches.** Its patterns contain capitals and the message has been lower-cased.
  Erigon's parser adds nothing to Go-Ethereum's either (`SendRawTransaction.ChainIsGoEthereumThenBesu`).
- **Mapping the identity is not the identity** on a `MultiRpcResult`: it collapses
  (`MultiRpcResults.MapIdentity`).

## Assumptions

The source of the `canhttp` crate is not part of this model. What is used of it is written out, from what the
repository shows of its behaviour:

- The timed map drops an entry once it is older than the window (an entry aged exactly 20 minutes stays, see
  `src/providers/tests.rs:176-210`); its capacity of 500 is per service; expired entries go first, then the oldest.
- The retry policy doubles the limit, counted from at least 1024 bytes and capped at 2,000,000, and retries only if
  that is an increase (`tests/tests.rs:2550-2628`).
- The two reductions are relations, so every statement about a reply holds for each of their outcomes. Under a threshold
  the winning value has at least `min` supporters and no other value has more; ties may be broken either way; equal
  errors never count as agreement, and when nobody answered and all errors are equal they may be reported as one error
  or as inconsistent results. When fewer than `min` providers were queried, it is assumed to report inconsistent
  results; whatever depends on this says so. Under a threshold inconsistent results carry the results of all providers.
  Under equality a value needs every provider, and inconsistent results carry any of them such that each one left out
  equals one listed.

JSON, CBOR, SHA-256 and Unicode lower-casing are parameters: a codec satisfies parse-after-print = identity where a
lemma requires it, the hash is any function to numbers, and lower-casing leaves no ASCII capital where a lemma requires
that. A `JsonRpcResponse<Hash>` is read from a response whose result is a string of "0x" and 64 hex digits. Result types
have lawful equality. Messages of the Internet Computer run atomically between awaits, roll back on a trap, and see
non-decreasing time. Metric counters are unbounded.

## Model

| member | source | states |
|---|---|---|
| `StableSorting.SortCorrect` | src/rpc_client/eth_rpc/mod.rs:143-156 | sorting permutes its input and leaves it ascending |
| `StableSorting.StableSortUnique` | src/rpc_client/eth_rpc/mod.rs:151-155 | a sequence is the stable sort of another if and only if it is ascending and keeps, key by key, the elements in their order |
| `StableSorting.OrderInsensitiveIff` | src/rpc_client/eth_rpc/mod.rs:151-155 | sorting hides the original order if and only if different elements have different keys |
| `ServiceUsage.IndexRefinesHistory` | src/providers.rs:458-495 | after any run in time order, what the index counts for a provider is the number of its successes in the full history at most 20 minutes old when that is at most 500, and 500 otherwise |
| `ServiceUsage.LiveExactly` | src/providers.rs:470-473 | what is within the window is exactly the entries at most 20 minutes old, each as often as it occurs |
| `ServiceUsage.RunTracks` | src/providers.rs:468-495 | every reachable index entry list is a suffix of the provider's full history, and everything missing has expired or is followed by 500 newer successes |
| `ServiceUsage.EvictionTracks` | src/providers.rs:489 | eviction at any later time keeps that relation and leaves exactly the recent count |
| `ServiceUsage.InsertionTracks` | src/providers.rs:476-478 | so does recording one more success |
| `ServiceUsage.IndexIsBounded` | src/providers.rs:469-474 | no run makes the index hold more than 500 entries for a provider |
| `ServiceUsage.RankingIsStableSort` | src/providers.rs:480-494 | the ranking is a permutation, non-increasing in recent successes, and keeps ties in the order supplied |
| `ServiceUsage.RankingByCount` | src/providers.rs:480-494 | over that number itself: a provider with more comes before one with fewer, and those with equally many keep the order supplied |
| `ServiceUsage.FailingProviderNotSelected` | src/rpc_client/mod.rs:188-192 | when n providers succeeded recently, one without a recent success is not among the first n |
| `ServiceUsage.SupportedRpcServiceUsage.RecordEvict` | src/providers.rs:476-478 | the index stays the one its history of uses gives, with one success more |
| `ServiceUsage.SupportedRpcServiceUsage.RankAscendingEvict` | src/providers.rs:480-494 | ranking by what eviction left stored returns the ranking of the full history |
| `Selection.SpecifiedAccepted` | src/rpc_client/mod.rs:196-213 | a threshold over a list is accepted if and only if the eight-bit rule holds, and then 0 < min <= list length for every length |
| `Selection.TruncationHarmlessIff` | src/rpc_client/mod.rs:197-205 | acceptance is the documented rule for every threshold if and only if the list has fewer than 256 entries |
| `Selection.DefaultsAccepted` | src/rpc_client/mod.rs:167-195 | with default providers acceptance is exactly 0 < min <= total <= number supported, and exactly `total` providers result |
| `Selection.RankedAreDistinct` | src/rpc_client/mod.rs:188-193 | taking n of any ranking gives min(n, supported) different providers |
| `Selection.ChosenProviders` | src/rpc_client/mod.rs:141-218 | an accepted choice is exactly the listed providers, or the number asked for, none with fewer recent successes than one left out |
| `Selection.ChoiceIsOffered` | src/rpc_client/mod.rs:75-137 | an accepted choice is on the source's own network: exactly the services named, or default providers of that network |
| `Selection.UnusedDefaults` | src/providers.rs:394-444 | while no provider of a network has a recent success, a default call queries its first ones by name: three under equality, `total` under a threshold |
| `Selection.RefusalsTruthful` | src/rpc_client/mod.rs:130-215 | every refusal says something true of the configuration, with the numbers it compares |
| `Selection.AcceptedThresholdCoversIff` | src/rpc_client/mod.rs:158-215 | an accepted threshold queries at least `min` providers if and only if no list or at least `min` different providers were named |
| `Selection.AcceptedListCovers` | src/rpc_client/mod.rs:196-213 | an accepted list without repetition is queried in full and has at least `min` members |
| `Selection.RepeatedProviderAccepted` | src/rpc_client/mod.rs:196-213 | the concrete input that passes a three-out-of-three validation with one provider |
| `Selection.ChooseProviders` | src/rpc_client/mod.rs:141-218 | the method against the live index returns the specified choice or error, the duplicate assertion holds, and only an accepted default choice touches the index |
| `Selection.New` | src/rpc_client/mod.rs:70-138 | for every source, the specified choice from the live index, refused when empty, on the source's own network, with the same effect on the index |
| `Reduction.MostFrequent` | src/rpc_client/mod.rs:440-447 | finds an answer no other has more supporters than, and their number |
| `Reduction.Reduce` | src/rpc_client/mod.rs:429-447 | every strategy has an allowed outcome on all results |
| `Reduction.OutcomeExists` | src/rpc_client/mod.rs:429-447 | the relation allows some outcome on all results, for every threshold and for equality |
| `MultiRpcResults.MapIsAndThen` | evm_rpc_types/src/result/mod.rs:24-66 | an infallible map is a fallible map that never fails |
| `MultiRpcResults.AndThenExactly` | evm_rpc_types/src/result/mod.rs:47-86 | what a link does to every result: its provider and place stay, failures pass unchanged, and the list collapses exactly when all came out the same |
| `MultiRpcResults.AndThenAssociative` | evm_rpc_types/src/result/mod.rs:47-66 | chaining is associative although each link may collapse |
| `MultiRpcResults.MapComposes` | evm_rpc_types/src/result/mod.rs:24-43 | mapping twice is mapping the composition |
| `MultiRpcResults.CollapseIdempotent` | evm_rpc_types/src/result/mod.rs:69-87 | collapsing twice is collapsing once |
| `MultiRpcResults.MapIdentity` | evm_rpc_types/src/result/mod.rs:69-87 | mapping the identity is collapse; it changes nothing if and only if the value is consistent or its results do not all match |
| `MultiRpcResults.MapConsistentIff` | evm_rpc_types/src/result/mod.rs:24-87 | a mapped list becomes consistent with r if and only if it is not empty and every result maps to r |
| `MultiRpcResults.MapOrderIrrelevant` | evm_rpc_types/src/result/mod.rs:73-86 | the order of results decides neither whether they collapse nor to what |
| `Quorum.ConsistentReplyIff` | src/candid_rpc/mod.rs:16-45 | a reply is consistent with w if and only if the reduction chose a value converting to w, or reported inconsistent results, there are providers, and every one's answer converts to w |
| `Quorum.ReportedCollapseIff` | src/candid_rpc/mod.rs:21-42 | reported results collapse to r if and only if there are providers and every provider's result converts to r |
| `Quorum.ReplyMeans` | src/candid_rpc/mod.rs:16-45 | an inconsistent reply names each reported provider once and no other, with its own converted value or own error; an error reply is what every provider gave |
| `Quorum.ThresholdQuorum` | src/candid_rpc/mod.rs:16-175 | with at least `min` providers queried, a consistent reply is backed by at least `min` different providers, through conversion and collapse |
| `Quorum.EqualityQuorum` | evm_rpc_types/src/rpc_client/mod.rs:60-62 | under equality it is backed by every provider |
| `Quorum.QuorumKeptIff` | evm_rpc_types/src/rpc_client/mod.rs:64-74 | for every reduction within the relation, whatever it does with too few answers: the quorum is kept if and only if at least `min` providers are queried or it never reports agreeing results as inconsistent |
| `Quorum.QuorumGuaranteedIff` | evm_rpc_types/src/rpc_client/mod.rs:64-74 | under the reduction as assumed, which reports too few answers as inconsistent results, no outcome can break the quorum if and only if at least `min` providers are queried |
| `Quorum.ConfigurationQuorumIff` | src/rpc_client/mod.rs:158-215 | from the configuration, under the reduction as assumed: the quorum is guaranteed if and only if no list or at least `min` different providers were named (the "if" half needs no assumption) |
| `Quorum.DuplicateFreeQuorum` | src/rpc_client/mod.rs:196-213 | a duplicate-free list that is accepted guarantees it |
| `Quorum.RepeatedProviderBreaksQuorum` | src/rpc_client/mod.rs:196-213 | a concrete accepted configuration, and a reply that the reduction as assumed then allows, in which one provider's word passes for three |
| `Quorum.UnderfilledThresholdReplies` | evm_rpc_types/src/result/mod.rs:73-86 | if too few answers are reported as inconsistent results, which is assumed, the unanimous answer of fewer than `min` providers comes back as consistent |
| `Quorum.AgreementOutweighsDeviation` | src/rpc_client/mod.rs:424-448 | when more providers agree on a converted answer than deviate from a raw one, it is that one's conversion |
| `Quorum.FaultBound` | src/rpc_client/mod.rs:424-448 | when fewer than `min` providers deviate from a raw value, every consistent answer is its conversion |
| `Quorum.MajorityPrevails` | src/rpc_client/mod.rs:424-448 | a raw value with at least `min` supporters, more than the providers that deviate from it, is the only possible reply |
| `Quorum.ValueDeterminedIff` | src/rpc_client/mod.rs:429-437 | the threshold alone settles the value, without tie-breaking, if and only if 2 * min exceeds the number queried |
| `Quorum.ReplyDetermined` | src/candid_rpc/mod.rs:16-45 | when 2 * min exceeds the number queried, one consistent reply (a value or an error) rules out every other reply |
| `Quorum.ErrorReportInvisible` | src/candid_rpc/mod.rs:20-42 | the two ways of reporting equal errors give the same final reply |
| `Quorum.ReplyExists` | src/candid_rpc/mod.rs:16-45 | every set of results gets some reply, under every strategy |
| `ParallelCall.ResolvedIsCredited` | src/providers.rs:323-388 | resolving a service and crediting its success agree on the table entry |
| `ParallelCall.IdentifierResolves` | src/providers.rs:323-379 | a custom service resolves to itself, an identifier to its entry and that entry's alias, or is not found |
| `ParallelCall.NameResolves` | src/providers.rs:336-387 | a supported provider is credited to itself and resolves to the entry with that alias, or is reported missing |
| `ParallelCall.ResultBecomes` | src/rpc_client/mod.rs:288-317 | each provider's result is its resolution error, else the error of building its request, else its reply |
| `ParallelCall.Query` | src/rpc_client/mod.rs:267-330 | exactly one result per provider: its resolution error, the error of building its request, or its reply; successes are recorded for exactly the answering supported providers |
| `ParallelCall.Perform` | src/rpc_client/mod.rs:287-317 | setting errors aside, collecting replies in any order and adding the errors yields every provider's own result |
| `ParallelCall.RecordedExactly` | src/rpc_client/mod.rs:319-323 | recording adds to each provider's history one success per answering service credited to it, and nothing else |
| `ParallelCall.CountedOnce` | src/candid_rpc/mod.rs:23-40 | counting over a listing gives the number of different providers at each host |
| `ParallelCall.ListedOnce` | src/candid_rpc/mod.rs:22-40 | a listing of reported results counts each provider once, under its host |
| `ParallelCall.CountedHostExactly` | src/candid_rpc/mod.rs:24-38 | a table entry is counted under its host or as unknown, and nothing else is counted |
| `ParallelCall.InconsistencyMetrics.ProcessResult` | src/candid_rpc/mod.rs:16-45 | returns the value, the common error or the listing as it is; inconsistent results raise the counter of each listed provider's host once under the method, and no other counter |
| `Endpoint.List` | src/candid_rpc/mod.rs:22 | the listing holds every provider's result once |
| `Endpoint.Call` | src/candid_rpc/mod.rs:47-175 | a whole call running alone: refused configurations give that error; otherwise a value has the backing its strategy promises, a list names the reported providers with their own results, an error is what all gave, the index gains the ranking and one success per answering provider, and each provider reported inconsistent is counted |
| `Endpoint.RepliesAreBacked` | src/candid_rpc/mod.rs:47-175 | every possible reply has that backing |
| `Endpoint.ConductedIsBacked` | src/candid_rpc/mod.rs:47-175 | however an accepted call goes, a consistent answer has the backing that the caller can read off the configuration |
| `Endpoint.ConductedMeans` | src/candid_rpc/mod.rs:16-175 | however a call goes, its reply tells what the providers gave |
| `CanisterRun.RunKeepsInvariant` | src/rpc_client/mod.rs:267-330 | any interleaving of any calls' messages and attempts keeps the index faithful, every call sound and both balances |
| `CanisterRun.EveryReplyBacked` | src/rpc_client/mod.rs:267-330 | in every run a consistent reply has its backing, and each provider behind it got an HTTP response within 2,000,000 bytes |
| `CanisterRun.EveryReplyMeans` | src/rpc_client/mod.rs:286-329 | in every run each provider's result is that of its own outcall, to its host with the call's method, or the error that kept it from having one; and the reply tells those results |
| `CanisterRun.OutcallsNeverShared` | src/rpc_client/mod.rs:286-316 | in every run each outcall belongs to one provider of one call |
| `CanisterRun.EveryCallChoseBest` | src/rpc_client/mod.rs:141-218 | in every run a call queries what it lists, or the providers of its network with the most recent successes in the full history before it |
| `CanisterRun.IndexStaysFaithful` | src/memory.rs:136-147 | in every run the stored index counts what the full history of all calls' successes would |
| `CanisterRun.SuccessesConserved` | src/rpc_client/mod.rs:318-323 | each provider's successes are exactly the answers of calls that replied: none lost, none recorded twice |
| `CanisterRun.ReportsConserved` | src/candid_rpc/mod.rs:23-40 | each counter of inconsistent responses is the sum of what calls that replied have reported |
| `CanisterRun.ReportsArePerProvider` | src/candid_rpc/mod.rs:23-40 | and each such call reported each of its inconsistent providers once, under its host |
| `CanisterRun.OutcallMetricsConserved` | src/http.rs:107-205 | the HTTP metrics balance with the outcalls of all calls interleaved |
| `CanisterRun.AttemptsOfCallBounded` | src/rpc_client/mod.rs:305-316 | a call makes at most twelve attempts per provider queried, over all its outcalls |
| `CanisterRun.CanFinish` | src/rpc_client/mod.rs:315-329 | once its outcalls have ended a call can finish: some reply is always possible |
| `Counters.SumAddEntry` | src/metrics.rs:12-25 | bumping one counter changes a sum over labels by exactly the amount, if its label is summed |
| `HttpStack.RunKeepsInvariant` | src/http.rs:84-216 | any interleaving of calls keeps every counter, limit, tally and identifier consistent |
| `HttpStack.CountersExact` | src/http.rs:107-205 | each counter, per status and per code, is the number of attempts it is meant to count |
| `HttpStack.MetricsConserved` | src/http.rs:107-205 | per method and host, requests = responses + oversized + rejections + unobserved errors + in flight |
| `HttpStack.AttemptsPartition` | src/http.rs:126-204 | the ways an attempt can stand are exhaustive and exclusive |
| `HttpStack.AttemptExactly` | src/http.rs:92-105 | every attempt of every run carries exactly the identifier and the size limit due to it |
| `HttpStack.SettleExactly` | src/http.rs:92-96 | an outcome goes to its own attempt, and the call tries again exactly when it may, was told too large, and is below 2,000,000 |
| `HttpStack.StartAcceptedIff` | src/rpc_client/eth_rpc/mod.rs:111-116 | an estimate is accepted if and only if it is 1 to 1,997,952 |
| `HttpStack.BeginsAppend` | src/rpc_client/mod.rs:288-316 | begun calls have exactly the key, the body's identifier and the start given |
| `HttpStack.LimitExactly` | src/http.rs:92-96 | from any start the n-th retry asks for the larger of start and 1024, doubled n times, capped at 2,000,000 |
| `HttpStack.LimitFromSmall` | src/http.rs:92-96 | from an estimate up to 1024 the n-th retry asks for min(1024 * 2^n, 2,000,000) |
| `HttpStack.LimitBounds` | src/rpc_client/eth_rpc/mod.rs:26-30 | from any start the limits at least double from 1024 and never exceed 2,000,000 |
| `HttpStack.AtMostElevenIncreases` | src/http.rs:92-96 | at most eleven increases are possible, and from a small start all eleven happen |
| `HttpStack.RetriesBounded` | src/http.rs:92-105 | in any run a call makes at most twelve attempts with strictly increasing limits within 2,000,000 |
| `HttpStack.AttemptsBounded` | src/http.rs:92-105 | n retrying calls together make at most 12 n attempts |
| `HttpStack.RunExtends` | src/http.rs:92-205 | later steps of any calls never change what a settled call ended with |
| `HttpStack.SettledCallAccount` | src/http.rs:92-205 | a settled call of k attempts was oversized k or k-1 times, k exactly when its last attempt was, and then at the cap |
| `HttpStack.FixedSizeIff` | src/http.rs:92-105 | against responses of one size a call fails for size if and only if the size exceeds 2,000,000 |
| `HttpStack.RequestIdsCollideIff` | src/memory.rs:114-122 | two attempts share an identifier if and only if the number handed out between them is a multiple of 2^64; never within 2^64 |
| `HttpStack.HttpClient.NextRequestId` | src/memory.rs:114-122 | hands out the counter and advances it modulo 2^64 |
| `HttpStack.HttpClient.SendAttempt` | src/http.rs:97-125 | in place, one send step of the machine |
| `HttpStack.HttpClient.SettleAttempt` | src/http.rs:126-205 | in place, one settling step of the machine |
| `HexCodec.ParsePrint` | evm_rpc_types/src/lib.rs:131-216 | every value of every kind parses back from its print |
| `HexCodec.PrintExactly` | evm_rpc_types/src/lib.rs:138-143 | a print is "0x" and two lower-case base-16 digits per byte, the high half first |
| `HexCodec.PrintParse` | evm_rpc_types/src/lib.rs:131-216 | printing what was parsed is the input with lower-case digits, a lone byte digit padded |
| `HexCodec.ParseAcceptsIff` | evm_rpc_types/src/lib.rs:183-194 | exactly "0x" and the right number of hex digits is accepted |
| `HexCodec.ParseErrorsExactly` | evm_rpc_types/src/lib.rs:186-193 | a missing prefix is told apart from digits that do not fit |
| `HexCodec.SameValueIff` | evm_rpc_types/src/lib.rs:183-271 | two accepted strings mean the same value if and only if they agree up to case and padding |
| `Nat256.TryFromIff` | evm_rpc_types/src/lib.rs:102-112 | a number is accepted if and only if it is below 2^256, and kept |
| `Nat256.IntoBeBytes` | evm_rpc_types/src/lib.rs:65-75 | fills a fresh array with the padded bytes, and the length assertion holds |
| `Nat256.IntoExactly` | evm_rpc_types/src/lib.rs:65-75 | byte i of the 32 is the value divided by 256 to the 31 - i, modulo 256 |
| `Nat256.FromInto` | evm_rpc_types/src/lib.rs:65-80 | every value is recovered from its 32 bytes |
| `Nat256.IntoFrom` | evm_rpc_types/src/lib.rs:65-80 | every 32 bytes are recovered from their value |
| `Nat256.PaddingKeepsValue` | evm_rpc_types/src/lib.rs:73 | left padding keeps the value |
| `SendRawTransaction.NethermindNeverMatches` | src/rpc_client/eth_rpc_error/mod.rs:66-91 | the Nethermind parser answers nothing on any error |
| `SendRawTransaction.ChainIsGoEthereumThenBesu` | src/rpc_client/eth_rpc_error/mod.rs:149-178 | for every code and message the four parsers answer as Go-Ethereum's, then Besu's |
| `SendRawTransaction.AlreadyKnownIff` | src/rpc_client/eth_rpc_error/mod.rs:40-178 | exactly which errors are taken to mean the transaction is known |
| `SendRawTransaction.OtherClassesIff` | src/rpc_client/eth_rpc_error/mod.rs:40-178 | exactly which errors mean missing funds, a low nonce and a high nonce |
| `SendRawTransaction.VerdictNames` | src/rpc_client/eth_rpc_error/mod.rs:193-223 | each result name is written for its own class only, and an unrecognised error stays itself |
| `SendRawTransaction.HashParses` | src/rpc_client/json/mod.rs:36-48 | a text is read as a hash if and only if it is "0x" and 64 hex digits |
| `SendRawTransaction.SameBytesIff` | src/rpc_client/eth_rpc_error/mod.rs:183-230 | two readable bodies become the same bytes if and only if they have the same id and verdict |
| `SendRawTransaction.SanitizedExactly` | src/rpc_client/eth_rpc_error/mod.rs:183-230 | a readable body keeps its id and says its verdict; one that does not parse, or whose result is no hash, is left alone |
| `SendRawTransaction.SentConverges` | src/rpc_client/eth_rpc_error/mod.rs:183-230 | a body becomes the common success form if and only if it is a hash or an already-known error for that id, or that form itself |
| `SendRawTransaction.SanitizingIdempotent` | src/rpc_client/eth_rpc_error/mod.rs:183-230 | sanitising twice is sanitising once, on any bytes |
| `SendRawTransaction.NamesAreNotHashes` | src/rpc_client/json/responses.rs:295-301 | no sanitised result reads as a transaction hash |
| `Canonicalisation.RedactedSameIff` | src/rpc_client/eth_rpc/mod.rs:51-62 | readable bodies become identical if and only if they parse to the same response |
| `Canonicalisation.LogsConvergeIff` | src/rpc_client/eth_rpc/mod.rs:64-80 | log bodies become identical if and only if they have the same id and the same entries in any order, given injective hashes on the entries |
| `Canonicalisation.ReplicasAgreeIff` | src/rpc_client/eth_rpc/mod.rs:64-80 | all orders of some entries print the same bytes if and only if the hash is injective on them |
| `Canonicalisation.LogsPreserved` | src/rpc_client/eth_rpc/mod.rs:64-80 | the rewritten body parses to the same entries, sorted by hash |
| `Canonicalisation.TransformConverges` | src/rpc_client/eth_rpc/mod.rs:49-92 | case by case, when the transform makes two readable bodies identical: log entries up to order, the others if and only if they parse alike |
| `Canonicalisation.TransformKeeps` | src/rpc_client/eth_rpc/mod.rs:49-92 | case by case, a readable body keeps its response, log entries ascending by hash, and an unreadable one is left alone |
| `Canonicalisation.TransformedSent` | src/rpc_client/eth_rpc/mod.rs:87-89 | the transform of a sent transaction's reply is the common success form if and only if the reply means sent, or is that form |
| `Canonicalisation.TransformIdempotent` | src/rpc_client/eth_rpc/mod.rs:49-92 | every transform is idempotent on any bytes |
| `Canonicalisation.FindPlace` | src/rpc_client/eth_rpc/mod.rs:151-155 | finds the stable insertion point in a prefix |
| `Canonicalisation.SortByHash` | src/rpc_client/eth_rpc/mod.rs:143-156 | sorts the slice in place to its stable sort by hash |
| `Canonicalisation.HttpResponse.Apply` | src/rpc_client/eth_rpc/mod.rs:49-92 | rewrites the body in place as its transform specifies |
| `Canonicalisation.HttpResponse.Cleanup` | src/rpc_client/eth_rpc/mod.rs:94-106 | drops all headers and rewrites the body only of a successful response with a readable context |
| `ApiKeys.BatchIsLastWriteWins` | src/main.rs:278-294 | a batch goes through if and only if each element would, and then each key is what the last element about it says |
| `ApiKeys.LastWriteIs` | src/main.rs:278-294 | an element with none after it about the same provider is that provider's last |
| `ApiKeys.WriteAllSound` | src/main.rs:278-294 | a batch keeps every stored key valid and owned by an authenticated provider |
| `ApiKeys.RunSound` | src/main.rs:256-327 | over any run, stored keys are sound, the managing principals are those last set, and a stored override compiles, so resolving a URL cannot fail on it |
| `ApiKeys.StoredKeysSound` | src/main.rs:278-291 | over any run, a stored identifier is that of an authenticated entry of the table, and its key has 1 to 200 characters, each a letter, digit or one of seven marks |
| `ApiKeys.BatchEffect` | src/main.rs:256-295 | over any run, exactly when a batch takes effect, in those terms, and what each key then is |
| `ApiKeys.ValidApiKeyIff` | src/validate.rs:3-16 | exactly which keys are valid |
| `ApiKeys.SettingsAreLastSet` | src/main.rs:308-327 | every other setting is what the last upgrade that gave it and went through has set, or its default |
| `ApiKeys.KeysChangeOnlyByAuthorisedBatch` | src/main.rs:38-45 | a key changes only by an authorised batch that goes through whole, to its last write |
| `ApiKeys.Canister.SetApiKeyPrincipals` | src/memory.rs:66-77 | emptying and refilling leaves exactly the new principals |
| `ApiKeys.Canister.HandlePostUpgrade` | src/main.rs:308-327 | an upgrade stores each setting it is given and keeps the others and the keys, or rolls back altogether |
| `ApiKeys.Canister.HandleUpdateApiKeys` | src/main.rs:256-295 | accepts exactly an authorised batch whose every element names a provider that needs a key and gives a well-formed one or none; the loop, with its guard and the rollback of a trap, is the specified step |

## Left out

- Async and tower machinery, HTTP transport, the response-id filter, request conversion and Candid encoding.
- `Endpoint.Call`: one call runs alone here between choosing and recording, in place; calls that interleave are
  `CanisterRun`, on values.
- `CanisterRun.CanFinish`: nothing says that an outcall ends, which is up to the provider and the Internet Computer.
- `HttpStack.FixedSizeIff`: the provider's response size is fixed over the attempts of the call, as stated.
- Cycles charging and its collateral, and `request_cost`: the price formula is not part of this model.
- `From<HttpClientError> for RpcError`: a field-by-field translation; a provider's reply is any result here.
- The text of configuration messages; each is one constructor of `ConfigFault`.
- The provider table's entries, URLs, host parsing and the application of URL patterns; a table is any list of entries
  with distinct ids and aliases, and which patterns compile is a parameter. A custom header that is not valid HTTP traps
  the call; such calls have no step here.
- The chain a source belongs to, and the logs and metrics endpoints.
- Field conversions between the JSON-RPC and Candid types: the conversion is any pure function. NaN in `FeeHistory`
  would break lawful equality and is excluded.
- The block-range guard of `eth_getLogs`, one branch before the call; the `request` endpoint's JSON passthrough.
- Wrap-around of metric counters, and all storage limits of stable memory.
- The client builder crate and the Motoko library.
