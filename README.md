# Gas sufficiency and gas refuel in the LI.FI widget

This project models two hooks of the LI.FI widget that decide whether the user holds enough
native gas token for a cross-chain route.

- **The gas-sufficiency query** (`useGasSufficiency`, the body of its `queryFn`). It first works
  out whether the route embeds an LI.Fuel refuel sub-step. It drops finished (`DONE`) steps.
  It folds the rest into a dictionary keyed by chain id: each step adds its summed gas costs,
  unless the wallet connector is Safe or the step starts on the refuelled destination chain, and
  then its summed non-included fee costs. When the route sends the source bucket's own token, it
  sets that bucket's `tokenAmount` to gas plus the amount sent. Given balances, it checks the
  buckets of the route's source and destination chains and returns the ones marked insufficient,
  in the order `Object.values` lists them.
- **The refuel recommender** (`useGasRefuel`). Refuel is offered when none of five guards applies
  (same chain, no available recommendation, no recommended amount, no native-token balance, a
  cross-ecosystem transfer without a destination address) and the destination balance is below half
  the recommended amount. The hook returns that decision together with the recommendation's
  availability, the destination chain and the refuel's source amount.

Modules:

- `Wrappers`: `Option` and `Result`.
- `Lifi`: the SDK records (tokens, chains, steps, routes, balances).
- `NumericRecord`: a JavaScript object with numeric keys. It holds its entries plus the order in
  which keys were first created. A write to an existing key keeps the key's place, so the reduced
  dictionary lists its chains in the order a write first lands on each of them. `Object.values`
  lists array-index keys (below 2^32 − 1) in ascending order first, then the other keys in creation
  order (section 10.1.11.1 of ECMA-262, OrdinaryOwnPropertyKeys). This matters because some LI.FI
  chain ids, Solana's among them, are above 2^32.
- `GasCosts`: the aggregation. `Group` is the reduce, and `Aggregate` adds the native-token
  adjustment. `Total` and `LastToken` are a separate description of each bucket, chain by chain.
  A bucket is a `GasCostEntry`: the hook's `GasSufficiency` interface, renamed so that it does not
  clash with the module of that name.
- `GasSufficiency`: the evaluation. `CheckGasSufficiency` is the `queryFn` written as the hook's
  TypeScript code writes it: a loop over the steps updating one dictionary, the in-place adjustment, and the
  `forEach` over the two chain ids. It is proved to compute the functional `QueryResult`. `Report`
  is a separate description of what the query returns.
- `GasRefuel`: the recommender. It is pure, as the hook's own computation is.

When a pending step's gas counts and its `gasCosts` array is present but empty, destructuring
`gasCosts[0]` throws a `TypeError` and the query rejects. `QueryError.NoGasCostToken` models that
rejection.

## Model

| member | source | states |
|---|---|---|
| `NumericRecord.Put` | packages/widget/src/hooks/useGasSufficiency.ts:56-61 | Assigning a key keeps every key listed once and sets the entry. A new key is appended to the creation order; an existing key keeps its place. |
| `NumericRecord.FirstOccurrencesOrder` | packages/widget/src/hooks/useGasSufficiency.ts:56-82 | Listing the elements of a sequence once each, in order of first occurrence, orders any two of them as their first occurrences are ordered. |
| `NumericRecord.Values` | packages/widget/src/hooks/useGasSufficiency.ts:137 | `Object.values` lists the value of every key and nothing else. |
| `NumericRecord.EnumerationOrder` | packages/widget/src/hooks/useGasSufficiency.ts:137 | The `Object.values` key order lists every key of the object exactly once. |
| `NumericRecord.EnumerationOrderRespects` | packages/widget/src/hooks/useGasSufficiency.ts:137 | Two keys are listed in this order: an array index before a non-index; two indices ascending; two non-indices in creation order. |
| `NumericRecord.ValuesAlongHas` | packages/widget/src/hooks/useGasSufficiency.ts:137 | Every present key contributes its value to `Object.values`. |
| `NumericRecord.ValuesAlongFrom` | packages/widget/src/hooks/useGasSufficiency.ts:137 | Every listed value is the entry of some key. |
| `GasCosts.IncludedSteps` | packages/widget/src/hooks/useGasSufficiency.ts:31-32 | The `flatMap` holds exactly the included steps of some step. |
| `GasCosts.HasRefuelStep` | packages/widget/src/hooks/useGasSufficiency.ts:31-33 | True exactly when some step embeds an included step whose tool is `lifuelProtocol`. |
| `GasCosts.PendingSteps` | packages/widget/src/hooks/useGasSufficiency.ts:37 | Keeps exactly the steps that have no execution or whose status is not `DONE`. |
| `GasCosts.PendingStepsAppend` | packages/widget/src/hooks/useGasSufficiency.ts:37 | The step filter distributes over concatenation, so it keeps route order and multiplicity. |
| `GasCosts.NonIncluded` | packages/widget/src/hooks/useGasSufficiency.ts:68-71 | The fee filter keeps no more fees than it is given, and its result is empty exactly when every fee is marked included. |
| `GasCosts.NonIncludedAppend` | packages/widget/src/hooks/useGasSufficiency.ts:68-70 | The fee filter distributes over concatenation, so it keeps order and multiplicity. |
| `GasCosts.NonIncludedFirst` | packages/widget/src/hooks/useGasSufficiency.ts:68-72 | The first fee kept by the filter is the first fee not marked included. |
| `GasCosts.NonIncludedKeeps` | packages/widget/src/hooks/useGasSufficiency.ts:68-70 | The fee filter keeps exactly the fee costs not marked included. |
| `GasCosts.GasCostSum` | packages/widget/src/hooks/useGasSufficiency.ts:51-54 | The summed gas costs are at least each single cost. |
| `GasCosts.GasCostSumAppend` | packages/widget/src/hooks/useGasSufficiency.ts:51-54 | The gas sum is additive over concatenation, so the left-to-right `reduce` from `0n` gives the same total. |
| `GasCosts.FeeCostSum` | packages/widget/src/hooks/useGasSufficiency.ts:73-76 | The summed fee costs are at least each single fee. |
| `GasCosts.FeeCostSumAppend` | packages/widget/src/hooks/useGasSufficiency.ts:73-76 | The fee sum is additive over concatenation. |
| `GasCosts.GasWrite` | packages/widget/src/hooks/useGasSufficiency.ts:45-54 | A step writes gas exactly when its gas counts and its `gasCosts` array is not empty, under the token of the first gas cost. |
| `GasCosts.FeeWrite` | packages/widget/src/hooks/useGasSufficiency.ts:68-76 | A step writes fees exactly when one of its fee costs is not marked included, under the token of the first such fee. |
| `GasCosts.AddWrite` | packages/widget/src/hooks/useGasSufficiency.ts:56-82 | A write keeps the dictionary well formed. It appends its chain to the key order when the chain has no bucket yet, and otherwise leaves the key order alone. |
| `GasCosts.Group` | packages/widget/src/hooks/useGasSufficiency.ts:36-88 | The grouped dictionary is well formed whenever the reduce does not throw. |
| `GasCosts.Aggregate` | packages/widget/src/hooks/useGasSufficiency.ts:31-97 | The dictionary before the balances are fetched is well formed. |
| `GasCosts.GroupFailsIffSomeStepThrows` | packages/widget/src/hooks/useGasSufficiency.ts:45-50 | The reduce throws if and only if some pending step's gas counts and its `gasCosts` array is empty. |
| `GasCosts.GroupFailurePersists` | packages/widget/src/hooks/useGasSufficiency.ts:38-88 | Once a prefix of the steps throws, the whole reduce throws. |
| `GasCosts.GroupLastStepFails` | packages/widget/src/hooks/useGasSufficiency.ts:38-88 | The last step makes the reduce throw exactly when an earlier step did or the last step itself throws. |
| `GasCosts.GroupSnoc` | packages/widget/src/hooks/useGasSufficiency.ts:38-86 | One more step applies the callback's effect to the dictionary built so far. |
| `GasCosts.AddWriteAt` | packages/widget/src/hooks/useGasSufficiency.ts:56-61 | A write creates or extends only its own chain's bucket: the amounts add and the token is replaced. |
| `GasCosts.ApplyStepMatches` | packages/widget/src/hooks/useGasSufficiency.ts:44-83 | One step keeps the dictionary equal to the per-chain totals and last tokens. |
| `GasCosts.ApplyStepMatchesAt` | packages/widget/src/hooks/useGasSufficiency.ts:44-83 | The same for the bucket of one chain: after the step it has its new total and last token, and exists exactly if something has landed on that chain. |
| `GasCosts.GroupMatchesTotals` | packages/widget/src/hooks/useGasSufficiency.ts:36-88 | Each bucket holds the sum of everything that lands on its chain and the last token that landed there; a bucket exists exactly for chains something lands on. |
| `GasCosts.TotalAppend` | packages/widget/src/hooks/useGasSufficiency.ts:38-88 | The per-chain total of the steps plus one step is the old total plus that step's share. |
| `GasCosts.NoWriteNoTotal` | packages/widget/src/hooks/useGasSufficiency.ts:56-61 | A chain nothing lands on has total 0. |
| `GasCosts.LastTokenOnChain` | packages/widget/src/hooks/useGasSufficiency.ts:56-82 | The token a bucket ends with belongs to that bucket's chain. |
| `GasCosts.GroupKeys` | packages/widget/src/hooks/useGasSufficiency.ts:38-88 | The reduced dictionary's keys are the chains in the order a write first lands on each of them. |
| `GasCosts.GroupKeyOrder` | packages/widget/src/hooks/useGasSufficiency.ts:38-88 | Of two chains in the reduced dictionary, the one a write lands on first was created first. |
| `GasCosts.MarkNativeTransfer` | packages/widget/src/hooks/useGasSufficiency.ts:92-97 | The adjustment adds no bucket, removes none, and keeps the key order. |
| `GasCosts.AggregateKeys` | packages/widget/src/hooks/useGasSufficiency.ts:36-97 | The query's dictionary keeps the first-landing key order of the reduce. |
| `GasCosts.MarkNativeTransferAt` | packages/widget/src/hooks/useGasSufficiency.ts:92-97 | The adjustment sets `tokenAmount` to gas plus `fromAmount` on the source-chain bucket, only when its token address is the sent token's. No other bucket changes and no bucket is added. |
| `GasCosts.AggregateBuckets` | packages/widget/src/hooks/useGasSufficiency.ts:36-97 | Each bucket: gas amount is the chain's total; token is the last token written and lies on that chain; no verdict yet. `tokenAmount` is set exactly on the source-chain bucket whose token address is the sent token's, and then equals gas plus `fromAmount`. |
| `GasCosts.AggregateFails` | packages/widget/src/hooks/useGasSufficiency.ts:36-50 | The query rejects if and only if some pending step has a counted but empty `gasCosts` array. |
| `GasCosts.NoPendingSteps` | packages/widget/src/hooks/useGasSufficiency.ts:37 | Without unfinished steps nothing is left to reduce. |
| `GasCosts.AllDoneCostsNothing` | packages/widget/src/hooks/useGasSufficiency.ts:36-97 | A route whose steps are all `DONE` yields the empty dictionary. |
| `GasCosts.SafeConnectorCountsFeesOnly` | packages/widget/src/hooks/useGasSufficiency.ts:45-83 | With the Safe connector the reduce never throws, and every chain's total is its non-included fees alone. |
| `GasCosts.SkippedStepAddsFeesOnly` | packages/widget/src/hooks/useGasSufficiency.ts:41-83 | A step skipped by the Safe connector or the refuel rule cannot throw and adds only its non-included fees. |
| `GasCosts.SkippedGasCostsIgnored` | packages/widget/src/hooks/useGasSufficiency.ts:31-49 | Replacing a skipped step's gas costs by anything leaves the dictionary unchanged. |
| `GasCosts.NonIncludedSkipsIncluded` | packages/widget/src/hooks/useGasSufficiency.ts:68-70 | An included fee inserted anywhere in a fee list is dropped by the filter. |
| `GasCosts.IncludedFeeIgnored` | packages/widget/src/hooks/useGasSufficiency.ts:68-83 | Adding an included fee to any step that lists fee costs leaves the dictionary unchanged. |
| `GasCosts.SameEffectsSameGroup` | packages/widget/src/hooks/useGasSufficiency.ts:38-88 | Steps that write the same amounts under the same tokens reduce to the same dictionary. |
| `GasSufficiency.QueryResult` | packages/widget/src/hooks/useGasSufficiency.ts:29-141 | The query rejects exactly when the aggregation throws, resolves to `[]` when no balances come back, and returns only buckets marked insufficient. |
| `GasSufficiency.FindBalance` | packages/widget/src/hooks/useGasSufficiency.ts:111-115 | Returns the first balance entry with the bucket token's chain id and address, or nothing if there is none. |
| `GasSufficiency.BalanceOf` | packages/widget/src/hooks/useGasSufficiency.ts:111-116 | The balance is the amount of the first entry with the bucket token's chain id and address. It is 0 when no entry matches or when that entry has no amount. |
| `GasSufficiency.CheckChain` | packages/widget/src/hooks/useGasSufficiency.ts:110-134 | Checking one chain keeps the dictionary well formed. |
| `GasSufficiency.CheckChains` | packages/widget/src/hooks/useGasSufficiency.ts:109-135 | The `forEach` keeps the dictionary well formed. |
| `GasSufficiency.Insufficient` | packages/widget/src/hooks/useGasSufficiency.ts:137-139 | Every entry kept is marked insufficient, and no more entries are kept than were given. |
| `GasSufficiency.ReduceSteps` | packages/widget/src/hooks/useGasSufficiency.ts:36-88 | The loop over the pending steps, updating one dictionary, computes the reduce `Group`, and rejects when it does. |
| `GasSufficiency.MarkNative` | packages/widget/src/hooks/useGasSufficiency.ts:92-97 | The in-place update of the source-chain bucket computes `MarkNativeTransfer`. |
| `GasSufficiency.CheckEach` | packages/widget/src/hooks/useGasSufficiency.ts:109-135 | The loop over `[fromChainId, toChainId]` that overwrites each present bucket computes `CheckChains`. |
| `GasSufficiency.CheckGasSufficiency` | packages/widget/src/hooks/useGasSufficiency.ts:29-141 | The whole imperative `queryFn` computes `QueryResult`. |
| `GasSufficiency.Verdict` | packages/widget/src/hooks/useGasSufficiency.ts:117-133 | A bucket is insufficient exactly when the balance is at most 0 or below the larger of its gas and token amounts. The chain and shortfall are attached exactly when it is; amounts and token are kept. |
| `GasSufficiency.VerdictShortfallAmount` | packages/widget/src/hooks/useGasSufficiency.ts:122-126 | When the token amount covers the gas amount, a flagged bucket's shortfall is the larger amount minus the balance, and it is never negative. |
| `GasSufficiency.MissingBalanceFlagged` | packages/widget/src/hooks/useGasSufficiency.ts:111-120 | A bucket with no matching balance entry is checked against 0 and is always flagged. |
| `GasSufficiency.VerdictIdempotent` | packages/widget/src/hooks/useGasSufficiency.ts:109-133 | Checking a bucket twice, as happens when both chain ids are equal, gives the same result as checking it once. |
| `GasSufficiency.CheckPair` | packages/widget/src/hooks/useGasSufficiency.ts:109-135 | After the `forEach`, the two chains' buckets are checked. All other buckets and the key order are unchanged. |
| `GasSufficiency.InsufficientAppend` | packages/widget/src/hooks/useGasSufficiency.ts:137-139 | The filter distributes over concatenation. |
| `GasSufficiency.NoneFlaggedAlong` | packages/widget/src/hooks/useGasSufficiency.ts:137-139 | With no flagged bucket, the filter returns nothing. |
| `GasSufficiency.OneFlaggedAlong` | packages/widget/src/hooks/useGasSufficiency.ts:137-139 | With a single flagged bucket listed once, the filter returns exactly that bucket. |
| `GasSufficiency.TwoFlaggedAlong` | packages/widget/src/hooks/useGasSufficiency.ts:137-139 | With two flagged buckets, the filter returns both, in listing order. |
| `GasSufficiency.CheckedFacts` | packages/widget/src/hooks/useGasSufficiency.ts:109-137 | After the `forEach`, `Object.values` follows the enumeration order. Only the two checked chains can hold flagged buckets, and each of them holds its checked bucket. |
| `GasSufficiency.CheckedValuesReport` | packages/widget/src/hooks/useGasSufficiency.ts:109-139 | For a dictionary with no verdicts yet, the check followed by the filter gives exactly `Report`. |
| `GasSufficiency.QueryReportsCheckedChains` | packages/widget/src/hooks/useGasSufficiency.ts:29-141 | When the reduce succeeds and balances come back, the query returns exactly the flagged checked buckets of the source and destination chains, ordered by `Object.values`. |
| `GasSufficiency.QueryReportBounds` | packages/widget/src/hooks/useGasSufficiency.ts:109-139 | Every reported entry is flagged and is the checked bucket of the source or destination chain. There are at most two, or one if the two chains are equal. |
| `GasSufficiency.ReportBounds` | packages/widget/src/hooks/useGasSufficiency.ts:109-139 | The described report holds at most one flagged checked bucket per chain, from the two chains only. |
| `GasSufficiency.QueryReportsEveryShortChain` | packages/widget/src/hooks/useGasSufficiency.ts:109-139 | A source or destination bucket that is flagged once checked is always reported. |
| `GasSufficiency.NoBalancesReportNothing` | packages/widget/src/hooks/useGasSufficiency.ts:105-107 | With an empty or missing balance list the query returns `[]`, whatever the costs. |
| `GasSufficiency.AllDoneReportsNothing` | packages/widget/src/hooks/useGasSufficiency.ts:37-141 | A route whose steps are all `DONE` reports nothing. |
| `GasSufficiency.ShortOnGasExample` | packages/widget/src/hooks/useGasSufficiency.ts:29-141 | Gas costs of 60 and 40 against a balance of 50 report the chain as short by 50. |
| `GasRefuel.ChainOf` | packages/widget/src/hooks/useGasRefuel.ts:17-18 | An unset chain id has no chain. |
| `GasRefuel.ChainTypeSatisfied` | packages/widget/src/hooks/useGasRefuel.ts:33-34 | Satisfied exactly when both chains are unknown, both are known with the same chain type, or a non-empty destination address is given. |
| `GasRefuel.RefuelEnabled` | packages/widget/src/hooks/useGasRefuel.ts:36-69 | Refuel is offered exactly when no guard applies and twice (balance + 1) is at most the recommended amount, i.e. the balance is below the truncated half. |
| `GasRefuel.GasRefuel` | packages/widget/src/hooks/useGasRefuel.ts:71-79 | `availble` mirrors the recommendation's availability. `fromAmount` is returned exactly when the recommendation is available. `chain` is the destination chain. |
| `GasRefuel.SameChainNeverRefuels` | packages/widget/src/hooks/useGasRefuel.ts:44 | Equal source and destination chain ids (both unset included) never enable refuel. |
| `GasRefuel.MissingDataNeverRefuels` | packages/widget/src/hooks/useGasRefuel.ts:45-47 | No recommendation, an unavailable one, one without a recommended amount, or no native token: refuel is never enabled. |
| `GasRefuel.CrossEcosystemNeedsAddress` | packages/widget/src/hooks/useGasRefuel.ts:33-48 | Different chain types and an empty or unset destination address never enable refuel. |
| `GasRefuel.SameEcosystemIgnoresAddress` | packages/widget/src/hooks/useGasRefuel.ts:33-48 | With equal chain types, the destination address does not change the decision. |
| `GasRefuel.SmallRecommendationNeverRefuels` | packages/widget/src/hooks/useGasRefuel.ts:55-61 | A recommended amount of 0 or 1 never enables refuel for a non-negative balance. |
| `GasRefuel.RefuelMonotone` | packages/widget/src/hooks/useGasRefuel.ts:52-61 | Lowering the balance never withdraws an offer to refuel. |
| `GasRefuel.MissingAmountCountsAsZero` | packages/widget/src/hooks/useGasRefuel.ts:52 | A native token without an amount is treated as a balance of 0. |
| `GasRefuel.ThresholdExample` | packages/widget/src/hooks/useGasRefuel.ts:52-61 | With a recommendation of 1000, balances 400 and 499 enable refuel; 500 and 600 do not. |

## Left out

- React Query plumbing (`useQuery`, the query key, the `enabled` guard on account and route, the 30-second refetch and stale timers), lines 17 and 27-29, 144-153 of useGasSufficiency.ts: caching and scheduling. The model runs the `queryFn` once, with a route present.
- `getTokenBalancesWithRetry` (useGasSufficiency.ts:100-103): an asynchronous network fetch with retries. Its result is the `balances` parameter. The list of tokens it is asked for plays no part.
- `useAccount`, `useAvailableChains`, `useFieldValues`, `useTokenBalance` and `useGasRecommendation`: external hooks. Their results are parameters: the connector id, the `ChainLookup` function, the form fields, the native-token balance, and the recommendation with its loading flag. Which token `useTokenBalance` is asked for (useGasRefuel.ts:20-24) is therefore not modelled, and `fromTokenAddress` (useGasRefuel.ts:26-30) is passed only to the external `useGasRecommendation`.
- `getChainById` (useGasRefuel.ts:17-18): the registry lookup is not part of this model. It is the `ChainLookup` parameter, and `ChainOf` assumes that the lookup yields no chain for an unset chain id, which the hook passes as `undefined`.
- `BigInt(...)` parsing of the SDK's decimal-string amounts: amounts are taken as naturals already.
- A step without an `estimate`: the SDK type makes the field mandatory, so that case is not modelled (the code would throw on it).
- The account address, used only as a query key and for the balance fetch.
- packages/widget/src/hooks/connectorHooks.ts: a re-export of wallet connector hooks, with no logic.
- The token-list page files (`useTokenListHeight.ts`, `SearchTokenInput.tsx`): DOM measurement and a form input, outside this model.
