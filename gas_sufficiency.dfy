/**
 * The second half of the gas-sufficiency query in packages/widget/src/hooks/useGasSufficiency.ts:
 * the balances are looked up for the buckets of the route's source and destination chains, each
 * of those two buckets is marked sufficient or not, and the marked-insufficient buckets are
 * returned in the order `Object.values` lists them. `CheckGasSufficiency` is the whole `queryFn`,
 * written as the hook's TypeScript code writes it, and is proved to compute `QueryResult`.
 */
module GasSufficiency {
  import opened Wrappers
  import opened Lifi
  import opened NumericRecord
  import opened GasCosts

  predicate Matches(b: TokenBalance, token: Token) {
    b.chainId == token.chainId && b.address == token.address
  }

  /** `Array.prototype.find`: the first balance entry for `token`. */
  function FindBalance(balances: seq<TokenBalance>, token: Token): (r: Option<TokenBalance>)
    ensures r.None? <==> forall i | 0 <= i < |balances| :: !Matches(balances[i], token)
    ensures r.Some? ==> exists i | 0 <= i < |balances| ::
      balances[i] == r.value && Matches(r.value, token) && forall j | 0 <= j < i :: !Matches(balances[j], token)
  {
    if balances == [] then None
    else if Matches(balances[0], token) then Some(balances[0])
    else
      var r := FindBalance(balances[1..], token);
      assert forall i | 0 < i < |balances| :: balances[i] == balances[1..][i - 1];
      if r.Some? then
        var i :| 0 <= i < |balances[1..]| && balances[1..][i] == r.value && Matches(r.value, token)
          && forall j | 0 <= j < i :: !Matches(balances[1..][j], token);
        assert balances[i + 1] == r.value && forall j | 0 <= j < i + 1 :: !Matches(balances[j], token);
        r
      else r
  }

  /** `find(...)?.amount ?? 0n`: the amount of the first entry for `token`, or 0 when there is none or it has no amount. */
  function BalanceOf(balances: seq<TokenBalance>, token: Token): (b: int)
    ensures (forall i | 0 <= i < |balances| :: !Matches(balances[i], token)) ==> b == 0
    ensures forall i | 0 <= i < |balances| && Matches(balances[i], token) && (forall j | 0 <= j < i :: !Matches(balances[j], token)) ::
      b == balances[i].amount.GetOr(0)
  {
    match FindBalance(balances, token)
    case None => 0
    case Some(b) => b.amount.GetOr(0)
  }

  /** JavaScript truthiness of an optional `bigint`: present and not `0n`. */
  predicate Truthy(x: Option<nat>) {
    x.Some? && x.value != 0
  }

  /** The larger of what the bucket must cover: its gas amount, or the token amount when one is set. */
  function Required(e: GasCostEntry): nat {
    var t := e.tokenAmount.GetOr(0);
    if t < e.gasAmount then e.gasAmount else t
  }

  /**
   * The record written back for a checked chain (lines 117-133), with the three comparisons folded
   * into one: the chain and the shortfall are attached exactly when the bucket is insufficient.
   */
  function Verdict(e: GasCostEntry, balance: int, chain: Option<Chain>): (v: GasCostEntry)
    ensures v.insufficient == Some(balance <= 0 || balance < Required(e))
    ensures IsFlagged(v) ==> v.chain == chain && v.insufficientAmount.Some?
    ensures !IsFlagged(v) ==> v.chain.None? && v.insufficientAmount.None?
    ensures v.gasAmount == e.gasAmount && v.tokenAmount == e.tokenAmount && v.token == e.token
  {
    var insufficient := balance <= 0 || balance < e.gasAmount || balance < e.tokenAmount.GetOr(0);
    var shortfall :=
      if !insufficient then None
      else if Truthy(e.tokenAmount) then Some(e.tokenAmount.value - balance)
      else Some(e.gasAmount - balance);
    e.(insufficient := Some(insufficient), insufficientAmount := shortfall, chain := if insufficient then chain else None)
  }

  /** The bucket of chain `k` once it has been checked against the balances. */
  function CheckedBucket(r: GasCostRecord, k: ChainId, balances: seq<TokenBalance>, lookup: ChainLookup): GasCostEntry
    requires k in r.entries
  {
    var e := r.entries[k];
    Verdict(e, BalanceOf(balances, e.token), lookup(k))
  }

  /** The `forEach` body for one chain id: a chain without a bucket is left alone. */
  function CheckChain(r: GasCostRecord, chainId: ChainId, balances: seq<TokenBalance>, lookup: ChainLookup): (r': GasCostRecord)
    requires Valid(r)
    ensures Valid(r')
  {
    if chainId in r.entries then Put(r, chainId, CheckedBucket(r, chainId, balances, lookup)) else r
  }

  /** The `forEach` over `ids`, in order. */
  function CheckChains(r: GasCostRecord, ids: seq<ChainId>, balances: seq<TokenBalance>, lookup: ChainLookup): (r': GasCostRecord)
    requires Valid(r)
    ensures Valid(r')
  {
    if ids == [] then r
    else CheckChain(CheckChains(r, ids[..|ids| - 1], balances, lookup), ids[|ids| - 1], balances, lookup)
  }

  /** `gasCost.insufficient` is truthy. */
  predicate IsFlagged(e: GasCostEntry) {
    e.insufficient == Some(true)
  }

  /** `.filter((gasCost) => gasCost.insufficient)` */
  function Insufficient(vs: seq<GasCostEntry>): (r: seq<GasCostEntry>)
    ensures |r| <= |vs|
    ensures forall i | 0 <= i < |r| :: IsFlagged(r[i])
  {
    if vs == [] then []
    else (if IsFlagged(vs[0]) then [vs[0]] else []) + Insufficient(vs[1..])
  }

  /**
   * What the `queryFn` resolves to, given the balances `getTokenBalancesWithRetry` returned for
   * the buckets' tokens and the chain registry. It rejects exactly when the reduce throws, resolves
   * to `[]` when no balances come back, and otherwise lists buckets marked insufficient only.
   */
  function QueryResult(route: Route, connectorId: Option<string>, balances: Option<seq<TokenBalance>>, lookup: ChainLookup)
    : (res: Result<seq<GasCostEntry>, QueryError>)
    ensures res.Failure? <==> Aggregate(route, connectorId).Failure?
    ensures (balances.None? || balances.value == []) && res.Success? ==> res.value == []
    ensures res.Success? ==> forall i | 0 <= i < |res.value| :: IsFlagged(res.value[i])
  {
    match Aggregate(route, connectorId)
    case Failure(e) => Failure(e)
    case Success(r) =>
      if balances.None? || balances.value == [] then Success([])
      else Success(Insufficient(Values(CheckChains(r, [route.fromChainId, route.toChainId], balances.value, lookup))))
  }

  /** The `reduce` of lines 36-88 over the pending steps, updating one dictionary. */
  method ReduceSteps(pending: seq<Step>, ctx: Context) returns (res: Result<GasCostRecord, QueryError>)
    ensures res == Group(pending, ctx)
  {
    var grouped: GasCostRecord := Empty();
    var i := 0;
    assert pending[..0] == [];
    while i < |pending|
      invariant i <= |pending|
      invariant Group(pending[..i], ctx) == Success(grouped)
    {
      var step := pending[i];
      ghost var before := grouped;
      GroupSnoc(pending, i, ctx);
      if CountsGas(step, ctx) {
        var costs := step.estimate.gasCosts.value;
        if costs == [] {
          assert Throws(step, ctx);
          GroupFailurePersists(pending, i + 1, ctx);
          return Failure(NoGasCostToken);
        }
        grouped := AddWrite(grouped, Some(Write(costs[0].token, GasCostSum(costs))));
      }
      ghost var middle := grouped;
      assert middle == AddWrite(before, GasWrite(step, ctx));
      var fees := NonIncludedFees(step.estimate.feeCosts);
      if fees != [] {
        grouped := AddWrite(grouped, Some(Write(fees[0].token, FeeCostSum(fees))));
      }
      assert grouped == AddWrite(middle, FeeWrite(step));
      assert EffectOf(step, ctx) == Writes(GasWrite(step, ctx), FeeWrite(step));
      assert ApplyEffect(before, EffectOf(step, ctx)) == Success(grouped);
      assert Group(pending[..i + 1], ctx) == Success(grouped);
      i := i + 1;
      assert Group(pending[..i], ctx) == Success(grouped);
    }
    assert pending[..i] == pending;
    res := Success(grouped);
  }

  /** The `forEach` of lines 109-135 over `ids`, writing each checked bucket back into the dictionary. */
  method CheckEach(grouped: GasCostRecord, ids: seq<ChainId>, balances: seq<TokenBalance>, lookup: ChainLookup)
    returns (checked: GasCostRecord)
    requires Valid(grouped)
    ensures checked == CheckChains(grouped, ids, balances, lookup)
  {
    checked := grouped;
    assert ids[..0] == [];
    for j := 0 to |ids|
      invariant Valid(checked)
      invariant checked == CheckChains(grouped, ids[..j], balances, lookup)
    {
      assert ids[..j + 1][..j] == ids[..j];
      var chainId := ids[j];
      if chainId in checked.entries {
        var e := checked.entries[chainId];
        var gasTokenBalance := BalanceOf(balances, e.token);
        checked := Put(checked, chainId, Verdict(e, gasTokenBalance, lookup(chainId)));
      }
      assert checked == CheckChains(grouped, ids[..j + 1], balances, lookup);
    }
    assert ids[..|ids|] == ids;
  }

  /** Lines 92-97: the source-chain bucket's `tokenAmount` is set in place when the route sends that bucket's token. */
  method MarkNative(grouped: GasCostRecord, route: Route) returns (marked: GasCostRecord)
    requires Valid(grouped)
    ensures marked == MarkNativeTransfer(grouped, route)
  {
    marked := grouped;
    var from := route.fromChainId;
    if from in marked.entries && route.fromToken.address == marked.entries[from].token.address {
      var e := marked.entries[from];
      marked := Put(marked, from, e.(tokenAmount := Some(e.gasAmount + route.fromAmount)));
    }
  }

  /** The `queryFn` of `useGasSufficiency`, run once. */
  method CheckGasSufficiency(route: Route, connectorId: Option<string>, balances: Option<seq<TokenBalance>>, lookup: ChainLookup)
    returns (result: Result<seq<GasCostEntry>, QueryError>)
    ensures result == QueryResult(route, connectorId, balances, lookup)
  {
    var hasRefuelStep := HasRefuelStep(route.steps);
    var pending := PendingSteps(route.steps);
    var ctx := Context(connectorId, route.toChainId, hasRefuelStep);
    assert ctx == ContextOf(route, connectorId);
    var reduced := ReduceSteps(pending, ctx);
    if reduced.Failure? {
      return Failure(reduced.error);
    }
    var grouped := MarkNative(reduced.value, route);
    assert Aggregate(route, connectorId) == Success(grouped);
    if balances.None? || balances.value == [] {
      return Success([]);
    }
    var checked := CheckEach(grouped, [route.fromChainId, route.toChainId], balances.value, lookup);
    result := Success(Insufficient(Values(checked)));
  }

  // ---------------------------------------------------------------------------------------------
  // Properties of the check.

  /**
   * When the token amount, if any, covers the gas amount (as the native-token adjustment makes it),
   * the shortfall of a flagged bucket is exactly what it must cover minus the balance, and never negative.
   */
  lemma VerdictShortfallAmount(e: GasCostEntry, balance: int, chain: Option<Chain>)
    requires e.tokenAmount.Some? ==> e.gasAmount <= e.tokenAmount.value
    requires IsFlagged(Verdict(e, balance, chain))
    ensures Verdict(e, balance, chain).insufficientAmount == Some(Required(e) - balance)
    ensures Required(e) - balance >= 0
  {
  }

  /** A bucket with no matching balance entry is checked against a balance of 0 and so is always flagged. */
  lemma MissingBalanceFlagged(r: GasCostRecord, k: ChainId, balances: seq<TokenBalance>, lookup: ChainLookup)
    requires k in r.entries
    requires forall i | 0 <= i < |balances| :: !Matches(balances[i], r.entries[k].token)
    ensures BalanceOf(balances, r.entries[k].token) == 0
    ensures IsFlagged(CheckedBucket(r, k, balances, lookup))
  {
  }

  /** Checking a bucket twice against the same balances gives the same bucket as checking it once. */
  lemma VerdictIdempotent(e: GasCostEntry, balance: int, chain: Option<Chain>)
    ensures Verdict(Verdict(e, balance, chain), balance, chain) == Verdict(e, balance, chain)
  {
  }

  /** After the `forEach` over `[f, g]`, the buckets of `f` and `g` are checked and all others are untouched. */
  lemma CheckPair(r: GasCostRecord, f: ChainId, g: ChainId, balances: seq<TokenBalance>, lookup: ChainLookup)
    requires Valid(r)
    ensures var c := CheckChains(r, [f, g], balances, lookup);
      && c.keys == r.keys
      && (forall k :: k in c.entries <==> k in r.entries)
      && (forall k | k in r.entries ::
        c.entries[k] == if k == f || k == g then CheckedBucket(r, k, balances, lookup) else r.entries[k])
  {
    assert [f, g][..1] == [f] && [f][..0] == [];
    var c1 := CheckChain(r, f, balances, lookup);
    assert CheckChains(r, [f], balances, lookup) == c1;
    if f in r.entries && f == g {
      var e := r.entries[f];
      VerdictIdempotent(e, BalanceOf(balances, e.token), lookup(f));
    }
  }

  lemma {:induction false} InsufficientAppend(a: seq<GasCostEntry>, b: seq<GasCostEntry>)
    ensures Insufficient(a + b) == Insufficient(a) + Insufficient(b)
  {
    if a != [] {
      assert (a + b)[0] == a[0] && (a + b)[1..] == a[1..] + b;
      InsufficientAppend(a[1..], b);
    } else {
      assert a + b == b;
    }
  }

  /** Among the keys `ks` that have a bucket in `m`, only `f`'s and `g`'s bucket may be flagged. */
  predicate FlaggedOnlyAt(m: map<ChainId, GasCostEntry>, ks: seq<ChainId>, f: ChainId, g: ChainId) {
    forall k | k in ks && k in m && k != f && k != g :: !IsFlagged(m[k])
  }

  /** No key along the way holds a flagged bucket: nothing is reported. */
  lemma {:induction false} NoneFlaggedAlong(m: map<ChainId, GasCostEntry>, ks: seq<ChainId>)
    requires forall k | k in ks && k in m :: !IsFlagged(m[k])
    ensures Insufficient(ValuesAlong(m, ks)) == []
  {
    if ks != [] {
      InsufficientAppend(if ks[0] in m then [m[ks[0]]] else [], ValuesAlong(m, ks[1..]));
      assert forall k | k in ks[1..] :: k in ks;
      NoneFlaggedAlong(m, ks[1..]);
    }
  }

  /** Exactly one key along the way, listed once, holds a flagged bucket: that bucket alone is reported. */
  lemma {:induction false} OneFlaggedAlong(m: map<ChainId, GasCostEntry>, ks: seq<ChainId>, f: ChainId)
    requires Distinct(ks) && f in ks && f in m && IsFlagged(m[f])
    requires FlaggedOnlyAt(m, ks, f, f)
    ensures Insufficient(ValuesAlong(m, ks)) == [m[f]]
  {
    var head := if ks[0] in m then [m[ks[0]]] else [];
    InsufficientAppend(head, ValuesAlong(m, ks[1..]));
    assert forall k | k in ks[1..] :: k in ks;
    if ks[0] == f {
      assert f !in ks[1..];
      NoneFlaggedAlong(m, ks[1..]);
    } else {
      assert Distinct(ks[1..]) by { DistinctSlices(ks, 1); }
      OneFlaggedAlong(m, ks[1..], f);
    }
  }

  /** Two keys along the way hold flagged buckets: both are reported, in the order the keys are listed. */
  lemma TwoFlaggedAlong(m: map<ChainId, GasCostEntry>, ks: seq<ChainId>, f: ChainId, g: ChainId)
    requires Distinct(ks) && f in ks && g in ks && f != g && f in m && g in m
    requires IsFlagged(m[f]) && IsFlagged(m[g])
    requires FlaggedOnlyAt(m, ks, f, g)
    requires IndexOf(ks, f) < IndexOf(ks, g)
    ensures Insufficient(ValuesAlong(m, ks)) == [m[f], m[g]]
  {
    var j := IndexOf(ks, g);
    var a, b := ks[..j], ks[j..];
    SplitBefore(ks, f, g);
    assert FlaggedOnlyAt(m, a, f, f) && FlaggedOnlyAt(m, b, g, g);
    ValuesAlongAppend(m, a, b);
    InsufficientAppend(ValuesAlong(m, a), ValuesAlong(m, b));
    OneFlaggedAlong(m, a, f);
    OneFlaggedAlong(m, b, g);
  }

  // ---------------------------------------------------------------------------------------------
  // What the query reports.

  /** Chain `k` has a bucket and, once checked, that bucket is flagged. */
  predicate FlaggedChain(r: GasCostRecord, k: ChainId, balances: seq<TokenBalance>, lookup: ChainLookup) {
    k in r.entries && IsFlagged(CheckedBucket(r, k, balances, lookup))
  }

  /**
   * A reference description of the report, for a source chain `f` and a destination chain `t`:
   * the checked buckets of those two chains that are flagged, each once, the source chain's first
   * unless `Object.values` lists the destination chain's key before it.
   */
  function Report(r: GasCostRecord, f: ChainId, t: ChainId, balances: seq<TokenBalance>, lookup: ChainLookup)
    : seq<GasCostEntry>
    requires Valid(r)
  {
    var ff, tf := FlaggedChain(r, f, balances, lookup), FlaggedChain(r, t, balances, lookup);
    if ff && tf && f != t then
      var cf, ct := CheckedBucket(r, f, balances, lookup), CheckedBucket(r, t, balances, lookup);
      if EnumeratedBefore(r.keys, f, t) then [cf, ct] else [ct, cf]
    else if ff then [CheckedBucket(r, f, balances, lookup)]
    else if tf then [CheckedBucket(r, t, balances, lookup)]
    else []
  }

  /**
   * The final filter over `Object.values` after the `forEach` over `[f, t]`, for a dictionary none of
   * whose buckets carries a verdict yet, is the reference report.
   */
  lemma CheckedValuesReport(r: GasCostRecord, f: ChainId, t: ChainId, balances: seq<TokenBalance>, lookup: ChainLookup)
    requires Valid(r)
    requires forall k | k in r.entries :: !IsFlagged(r.entries[k])
    ensures Insufficient(Values(CheckChains(r, [f, t], balances, lookup))) == Report(r, f, t, balances, lookup)
  {
    var c := CheckChains(r, [f, t], balances, lookup);
    var m, ks := c.entries, EnumerationOrder(r.keys);
    CheckedFacts(r, f, t, balances, lookup);
    var ff, tf := FlaggedChain(r, f, balances, lookup), FlaggedChain(r, t, balances, lookup);
    if ff && tf && f != t {
      EnumerationOrderRespects(r.keys, f, t);
      if EnumeratedBefore(r.keys, f, t) {
        TwoFlaggedAlong(m, ks, f, t);
      } else {
        assert IndexOf(ks, f) != IndexOf(ks, t);
        TwoFlaggedAlong(m, ks, t, f);
      }
    } else if ff {
      OneFlaggedAlong(m, ks, f);
    } else if tf {
      OneFlaggedAlong(m, ks, t);
    } else {
      NoneFlaggedAlong(m, ks);
    }
  }

  /** What the final filter sees after the `forEach` over `[f, t]`, for a dictionary with no verdicts yet. */
  lemma CheckedFacts(r: GasCostRecord, f: ChainId, t: ChainId, balances: seq<TokenBalance>, lookup: ChainLookup)
    requires Valid(r)
    requires forall k | k in r.entries :: !IsFlagged(r.entries[k])
    ensures var c := CheckChains(r, [f, t], balances, lookup);
      var m, ks := c.entries, EnumerationOrder(r.keys);
      && Values(c) == ValuesAlong(m, ks)
      && FlaggedOnlyAt(m, ks, f, t) && FlaggedOnlyAt(m, ks, t, f)
      && (f in r.entries ==> f in ks && f in m && m[f] == CheckedBucket(r, f, balances, lookup))
      && (t in r.entries ==> t in ks && t in m && m[t] == CheckedBucket(r, t, balances, lookup))
  {
    var c := CheckChains(r, [f, t], balances, lookup);
    CheckPair(r, f, t, balances, lookup);
    var m, ks := c.entries, EnumerationOrder(c.keys);
    assert forall k | k in ks :: k in m;
    forall k | k in ks && k in m && k != f && k != t
      ensures !IsFlagged(m[k])
    {
      assert m[k] == r.entries[k];
    }
  }

  /**
   * The whole query, when the reduce succeeds and balances come back: it reports exactly the
   * flagged checked buckets of the source and destination chains, in enumeration order.
   */
  lemma QueryReportsCheckedChains(route: Route, connectorId: Option<string>, balances: seq<TokenBalance>, lookup: ChainLookup)
    requires Aggregate(route, connectorId).Success? && balances != []
    ensures QueryResult(route, connectorId, Some(balances), lookup)
      == Success(Report(Aggregate(route, connectorId).value, route.fromChainId, route.toChainId, balances, lookup))
  {
    AggregateBuckets(route, connectorId);
    CheckedValuesReport(Aggregate(route, connectorId).value, route.fromChainId, route.toChainId, balances, lookup);
  }

  /**
   * Every reported entry is flagged and is the checked bucket of the source or the destination
   * chain; there are at most two of them, and at most one when both are the same chain.
   */
  lemma QueryReportBounds(route: Route, connectorId: Option<string>, balances: Option<seq<TokenBalance>>, lookup: ChainLookup)
    requires QueryResult(route, connectorId, balances, lookup).Success?
    ensures var r := QueryResult(route, connectorId, balances, lookup).value;
      && |r| <= (if route.fromChainId == route.toChainId then 1 else 2)
      && forall e | e in r ::
        && IsFlagged(e)
        && (e.token.chainId == route.fromChainId || e.token.chainId == route.toChainId)
        && e.token.chainId in Aggregate(route, connectorId).value.entries
        && e == CheckedBucket(Aggregate(route, connectorId).value, e.token.chainId, balances.value, lookup)
  {
    if balances.Some? && balances.value != [] {
      QueryReportsCheckedChains(route, connectorId, balances.value, lookup);
      AggregateBuckets(route, connectorId);
      ReportBounds(Aggregate(route, connectorId).value, route.fromChainId, route.toChainId, balances.value, lookup);
    }
  }

  /** The reference report holds flagged checked buckets of `f` or `t` only, at most one per chain. */
  lemma ReportBounds(r: GasCostRecord, f: ChainId, t: ChainId, balances: seq<TokenBalance>, lookup: ChainLookup)
    requires Valid(r)
    requires forall k | k in r.entries :: r.entries[k].token.chainId == k
    ensures var rep := Report(r, f, t, balances, lookup);
      && |rep| <= (if f == t then 1 else 2)
      && forall e | e in rep ::
        && IsFlagged(e)
        && (e.token.chainId == f || e.token.chainId == t)
        && e.token.chainId in r.entries
        && e == CheckedBucket(r, e.token.chainId, balances, lookup)
  {
  }

  /** A checked chain whose bucket is flagged is always reported. */
  lemma QueryReportsEveryShortChain(route: Route, connectorId: Option<string>, balances: seq<TokenBalance>, lookup: ChainLookup, k: ChainId)
    requires Aggregate(route, connectorId).Success? && balances != []
    requires k == route.fromChainId || k == route.toChainId
    requires FlaggedChain(Aggregate(route, connectorId).value, k, balances, lookup)
    ensures QueryResult(route, connectorId, Some(balances), lookup).Success?
    ensures CheckedBucket(Aggregate(route, connectorId).value, k, balances, lookup)
      in QueryResult(route, connectorId, Some(balances), lookup).value
  {
    QueryReportsCheckedChains(route, connectorId, balances, lookup);
  }

  /** Without balances the query reports nothing, whatever the costs. */
  lemma NoBalancesReportNothing(route: Route, connectorId: Option<string>, balances: Option<seq<TokenBalance>>, lookup: ChainLookup)
    requires Aggregate(route, connectorId).Success?
    requires balances.None? || balances.value == []
    ensures QueryResult(route, connectorId, balances, lookup) == Success([])
  {
  }

  /** A route whose steps have all finished reports nothing. */
  lemma AllDoneReportsNothing(route: Route, connectorId: Option<string>, balances: Option<seq<TokenBalance>>, lookup: ChainLookup)
    requires forall i | 0 <= i < |route.steps| :: route.steps[i].execution == Some(Execution(DONE))
    ensures QueryResult(route, connectorId, balances, lookup) == Success([])
  {
    AllDoneCostsNothing(route, connectorId);
    if balances.Some? && balances.value != [] {
      QueryReportsCheckedChains(route, connectorId, balances.value, lookup);
    }
  }

  // ---------------------------------------------------------------------------------------------
  // Worked examples.

  /**
   * A one-step route on chain 1 whose two gas costs (60 and 40) are paid in the native token, with
   * 50 of that token held: the query reports chain 1 as short by 50.
   */
  lemma ShortOnGasExample(lookup: ChainLookup)
    ensures var gas := Token(1, "0xgas");
      var step := Step(Action(1), Estimate(Some([GasCost(gas, 60), GasCost(gas, 40)]), None), [], None);
      var route := Route(1, 2, Token(1, "0xusdc"), 500, [step]);
      QueryResult(route, None, Some([TokenBalance(1, "0xgas", Some(50))]), lookup)
        == Success([GasCostEntry(100, None, Some(50), Some(true), gas, lookup(1))])
  {
    var gas := Token(1, "0xgas");
    var step := Step(Action(1), Estimate(Some([GasCost(gas, 60), GasCost(gas, 40)]), None), [], None);
    var route := Route(1, 2, Token(1, "0xusdc"), 500, [step]);
    var balances := [TokenBalance(1, "0xgas", Some(50))];
    ShortOnGasAggregate();
    assert FindBalance(balances, gas) == Some(balances[0]);
    assert BalanceOf(balances, gas) == 50;
    QueryReportsCheckedChains(route, None, balances, lookup);
  }

  /** The dictionary of that example: one bucket, chain 1, holding 100 of the gas token. */
  lemma ShortOnGasAggregate()
    ensures var gas := Token(1, "0xgas");
      var step := Step(Action(1), Estimate(Some([GasCost(gas, 60), GasCost(gas, 40)]), None), [], None);
      var route := Route(1, 2, Token(1, "0xusdc"), 500, [step]);
      Aggregate(route, None).Success? && Aggregate(route, None).value.entries == map[1 := Bucket(100, gas)]
  {
    var gas := Token(1, "0xgas");
    var step := Step(Action(1), Estimate(Some([GasCost(gas, 60), GasCost(gas, 40)]), None), [], None);
    var route := Route(1, 2, Token(1, "0xusdc"), 500, [step]);
    assert PendingSteps(route.steps) == [step];
    assert [GasCost(gas, 60), GasCost(gas, 40)][1..] == [GasCost(gas, 40)];
    assert GasCostSum([GasCost(gas, 40)]) == 40;
    assert GasWrite(step, ContextOf(route, None)) == Some(Write(gas, 100));
    assert Group([step], ContextOf(route, None)) == ApplyEffect(Empty(), EffectOf(step, ContextOf(route, None)));
  }
}
