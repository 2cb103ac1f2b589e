/**
 * The first half of the gas-sufficiency query in packages/widget/src/hooks/useGasSufficiency.ts:
 * the route-wide refuel flag, the filter that drops finished steps, the reduce that groups each
 * remaining step's gas costs and non-included fee costs into a dictionary keyed by chain id, and
 * the adjustment that adds the transferred amount when the route sends the gas token itself.
 *
 * The dictionary is keyed by `token.chainId` alone, as in the hook: when a later cost of the
 * same chain carries a different token, the amounts still add up and the later token replaces
 * the stored one.
 */
module GasCosts {
  import opened Wrappers
  import opened Lifi
  import opened NumericRecord

  const SAFE_CONNECTOR: string := "safe"
  const REFUEL_TOOL: string := "lifuelProtocol"
  const DONE: string := "DONE"

  /** The per-chain record, the hook's `GasSufficiency` interface (renamed so as not to clash with the module). */
  datatype GasCostEntry = GasCostEntry(
    gasAmount: nat,
    tokenAmount: Option<nat>,
    insufficientAmount: Option<int>,
    insufficient: Option<bool>,
    token: Token,
    chain: Option<Chain>)

  type GasCostRecord = Record<GasCostEntry>

  /** Destructuring `{ token }` from the first element of an empty `gasCosts` array throws a TypeError. */
  datatype QueryError = NoGasCostToken

  /** The values that stay fixed while the reduce walks the steps. */
  datatype Context = Context(connectorId: Option<string>, toChainId: ChainId, hasRefuelStep: bool)

  /** One write into the dictionary: the bucket's token and the amount added to it. */
  datatype Write = Write(token: Token, amount: nat)

  /** `steps.flatMap((step) => step.includedSteps)` */
  function IncludedSteps(steps: seq<Step>): (r: seq<IncludedStep>)
    ensures forall t :: t in r <==> exists i | 0 <= i < |steps| :: t in steps[i].includedSteps
  {
    if steps == [] then []
    else
      assert forall i | 1 <= i < |steps| :: steps[i] == steps[1..][i - 1];
      steps[0].includedSteps + IncludedSteps(steps[1..])
  }

  /** `.some((includedStep) => includedStep.tool === 'lifuelProtocol')`: some step embeds an LI.Fuel sub-step. */
  predicate HasRefuelStep(steps: seq<Step>): (b: bool)
    ensures b <==> exists i, j | 0 <= i < |steps| && 0 <= j < |steps[i].includedSteps| :: steps[i].includedSteps[j].tool == REFUEL_TOOL
  {
    exists t | t in IncludedSteps(steps) :: t.tool == REFUEL_TOOL
  }

  predicate IsPending(step: Step) {
    step.execution.None? || step.execution.value.status != DONE
  }

  /** The steps that have not finished, in route order. */
  function PendingSteps(steps: seq<Step>): (r: seq<Step>)
    ensures forall i | 0 <= i < |r| :: IsPending(r[i])
    ensures forall s :: s in r <==> s in steps && IsPending(s)
  {
    if steps == [] then []
    else (if IsPending(steps[0]) then [steps[0]] else []) + PendingSteps(steps[1..])
  }

  /** Lines 51-54: `gasCosts.reduce((amount, gasCost) => amount + BigInt(gasCost.amount), 0n)`; no cost exceeds it. */
  function GasCostSum(costs: seq<GasCost>): (total: nat)
    ensures forall i | 0 <= i < |costs| :: costs[i].amount <= total
  {
    if costs == [] then 0
    else
      assert forall i | 1 <= i < |costs| :: costs[i] == costs[1..][i - 1];
      costs[0].amount + GasCostSum(costs[1..])
  }

  /** Lines 73-76: the same sum over the non-included fees; no fee exceeds it. */
  function FeeCostSum(fees: seq<FeeCost>): (total: nat)
    ensures forall i | 0 <= i < |fees| :: fees[i].amount <= total
  {
    if fees == [] then 0
    else
      assert forall i | 1 <= i < |fees| :: fees[i] == fees[1..][i - 1];
      fees[0].amount + FeeCostSum(fees[1..])
  }

  /** Summing is additive over concatenation, so the order in which the `reduce` adds the costs does not matter. */
  lemma {:induction false} GasCostSumAppend(a: seq<GasCost>, b: seq<GasCost>)
    ensures GasCostSum(a + b) == GasCostSum(a) + GasCostSum(b)
  {
    if a != [] {
      assert (a + b)[0] == a[0] && (a + b)[1..] == a[1..] + b;
      GasCostSumAppend(a[1..], b);
    } else {
      assert a + b == b;
    }
  }

  lemma {:induction false} FeeCostSumAppend(a: seq<FeeCost>, b: seq<FeeCost>)
    ensures FeeCostSum(a + b) == FeeCostSum(a) + FeeCostSum(b)
  {
    if a != [] {
      assert (a + b)[0] == a[0] && (a + b)[1..] == a[1..] + b;
      FeeCostSumAppend(a[1..], b);
    } else {
      assert a + b == b;
    }
  }

  /** The fee costs not already deducted from the output amount; none when the step lists no fee costs. */
  function NonIncludedFees(fees: Option<seq<FeeCost>>): seq<FeeCost> {
    match fees
    case None => []
    case Some(fs) => NonIncluded(fs)
  }

  /** `feeCosts.filter((feeCost) => !feeCost.included)`: empty exactly when every fee is included. */
  function NonIncluded(fs: seq<FeeCost>): (r: seq<FeeCost>)
    ensures |r| <= |fs|
    ensures r == [] <==> forall i | 0 <= i < |fs| :: fs[i].included
  {
    if fs == [] then []
    else
      assert forall i | 1 <= i < |fs| :: fs[i] == fs[1..][i - 1];
      (if fs[0].included then [] else [fs[0]]) + NonIncluded(fs[1..])
  }

  /** The filter keeps order: it distributes over concatenation. */
  lemma {:induction false} NonIncludedAppend(a: seq<FeeCost>, b: seq<FeeCost>)
    ensures NonIncluded(a + b) == NonIncluded(a) + NonIncluded(b)
  {
    if a != [] {
      assert (a + b)[0] == a[0] && (a + b)[1..] == a[1..] + b;
      NonIncludedAppend(a[1..], b);
      var head := if a[0].included then [] else [a[0]];
      assert NonIncluded(a + b) == head + NonIncluded(a[1..] + b);
      assert NonIncluded(a) == head + NonIncluded(a[1..]);
    } else {
      assert a + b == b;
    }
  }

  /** The first fee the filter keeps is the first fee not marked included. */
  lemma {:induction false} NonIncludedFirst(fs: seq<FeeCost>)
    requires NonIncluded(fs) != []
    ensures exists i | 0 <= i < |fs| :: fs[i] == NonIncluded(fs)[0] && !fs[i].included && forall j | 0 <= j < i :: fs[j].included
  {
    if fs[0].included {
      NonIncludedFirst(fs[1..]);
      var i :| 0 <= i < |fs[1..]| && fs[1..][i] == NonIncluded(fs[1..])[0] && !fs[1..][i].included
        && forall j | 0 <= j < i :: fs[1..][j].included;
      assert fs[i + 1] == NonIncluded(fs)[0] && forall j | 0 <= j < i + 1 :: fs[j].included;
    } else {
      assert fs[0] == NonIncluded(fs)[0];
    }
  }

  /** The filter keeps exactly the fee costs not marked included, in order. */
  lemma {:induction false} NonIncludedKeeps(fs: seq<FeeCost>)
    ensures forall i | 0 <= i < |NonIncluded(fs)| :: !NonIncluded(fs)[i].included
    ensures forall f :: f in NonIncluded(fs) <==> f in fs && !f.included
  {
    if fs != [] {
      NonIncludedKeeps(fs[1..]);
      assert forall f :: f in fs <==> f == fs[0] || f in fs[1..];
    }
  }

  /** The refuel protocol is assumed to pay the gas of legs that start on the destination chain. */
  predicate SkipDueToRefuel(step: Step, ctx: Context) {
    step.action.fromChainId == ctx.toChainId && ctx.hasRefuelStep
  }

  /** Whether the step's gas costs are added at all. */
  predicate CountsGas(step: Step, ctx: Context) {
    && step.estimate.gasCosts.Some?
    && ctx.connectorId != Some(SAFE_CONNECTOR)
    && !SkipDueToRefuel(step, ctx)
  }

  /** The step's gas costs would be added, but the array is empty: the reduce throws. */
  predicate Throws(step: Step, ctx: Context) {
    CountsGas(step, ctx) && step.estimate.gasCosts.value == []
  }

  /** Lines 45-54: the step's summed gas costs, under the token of its first gas cost. */
  function GasWrite(step: Step, ctx: Context): (w: Option<Write>)
    ensures w.Some? <==> CountsGas(step, ctx) && !Throws(step, ctx)
    ensures w.Some? ==> w.value.token == step.estimate.gasCosts.value[0].token
  {
    if CountsGas(step, ctx) && step.estimate.gasCosts.value != [] then
      var costs := step.estimate.gasCosts.value;
      Some(Write(costs[0].token, GasCostSum(costs)))
    else None
  }

  /**
   * Lines 68-76: the step's summed non-included fees, under the token of the first fee not marked
   * included; nothing when every listed fee is included.
   */
  function FeeWrite(step: Step): (w: Option<Write>)
    ensures var fs := step.estimate.feeCosts.GetOr([]);
      && (w.Some? <==> exists i | 0 <= i < |fs| :: !fs[i].included)
      && (w.Some? ==> exists i | 0 <= i < |fs| :: fs[i].token == w.value.token && !fs[i].included && forall j | 0 <= j < i :: fs[j].included)
  {
    var fees := NonIncludedFees(step.estimate.feeCosts);
    if fees != [] then
      NonIncludedFirst(step.estimate.feeCosts.value);
      Some(Write(fees[0].token, FeeCostSum(fees)))
    else None
  }

  /** `grouped[token.chainId] = { gasAmount: previous + amount (or amount), token }` */
  function AddWrite(r: GasCostRecord, w: Option<Write>): (r': GasCostRecord)
    requires Valid(r)
    ensures Valid(r')
    ensures w.Some? && w.value.token.chainId !in r.entries ==> r'.keys == r.keys + [w.value.token.chainId]
    ensures w.None? || w.value.token.chainId in r.entries ==> r'.keys == r.keys
  {
    match w
    case None => r
    case Some(Write(token, amount)) =>
      var k := token.chainId;
      Put(r, k, GasCostEntry(if k in r.entries then r.entries[k].gasAmount + amount else amount, None, None, None, token, None))
  }

  /** What the reduce callback does for one step: throw, or make its gas write and then its fee write. */
  datatype Effect = Throw | Writes(gas: Option<Write>, fee: Option<Write>)

  function EffectOf(step: Step, ctx: Context): Effect {
    if Throws(step, ctx) then Throw else Writes(GasWrite(step, ctx), FeeWrite(step))
  }

  /** The body of the reduce callback. */
  function ApplyEffect(r: GasCostRecord, effect: Effect): (res: Result<GasCostRecord, QueryError>)
    requires Valid(r)
    ensures res.Success? ==> Valid(res.value)
  {
    match effect
    case Throw => Failure(NoGasCostToken)
    case Writes(gas, fee) => Success(AddWrite(AddWrite(r, gas), fee))
  }

  /** The reduce over `steps`, from `{}`, in order. */
  function Group(steps: seq<Step>, ctx: Context): (res: Result<GasCostRecord, QueryError>)
    ensures res.Success? ==> Valid(res.value)
  {
    if steps == [] then Success(Empty())
    else
      match Group(steps[..|steps| - 1], ctx)
      case Failure(e) => Failure(e)
      case Success(r) => ApplyEffect(r, EffectOf(steps[|steps| - 1], ctx))
  }

  /** Lines 92-97: when the route sends the token of its source-chain bucket, that bucket also needs the amount sent. */
  function MarkNativeTransfer(r: GasCostRecord, route: Route): (r': GasCostRecord)
    requires Valid(r)
    ensures Valid(r')
    ensures r'.entries.Keys == r.entries.Keys && r'.keys == r.keys
  {
    var k := route.fromChainId;
    if k in r.entries && route.fromToken.address == r.entries[k].token.address then
      var e := r.entries[k];
      Put(r, k, e.(tokenAmount := Some(e.gasAmount + route.fromAmount)))
    else r
  }

  function ContextOf(route: Route, connectorId: Option<string>): Context {
    Context(connectorId, route.toChainId, HasRefuelStep(route.steps))
  }

  /** The dictionary `gasCosts` as it stands before the balances are fetched. */
  function Aggregate(route: Route, connectorId: Option<string>): (res: Result<GasCostRecord, QueryError>)
    ensures res.Success? ==> Valid(res.value)
  {
    match Group(PendingSteps(route.steps), ContextOf(route, connectorId))
    case Failure(e) => Failure(e)
    case Success(r) => Success(MarkNativeTransfer(r, route))
  }

  // ---------------------------------------------------------------------------------------------
  // A reference description of the dictionary, chain by chain.

  /** What a write adds to the bucket of chain `k`. */
  function AmountAt(w: Option<Write>, k: ChainId): nat {
    if w.Some? && w.value.token.chainId == k then w.value.amount else 0
  }

  function StepAmountAt(step: Step, ctx: Context, k: ChainId): nat {
    AmountAt(GasWrite(step, ctx), k) + AmountAt(FeeWrite(step), k)
  }

  /** The sum, over the steps, of the counted gas costs and non-included fees that land on chain `k`. */
  function Total(steps: seq<Step>, ctx: Context, k: ChainId): nat {
    if steps == [] then 0 else StepAmountAt(steps[0], ctx, k) + Total(steps[1..], ctx, k)
  }

  /** The same sum with the fees alone. */
  function FeeTotal(steps: seq<Step>, k: ChainId): nat {
    if steps == [] then 0 else AmountAt(FeeWrite(steps[0]), k) + FeeTotal(steps[1..], k)
  }

  /** The token of the last write that lands on chain `k`, if any does. */
  function LastToken(steps: seq<Step>, ctx: Context, k: ChainId): Option<Token> {
    if steps == [] then None
    else
      var step := steps[|steps| - 1];
      var fee, gas := FeeWrite(step), GasWrite(step, ctx);
      if fee.Some? && fee.value.token.chainId == k then Some(fee.value.token)
      else if gas.Some? && gas.value.token.chainId == k then Some(gas.value.token)
      else LastToken(steps[..|steps| - 1], ctx, k)
  }

  /** A bucket as the reduce leaves it: nothing but the amount and the token. */
  function Bucket(amount: nat, token: Token): GasCostEntry {
    GasCostEntry(amount, None, None, None, token, None)
  }

  lemma {:induction false} TotalAppend(steps: seq<Step>, step: Step, ctx: Context, k: ChainId)
    ensures Total(steps + [step], ctx, k) == Total(steps, ctx, k) + StepAmountAt(step, ctx, k)
  {
    if steps == [] {
      assert [step][1..] == [];
    } else {
      assert (steps + [step])[1..] == steps[1..] + [step];
      TotalAppend(steps[1..], step, ctx, k);
    }
  }

  lemma {:induction false} LastTokenOnChain(steps: seq<Step>, ctx: Context, k: ChainId)
    ensures LastToken(steps, ctx, k).Some? ==> LastToken(steps, ctx, k).value.chainId == k
  {
    if steps != [] {
      LastTokenOnChain(steps[..|steps| - 1], ctx, k);
    }
  }

  /** The last step makes the reduce throw exactly when nothing before it did and it throws itself. */
  lemma GroupLastStepFails(steps: seq<Step>, ctx: Context)
    requires steps != []
    ensures Group(steps, ctx).Failure?
      <==> Group(steps[..|steps| - 1], ctx).Failure? || Throws(steps[|steps| - 1], ctx)
  {
  }

  /** The reduce fails exactly when some step has a counted but empty `gasCosts` array. */
  lemma {:induction false} GroupFailsIffSomeStepThrows(steps: seq<Step>, ctx: Context)
    ensures Group(steps, ctx).Failure? <==> exists i | 0 <= i < |steps| :: Throws(steps[i], ctx)
  {
    if steps != [] {
      var n := |steps|;
      var init := steps[..n - 1];
      GroupFailsIffSomeStepThrows(init, ctx);
      GroupLastStepFails(steps, ctx);
      if Group(init, ctx).Failure? {
        var i :| 0 <= i < |init| && Throws(init[i], ctx);
        assert steps[i] == init[i];
      } else if !Throws(steps[n - 1], ctx) {
        forall i | 0 <= i < n
          ensures !Throws(steps[i], ctx)
        {
          if i < n - 1 {
            assert steps[i] == init[i];
          }
        }
      }
    }
  }

  /** `r` is the dictionary the reference description gives for `steps`. */
  ghost predicate MatchesTotals(r: GasCostRecord, steps: seq<Step>, ctx: Context) {
    forall k ::
      && (k in r.entries <==> LastToken(steps, ctx, k).Some?)
      && (k in r.entries ==> r.entries[k] == Bucket(Total(steps, ctx, k), LastToken(steps, ctx, k).value))
  }

  /** What one write does to the bucket of chain `k`. */
  lemma AddWriteAt(r: GasCostRecord, w: Option<Write>, k: ChainId)
    requires Valid(r)
    ensures var r' := AddWrite(r, w);
      var lands := w.Some? && w.value.token.chainId == k;
      && (k in r'.entries <==> k in r.entries || lands)
      && (lands ==> r'.entries[k] == Bucket((if k in r.entries then r.entries[k].gasAmount else 0) + w.value.amount, w.value.token))
      && (!lands && k in r.entries ==> r'.entries[k] == r.entries[k])
  {
  }

  /** One more step keeps the dictionary in line with the reference description. */
  lemma ApplyStepMatches(r: GasCostRecord, init: seq<Step>, step: Step, ctx: Context)
    requires Valid(r) && MatchesTotals(r, init, ctx) && !Throws(step, ctx)
    ensures MatchesTotals(AddWrite(AddWrite(r, GasWrite(step, ctx)), FeeWrite(step)), init + [step], ctx)
  {
    forall k {
      ApplyStepMatchesAt(r, init, step, ctx, k);
    }
  }

  /** The same, for the bucket of one chain `k`. */
  lemma ApplyStepMatchesAt(r: GasCostRecord, init: seq<Step>, step: Step, ctx: Context, k: ChainId)
    requires Valid(r) && !Throws(step, ctx)
    requires k in r.entries <==> LastToken(init, ctx, k).Some?
    requires k in r.entries ==> r.entries[k] == Bucket(Total(init, ctx, k), LastToken(init, ctx, k).value)
    ensures var r' := AddWrite(AddWrite(r, GasWrite(step, ctx)), FeeWrite(step));
      var steps := init + [step];
      && (k in r'.entries <==> LastToken(steps, ctx, k).Some?)
      && (k in r'.entries ==> r'.entries[k] == Bucket(Total(steps, ctx, k), LastToken(steps, ctx, k).value))
  {
    TotalAppend(init, step, ctx, k);
    LastTokenSnoc(init, step, ctx, k);
    NoWriteNoTotal(init, ctx, k);
    TwoWritesAt(r, GasWrite(step, ctx), FeeWrite(step), k, Total(init, ctx, k), LastToken(init, ctx, k));
  }

  lemma LastTokenSnoc(init: seq<Step>, step: Step, ctx: Context, k: ChainId)
    ensures var fee, gas := FeeWrite(step), GasWrite(step, ctx);
      LastToken(init + [step], ctx, k) ==
        if fee.Some? && fee.value.token.chainId == k then Some(fee.value.token)
        else if gas.Some? && gas.value.token.chainId == k then Some(gas.value.token)
        else LastToken(init, ctx, k)
  {
    assert (init + [step])[..|init|] == init;
  }

  /** A gas write followed by a fee write, seen from the bucket of chain `k`. */
  lemma TwoWritesAt(r: GasCostRecord, gas: Option<Write>, fee: Option<Write>, k: ChainId, total: nat, last: Option<Token>)
    requires Valid(r)
    requires k in r.entries <==> last.Some?
    requires k in r.entries ==> r.entries[k] == Bucket(total, last.value)
    requires last.None? ==> total == 0
    ensures var r' := AddWrite(AddWrite(r, gas), fee);
      var last' :=
        if fee.Some? && fee.value.token.chainId == k then Some(fee.value.token)
        else if gas.Some? && gas.value.token.chainId == k then Some(gas.value.token)
        else last;
      && (k in r'.entries <==> last'.Some?)
      && (k in r'.entries ==> r'.entries[k] == Bucket(total + AmountAt(gas, k) + AmountAt(fee, k), last'.value))
  {
    var r1 := AddWrite(r, gas);
    AddWriteAt(r, gas, k);
    AddWriteAt(r1, fee, k);
    if k in r1.entries {
      assert r1.entries[k].gasAmount == total + AmountAt(gas, k);
    }
  }

  lemma {:induction false} NoWriteNoTotal(steps: seq<Step>, ctx: Context, k: ChainId)
    ensures LastToken(steps, ctx, k).None? ==> Total(steps, ctx, k) == 0
  {
    if steps != [] {
      var init, step := steps[..|steps| - 1], steps[|steps| - 1];
      assert steps == init + [step];
      NoWriteNoTotal(init, ctx, k);
      TotalAppend(init, step, ctx, k);
    }
  }

  /**
   * Each bucket of the reduced dictionary holds the total of the writes that land on its chain
   * and the token of the last of them, and the dictionary has a bucket exactly for the chains
   * some write lands on.
   */
  lemma {:induction false} GroupMatchesTotals(steps: seq<Step>, ctx: Context)
    requires Group(steps, ctx).Success?
    ensures MatchesTotals(Group(steps, ctx).value, steps, ctx)
  {
    if steps != [] {
      var init, step := steps[..|steps| - 1], steps[|steps| - 1];
      assert steps == init + [step];
      GroupMatchesTotals(init, ctx);
      ApplyStepMatches(Group(init, ctx).value, init, step, ctx);
    }
  }

  /** Once a prefix of the steps makes the reduce throw, the whole reduce throws. */
  lemma {:induction false} GroupFailurePersists(steps: seq<Step>, n: nat, ctx: Context)
    requires n <= |steps| && Group(steps[..n], ctx).Failure?
    ensures Group(steps, ctx) == Failure(NoGasCostToken)
  {
    if n < |steps| {
      var init := steps[..|steps| - 1];
      assert init[..n] == steps[..n];
      GroupFailurePersists(init, n, ctx);
    } else {
      assert steps[..n] == steps;
      match Group(steps, ctx).error { case NoGasCostToken => }
    }
  }

  /** One more step of the reduce. */
  lemma GroupSnoc(steps: seq<Step>, i: nat, ctx: Context)
    requires i < |steps| && Group(steps[..i], ctx).Success?
    ensures Group(steps[..i + 1], ctx) == ApplyEffect(Group(steps[..i], ctx).value, EffectOf(steps[i], ctx))
  {
    assert steps[..i + 1][..i] == steps[..i];
  }

  /** The chain ids the writes of the steps land on, in the order the reduce makes them. */
  function WriteChains(steps: seq<Step>, ctx: Context): seq<ChainId> {
    if steps == [] then []
    else
      var step := steps[|steps| - 1];
      WriteChains(steps[..|steps| - 1], ctx) + ChainOfWrite(GasWrite(step, ctx)) + ChainOfWrite(FeeWrite(step))
  }

  function ChainOfWrite(w: Option<Write>): seq<ChainId> {
    if w.Some? then [w.value.token.chainId] else []
  }

  lemma AddWriteKeys(r: GasCostRecord, s: seq<ChainId>, w: Option<Write>)
    requires Valid(r) && r.keys == FirstOccurrences(s)
    ensures AddWrite(r, w).keys == FirstOccurrences(s + ChainOfWrite(w))
  {
    if w.None? {
      assert s + [] == s;
    } else {
      var k := w.value.token.chainId;
      assert (s + [k])[..|s|] == s;
    }
  }

  /**
   * The reduced dictionary's keys are the chains in the order a write first lands on each of them:
   * a later write to a chain already present keeps the chain's place.
   */
  lemma {:induction false} GroupKeys(steps: seq<Step>, ctx: Context)
    requires Group(steps, ctx).Success?
    ensures Group(steps, ctx).value.keys == FirstOccurrences(WriteChains(steps, ctx))
  {
    if steps != [] {
      var init, step := steps[..|steps| - 1], steps[|steps| - 1];
      GroupKeys(init, ctx);
      var r, s := Group(init, ctx).value, WriteChains(init, ctx);
      var gas, fee := GasWrite(step, ctx), FeeWrite(step);
      AddWriteKeys(r, s, gas);
      AddWriteKeys(AddWrite(r, gas), s + ChainOfWrite(gas), fee);
    }
  }

  /** Two chains of the reduced dictionary are created in the order in which writes first land on them. */
  lemma GroupKeyOrder(steps: seq<Step>, ctx: Context, a: ChainId, b: ChainId)
    requires Group(steps, ctx).Success?
    requires a in Group(steps, ctx).value.entries && b in Group(steps, ctx).value.entries
    ensures a in WriteChains(steps, ctx) && b in WriteChains(steps, ctx)
    ensures var keys := Group(steps, ctx).value.keys;
      IndexOf(keys, a) < IndexOf(keys, b) <==> IndexOf(WriteChains(steps, ctx), a) < IndexOf(WriteChains(steps, ctx), b)
  {
    GroupKeys(steps, ctx);
    FirstOccurrencesOrder(WriteChains(steps, ctx), a, b);
  }

  // ---------------------------------------------------------------------------------------------
  // Properties of the dictionary.

  /** The native-token adjustment keeps the key order, so the query's dictionary is created in first-landing order. */
  lemma AggregateKeys(route: Route, connectorId: Option<string>)
    requires Aggregate(route, connectorId).Success?
    ensures Aggregate(route, connectorId).value.keys
      == FirstOccurrences(WriteChains(PendingSteps(route.steps), ContextOf(route, connectorId)))
  {
    GroupKeys(PendingSteps(route.steps), ContextOf(route, connectorId));
  }

  /** Every bucket of the dictionary, in terms of the reference description of the pending steps. */
  lemma AggregateBuckets(route: Route, connectorId: Option<string>)
    requires Aggregate(route, connectorId).Success?
    ensures var r, pending, ctx := Aggregate(route, connectorId).value, PendingSteps(route.steps), ContextOf(route, connectorId);
      && (forall k :: k in r.entries <==> LastToken(pending, ctx, k).Some?)
      && (forall k | k in r.entries ::
        && r.entries[k].gasAmount == Total(pending, ctx, k)
        && r.entries[k].token == LastToken(pending, ctx, k).value
        && r.entries[k].token.chainId == k
        && r.entries[k].insufficient.None?
        && r.entries[k].insufficientAmount.None?
        && r.entries[k].chain.None?)
      && (forall k | k in r.entries ::
        r.entries[k].tokenAmount.Some? <==> k == route.fromChainId && route.fromToken.address == r.entries[k].token.address)
      && (forall k | k in r.entries && r.entries[k].tokenAmount.Some? ::
        r.entries[k].tokenAmount.value == r.entries[k].gasAmount + route.fromAmount)
  {
    var pending, ctx := PendingSteps(route.steps), ContextOf(route, connectorId);
    var grouped := Group(pending, ctx).value;
    GroupMatchesTotals(pending, ctx);
    forall k {
      LastTokenOnChain(pending, ctx, k);
    }
    MarkNativeTransferAt(grouped, route);
  }

  /** The native-token adjustment touches the `tokenAmount` of the source-chain bucket and nothing else. */
  lemma MarkNativeTransferAt(r: GasCostRecord, route: Route)
    requires Valid(r)
    ensures var r' := MarkNativeTransfer(r, route);
      && (forall k :: k in r'.entries <==> k in r.entries)
      && forall k | k in r.entries ::
        r'.entries[k] == if k == route.fromChainId && route.fromToken.address == r.entries[k].token.address
          then r.entries[k].(tokenAmount := Some(r.entries[k].gasAmount + route.fromAmount))
          else r.entries[k]
  {
  }

  /** The query throws exactly when a pending step has a counted gas-cost array that is empty. */
  lemma AggregateFails(route: Route, connectorId: Option<string>)
    ensures var pending := PendingSteps(route.steps);
      Aggregate(route, connectorId).Failure? <==>
      exists i | 0 <= i < |pending| :: Throws(pending[i], ContextOf(route, connectorId))
  {
    var pending, ctx := PendingSteps(route.steps), ContextOf(route, connectorId);
    GroupFailsIffSomeStepThrows(pending, ctx);
    match Group(pending, ctx)
    case Failure(_) =>
      assert Aggregate(route, connectorId).Failure?;
      var i :| 0 <= i < |pending| && Throws(pending[i], ctx);
      assert Throws(PendingSteps(route.steps)[i], ContextOf(route, connectorId));
    case Success(_) =>
      assert Aggregate(route, connectorId).Success?;
  }

  /** The step filter keeps order: it distributes over concatenation. */
  lemma {:induction false} PendingStepsAppend(a: seq<Step>, b: seq<Step>)
    ensures PendingSteps(a + b) == PendingSteps(a) + PendingSteps(b)
  {
    if a != [] {
      assert (a + b)[0] == a[0] && (a + b)[1..] == a[1..] + b;
      PendingStepsAppend(a[1..], b);
      var head := if IsPending(a[0]) then [a[0]] else [];
      assert PendingSteps(a + b) == head + PendingSteps(a[1..] + b);
      assert PendingSteps(a) == head + PendingSteps(a[1..]);
    } else {
      assert a + b == b;
    }
  }

  lemma {:induction false} NoPendingSteps(steps: seq<Step>)
    requires forall i | 0 <= i < |steps| :: !IsPending(steps[i])
    ensures PendingSteps(steps) == []
  {
    if steps != [] {
      NoPendingSteps(steps[1..]);
    }
  }

  /** A route whose steps have all finished costs nothing. */
  lemma AllDoneCostsNothing(route: Route, connectorId: Option<string>)
    requires forall i | 0 <= i < |route.steps| :: route.steps[i].execution == Some(Execution(DONE))
    ensures Aggregate(route, connectorId) == Success(Empty())
  {
    NoPendingSteps(route.steps);
  }

  /** With the Safe connector no gas cost is ever added, and so the reduce cannot throw: buckets hold fees only. */
  lemma {:induction false} SafeConnectorCountsFeesOnly(steps: seq<Step>, ctx: Context, k: ChainId)
    requires ctx.connectorId == Some(SAFE_CONNECTOR)
    ensures Group(steps, ctx).Success?
    ensures Total(steps, ctx, k) == FeeTotal(steps, k)
  {
    GroupFailsIffSomeStepThrows(steps, ctx);
    if steps != [] {
      SafeConnectorCountsFeesOnly(steps[1..], ctx, k);
    }
  }

  /** A step whose gas is skipped cannot throw, and adds its non-included fees and nothing else. */
  lemma SkippedStepAddsFeesOnly(step: Step, ctx: Context, k: ChainId)
    requires ctx.connectorId == Some(SAFE_CONNECTOR) || SkipDueToRefuel(step, ctx)
    ensures !Throws(step, ctx) && GasWrite(step, ctx).None?
    ensures StepAmountAt(step, ctx, k) == AmountAt(FeeWrite(step), k)
  {
  }

  function WithGasCosts(step: Step, costs: Option<seq<GasCost>>): Step {
    step.(estimate := step.estimate.(gasCosts := costs))
  }

  function WithFeeCosts(step: Step, fees: Option<seq<FeeCost>>): Step {
    step.(estimate := step.estimate.(feeCosts := fees))
  }

  /**
   * The gas costs of a step that is skipped (Safe connector, or a leg from the destination chain of
   * a route with a refuel step) do not matter: replacing them by anything leaves the reduce unchanged.
   */
  lemma {:induction false} SkippedGasCostsIgnored(steps: seq<Step>, ctx: Context, i: nat, costs: Option<seq<GasCost>>)
    requires i < |steps|
    requires ctx.connectorId == Some(SAFE_CONNECTOR) || SkipDueToRefuel(steps[i], ctx)
    ensures Group(steps[i := WithGasCosts(steps[i], costs)], ctx) == Group(steps, ctx)
  {
    SameEffectsSameGroup(steps[i := WithGasCosts(steps[i], costs)], steps, ctx);
  }

  lemma {:induction false} NonIncludedSkipsIncluded(fs: seq<FeeCost>, j: nat, fee: FeeCost)
    requires j <= |fs| && fee.included
    ensures NonIncluded(fs[..j] + [fee] + fs[j..]) == NonIncluded(fs)
  {
    if j == 0 {
      assert fs[..0] + [fee] + fs[0..] == [fee] + fs;
      assert ([fee] + fs)[1..] == fs;
    } else {
      var fs' := fs[..j] + [fee] + fs[j..];
      assert fs'[0] == fs[0];
      assert fs'[1..] == fs[1..][..j - 1] + [fee] + fs[1..][j - 1..];
      NonIncludedSkipsIncluded(fs[1..], j - 1, fee);
    }
  }

  /** An included fee, inserted anywhere in a step's fee list, changes nothing. */
  lemma IncludedFeeIgnored(steps: seq<Step>, ctx: Context, i: nat, j: nat, fee: FeeCost)
    requires i < |steps| && fee.included
    requires steps[i].estimate.feeCosts.Some? && j <= |steps[i].estimate.feeCosts.value|
    ensures var fs := steps[i].estimate.feeCosts.value;
      Group(steps[i := WithFeeCosts(steps[i], Some(fs[..j] + [fee] + fs[j..]))], ctx) == Group(steps, ctx)
  {
    var fs := steps[i].estimate.feeCosts.value;
    NonIncludedSkipsIncluded(fs, j, fee);
    var steps' := steps[i := WithFeeCosts(steps[i], Some(fs[..j] + [fee] + fs[j..]))];
    assert EffectOf(steps'[i], ctx) == EffectOf(steps[i], ctx);
    SameEffectsSameGroup(steps', steps, ctx);
  }

  /** Step sequences with the same effect step by step reduce to the same dictionary. */
  /** The reduce over a non-empty list, one step at a time. */
  lemma GroupUnfold(s: seq<Step>, ctx: Context)
    requires s != []
    ensures var init := Group(s[..|s| - 1], ctx);
      Group(s, ctx) == if init.Failure? then Failure(init.error) else ApplyEffect(init.value, EffectOf(s[|s| - 1], ctx))
  {
  }

  lemma {:induction false} SameEffectsSameGroup(a: seq<Step>, b: seq<Step>, ctx: Context)
    requires |a| == |b| && forall j | 0 <= j < |a| :: EffectOf(a[j], ctx) == EffectOf(b[j], ctx)
    ensures Group(a, ctx) == Group(b, ctx)
  {
    if a != [] {
      var n := |a|;
      var a', b' := a[..n - 1], b[..n - 1];
      assert forall j | 0 <= j < |a'| :: a'[j] == a[j] && b'[j] == b[j];
      SameEffectsSameGroup(a', b', ctx);
      GroupUnfold(a, ctx);
      GroupUnfold(b, ctx);
      assert EffectOf(a[n - 1], ctx) == EffectOf(b[n - 1], ctx);
    }
  }
}
