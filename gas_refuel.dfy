/**
 * The refuel recommender of packages/widget/src/hooks/useGasRefuel.ts: whether the widget should
 * offer to top up the destination chain's native gas token, and the record the hook returns.
 *
 * The hooks it calls are inputs here: the form fields, the chain registry (`getChainById`), the
 * native-token balance on the destination chain (`useTokenBalance`) and the gas recommendation
 * (`useGasRecommendation`) together with its loading flag.
 */
module GasRefuel {
  import opened Wrappers
  import opened Lifi

  /** The form fields the hook reads: source chain, destination chain and destination address, each possibly unset. */
  datatype FormFields = FormFields(fromChainId: Option<ChainId>, toChainId: Option<ChainId>, toAddress: Option<Address>)

  /** A token and an amount of it, as the recommendation service returns one. */
  datatype TokenAmount = TokenAmount(token: Token, amount: nat)

  /** What `useGasRecommendation` resolves to. */
  datatype GasRecommendation = GasRecommendation(available: bool, recommended: Option<TokenAmount>, fromAmount: Option<nat>)

  /** The hook's return value; `availble` keeps the hook's spelling. */
  datatype RefuelState = RefuelState(
    enabled: bool,
    availble: Option<bool>,
    isLoading: bool,
    chain: Option<Chain>,
    fromAmount: Option<nat>)

  /** `getChainById(id)`: no chain for an unset id. */
  function ChainOf(lookup: ChainLookup, id: Option<ChainId>): (c: Option<Chain>)
    ensures id.None? ==> c.None?
  {
    match id
    case None => None
    case Some(k) => lookup(k)
  }

  /** `chain?.chainType` */
  function ChainTypeOf(c: Option<Chain>): Option<string> {
    match c
    case None => None
    case Some(chain) => Some(chain.chainType)
  }

  /** `Boolean(toAddress)`: set and not the empty string. */
  predicate AddressGiven(toAddress: Option<Address>) {
    toAddress.Some? && toAddress.value != ""
  }

  /**
   * Lines 33-34: a transfer between ecosystems needs an explicit destination address. Two unknown
   * chains count as the same ecosystem; a known chain and an unknown one do not.
   */
  predicate ChainTypeSatisfied(fromChain: Option<Chain>, toChain: Option<Chain>, toAddress: Option<Address>): (b: bool)
    ensures b <==>
      || (fromChain.None? && toChain.None?)
      || (fromChain.Some? && toChain.Some? && fromChain.value.chainType == toChain.value.chainType)
      || (toAddress.Some? && |toAddress.value| > 0)
  {
    if ChainTypeOf(fromChain) != ChainTypeOf(toChain) then AddressGiven(toAddress) else true
  }

  /** `nativeToken.amount ?? 0n` */
  function NativeBalance(nativeToken: TokenBalance): int {
    nativeToken.amount.GetOr(0)
  }

  /** None of the five guards of lines 44-48 applies. */
  predicate Qualifies(fields: FormFields, lookup: ChainLookup, nativeToken: Option<TokenBalance>, rec: Option<GasRecommendation>) {
    && fields.fromChainId != fields.toChainId
    && rec.Some? && rec.value.available
    && rec.value.recommended.Some?
    && nativeToken.Some?
    && ChainTypeSatisfied(ChainOf(lookup, fields.fromChainId), ChainOf(lookup, fields.toChainId), fields.toAddress)
  }

  /**
   * The `enabled` memo of lines 36-69: no guard applies and the balance is below half the
   * recommended amount, halved with truncating division. Equivalently, one more unit of balance,
   * doubled, still fits within the recommended amount.
   */
  function RefuelEnabled(fields: FormFields, lookup: ChainLookup, nativeToken: Option<TokenBalance>, rec: Option<GasRecommendation>)
    : (enabled: bool)
    ensures enabled <==>
      && Qualifies(fields, lookup, nativeToken, rec)
      && 2 * (NativeBalance(nativeToken.value) + 1) <= rec.value.recommended.value.amount
  {
    if !Qualifies(fields, lookup, nativeToken, rec) then false
    else
      var tokenBalance := NativeBalance(nativeToken.value);
      var recommendedAmount := rec.value.recommended.value.amount / 2;
      tokenBalance < recommendedAmount
  }

  /** The record of lines 71-79. */
  function GasRefuel(fields: FormFields, lookup: ChainLookup, nativeToken: Option<TokenBalance>,
                     rec: Option<GasRecommendation>, isLoading: bool): (s: RefuelState)
    ensures s.enabled == RefuelEnabled(fields, lookup, nativeToken, rec)
    ensures s.availble.Some? <==> rec.Some?
    ensures rec.Some? ==> s.availble == Some(rec.value.available)
    ensures s.fromAmount.Some? ==> rec.Some? && rec.value.available && s.fromAmount == rec.value.fromAmount
    ensures rec.Some? && rec.value.available ==> s.fromAmount == rec.value.fromAmount
    ensures s.chain == ChainOf(lookup, fields.toChainId) && s.isLoading == isLoading
  {
    var availble := if rec.Some? then Some(rec.value.available) else None;
    var fromAmount := if rec.Some? && rec.value.available then rec.value.fromAmount else None;
    RefuelState(RefuelEnabled(fields, lookup, nativeToken, rec), availble, isLoading, ChainOf(lookup, fields.toChainId), fromAmount)
  }

  /** Same-chain refuel is never offered, whatever the other inputs (two unset chains count as the same). */
  lemma SameChainNeverRefuels(fields: FormFields, lookup: ChainLookup, nativeToken: Option<TokenBalance>, rec: Option<GasRecommendation>)
    requires fields.fromChainId == fields.toChainId
    ensures !RefuelEnabled(fields, lookup, nativeToken, rec)
  {
  }

  /** Without an available recommendation with an amount, or without a known native token, refuel is not offered. */
  lemma MissingDataNeverRefuels(fields: FormFields, lookup: ChainLookup, nativeToken: Option<TokenBalance>, rec: Option<GasRecommendation>)
    requires rec.None? || !rec.value.available || rec.value.recommended.None? || nativeToken.None?
    ensures !RefuelEnabled(fields, lookup, nativeToken, rec)
  {
  }

  /** Between chains of different ecosystems, refuel is not offered until a destination address is entered. */
  lemma CrossEcosystemNeedsAddress(fields: FormFields, lookup: ChainLookup, nativeToken: Option<TokenBalance>, rec: Option<GasRecommendation>)
    requires ChainTypeOf(ChainOf(lookup, fields.fromChainId)) != ChainTypeOf(ChainOf(lookup, fields.toChainId))
    requires !AddressGiven(fields.toAddress)
    ensures !RefuelEnabled(fields, lookup, nativeToken, rec)
  {
  }

  /** Within one ecosystem the destination address plays no part. */
  lemma SameEcosystemIgnoresAddress(fields: FormFields, lookup: ChainLookup, nativeToken: Option<TokenBalance>,
                                    rec: Option<GasRecommendation>, toAddress: Option<Address>)
    requires ChainTypeOf(ChainOf(lookup, fields.fromChainId)) == ChainTypeOf(ChainOf(lookup, fields.toChainId))
    ensures RefuelEnabled(fields.(toAddress := toAddress), lookup, nativeToken, rec) == RefuelEnabled(fields, lookup, nativeToken, rec)
  {
  }

  /** A recommended amount of 0 or 1 halves to 0, and no non-negative balance is below 0. */
  lemma SmallRecommendationNeverRefuels(fields: FormFields, lookup: ChainLookup, nativeToken: Option<TokenBalance>, rec: Option<GasRecommendation>)
    requires rec.Some? && rec.value.recommended.Some? && rec.value.recommended.value.amount <= 1
    requires nativeToken.Some? && NativeBalance(nativeToken.value) >= 0
    ensures !RefuelEnabled(fields, lookup, nativeToken, rec)
  {
  }

  /** Holding less of the native token never withdraws an offer to refuel. */
  lemma RefuelMonotone(fields: FormFields, lookup: ChainLookup, nativeToken: TokenBalance, rec: Option<GasRecommendation>, lower: int)
    requires lower <= NativeBalance(nativeToken)
    requires RefuelEnabled(fields, lookup, Some(nativeToken), rec)
    ensures RefuelEnabled(fields, lookup, Some(nativeToken.(amount := Some(lower))), rec)
  {
  }

  /** A balance entry whose amount is missing counts as holding nothing. */
  lemma MissingAmountCountsAsZero(fields: FormFields, lookup: ChainLookup, nativeToken: TokenBalance, rec: Option<GasRecommendation>)
    ensures RefuelEnabled(fields, lookup, Some(nativeToken.(amount := None)), rec)
      == RefuelEnabled(fields, lookup, Some(nativeToken.(amount := Some(0))), rec)
  {
  }

  /**
   * A recommendation of 1000 between two EVM chains: a balance of 400 (or 499) is below the
   * threshold of 500 and refuel is offered; 500 or 600 is not below it.
   */
  lemma ThresholdExample(lookup: ChainLookup)
    requires lookup(1).Some? && lookup(1).value.chainType == "EVM"
    requires lookup(10).Some? && lookup(10).value.chainType == "EVM"
    ensures var fields := FormFields(Some(1), Some(10), None);
      var native := Token(10, "0x0000000000000000000000000000000000000000");
      var rec := Some(GasRecommendation(true, Some(TokenAmount(native, 1000)), Some(7)));
      && RefuelEnabled(fields, lookup, Some(TokenBalance(10, native.address, Some(400))), rec)
      && RefuelEnabled(fields, lookup, Some(TokenBalance(10, native.address, Some(499))), rec)
      && !RefuelEnabled(fields, lookup, Some(TokenBalance(10, native.address, Some(500))), rec)
      && !RefuelEnabled(fields, lookup, Some(TokenBalance(10, native.address, Some(600))), rec)
  {
  }
}
