/**
 * The route, chain and balance records the two hooks read, as the LI.FI SDK shapes them.
 * Amounts that the SDK carries as decimal strings are taken as already parsed into naturals;
 * balances are `bigint`s that may be missing.
 */
module Lifi {
  import opened Wrappers

  type ChainId = nat
  type Address = string

  /** A token is identified by the chain it lives on and its address there. */
  datatype Token = Token(chainId: ChainId, address: Address)

  /** Registry data for one chain: its ecosystem family (EVM, SVM, UTXO, ...) and its native token. */
  datatype Chain = Chain(id: ChainId, chainType: string, nativeToken: Token)

  /** `getChainById`: the registry of available chains, taken as an uninterpreted lookup. */
  type ChainLookup = ChainId -> Option<Chain>

  datatype GasCost = GasCost(token: Token, amount: nat)
  datatype FeeCost = FeeCost(token: Token, amount: nat, included: bool)
  datatype Estimate = Estimate(gasCosts: Option<seq<GasCost>>, feeCosts: Option<seq<FeeCost>>)
  datatype Action = Action(fromChainId: ChainId)
  datatype IncludedStep = IncludedStep(tool: string)
  datatype Execution = Execution(status: string)

  /** One leg of a route. `execution` is absent until the leg has started. */
  datatype Step = Step(action: Action, estimate: Estimate, includedSteps: seq<IncludedStep>, execution: Option<Execution>)

  datatype Route = Route(fromChainId: ChainId, toChainId: ChainId, fromToken: Token, fromAmount: nat, steps: seq<Step>)

  /** One entry of a balance query: a token and the amount held, if the query returned one. */
  datatype TokenBalance = TokenBalance(chainId: ChainId, address: Address, amount: Option<int>)
}
