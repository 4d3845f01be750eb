/** Pool records, errors and constants of the exchange. */
module DexTypes {
  import opened Primitives

  const MINIMUM_LIQUIDITY: u128 := 1000
  const DEFAULT_FEE_BPS: u128 := 30
  const DEFAULT_PROTOCOL_FEE_BPS: u128 := 5

  /** The zero hash stands for native VTT. */
  const NATIVE_VTT: H256 := ZERO_HASH

  /** `Panicked` stands for an `expect` on an Amount that aborts the node. */
  datatype DexError =
    | PoolAlreadyExists
    | PoolNotFound
    | ZeroAmount
    | ZeroLiquidity
    | InsufficientBalance
    | InsufficientLiquidity
    | SlippageExceeded(expected: u128, got: u128)
    | InvalidTokenPair
    | SameToken
    | Overflow
    | NotAuthorized
    | NothingToClaim
    | DexPaused
    | Panicked

  datatype PoolState = PoolState(
    poolId: H256,
    tokenA: H256,
    tokenB: H256,
    reserveA: u128,
    reserveB: u128,
    lpTokenId: H256,
    lpTotalSupply: u128,
    feeBps: u128,
    protocolFeeBps: u128,
    protocolFeesA: u128,
    protocolFeesB: u128,
    creator: Address,
    createdAtEpoch: nat)

  /** The two uses of the hash function: of a sorted token pair, and of "lp:" and a pool id. */
  datatype Hasher = Hasher(pair: (H256, H256) -> H256, lp: H256 -> H256)

  function ComputePoolId(h: Hasher, a: H256, b: H256): H256 {
    if a <= b then h.pair(a, b) else h.pair(b, a)
  }
}
