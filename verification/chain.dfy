/** The on-chain world the application reads, as data. Every contract view
    or RPC request that can fail is a `Call`; contracts are looked up by
    lower-cased address because EVM addresses are case-insensitive. */
module Chain {
  import opened Calls
  import opened Text

  type Address = string

  /** `ethers.ZeroAddress`: what the factory's `getPool` reports for a token
      that has no pool. */
  const ZeroAddress: Address := "0x0000000000000000000000000000000000000000"

  /** Smallest units per HBAR on the EVM side (`formatEther` divides by this). */
  const WeiPerHbar: nat := 1_000_000_000_000_000_000

  function Pow10(n: nat): (r: nat)
    ensures r >= 1
  {
    if n == 0 then 1 else 10 * Pow10(n - 1)
  }

  /** `parseFloat(formatEther(wei))`, in exact arithmetic. */
  function WeiToHbar(wei: nat): real
  {
    wei as real / WeiPerHbar as real
  }

  /** `parseFloat(formatUnits(raw, decimals))`, in exact arithmetic. */
  function ToUnits(raw: nat, decimals: nat): real
  {
    raw as real / Pow10(decimals) as real
  }

  /** The factory registry: `allTokensLength()`, `allTokens(i)` and
      `getPool(token)`. */
  datatype Factory = Factory(
    length: Call<nat>,
    registry: seq<Call<Address>>,
    pools: map<Address, Call<Address>>)

  /** `allTokens(i)`; an index past the registry reverts. */
  function TokenAtIndex(f: Factory, i: nat): Call<Address>
  {
    if i < |f.registry| then f.registry[i] else Threw
  }

  /** `getPool(token)`; a token the factory never saw maps to the zero address. */
  function PoolCall(f: Factory, token: Address): Call<Address>
  {
    if Lower(token) in f.pools then f.pools[Lower(token)] else Ok(ZeroAddress)
  }

  /** The discovery loop shared by the indexer and the portfolio page:
      read `allTokensLength()`, then `allTokens(i)` for every index below it;
      any failing read makes the whole enumeration throw. */
  function ReadRegistry(f: Factory): (r: Call<seq<Address>>)
    ensures r.Ok? <==> f.length.Ok? && forall i :: 0 <= i < f.length.value ==> TokenAtIndex(f, i).Ok?
    ensures r.Ok? ==> |r.value| == f.length.value
    ensures r.Ok? ==> forall i :: 0 <= i < |r.value| ==> TokenAtIndex(f, i) == Ok(r.value[i])
  {
    match f.length
    case Threw => Threw
    case Ok(n) => ReadPrefix(f, n)
  }

  /** `allTokens(0)`, ..., `allTokens(n - 1)` in order. */
  function ReadPrefix(f: Factory, n: nat): (r: Call<seq<Address>>)
    ensures r.Ok? <==> forall i :: 0 <= i < n ==> TokenAtIndex(f, i).Ok?
    ensures r.Ok? ==> |r.value| == n
    ensures r.Ok? ==> forall i :: 0 <= i < n ==> TokenAtIndex(f, i) == Ok(r.value[i])
  {
    if n == 0 then Ok([])
    else
      match ReadPrefix(f, n - 1)
      case Threw => Threw
      case Ok(prefix) =>
        match TokenAtIndex(f, n - 1)
        case Threw => Threw
        case Ok(a) => Ok(prefix + [a])
  }

  /** The views of one launch-pad token contract. `balance` is
      `balanceOf(connected wallet)`. */
  datatype TokenContract = TokenContract(
    name: Call<string>,
    symbol: Call<string>,
    decimals: Call<nat>,
    totalSupply: Call<nat>,
    balance: Call<nat>)

  /** An address without contract code: every view call fails to decode. */
  const NoContract := TokenContract(Threw, Threw, Threw, Threw, Threw)

  /** The views of one bonding-curve pool: `getPriceForSell(1 whole token)`
      in wei, and `reserves()` as (wei, token smallest units). */
  datatype PoolContract = PoolContract(
    unitSellQuote: Call<nat>,
    reserves: Call<(nat, nat)>)

  const NoPool := PoolContract(Threw, Threw)

  /** Event signature a log was filed under (`topics[0]`). */
  datatype Topic = BoughtTopic | SoldTopic | OtherTopic

  /** What `iface.parseLog` makes of a log's data. */
  datatype Payload =
    | Bought(buyer: Address, hbarInWei: nat, tokensOut: nat)
    | Sold(seller: Address, tokensIn: nat, hbarOutWei: nat)
    | OtherEvent
    | Malformed

  datatype RawLog = RawLog(emitter: Address, block: nat, topic: Topic, payload: Payload)

  /** The chain as seen through JSON-RPC: the head height, the timestamp of
      each height the node answers for, every log in chain order, and whether
      `getLogs` requests fail. */
  datatype ChainState = ChainState(
    latest: nat,
    blockTimes: map<nat, nat>,
    logs: seq<RawLog>,
    logQueriesFail: bool)

  /** `(await getBlock(h))?.timestamp || 0`: a block the node does not return
      reads as timestamp 0. */
  function Timestamp(c: ChainState, h: nat): nat
  {
    if h in c.blockTimes then c.blockTimes[h] else 0
  }

  /** Everything the application can observe, beyond its own database. */
  datatype Env = Env(
    factory: Option<Factory>,
    tokens: map<Address, TokenContract>,
    pools: map<Address, PoolContract>,
    chain: ChainState,
    feed: Option<real>)

  function TokenAt(env: Env, a: Address): TokenContract
  {
    if Lower(a) in env.tokens then env.tokens[Lower(a)] else NoContract
  }

  function PoolAt(env: Env, a: Address): PoolContract
  {
    if Lower(a) in env.pools then env.pools[Lower(a)] else NoPool
  }

  /** `getHbarUsd()`: the feed's USD price, or 0 when the request fails or the
      field is missing (`usd || 0`). */
  function ReferencePrice(feed: Option<real>): real
  {
    match feed
    case Some(usd) => usd
    case None => 0.0
  }
}
