/** The swap handlers of the trading dashboard: input guards, the
    slippage-protected minimum output, the swap path, the deadline, and the
    approval decision. Transactions are modelled by whether they succeed. */
module Trading {
  import opened Calls
  import opened Chain

  /** Basis points in a whole. */
  const BpsWhole: int := 10000

  /** Seconds a swap stays valid after it is built. */
  const DeadlineSeconds: int := 60 * 10

  /** Decimals assumed when a token reports none (or zero). */
  const DefaultDecimals: nat := 18

  /** The slippage buttons the dashboard offers; the initial setting is 100. */
  predicate SlippageOption(bps: int)
  {
    bps == 50 || bps == 100 || bps == 200
  }

  /** BigInt `/` by 10000: the quotient truncated toward zero. */
  function TruncDivBps(a: int): (q: int)
    ensures a >= 0 ==> 0 <= q * 10000 <= a < q * 10000 + 10000
    ensures a < 0 ==> q * 10000 - 10000 < a <= q * 10000 <= 0
  {
    if a >= 0 then a / 10000 else -((-a) / 10000)
  }

  /** `(outRaw * BigInt(10000 - bps)) / BigInt(10000)`. */
  function MinOut(outRaw: nat, bps: int): int
  {
    TruncDivBps(outRaw * (BpsWhole - bps))
  }

  /** Scaling a non-negative amount preserves the order of the factors. */
  lemma {:induction false} MulMono(x: nat, y: int, z: int)
    requires y <= z
    ensures x * y <= x * z
    decreases x
  {
    if x > 0 {
      MulMono(x - 1, y, z);
      assert x * y == (x - 1) * y + y;
      assert x * z == (x - 1) * z + z;
    }
  }

  /** For a slippage between 0 and 100%, the minimum is the largest whole
      amount not above `outRaw` scaled by `1 - bps/10000`; so it lies
      between 0 and `outRaw`, and is `outRaw` itself at zero slippage. */
  lemma {:induction false} MinOutBounds(outRaw: nat, bps: int)
    requires 0 <= bps <= BpsWhole
    ensures var m := MinOut(outRaw, bps);
            && 0 <= m <= outRaw
            && m * 10000 <= outRaw * (10000 - bps) < m * 10000 + 10000
            && (bps == 0 ==> m == outRaw)
  {
  }

  /** More slippage never raises the minimum. */
  lemma {:induction false} MinOutAntitone(outRaw: nat, bps1: int, bps2: int)
    requires 0 <= bps1 <= bps2 <= BpsWhole
    ensures MinOut(outRaw, bps2) <= MinOut(outRaw, bps1)
  {
    MinOutBounds(outRaw, bps1);
    MinOutBounds(outRaw, bps2);
    MulMono(outRaw, 10000 - bps2, 10000 - bps1);
  }

  /** Every slippage button lowers a non-zero quote: the minimum is strictly
      below it. */
  lemma {:induction false} SlippageOptionLowers(outRaw: nat, bps: int)
    requires SlippageOption(bps) && outRaw > 0
    ensures MinOut(outRaw, bps) < outRaw
  {
    MinOutBounds(outRaw, bps);
    MulMono(outRaw, 10000 - bps, 9950);
  }

  /** The `getAmountsOut` block: the last amount of the quote scaled by the
      slippage; 0 when the call throws or returns no amounts (indexing the
      empty array yields `undefined` and the BigInt product throws). */
  function QuoteMinOut(quote: Call<seq<nat>>, bps: int): (r: int)
    ensures quote.Threw? || |quote.value| == 0 ==> r == 0
    ensures quote.Ok? && |quote.value| > 0 ==> r == MinOut(quote.value[|quote.value| - 1], bps)
  {
    match quote
    case Threw => 0
    case Ok(amounts) => if |amounts| == 0 then 0 else MinOut(amounts[|amounts| - 1], bps)
  }

  /** What `Number(amount)` can produce. */
  datatype NumberValue = Finite(x: real) | PosInf | NegInf | NaN

  /** `Number(v) <= 0`; every comparison with NaN is false. */
  predicate AtMostZero(n: NumberValue)
  {
    match n
    case Finite(x) => x <= 0.0
    case PosInf => false
    case NegInf => true
    case NaN => false
  }

  /** The amount guard: rejected when empty or when `Number(amount) <= 0`. */
  predicate RejectsAmount(amount: string, n: NumberValue)
  {
    amount == "" || AtMostZero(n)
  }

  /** A non-numeric amount gets past the guard; only parsing it later fails. */
  lemma {:induction false} NaNPassesGuard(amount: string)
    requires amount != ""
    ensures !RejectsAmount(amount, NaN)
  {
  }

  /** The token selected for trading; `decimals` may be unknown. */
  datatype Selected = Selected(address: Address, symbol: string, decimals: Option<nat>)

  /** The form state and the connected wallet at the moment of the click:
      the buy box holds an HBAR amount, the sell box a token amount, each
      with what `Number(...)` makes of it. */
  datatype Form = Form(
    routerConfigured: bool,
    token: Option<Selected>,
    hbarAmount: string,
    hbarNumber: NumberValue,
    tokenAmount: string,
    tokenNumber: NumberValue,
    slippageBps: int,
    walletReady: bool)

  /** Which handler was clicked. */
  datatype Side = Buying | Selling

  /** The amount box a handler reads. */
  function AmountOf(form: Form, side: Side): string
  {
    match side
    case Buying => form.hbarAmount
    case Selling => form.tokenAmount
  }

  /** `Number(...)` of the amount box a handler reads. */
  function NumberOf(form: Form, side: Side): NumberValue
  {
    match side
    case Buying => form.hbarNumber
    case Selling => form.tokenNumber
  }

  /** The router as the handler sees it: `WETH()`, `getAmountsOut` for an
      input and a path, and whether the swap transaction goes through. */
  datatype Router = Router(
    weth: Call<Address>,
    amountsOut: (nat, seq<Address>) -> Call<seq<nat>>,
    swapSucceeds: bool)

  /** The token contract as the sell handler sees it. */
  datatype Erc20 = Erc20(
    decimals: Call<nat>,
    allowance: Call<nat>,
    approveSucceeds: bool)

  /** How a click ends: one of the early returns (each with its toast), a
      failure caught by the outer `catch`, or a submitted swap. */
  datatype TradeOutcome =
    | NotConfigured
    | NoToken
    | BadHbarAmount
    | BadTokenAmount
    | WalletNotReady
    | TradeFailed
    | Swapped(path: seq<Address>, amountIn: nat, amountOutMin: int, deadline: int, approved: bool)

  /** Whether an outcome is one of the early returns. */
  predicate Rejected(o: TradeOutcome)
  {
    o.NotConfigured? || o.NoToken? || o.BadHbarAmount? || o.BadTokenAmount? || o.WalletNotReady?
  }

  /** The amount rejection of each handler: "Enter HBAR amount" when
      buying, "Enter token amount" when selling. */
  function BadAmountFor(side: Side): TradeOutcome
  {
    match side
    case Buying => BadHbarAmount
    case Selling => BadTokenAmount
  }

  /** The early returns, checked in the order both handlers use: router
      address, token, the handler's own amount box, wallet. */
  function Guard(form: Form, side: Side): (r: Option<TradeOutcome>)
    ensures r.Some? ==> Rejected(r.value)
    ensures r == Some(NotConfigured) <==> !form.routerConfigured
    ensures r == Some(NoToken) <==> form.routerConfigured && form.token.None?
    ensures r == Some(BadAmountFor(side)) <==>
              form.routerConfigured && form.token.Some? && RejectsAmount(AmountOf(form, side), NumberOf(form, side))
    ensures r == Some(WalletNotReady) <==>
              && form.routerConfigured && form.token.Some?
              && !RejectsAmount(AmountOf(form, side), NumberOf(form, side)) && !form.walletReady
    ensures r.None? ==> form.token.Some?
  {
    if !form.routerConfigured then Some(NotConfigured)
    else if form.token.None? then Some(NoToken)
    else if RejectsAmount(AmountOf(form, side), NumberOf(form, side)) then Some(BadAmountFor(side))
    else if !form.walletReady then Some(WalletNotReady)
    else None
  }

  /** `Math.floor(Date.now() / 1000) + 600`. */
  function Deadline(nowMs: nat): (d: int)
    ensures d * 1000 > nowMs
    ensures d * 1000 <= nowMs + DeadlineSeconds * 1000
    ensures (d - DeadlineSeconds) * 1000 <= nowMs < (d - DeadlineSeconds) * 1000 + 1000
  {
    nowMs / 1000 + DeadlineSeconds
  }

  /** `handleBuy`: parse the HBAR amount with 18 decimals, route
      WHBAR -> token, no approval. `parse(s, d)` is `ethers.parseUnits(s, d)`. */
  function Buy(form: Form, router: Router, parse: (string, nat) -> Call<nat>, nowMs: nat): (r: TradeOutcome)
    ensures Guard(form, Buying).Some? ==> r == Guard(form, Buying).value
    ensures Guard(form, Buying).None? ==> !Rejected(r)
    ensures Guard(form, Buying).None? && (parse(form.hbarAmount, 18).Threw? || router.weth.Threw? || !router.swapSucceeds) ==>
              r == TradeFailed
    ensures Guard(form, Buying).None? && parse(form.hbarAmount, 18).Ok? && router.weth.Ok? && router.swapSucceeds ==>
              r.Swapped?
    ensures r.Swapped? ==>
              && Guard(form, Buying).None?
              && router.weth.Ok?
              && r.path == [router.weth.value, form.token.value.address]
              && parse(form.hbarAmount, 18) == Ok(r.amountIn)
              && r.amountOutMin == QuoteMinOut(router.amountsOut(r.amountIn, r.path), form.slippageBps)
              && r.deadline == Deadline(nowMs)
              && !r.approved
  {
    match Guard(form, Buying)
    case Some(rejection) => rejection
    case None =>
      match parse(form.hbarAmount, 18)
      case Threw => TradeFailed
      case Ok(amountIn) =>
        match router.weth
        case Threw => TradeFailed
        case Ok(whbar) =>
          var path := [whbar, form.token.value.address];
          var minOut := QuoteMinOut(router.amountsOut(amountIn, path), form.slippageBps);
          if router.swapSucceeds then Swapped(path, amountIn, minOut, Deadline(nowMs), false)
          else TradeFailed
  }

  /** The decimals the sell handler parses with: the known value when it is
      non-zero, else a fresh `decimals()` read when that succeeds and is
      non-zero, else 18 (`decimals || 18`). */
  function SellDecimals(known: Option<nat>, read: Call<nat>): (d: nat)
    ensures d > 0
    ensures known.Some? && known.value > 0 ==> d == known.value
    ensures (known.None? || known.value == 0) && read.Ok? && read.value > 0 ==> d == read.value
    ensures (known.None? || known.value == 0) && (read.Threw? || read.value == 0) ==> d == DefaultDecimals
  {
    var decimals := if known.Some? && known.value > 0 then known
                    else if read.Ok? then Some(read.value) else known;
    if decimals.Some? && decimals.value > 0 then decimals.value else DefaultDecimals
  }

  /** `handleSell`: parse the token amount with the token's decimals, approve
      the router when the allowance is below the amount, route
      token -> WHBAR. */
  function Sell(form: Form, token: Erc20, router: Router, parse: (string, nat) -> Call<nat>, nowMs: nat): (r: TradeOutcome)
    ensures Guard(form, Selling).Some? ==> r == Guard(form, Selling).value
    ensures r.Swapped? ==>
              var decimals := SellDecimals(form.token.value.decimals, token.decimals);
              && Guard(form, Selling).None?
              && router.weth.Ok?
              && r.path == [form.token.value.address, router.weth.value]
              && parse(form.tokenAmount, decimals) == Ok(r.amountIn)
              && token.allowance.Ok?
              && (r.approved <==> token.allowance.value < r.amountIn)
              && r.amountOutMin == QuoteMinOut(router.amountsOut(r.amountIn, r.path), form.slippageBps)
              && r.deadline == Deadline(nowMs)
    ensures Guard(form, Selling).None? ==> !Rejected(r)
    ensures Guard(form, Selling).None? && router.weth.Threw? ==> r == TradeFailed
    ensures Guard(form, Selling).None? && token.allowance.Threw? ==> r == TradeFailed
    ensures Guard(form, Selling).None? && !router.swapSucceeds ==> r == TradeFailed
    ensures Guard(form, Selling).None? ==>
              var amountIn := parse(form.tokenAmount, SellDecimals(form.token.value.decimals, token.decimals));
              && (amountIn.Threw? ==> r == TradeFailed)
              && ((amountIn.Ok? && token.allowance.Ok? && token.allowance.value < amountIn.value
                   && !token.approveSucceeds) ==> r == TradeFailed)
              && ((amountIn.Ok? && token.allowance.Ok? && router.weth.Ok? && router.swapSucceeds
                   && (token.approveSucceeds || amountIn.value <= token.allowance.value)) ==> r.Swapped?)
  {
    match Guard(form, Selling)
    case Some(rejection) => rejection
    case None =>
      var sel := form.token.value;
      match parse(form.tokenAmount, SellDecimals(sel.decimals, token.decimals))
      case Threw => TradeFailed
      case Ok(amountIn) =>
        match token.allowance
        case Threw => TradeFailed
        case Ok(allowance) =>
          var approve := allowance < amountIn;
          if approve && !token.approveSucceeds then TradeFailed
          else
            match router.weth
            case Threw => TradeFailed
            case Ok(whbar) =>
              var path := [sel.address, whbar];
              var minOut := QuoteMinOut(router.amountsOut(amountIn, path), form.slippageBps);
              if router.swapSucceeds then Swapped(path, amountIn, minOut, Deadline(nowMs), approve)
              else TradeFailed
  }

  /** Buying and selling share their first, second and last early exits,
      each reports only its own amount box, and they route through the
      same two addresses in opposite directions. */
  lemma {:induction false} BuySellAgree(form: Form, token: Erc20, router: Router, parse: (string, nat) -> Call<nat>, nowMs: nat)
    ensures var b := Buy(form, router, parse, nowMs);
            var s := Sell(form, token, router, parse, nowMs);
            && (b == NotConfigured <==> s == NotConfigured)
            && (b == NoToken <==> s == NoToken)
            && b != BadTokenAmount && s != BadHbarAmount
            && (!RejectsAmount(form.hbarAmount, form.hbarNumber) && !RejectsAmount(form.tokenAmount, form.tokenNumber) ==>
                  (b == WalletNotReady <==> s == WalletNotReady))
            && (b.Swapped? && s.Swapped? ==> s.path == [b.path[1], b.path[0]])
  {
  }
}
