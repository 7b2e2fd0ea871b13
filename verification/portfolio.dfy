/** The portfolio page's `fetchAssets`: the wallet's HBAR holding plus every
    launch-pad token it holds, each valued through its bonding-curve pool,
    sorted by USD value, with the total. Also the page's category and logo
    helpers, which `fetchAssets` does not call. */
module Portfolio {
  import opened Calls
  import opened Text
  import opened Chain
  import opened VolumeScan

  /** How far back the page's volume figure looks, in blocks. */
  const RecentBlocks: nat := 2000

  datatype Category = Core | Meme | Other

  /** One row of the portfolio table. `priceChange24h` is only set for HBAR;
      `marketCap` and `volume24h` only for launch-pad tokens. */
  datatype Asset = Asset(
    name: string,
    symbol: string,
    logo: string,
    fallback: string,
    amount: real,
    decimals: nat,
    valueUsd: real,
    coinType: string,
    category: Category,
    currentPrice: real,
    priceChange24h: Option<real>,
    marketCap: Option<real>,
    volume24h: Option<real>)

  /** `getAssetCategory`: "core" when the symbol contains `HBAR` (case
      sensitive); otherwise "meme" when the lower-cased symbol or name
      contains `dog`, `pepe` or `meme`; otherwise "other". The coin type is
      not consulted. */
  function GetAssetCategory(coinType: string, symbol: string, name: string): (r: Category)
    ensures r == Core <==> HasInfix(symbol, "HBAR")
    ensures r == Meme <==>
              && !HasInfix(symbol, "HBAR")
              && (|| HasInfix(Lower(symbol), "dog") || HasInfix(Lower(symbol), "pepe")
                  || HasInfix(Lower(symbol), "meme") || HasInfix(Lower(name), "dog")
                  || HasInfix(Lower(name), "pepe") || HasInfix(Lower(name), "meme"))
  {
    ContainsIsInfix(symbol, "HBAR");
    ContainsIsInfix(Lower(symbol), "dog");
    ContainsIsInfix(Lower(symbol), "pepe");
    ContainsIsInfix(Lower(symbol), "meme");
    ContainsIsInfix(Lower(name), "dog");
    ContainsIsInfix(Lower(name), "pepe");
    ContainsIsInfix(Lower(name), "meme");
    if Contains(symbol, "HBAR") then Core
    else
      var s := Lower(symbol);
      var n := Lower(name);
      if Contains(s, "dog") || Contains(s, "pepe") || Contains(s, "meme")
         || Contains(n, "dog") || Contains(n, "pepe") || Contains(n, "meme")
      then Meme
      else Other
  }

  /** The logo `fetchAssets` gives every launch-pad token. */
  function TokenLogo(symbol: string): string
  {
    "/tokens/" + Lower(symbol) + ".svg"
  }

  /** `getAssetLogo`: the HBAR logo for core assets, the per-symbol logo for
      meme coins, the default logo otherwise. */
  function GetAssetLogo(category: Category, symbol: string): (r: string)
    ensures category == Core ==> r == "/tokens/hbar.svg"
    ensures category == Meme ==> r == TokenLogo(symbol)
    ensures category == Other ==> r == "/tokens/default.svg"
  {
    match category
    case Core => "/tokens/hbar.svg"
    case Meme => "/tokens/" + Lower(symbol) + ".svg"
    case Other => "/tokens/default.svg"
  }

  /** The avatar glyph: the first character of the symbol, upper-cased, or
      `?` for an empty symbol. */
  function FallbackGlyph(symbol: string): (r: string)
    ensures |r| == 1
    ensures symbol == "" ==> r == "?"
    ensures symbol != "" && !IsLowerLetter(symbol[0]) ==> r[0] == symbol[0]
    ensures symbol != "" && IsLowerLetter(symbol[0]) ==> IsUpper(r[0]) && r[0] as int + 32 == symbol[0] as int
  {
    if symbol == "" then "?" else [UpperChar(symbol[0])]
  }

  /** The HBAR price and its 24-hour change as the price feed reports them. */
  datatype HbarMarket = HbarMarket(usd: real, change24h: real)

  /** The wallet as the page sees it: the connected account, whether a
      provider is present, and `getBalance(account)`. */
  datatype Wallet = Wallet(account: Option<Address>, providerReady: bool, hbarBalance: Call<nat>)

  /** The USD value of a holding is its amount times its current price. */
  predicate HoldingValued(a: Asset)
  {
    a.valueUsd == a.amount * a.currentPrice
  }

  /** The first row, always present: the HBAR balance at the feed price. */
  function HbarAsset(wei: nat, usd: real, change: real): (a: Asset)
    ensures a.symbol == "HBAR" && a.category == Core && a.fallback == "H" && a.decimals == 18
    ensures a.amount == WeiToHbar(wei) && a.currentPrice == usd && a.priceChange24h == Some(change)
    ensures a.name == "Hedera" && a.logo == "" && a.coinType == "HBAR"
    ensures a.marketCap.None? && a.volume24h.None?
    ensures HoldingValued(a)
  {
    Asset("Hedera", "HBAR", "", "H", WeiToHbar(wei), 18, WeiToHbar(wei) * usd, "HBAR", Core, usd,
          Some(change), None, None)
  }

  /** First block of the page's volume window: 2000 blocks back, or block 0. */
  function RecentWindowStart(latest: nat): (from: nat)
    ensures from <= latest
    ensures latest > RecentBlocks ==> latest - from == RecentBlocks
    ensures latest <= RecentBlocks ==> from == 0
  {
    if latest > RecentBlocks then latest - RecentBlocks else 0
  }

  /** The HBAR moved by `Bought` and `Sold` logs of a pool since the window
      start, folded over the `Bought` results and then the `Sold` results. */
  function RecentHbar(c: ChainState, pool: Address): real
  {
    var from := RecentWindowStart(c.latest);
    HbarSum(GetLogs(c.logs, pool, from, c.latest, BoughtTopic) + GetLogs(c.logs, pool, from, c.latest, SoldTopic))
  }

  /** The page's volume fold counts exactly the pool's trade logs in the
      recent window, each once. */
  lemma {:induction false} RecentHbarIsWindow(c: ChainState, pool: Address)
    ensures RecentHbar(c, pool) == WindowHbar(c.logs, pool, RecentWindowStart(c.latest), c.latest + 1)
  {
    ChunkLogsSum(c.logs, pool, RecentWindowStart(c.latest), c.latest);
  }

  /** The page's volume figure for a pool: 0 when a log query fails,
      otherwise the HBAR moved in the recent window at the feed price. */
  function RecentVolumeUsd(c: ChainState, pool: Address, hbarUsd: real): (v: real)
    ensures c.logQueriesFail ==> v == 0.0
    ensures !c.logQueriesFail ==>
              v == WindowHbar(c.logs, pool, RecentWindowStart(c.latest), c.latest + 1) * hbarUsd
  {
    if c.logQueriesFail then 0.0
    else
      var hbar := RecentHbar(c, pool);
      RecentHbarIsWindow(c, pool);
      assert hbar == WindowHbar(c.logs, pool, RecentWindowStart(c.latest), c.latest + 1);
      hbar * hbarUsd
  }

  /** A token's price and volume as the page derives them from its pool. */
  datatype Pricing = Pricing(priceUsd: real, volume24h: real)

  const Unpriced := Pricing(0.0, 0.0)

  /** The pool block: a throwing or empty `getPool`, or a throwing sell
      quote, leaves price and volume at 0; otherwise the price is the quote
      at the feed price and the volume is the recent window's. */
  function PoolPricing(env: Env, f: Factory, addr: Address, hbarUsd: real): (r: Pricing)
    ensures || PoolCall(f, addr).Threw?
            || PoolCall(f, addr).value == ""
            || PoolCall(f, addr).value == ZeroAddress
            || PoolAt(env, PoolCall(f, addr).value).unitSellQuote.Threw?
            ==> r == Unpriced
    ensures && PoolCall(f, addr).Ok?
            && PoolCall(f, addr).value != ""
            && PoolCall(f, addr).value != ZeroAddress
            && PoolAt(env, PoolCall(f, addr).value).unitSellQuote.Ok?
            ==>
              var pool := PoolCall(f, addr).value;
              && r.priceUsd == WeiToHbar(PoolAt(env, pool).unitSellQuote.value) * hbarUsd
              && r.volume24h == RecentVolumeUsd(env.chain, pool, hbarUsd)
  {
    match PoolCall(f, addr)
    case Threw => Unpriced
    case Ok(pool) =>
      if pool == "" || pool == ZeroAddress then Unpriced
      else
        match PoolAt(env, pool).unitSellQuote
        case Threw => Unpriced
        case Ok(quote) => Pricing(WeiToHbar(quote) * hbarUsd, RecentVolumeUsd(env.chain, pool, hbarUsd))
  }

  /** A positive raw balance is exactly a positive amount. */
  lemma {:induction false} ToUnitsPositive(raw: nat, decimals: nat)
    ensures ToUnits(raw, decimals) > 0.0 <==> raw > 0
  {
    var d := Pow10(decimals) as real;
    assert d >= 1.0;
    if raw > 0 {
      assert raw as real / d > 0.0;
    } else {
      assert raw as real / d == 0.0;
    }
  }

  /** Market capitalization: the supply in whole tokens times the price. */
  function MarketCapUsd(supply: nat, decimals: nat, priceUsd: real): real
  {
    ToUnits(supply, decimals) * priceUsd
  }

  /** The market cap of a token row is its supply in whole tokens times its
      current price. */
  predicate SupplyCapped(a: Asset, supply: nat, decimals: nat)
  {
    a.marketCap == Some(MarketCapUsd(supply, decimals, a.currentPrice))
  }

  /** The per-token scan: nothing when any of `name()`, `symbol()`,
      `decimals()`, `balanceOf()` throws, or the balance is zero; otherwise an
      "other" row with the token's own logo path, priced through its pool,
      with market cap 0 when `totalSupply()` throws. */
  function ScanToken(env: Env, f: Factory, addr: Address, hbarUsd: real): (r: Option<Asset>)
    ensures r.Some? <==>
              var tok := TokenAt(env, addr);
              && tok.name.Ok? && tok.symbol.Ok? && tok.decimals.Ok? && tok.balance.Ok?
              && tok.balance.value > 0
    ensures r.Some? ==>
              var a := r.value;
              var tok := TokenAt(env, addr);
              var pricing := PoolPricing(env, f, addr, hbarUsd);
              && a.name == tok.name.value && a.symbol == tok.symbol.value
              && a.decimals == tok.decimals.value && a.coinType == addr
              && a.amount == ToUnits(tok.balance.value, tok.decimals.value) && a.amount > 0.0
              && a.category == Other
              && a.logo == TokenLogo(a.symbol)
              && a.fallback == FallbackGlyph(a.symbol)
              && a.currentPrice == pricing.priceUsd
              && a.volume24h == Some(pricing.volume24h)
              && (tok.totalSupply.Threw? ==> a.marketCap == Some(0.0))
              && (tok.totalSupply.Ok? ==> SupplyCapped(a, tok.totalSupply.value, tok.decimals.value))
              && a.priceChange24h.None?
              && HoldingValued(a)
  {
    var tok := TokenAt(env, addr);
    if tok.name.Threw? || tok.symbol.Threw? || tok.decimals.Threw? || tok.balance.Threw? then None
    else
      var dec := tok.decimals.value;
      var amount := ToUnits(tok.balance.value, dec);
      ToUnitsPositive(tok.balance.value, dec);
      if amount <= 0.0 then None
      else
        var pricing := PoolPricing(env, f, addr, hbarUsd);
        var marketCap := if tok.totalSupply.Ok? then MarketCapUsd(tok.totalSupply.value, dec, pricing.priceUsd) else 0.0;
        var symbol := tok.symbol.value;
        Some(Asset(tok.name.value, symbol, TokenLogo(symbol), FallbackGlyph(symbol), amount, dec,
                   amount * pricing.priceUsd, addr, Other, pricing.priceUsd, None, Some(marketCap),
                   Some(pricing.volume24h)))
  }

  /** The rows one address contributes after `.filter(a => !!a)`. */
  function ScanRows(env: Env, f: Factory, addr: Address, hbarUsd: real): (r: seq<Asset>)
    ensures |r| <= 1
  {
    match ScanToken(env, f, addr, hbarUsd) case Some(a) => [a] case None => []
  }

  /** `Promise.all(addrs.map(scan))` followed by `.filter(a => !!a)`. */
  function ScanAll(env: Env, f: Factory, addrs: seq<Address>, hbarUsd: real): (r: seq<Asset>)
    ensures |r| <= |addrs|
    decreases |addrs|
  {
    if |addrs| == 0 then []
    else ScanRows(env, f, addrs[0], hbarUsd) + ScanAll(env, f, addrs[1..], hbarUsd)
  }

  /** Scanning distributes over concatenation: the rows follow registry
      order, one per successful scan. */
  lemma {:induction false} ScanAllAppend(env: Env, f: Factory, a: seq<Address>, b: seq<Address>, hbarUsd: real)
    ensures ScanAll(env, f, a + b, hbarUsd) == ScanAll(env, f, a, hbarUsd) + ScanAll(env, f, b, hbarUsd)
    decreases |a|
  {
    if |a| > 0 {
      var head := ScanRows(env, f, a[0], hbarUsd);
      ScanAllAppend(env, f, a[1..], b, hbarUsd);
      assert (a + b)[1..] == a[1..] + b;
      assert ScanAll(env, f, a + b, hbarUsd) == head + ScanAll(env, f, a[1..] + b, hbarUsd);
      assert ScanAll(env, f, a, hbarUsd) == head + ScanAll(env, f, a[1..], hbarUsd);
    } else {
      assert a + b == b;
    }
  }

  /** The scanned rows are exactly the successful scans, so each is a
      held, valued "other" token. */
  lemma {:induction false} ScanAllMembers(env: Env, f: Factory, addrs: seq<Address>, hbarUsd: real, a: Asset)
    ensures a in ScanAll(env, f, addrs, hbarUsd) <==>
              exists i :: 0 <= i < |addrs| && ScanToken(env, f, addrs[i], hbarUsd) == Some(a)
    decreases |addrs|
  {
    if |addrs| > 0 {
      ScanAllMembers(env, f, addrs[1..], hbarUsd, a);
      var head := ScanRows(env, f, addrs[0], hbarUsd);
      var rest := ScanAll(env, f, addrs[1..], hbarUsd);
      assert ScanAll(env, f, addrs, hbarUsd) == head + rest;
      if exists i :: 0 <= i < |addrs| && ScanToken(env, f, addrs[i], hbarUsd) == Some(a) {
        var i :| 0 <= i < |addrs| && ScanToken(env, f, addrs[i], hbarUsd) == Some(a);
        if i > 0 {
          assert ScanToken(env, f, addrs[1..][i - 1], hbarUsd) == Some(a);
        } else {
          assert a in head;
        }
      }
      if exists i :: 0 <= i < |addrs[1..]| && ScanToken(env, f, addrs[1..][i], hbarUsd) == Some(a) {
        var i :| 0 <= i < |addrs[1..]| && ScanToken(env, f, addrs[1..][i], hbarUsd) == Some(a);
        assert ScanToken(env, f, addrs[i + 1], hbarUsd) == Some(a);
      }
      if a in head {
        assert ScanToken(env, f, addrs[0], hbarUsd) == Some(a);
      }
    }
  }

  /** Holdings in descending USD value. */
  ghost predicate SortedByValue(s: seq<Asset>)
  {
    forall i, j :: 0 <= i < j < |s| ==> s[i].valueUsd >= s[j].valueUsd
  }

  /** One insertion step of a stable sort with comparator
      `(a, b) => b.valueUSD - a.valueUSD`: `x` moves past every row worth
      strictly more, and stops before the first row worth the same or less. */
  function InsertByValue(x: Asset, ys: seq<Asset>): (r: seq<Asset>)
    ensures |r| == |ys| + 1
    decreases |ys|
  {
    if |ys| == 0 then [x]
    else if ys[0].valueUsd > x.valueUsd then [ys[0]] + InsertByValue(x, ys[1..])
    else [x] + ys
  }

  /** `out.sort(...)`: a stable sort by descending USD value. */
  function SortByValue(xs: seq<Asset>): (r: seq<Asset>)
    ensures |r| == |xs|
    decreases |xs|
  {
    if |xs| == 0 then [] else InsertByValue(xs[0], SortByValue(xs[1..]))
  }

  /** No row is worth more than `v`. */
  ghost predicate AllAtMost(s: seq<Asset>, v: real)
  {
    forall i :: 0 <= i < |s| ==> s[i].valueUsd <= v
  }

  lemma {:induction false} InsertByValueAtMost(x: Asset, ys: seq<Asset>, v: real)
    requires AllAtMost(ys, v) && x.valueUsd <= v
    ensures AllAtMost(InsertByValue(x, ys), v)
    decreases |ys|
  {
    if |ys| > 0 && ys[0].valueUsd > x.valueUsd {
      InsertByValueAtMost(x, ys[1..], v);
      var rest := InsertByValue(x, ys[1..]);
      assert forall i :: 1 <= i < |rest| + 1 ==> ([ys[0]] + rest)[i] == rest[i - 1];
    }
  }

  lemma {:induction false} InsertByValueSorted(x: Asset, ys: seq<Asset>)
    requires SortedByValue(ys)
    ensures SortedByValue(InsertByValue(x, ys))
    decreases |ys|
  {
    if |ys| > 0 && ys[0].valueUsd > x.valueUsd {
      var rest := InsertByValue(x, ys[1..]);
      InsertByValueSorted(x, ys[1..]);
      assert AllAtMost(ys[1..], ys[0].valueUsd) by {
        forall i | 0 <= i < |ys[1..]|
          ensures ys[1..][i].valueUsd <= ys[0].valueUsd
        {
          assert ys[1..][i] == ys[i + 1];
        }
      }
      InsertByValueAtMost(x, ys[1..], ys[0].valueUsd);
      var r := [ys[0]] + rest;
      forall i, j | 0 <= i < j < |r|
        ensures r[i].valueUsd >= r[j].valueUsd
      {
        assert r[j] == rest[j - 1];
        if i > 0 {
          assert r[i] == rest[i - 1];
        }
      }
    } else if |ys| > 0 {
      var r := [x] + ys;
      forall i, j | 0 <= i < j < |r|
        ensures r[i].valueUsd >= r[j].valueUsd
      {
        assert r[j] == ys[j - 1];
        if i > 0 {
          assert r[i] == ys[i - 1];
        } else {
          assert ys[0].valueUsd >= ys[j - 1].valueUsd || j - 1 == 0;
        }
      }
    }
  }

  lemma {:induction false} InsertByValuePerm(x: Asset, ys: seq<Asset>)
    ensures multiset(InsertByValue(x, ys)) == multiset{x} + multiset(ys)
    decreases |ys|
  {
    if |ys| > 0 && ys[0].valueUsd > x.valueUsd {
      InsertByValuePerm(x, ys[1..]);
      assert ys == [ys[0]] + ys[1..];
    }
  }

  /** The sort yields rows in descending USD value, and the same rows. */
  lemma {:induction false} SortByValueSpec(xs: seq<Asset>)
    ensures SortedByValue(SortByValue(xs))
    ensures multiset(SortByValue(xs)) == multiset(xs)
    decreases |xs|
  {
    if |xs| > 0 {
      SortByValueSpec(xs[1..]);
      InsertByValueSorted(xs[0], SortByValue(xs[1..]));
      InsertByValuePerm(xs[0], SortByValue(xs[1..]));
      assert xs == [xs[0]] + xs[1..];
    }
  }

  /** The rows worth exactly `v`, in order. */
  function WorthExactly(s: seq<Asset>, v: real): (r: seq<Asset>)
    ensures forall a :: a in r <==> a in s && a.valueUsd == v
    decreases |s|
  {
    if |s| == 0 then []
    else (if s[0].valueUsd == v then [s[0]] else []) + WorthExactly(s[1..], v)
  }

  /** Filtering by value looks at the head first. */
  lemma {:induction false} WorthExactlyCons(a: Asset, s: seq<Asset>, v: real)
    ensures WorthExactly([a] + s, v) == (if a.valueUsd == v then [a] else []) + WorthExactly(s, v)
  {
    assert ([a] + s)[1..] == s;
  }

  /** Two runs of which one is empty can be swapped. */
  lemma {:induction false} SwapEmpty(a: seq<Asset>, b: seq<Asset>, c: seq<Asset>)
    requires a == [] || b == []
    ensures a + (b + c) == b + (a + c)
  {
    if a == [] {
      assert a + (b + c) == b + c;
      assert a + c == c;
    } else {
      assert b + c == c;
      assert b + (a + c) == a + c;
    }
  }

  /** Inserting a row puts it before every row of its own value and leaves
      the rows of any value in their order. */
  lemma {:induction false} InsertByValueStable(x: Asset, ys: seq<Asset>, v: real)
    ensures WorthExactly(InsertByValue(x, ys), v) == (if x.valueUsd == v then [x] else []) + WorthExactly(ys, v)
    decreases |ys|
  {
    var mine: seq<Asset> := if x.valueUsd == v then [x] else [];
    if |ys| == 0 {
      assert WorthExactly([x] + [], v) == mine + WorthExactly([], v) by {
        WorthExactlyCons(x, [], v);
      }
      assert [x] + [] == [x];
    } else if ys[0].valueUsd > x.valueUsd {
      var rest := InsertByValue(x, ys[1..]);
      var theirs: seq<Asset> := if ys[0].valueUsd == v then [ys[0]] else [];
      var tail := WorthExactly(ys[1..], v);
      assert InsertByValue(x, ys) == [ys[0]] + rest;
      assert WorthExactly(rest, v) == mine + tail by {
        InsertByValueStable(x, ys[1..], v);
      }
      assert WorthExactly([ys[0]] + rest, v) == theirs + WorthExactly(rest, v) by {
        WorthExactlyCons(ys[0], rest, v);
      }
      assert WorthExactly(ys, v) == theirs + tail by {
        WorthExactlyCons(ys[0], ys[1..], v);
        assert [ys[0]] + ys[1..] == ys;
      }
      SwapEmpty(theirs, mine, tail);
    } else {
      assert InsertByValue(x, ys) == [x] + ys;
      WorthExactlyCons(x, ys, v);
    }
  }

  /** The sort is stable: rows of equal value keep their relative order. */
  lemma {:induction false} SortByValueStable(xs: seq<Asset>, v: real)
    ensures WorthExactly(SortByValue(xs), v) == WorthExactly(xs, v)
    decreases |xs|
  {
    if |xs| > 0 {
      SortByValueStable(xs[1..], v);
      InsertByValueStable(xs[0], SortByValue(xs[1..]), v);
    }
  }

  /** `out.reduce((sum, a) => sum + a.valueUSD, 0)`. */
  function Total(s: seq<Asset>): real
    decreases |s|
  {
    if |s| == 0 then 0.0 else s[0].valueUsd + Total(s[1..])
  }

  lemma {:induction false} InsertByValueTotal(x: Asset, ys: seq<Asset>)
    ensures Total(InsertByValue(x, ys)) == x.valueUsd + Total(ys)
    decreases |ys|
  {
    if |ys| == 0 {
      assert [x][1..] == [];
    } else if ys[0].valueUsd > x.valueUsd {
      var rest := InsertByValue(x, ys[1..]);
      InsertByValueTotal(x, ys[1..]);
      assert ([ys[0]] + rest)[1..] == rest;
    } else {
      assert ([x] + ys)[1..] == ys;
    }
  }

  /** Sorting does not change the total. */
  lemma {:induction false} SortByValueTotal(xs: seq<Asset>)
    ensures Total(SortByValue(xs)) == Total(xs)
    decreases |xs|
  {
    if |xs| > 0 {
      SortByValueTotal(xs[1..]);
      InsertByValueTotal(xs[0], SortByValue(xs[1..]));
    }
  }

  /** What the page shows after a fetch. */
  datatype PortfolioView =
    | NotConnected
    | LoadFailed
    | Loaded(assets: seq<Asset>, totalValue: real, priceChange24h: real)

  /** The launch-pad rows before sorting: none without a factory or when the
      registry read fails (the factory scan's `catch`). */
  function TokenAssets(env: Env, hbarUsd: real): seq<Asset>
  {
    match env.factory
    case None => []
    case Some(f) =>
      match ReadRegistry(f)
      case Threw => []
      case Ok(addrs) => ScanAll(env, f, addrs, hbarUsd)
  }

  /** The feed's price, or 0 when the request fails. */
  function MarketUsd(market: Option<HbarMarket>): real
  {
    match market case Some(m) => m.usd case None => 0.0
  }

  /** The feed's 24-hour change, or 0 when the request fails. */
  function MarketChange(market: Option<HbarMarket>): real
  {
    match market case Some(m) => m.change24h case None => 0.0
  }

  /** The rows before sorting: HBAR first, then the held tokens in registry
      order. */
  function Unsorted(wei: nat, env: Env, market: Option<HbarMarket>): seq<Asset>
  {
    [HbarAsset(wei, MarketUsd(market), MarketChange(market))] + TokenAssets(env, MarketUsd(market))
  }

  /** `fetchAssets`. */
  function FetchAssets(wallet: Wallet, env: Env, market: Option<HbarMarket>): (r: PortfolioView)
    ensures wallet.account.None? || !wallet.providerReady ==> r == NotConnected
    ensures wallet.account.Some? && wallet.providerReady && wallet.hbarBalance.Threw? ==> r == LoadFailed
    ensures r.Loaded? ==>
              && wallet.hbarBalance.Ok?
              && |r.assets| == |Unsorted(wallet.hbarBalance.value, env, market)|
              && r.priceChange24h == MarketChange(market)
  {
    if wallet.account.None? || !wallet.providerReady then NotConnected
    else
      match wallet.hbarBalance
      case Threw => LoadFailed
      case Ok(wei) =>
        var sorted := SortByValue(Unsorted(wei, env, market));
        Loaded(sorted, Total(sorted), MarketChange(market))
  }

  /** A loaded portfolio holds exactly the HBAR row and the scanned token
      rows, in descending USD value, rows of equal value in their original
      order, with the total of all their values. */
  lemma {:induction false} FetchAssetsSpec(wallet: Wallet, env: Env, market: Option<HbarMarket>)
    requires wallet.account.Some? && wallet.providerReady && wallet.hbarBalance.Ok?
    ensures var r := FetchAssets(wallet, env, market);
            var out := Unsorted(wallet.hbarBalance.value, env, market);
            && r.Loaded?
            && SortedByValue(r.assets)
            && multiset(r.assets) == multiset(out)
            && (forall v :: WorthExactly(r.assets, v) == WorthExactly(out, v))
            && r.totalValue == Total(out)
  {
    var out := Unsorted(wallet.hbarBalance.value, env, market);
    SortByValueSpec(out);
    SortByValueTotal(out);
    forall v
      ensures WorthExactly(SortByValue(out), v) == WorthExactly(out, v)
    {
      SortByValueStable(out, v);
    }
  }

  /** Every row of a loaded portfolio other than HBAR is a token the wallet
      holds, categorised "other" whatever `getAssetCategory` would say; when
      the factory scan fails, HBAR is the only row. */
  lemma {:induction false} TokenRowsAreOther(env: Env, hbarUsd: real, a: Asset)
    requires a in TokenAssets(env, hbarUsd)
    ensures a.category == Other && a.amount > 0.0 && a.logo == TokenLogo(a.symbol) && HoldingValued(a)
  {
    var f := env.factory.value;
    var addrs := ReadRegistry(f).value;
    ScanAllMembers(env, f, addrs, hbarUsd, a);
  }

  /** With the registry unreadable, only the HBAR row remains. */
  lemma {:induction false} FactoryFailureLeavesHbar(wallet: Wallet, env: Env, market: Option<HbarMarket>)
    requires wallet.account.Some? && wallet.providerReady && wallet.hbarBalance.Ok?
    requires env.factory.None? || ReadRegistry(env.factory.value).Threw?
    ensures FetchAssets(wallet, env, market).assets
            == [HbarAsset(wallet.hbarBalance.value, MarketUsd(market), MarketChange(market))]
  {
  }
}
