# AutoDeFi launch pad: snapshot indexing pipeline, in Dafny

This project is a Dafny model of the valuation core of the AutoDeFi launch pad. The launch pad lists tokens that trade against HBAR through bonding-curve pools on Hedera's EVM. The model covers:

- **`EVMIndexer`** (`lib/services/evm-indexer.ts`). It discovers tokens through the factory registry and resolves each token's pool. It prices a token by quoting the sale of one whole token, writes one snapshot row per token, and prunes rows older than 72 hours. It also finds the first block of the last 24 hours by binary search over block timestamps. It sums the HBAR moved by `Bought` and `Sold` logs over that window, in chunks of 2500 + 1 blocks.
- **The metrics route** (`GET /api/indexer-evm/metrics`). It parses the `tokens` parameter. For each token it reports the live price, the 24-hour change against the stored snapshots, the market cap and the 24-hour volume, or a per-token error.
- **The token list route** (`GET /api/tokens`). It falls back to reading at most 100 registry entries from the chain when the database read fails.
- **The trading dashboard's swap handlers.** These cover the input guards, the slippage-protected minimum output (BigInt arithmetic), the swap path, the deadline, the approval decision and the decimals fallback.
- **The portfolio page's `fetchAssets`.** It builds an HBAR row plus one row per held launch-pad token, priced through its pool. The rows are stably sorted by USD value and totalled. The page's category and logo helpers are modelled too.

Every RPC read, price-feed request and database operation is an input to the model. A read is a `Call<T>`: either `Ok(value)` or `Threw`. The chain is a `ChainState`, which holds the head height, the block timestamps, the logs in order, and whether log queries fail. The contracts are maps keyed by lower-cased address. The snapshot table is a `Db`, which holds the rows, the tokens whose insert fails, and whether deletes or reads fail. Amounts are exact `real`s.

The modules, one per file, are:

| module | file |
|---|---|
| `Calls` | `calls.dfy` |
| `Text` | `text.dfy` |
| `Chain` | `chain.dfy` |
| `BlockSearch` | `block_search.dfy` |
| `VolumeScan` | `volume_scan.dfy` |
| `Indexer` | `indexer.dfy` |
| `MetricsRoute` | `metrics_route.dfy` |
| `TokensRoute` | `tokens_route.dfy` |
| `Trading` | `trading.dfy` |
| `Portfolio` | `portfolio.dfy` |

### Notes on the code


- `snapshotToken` computes no volume. Only the metrics route and the portfolio page compute one.
- A failing `getLogs` in `volume24hUsd` is neither retried nor skipped. It aborts the scan, and the metrics route turns it into a volume of 0.
- The chunking (`end = min(latest, start + 2500)`, next `start = start + 2501`) tiles the window exactly. `VolumeScan.TilingPartitions` proves that every block in the window is covered exactly once.
- `getAssetCategory` and `getAssetLogo` are never called. `fetchAssets` gives every token the category "other" and the logo `/tokens/<lower-cased symbol>.svg`, and gives HBAR an empty logo.
- A throwing `getPool` means "no pool" in the indexer but `'failed'` in the metrics route.

## Model

| member | source | states |
|---|---|---|
| Text.Lower | lib/services/evm-indexer.ts:108-109 | lower-casing keeps the length of an address or symbol |
| Text.LowerSpec | lib/services/evm-indexer.ts:108-109 | `toLowerCase` keeps the length, leaves no upper-case letter, moves each of A-Z to its lower-case letter and leaves every other character unchanged |
| Text.LowerIsIdempotent | lib/services/evm-indexer.ts:108-109 | a stored token or pool address is already lower-case, so lower-casing it again changes nothing |
| Text.LowerKeepsNonLetters | app/api/indexer-evm/metrics/route.ts:19 | a non-letter such as `,` occurs in the lower-cased text exactly when it occurs in the original |
| Text.TrimStart | app/api/indexer-evm/metrics/route.ts:19 | drops exactly the leading whitespace run; the result is a suffix that starts with a non-space |
| Text.TrimEnd | app/api/indexer-evm/metrics/route.ts:19 | drops exactly the trailing whitespace run; the result is a prefix that ends with a non-space |
| Text.Trim | app/api/indexer-evm/metrics/route.ts:19 | `trim()` is the infix between the leading and trailing whitespace, with no whitespace at either end |
| Text.TrimIsIdempotent | app/api/indexer-evm/metrics/route.ts:19 | trimming an already trimmed piece changes nothing |
| Text.TrimIntroducesNothing | app/api/indexer-evm/metrics/route.ts:19 | every character of a trimmed piece was in the piece |
| Text.Split | app/api/indexer-evm/metrics/route.ts:19 | `split(',')` yields at least one piece, even for an empty parameter |
| Text.SplitOmitsSep | app/api/indexer-evm/metrics/route.ts:19 | no piece of `split(',')` contains a comma |
| Text.JoinSplit | app/api/indexer-evm/metrics/route.ts:19 | joining the pieces with the separator gives back the original parameter, so splitting loses nothing |
| Text.SplitCount | app/api/indexer-evm/metrics/route.ts:19 | there is one more piece than there are commas |
| Text.ContainsIsInfix | app/portfolio/page.tsx:68-80 | `includes` holds exactly when the word occurs at some position of the text |
| Chain.ReadRegistry | lib/services/evm-indexer.ts:53-57 | the registry read succeeds iff `allTokensLength()` and every `allTokens(i)` below it succeed; it then lists exactly those addresses, in index order |
| BlockSearch.LinearFirstSpec | lib/services/evm-indexer.ts:159-178 | reference for the search: on monotone timestamps the linear scan finds the first height at or after the target, or 0 when there is none |
| BlockSearch.FirstIsUnique | lib/services/evm-indexer.ts:159-178 | there is at most one first height at or after a target, so the answer is well defined |
| BlockSearch.FindFromBlock24h | lib/services/evm-indexer.ts:159-178 | the answer is at most the head. It is 0 or a block at or after the target. On monotone timestamps it is the first such block, or 0 when none exists, and it agrees with the linear scan |
| VolumeScan.Chunks | lib/services/evm-indexer.ts:188-190 | the chunks tile `[from, latest]` in order. Each spans at most 2501 blocks, and there are `(latest - from) / 2501 + 1` of them, or none for an empty window |
| VolumeScan.TilingPartitions | lib/services/evm-indexer.ts:189-190 | a block lies in some chunk iff it is inside the window, and then it lies in exactly one chunk |
| VolumeScan.ChunksIncrease | lib/services/evm-indexer.ts:189-190 | later chunks lie strictly above earlier ones, and every chunk stays inside the window |
| VolumeScan.HbarSumAppend | lib/services/evm-indexer.ts:195-207 | the running HBAR total of `[...logsB, ...logsS]` is the sum of the two parts |
| VolumeScan.AddLogs | lib/services/evm-indexer.ts:195-207 | the per-log loop adds exactly the HBAR sum of the logs to the running total |
| VolumeScan.GetLogs | lib/services/evm-indexer.ts:191-194 | a log query returns exactly the pool's logs with the topic in the inclusive block range |
| VolumeScan.ChunkLogsSum | lib/services/evm-indexer.ts:191-207 | the two topic queries of one chunk contribute exactly the window volume of that chunk: every `Bought`/`Sold` log once, non-trade or malformed logs nothing |
| VolumeScan.WindowEmpty | lib/services/evm-indexer.ts:189 | an empty block range carries no volume |
| VolumeScan.WindowSplit | lib/services/evm-indexer.ts:189-208 | the volumes of adjacent block ranges add up to the volume of their union |
| VolumeScan.ScanVolume | lib/services/evm-indexer.ts:187-209 | the chunk loop yields exactly the window volume over `[from, latest]` times the reference price. A failing log query in a non-empty window makes it throw; an empty window yields 0 |
| VolumeScan.Volume24hUsd | lib/services/evm-indexer.ts:180-210 | `volume24hUsd` throws iff log queries fail. Otherwise it is the USD volume of the pool's trades from the located 24-hour block to the head |
| Indexer.DiscoverTokens | lib/services/evm-indexer.ts:50-61 | no factory or a failing registry read gives no tokens. A readable registry is returned whole, in index order |
| Indexer.GetPoolForToken | lib/services/evm-indexer.ts:63-73 | a pool is returned iff a factory is configured and `getPool` answers an address that is neither empty nor zero; it is that address |
| Indexer.TokenOutcome | lib/services/evm-indexer.ts:75-102 | no snapshot iff there is no pool. A snapshot exists iff `decimals()` and the sell quote answer. It is for the token and its pool, priced at the quote in HBAR times the reference price, at the head block, with reserves present iff `reserves()` answers |
| Indexer.SnapshotToken | lib/services/evm-indexer.ts:104-133 | nothing is written unless a snapshot is produced. A failing insert is swallowed, leaves the table unchanged and still returns the snapshot. Otherwise exactly one row is appended, with token and pool lower-cased |
| Indexer.Producers | lib/services/evm-indexer.ts:142-149 | the producing tokens are exactly the discovered tokens whose outcome carries a snapshot |
| Indexer.SnapshotEach | lib/services/evm-indexer.ts:142-149 | the batch holds one snapshot per producing token; throwing or pool-less tokens drop out without stopping the loop |
| Indexer.SnapshotEachRows | lib/services/evm-indexer.ts:142-149 | the batch appends exactly the rows of its snapshots whose insert is accepted, in order, and changes nothing else |
| Indexer.SnapshotEachOutcomes | lib/services/evm-indexer.ts:142-149 | the i-th snapshot of the batch is the one the i-th producing token's own outcome carried, so one token's failure does not affect another's snapshot |
| Indexer.Prune | lib/services/evm-indexer.ts:150-154 | the prune keeps exactly the rows created at or after now minus 72 hours, in order |
| Indexer.PruneIsIdempotent | lib/services/evm-indexer.ts:151-153 | pruning twice at the same instant deletes nothing more |
| Indexer.PruneAppend | lib/services/evm-indexer.ts:150-154 | the prune treats existing and freshly inserted rows alike: pruning distributes over appending |
| Indexer.PruneDb | lib/services/evm-indexer.ts:150-154 | a failing `deleteMany` is swallowed and leaves the table as it was; otherwise only retained rows remain |
| Indexer.OutcomePriced | lib/services/evm-indexer.ts:89-93 | a produced snapshot is for its own token and carries the reference price it was priced with |
| Indexer.RunWithoutTokens | lib/services/evm-indexer.ts:136-139 | with nothing discovered a run returns nothing and touches no row (no price fetch, no prune) |
| Indexer.BatchPriced | lib/services/evm-indexer.ts:140-149 | when every outcome is priced with one reference price, every batch snapshot is for its producing token and uses that price |
| Indexer.RunSnapshots | lib/services/evm-indexer.ts:136-157 | a run returns one snapshot per producing token; the i-th is for the i-th producing token in discovery order and is priced with the single reference price fetched for the run |
| Indexer.RunRows | lib/services/evm-indexer.ts:136-157 | a run appends the accepted rows. Unless the delete fails, the table ends as the pruned old rows followed by the pruned new rows |
| Indexer.RunLeavesOnlyRecentRows | lib/services/evm-indexer.ts:150-154 | after a run whose prune succeeds, no row is older than 72 hours |
| MetricsRoute.KeepNonEmpty | app/api/indexer-evm/metrics/route.ts:19 | `.filter(Boolean)` leaves no empty token and never lengthens the list |
| MetricsRoute.KeepNonEmptyMembers | app/api/indexer-evm/metrics/route.ts:19 | `.filter(Boolean)` keeps a string iff it is non-empty and one of the normalized pieces |
| MetricsRoute.KeepNonEmptyAppend | app/api/indexer-evm/metrics/route.ts:19 | `.filter(Boolean)` distributes over concatenation, so it keeps the input order and every duplicate |
| MetricsRoute.NormalizeShape | app/api/indexer-evm/metrics/route.ts:19 | a normalized piece is lower-case, has no outer whitespace and is as long as the trimmed piece |
| MetricsRoute.NormalizedPieceShape | app/api/indexer-evm/metrics/route.ts:19 | a comma-free, non-blank piece normalizes to a comma-free, lower-case token with no whitespace at either end |
| MetricsRoute.SourcePiece | app/api/indexer-evm/metrics/route.ts:15-19 | every parsed token is non-empty and is the normalization of some comma-free piece of the parameter |
| MetricsRoute.ParseTokensShape | app/api/indexer-evm/metrics/route.ts:15-19 | every parsed token is non-empty and comma-free, has no whitespace at either end, and is already lower-case (lower-casing it again changes nothing) |
| MetricsRoute.ParseTokensComplete | app/api/indexer-evm/metrics/route.ts:15-19 | every comma-separated piece that is not blank after trimming appears among the parsed tokens, trimmed and lower-cased |
| MetricsRoute.ParseTokensCount | app/api/indexer-evm/metrics/route.ts:15-19 | there are at most one more parsed tokens than commas in the parameter |
| MetricsRoute.LatestRow | app/api/indexer-evm/metrics/route.ts:48-59 | the newest-first query answers a matching row with the greatest `createdAt`, or nothing iff no row matches |
| MetricsRoute.OldImpliesLatest | app/api/indexer-evm/metrics/route.ts:47-59 | whenever a snapshot at least a day old exists, a latest snapshot exists too and is no older |
| MetricsRoute.Change24h | app/api/indexer-evm/metrics/route.ts:60-65 | the change is 0 unless both snapshots exist and the old price is positive. Then it is the percentage `r` with `r × old = (cur − old) × 100` |
| MetricsRoute.ChangeSign | app/api/indexer-evm/metrics/route.ts:60-65 | with a baseline, the change is positive, zero or negative exactly when the price rose, stayed or fell |
| MetricsRoute.MetricForToken | app/api/indexer-evm/metrics/route.ts:29-85 | 'no pool' iff there is no factory or the pool is empty or zero. 'failed' iff `getPool`, `decimals()`, the quote or the snapshot read throws. Otherwise the metric has the live price, the guarded change, a market cap of 0 when `totalSupply()` throws, and a volume of 0 when log queries fail, else the 24-hour window volume |
| MetricsRoute.MetricsFor | app/api/indexer-evm/metrics/route.ts:28-86 | the per-token loop gives one entry per token, in order, each as for a single token |
| MetricsRoute.Get | app/api/indexer-evm/metrics/route.ts:12-92 | a malformed URL gives 500 and a missing or empty parameter gives 400. Otherwise there is one entry per parsed token, in order, each as for a single token, with the one reference price of the request |
| TokensRoute.EntryAt | app/api/tokens/route.ts:19-46 | an index yields an entry iff `allTokens(i)`, `name()`, `symbol()` and `decimals()` all answer. The entry is for that address, carries the token's own name, symbol and decimals, and is bare: no creator, no URIs, stats `{'0', '0', 0, false}`, 0 trades |
| TokensRoute.ListedLength | app/api/tokens/route.ts:17-19 | the list is no longer than the number of indices visited |
| TokensRoute.ListedMembers | app/api/tokens/route.ts:19-47 | an entry is listed iff some visited index yields it; every listed entry is bare |
| TokensRoute.ListedAllReadable | app/api/tokens/route.ts:19-47 | when every visited index is readable there is one entry per index, in index order |
| TokensRoute.FetchOnChainFallback | app/api/tokens/route.ts:7-52 | the loop produces the readable entries among the first `min(len, 100)` indices: at most 100 entries, all bare. There are none without a factory or when `allTokensLength()` throws |
| TokensRoute.GetTokens | app/api/tokens/route.ts:55-78 | always `success: true`. It returns the database rows with no source when the read succeeds, else the on-chain fallback tagged `source: 'on-chain'` |
| Trading.TruncDivBps | components/TradingDashboard.tsx:150 | BigInt division by 10000 truncates toward zero: the quotient times 10000 lies within one divisor of the dividend, on the zero side |
| Trading.MinOutBounds | components/TradingDashboard.tsx:150 | for slippage between 0 and 10000 bps the minimum is the floor of `outRaw × (1 − bps/10000)`. It lies between 0 and `outRaw` and equals `outRaw` at 0 bps |
| Trading.MinOutAntitone | components/TradingDashboard.tsx:150 | more slippage never raises the minimum output |
| Trading.SlippageOptionLowers | components/TradingDashboard.tsx:385-388 | for each offered setting (50, 100 or 200 bps) the minimum is strictly below any non-zero quote |
| Trading.QuoteMinOut | components/TradingDashboard.tsx:146-154 | a throwing quote, or one with no amounts, leaves the minimum at 0; otherwise the last amount is scaled by the slippage |
| Trading.NaNPassesGuard | components/TradingDashboard.tsx:138 | a non-empty amount whose `Number` is NaN is not rejected by the `<= 0` guard |
| Trading.Guard | components/TradingDashboard.tsx:124-140 | the early returns in order: router not configured, no token, the handler's own amount box empty or non-positive, wallet not ready. Each happens exactly when the earlier checks pass and its own fails. Buying reports "Enter HBAR amount" and selling reports "Enter token amount" |
| Trading.Deadline | components/TradingDashboard.tsx:155 | the deadline is exactly the current whole second plus 600, so it lies after now and at most 600 seconds later |
| Trading.Buy | components/TradingDashboard.tsx:134-165 | guard rejections pass through, and past the guard nothing is an early return. A failing parse, `WETH()` or swap fails the buy; otherwise it swaps. A swap goes WHBAR→token with the HBAR amount parsed at 18 decimals, the quote-derived minimum, the 600-second deadline and no approval |
| Trading.SellDecimals | components/TradingDashboard.tsx:175-184 | the known decimals when non-zero, else a fresh non-zero read, else 18, so 0 decimals becomes 18 |
| Trading.Sell | components/TradingDashboard.tsx:167-214 | guard rejections pass through, and past the guard nothing is an early return. Approval is requested exactly when the allowance is below the amount. A failing parse, allowance read, approval, `WETH()` or swap fails the sell. A swap goes token→WHBAR with the token amount parsed at the sell decimals |
| Trading.BuySellAgree | components/TradingDashboard.tsx:134-214 | the two handlers share the router, token and wallet exits. Each rejects only its own amount box. A buy and a sell that both swap use the same two addresses in opposite directions |
| Portfolio.GetAssetCategory | app/portfolio/page.tsx:67-85 | "core" iff the symbol contains `HBAR` (case-sensitive). "meme" iff not core and the lower-cased symbol or name contains dog, pepe or meme. "other" otherwise |
| Portfolio.GetAssetLogo | app/portfolio/page.tsx:88-95 | core gives the HBAR logo, meme the per-symbol logo that `fetchAssets` also uses, anything else the default logo |
| Portfolio.FallbackGlyph | app/portfolio/page.tsx:231 | one character: `?` for an empty symbol, else the symbol's first character upper-cased |
| Portfolio.HbarAsset | app/portfolio/page.tsx:121-135 | the HBAR row is named "Hedera" with symbol and coin type "HBAR", an empty logo, fallback "H", 18 decimals and category core. It has no market cap or volume. Its amount is the balance in HBAR, priced at the feed price, with the feed's 24-hour change, valued at amount × price |
| Portfolio.RecentWindowStart | app/portfolio/page.tsx:186-187 | the volume window reaches 2000 blocks back from the head, or to block 0 on a shorter chain |
| Portfolio.RecentHbarIsWindow | app/portfolio/page.tsx:186-210 | the page's fold over both log queries counts exactly the pool's trade logs in the recent window, each once |
| Portfolio.PoolPricing | app/portfolio/page.tsx:170-218 | a throwing or empty pool, or a throwing quote, leaves price and volume at 0. Otherwise the price is the quote in HBAR times the feed price, and the volume is 0 if log queries fail, else the recent window volume in USD |
| Portfolio.RecentVolumeUsd | app/portfolio/page.tsx:184-211 | the volume is 0 when log queries fail. Otherwise it is the pool's HBAR trade volume over the last 2000 blocks up to the head, times the feed price |
| Portfolio.ToUnitsPositive | app/portfolio/page.tsx:165-167 | the formatted amount is positive exactly when the raw balance is, so the zero-balance filter drops exactly the zero balances |
| Portfolio.ScanToken | app/portfolio/page.tsx:153-245 | a row exists iff `name()`, `symbol()`, `decimals()` and `balanceOf()` answer and the balance is positive. It is an "other" row with the per-symbol logo and the fallback glyph, priced through the pool and valued at amount × price. Its market cap is 0 when `totalSupply()` throws, and otherwise the supply in whole tokens times the price |
| Portfolio.ScanAll | app/portfolio/page.tsx:151-249 | the filtered scan has at most one row per registry address |
| Portfolio.ScanAllAppend | app/portfolio/page.tsx:151-249 | the scan distributes over concatenation of the address list, so rows follow registry order, with one row per successful scan |
| Portfolio.ScanAllMembers | app/portfolio/page.tsx:151-249 | a row is kept iff scanning some registry address produced it |
| Portfolio.InsertByValue | app/portfolio/page.tsx:256 | one insertion step adds exactly one row |
| Portfolio.SortByValue | app/portfolio/page.tsx:256 | sorting keeps the number of rows |
| Portfolio.InsertByValueSorted | app/portfolio/page.tsx:256 | inserting into a list in descending value keeps it in descending value |
| Portfolio.InsertByValuePerm | app/portfolio/page.tsx:256 | inserting adds exactly the one row and loses none |
| Portfolio.SortByValueSpec | app/portfolio/page.tsx:256 | the sort yields the same rows in descending USD value |
| Portfolio.WorthExactly | app/portfolio/page.tsx:256 | the rows worth a given value are exactly those of the list with that value |
| Portfolio.InsertByValueStable | app/portfolio/page.tsx:256 | the inserted row goes before every row of equal value, leaving their order unchanged |
| Portfolio.SortByValueStable | app/portfolio/page.tsx:256 | the sort is stable: rows of equal value keep their original relative order |
| Portfolio.InsertByValueTotal | app/portfolio/page.tsx:258 | inserting a row adds exactly its value to the total |
| Portfolio.SortByValueTotal | app/portfolio/page.tsx:255-258 | sorting does not change the total value |
| Portfolio.FetchAssets | app/portfolio/page.tsx:98-269 | no account or provider gives "not connected", and a throwing `getBalance` fails the whole fetch. A loaded view has one row per unsorted row (HBAR plus the held tokens) and shows the feed's HBAR change |
| Portfolio.FetchAssetsSpec | app/portfolio/page.tsx:255-260 | a loaded portfolio holds exactly the HBAR row and the scanned rows, in descending USD value, with equal values in original order and the total of all values |
| Portfolio.TokenRowsAreOther | app/portfolio/page.tsx:227-240 | every token row is a held token (positive amount), categorised "other" with the per-symbol logo whatever `getAssetCategory` would say, and valued at amount × price |
| Portfolio.FactoryFailureLeavesHbar | app/portfolio/page.tsx:137-253 | with no factory, or an unreadable registry, the HBAR row is the only row |

## Left out

- Network and storage I/O: JSON-RPC, the CoinGecko feed and Prisma are inputs to the model (`Env`, `ChainState`, `Db`, `Wallet`, `Router`, `Erc20`). Their failures are the `Threw` cases and the `*Fails` flags.
- Concurrency: `Promise.all` and the order in which awaits interleave are not modelled. Every read is a pure lookup, so the order does not change any outcome.
- Floating point: prices and amounts are exact reals, and `parseFloat(formatEther(x))` is `x / 10^18` exactly. Rounding, NaN and infinities of JavaScript numbers are not modelled, except NaN in the amount guard.
- `Number(text)` and `ethers.parseUnits` are inputs: the amount's `NumberValue` and a `parse` function.
- ABI decoding and topic hashing: a log carries its topic and its decoded payload, where `Malformed` stands for a `parseLog` failure.
- Case mapping: `toLowerCase` and `toUpperCase` are modelled for ASCII letters only. The model assumes addresses, names, symbols and the `tokens` parameter are ASCII, which nothing in the code enforces. Outside ASCII, two contracts do not hold: `Text.Lower`'s length claim, and `Portfolio.FallbackGlyph`'s single character (`"ß".toUpperCase()` is `"SS"`).
- The block-read failures in `snapshotToken` (`getBlockNumber`, `getBlock('latest')`) and in `findFromBlock24h` are not modelled. A block the node does not return reads as timestamp 0, and the head is fixed for the duration of a run.
- Clock readings: one `nowMs` stamps every inserted row and also sets the prune cutoff. The code takes the insert time from the database default and the cutoff from its own `Date.now()` (lib/services/evm-indexer.ts:152).
- Slippage range: `slippageBps` is unconstrained in `Form`. The dashboard only offers 50, 100 and 200, and `MinOutBounds` holds for 0 to 10000. Above 10000 a modelled swap carries a negative minimum, which ethers would refuse to encode as a uint.
- Database ties: among rows with the same `createdAt` the model takes the earliest inserted. The database itself does not fix this order.
- UI effects: toasts, React state, `setSelectedToken`, `connect()`, `tx.wait()`, the rendered tables and the mock chart data.
- Other parts of the repository: the cron route, `reset-indexer`, `app/api/tokens/[address]`, `EVMWalletProvider`, the deploy scripts and the configuration files.
- Indexer.TokenOutcome: states whether the reserve fields are present, not their values, and does not state `blockTime`.
- Indexer.SnapshotEach: its own contract states only the count; the contents are stated by `Indexer.SnapshotEachRows` and `Indexer.SnapshotEachOutcomes`.
- VolumeScan.Volume24hUsd: the located start block is pinned down only when block timestamps never decrease. The binary search assumes that order.
- MetricsRoute.MetricForToken: the volume figure is pinned down only when block timestamps never decrease, for the same reason.
- Portfolio.FetchAssets: its own contract states the status and the row count. The order, permutation, stability and total are stated by `Portfolio.FetchAssetsSpec`.
