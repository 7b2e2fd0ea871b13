/** `GET /api/indexer-evm/metrics?tokens=a,b,...`: live price, 24-hour change
    from stored snapshots, market cap and 24-hour volume for each requested
    token, each token evaluated on its own. */
module MetricsRoute {
  import opened Calls
  import opened Text
  import opened Chain
  import opened BlockSearch
  import opened VolumeScan
  import opened Indexer

  /** The 24-hour look-back of the change figure, in milliseconds. */
  const DayMs: int := 24 * 3600 * 1000

  /** The request as the handler sees it: whether `new URL(req.url)` parses,
      and the `tokens` query parameter when present. */
  datatype Request = Request(urlValid: bool, tokensParam: Option<string>)

  /** One entry of `data`: the metrics of a token, or the reason there are
      none (`error: 'no pool'` or `error: 'failed'`). */
  datatype TokenMetric =
    | Priced(
        token: Address,
        pool: Address,
        currentPrice: real,
        priceChange24h: real,
        marketCap: real,
        volume24hUsd: real,
        snapshotAtMs: nat)
    | WithoutPool(token: Address)
    | Failed(token: Address)

  /** `{ success: true, data }`, or an error status (400 for a missing
      parameter, 500 for a failure outside the per-token loop). */
  datatype Response = Success(data: seq<TokenMetric>) | Failure(status: nat)

  /** `t.trim().toLowerCase()` for one piece of the parameter. */
  function Normalize(piece: string): string
  {
    Lower(Trim(piece))
  }

  /** `.map(normalize)`. */
  function NormalizeEach(pieces: seq<string>): (r: seq<string>)
    ensures |r| == |pieces|
    ensures forall i :: 0 <= i < |r| ==> r[i] == Normalize(pieces[i])
  {
    seq(|pieces|, i requires 0 <= i < |pieces| => Normalize(pieces[i]))
  }

  /** `.filter(Boolean)` on strings: the non-empty ones, in order. */
  function KeepNonEmpty(ns: seq<string>): (r: seq<string>)
    ensures |r| <= |ns|
    ensures forall i :: 0 <= i < |r| ==> r[i] != ""
    decreases |ns|
  {
    if |ns| == 0 then []
    else if ns[0] == "" then KeepNonEmpty(ns[1..])
    else [ns[0]] + KeepNonEmpty(ns[1..])
  }

  /** The filter keeps exactly the non-empty strings. */
  lemma {:induction false} KeepNonEmptyMembers(ns: seq<string>, x: string)
    ensures x in KeepNonEmpty(ns) <==> x != "" && x in ns
    decreases |ns|
  {
    if |ns| > 0 {
      KeepNonEmptyMembers(ns[1..], x);
      assert ns == [ns[0]] + ns[1..];
    }
  }

  /** The filter distributes over concatenation: it keeps the order of the
      pieces and every duplicate (`tokens=a,a` asks for `a` twice). */
  lemma {:induction false} KeepNonEmptyAppend(a: seq<string>, b: seq<string>)
    ensures KeepNonEmpty(a + b) == KeepNonEmpty(a) + KeepNonEmpty(b)
    decreases |a|
  {
    if |a| > 0 {
      KeepNonEmptyAppend(a[1..], b);
      assert (a + b)[1..] == a[1..] + b;
    } else {
      assert a + b == b;
    }
  }

  /** A normalized piece has no outer whitespace and no upper-case letter. */
  lemma {:induction false} NormalizeShape(piece: string)
    ensures var n := Normalize(piece);
            && IsLowerCase(n)
            && (|n| > 0 ==> !IsJsSpace(n[0]) && !IsJsSpace(n[|n| - 1]))
            && |n| == |Trim(piece)|
  {
    var t := Trim(piece);
    LowerSpec(t);
    LowerIsIdempotent(t);
  }

  /** A comma-free piece that is not blank normalizes to a comma-free,
      lower-case token without outer whitespace: trimming only drops
      characters and lower-casing leaves a comma alone. */
  lemma {:induction false} NormalizedPieceShape(piece: string)
    requires ',' !in piece && Normalize(piece) != ""
    ensures var t := Normalize(piece);
            && ',' !in t && Lower(t) == t
            && !IsJsSpace(t[0]) && !IsJsSpace(t[|t| - 1])
  {
    NormalizeShape(piece);
    LowerIsIdempotent(Trim(piece));
    LowerKeepsNonLetters(Trim(piece), ',');
    if ',' in Trim(piece) {
      TrimIntroducesNothing(piece, ',');
    }
  }

  /** The token list the handler loops over:
      `param.split(',').map(normalize).filter(Boolean)`. */
  function ParseTokens(param: string): seq<Address>
  {
    KeepNonEmpty(NormalizeEach(Split(param, ',')))
  }

  /** Every parsed token is the normalization of some comma-free piece of
      the parameter. */
  lemma {:induction false} SourcePiece(param: string, t: string) returns (piece: string)
    requires t in ParseTokens(param)
    ensures ',' !in piece && Normalize(piece) == t && t != ""
  {
    var pieces := Split(param, ',');
    var ns := NormalizeEach(pieces);
    KeepNonEmptyMembers(ns, t);
    var k :| 0 <= k < |ns| && ns[k] == t;
    SplitOmitsSep(param, ',');
    piece := pieces[k];
  }

  /** Every parsed token is non-empty, free of commas, already lower-case
      (lower-casing it again changes nothing) and has no whitespace at either
      end. */
  lemma {:induction false} ParseTokensShape(param: string, t: string)
    requires t in ParseTokens(param)
    ensures t != "" && ',' !in t && Lower(t) == t
    ensures !IsJsSpace(t[0]) && !IsJsSpace(t[|t| - 1])
  {
    var piece := SourcePiece(param, t);
    NormalizedPieceShape(piece);
  }

  /** Every comma-separated piece that is not blank after trimming shows up,
      normalized, among the parsed tokens. */
  lemma {:induction false} ParseTokensComplete(param: string, i: nat)
    requires i < |Split(param, ',')| && Normalize(Split(param, ',')[i]) != ""
    ensures Normalize(Split(param, ',')[i]) in ParseTokens(param)
  {
    var ns := NormalizeEach(Split(param, ','));
    assert ns[i] == Normalize(Split(param, ',')[i]);
    KeepNonEmptyMembers(ns, ns[i]);
  }

  /** There are at most one more parsed tokens than commas. */
  lemma {:induction false} ParseTokensCount(param: string)
    ensures |ParseTokens(param)| <= Count(param, ',') + 1
  {
    SplitCount(param, ',');
  }

  /** A row answers a snapshot query for `token`, optionally restricted to
      `createdAt <= cutoff`. */
  predicate Matches(row: Row, token: Address, cutoff: Option<int>)
  {
    row.snapshot.token == token && (cutoff.None? || row.createdAtMs <= cutoff.value)
  }

  /** `findFirst({ where, orderBy: { createdAt: 'desc' } })`: a matching row
      with the latest `createdAt`, or none when no row matches. Among rows
      with the same `createdAt` the earliest inserted is taken. */
  function LatestRow(rows: seq<Row>, token: Address, cutoff: Option<int>): (r: Option<Row>)
    ensures r.None? <==> forall i :: 0 <= i < |rows| ==> !Matches(rows[i], token, cutoff)
    ensures r.Some? ==> r.value in rows && Matches(r.value, token, cutoff)
    ensures r.Some? ==> forall i :: 0 <= i < |rows| && Matches(rows[i], token, cutoff) ==>
                          rows[i].createdAtMs <= r.value.createdAtMs
    decreases |rows|
  {
    if |rows| == 0 then None
    else
      var rest := LatestRow(rows[1..], token, cutoff);
      assert forall i :: 1 <= i < |rows| ==> rows[i] == rows[1..][i - 1];
      if Matches(rows[0], token, cutoff) && (rest.None? || rest.value.createdAtMs <= rows[0].createdAtMs)
      then Some(rows[0])
      else rest
  }

  /** Whenever a snapshot at least a day old exists, so does a latest one,
      and it is no older. */
  lemma {:induction false} OldImpliesLatest(rows: seq<Row>, token: Address, cutoff: int)
    ensures var prior := LatestRow(rows, token, Some(cutoff));
            var cur := LatestRow(rows, token, None);
            prior.Some? ==> cur.Some? && prior.value.createdAtMs <= cur.value.createdAtMs
  {
    var prior := LatestRow(rows, token, Some(cutoff));
    if prior.Some? {
      var i :| 0 <= i < |rows| && rows[i] == prior.value;
      assert Matches(rows[i], token, None);
    }
  }

  /** Whether the change figure is computed at all: both snapshots exist and
      the old price is positive. */
  predicate HasBaseline(latest: Option<Row>, prior: Option<Row>)
  {
    latest.Some? && prior.Some? && prior.value.snapshot.priceUsd > 0.0
  }

  /** The 24-hour change in percent, 0 without a baseline. */
  function Change24h(latest: Option<Row>, prior: Option<Row>): (r: real)
    ensures !HasBaseline(latest, prior) ==> r == 0.0
    ensures HasBaseline(latest, prior) ==>
              r * prior.value.snapshot.priceUsd
                == (latest.value.snapshot.priceUsd - prior.value.snapshot.priceUsd) * 100.0
  {
    if HasBaseline(latest, prior) then
      var cur := latest.value.snapshot.priceUsd;
      var o := prior.value.snapshot.priceUsd;
      ((cur - o) / o) * 100.0
    else 0.0
  }

  /** With a baseline the change is positive exactly when the price rose,
      zero exactly when it stayed, negative exactly when it fell. */
  lemma {:induction false} ChangeSign(latest: Option<Row>, prior: Option<Row>)
    requires HasBaseline(latest, prior)
    ensures var r := Change24h(latest, prior);
            var cur := latest.value.snapshot.priceUsd;
            var o := prior.value.snapshot.priceUsd;
            && (r > 0.0 <==> cur > o)
            && (r == 0.0 <==> cur == o)
            && (r < 0.0 <==> cur < o)
  {
    var r := Change24h(latest, prior);
    var cur := latest.value.snapshot.priceUsd;
    var o := prior.value.snapshot.priceUsd;
    assert r * o == (cur - o) * 100.0;
    if r > 0.0 { assert r * o > 0.0; }
    if r < 0.0 { assert r * o < 0.0; }
  }

  /** The USD price the route reports for a pool: the sell quote of one whole
      token, in HBAR, times the reference price. */
  predicate PricedAt(m: TokenMetric, quoteWei: nat, hbarUsd: real)
    requires m.Priced?
  {
    m.currentPrice == WeiToHbar(quoteWei) * hbarUsd
  }

  /** Market cap as the route computes it: supply in whole tokens times the
      current price. */
  predicate CappedAt(m: TokenMetric, supply: nat, decimals: nat)
    requires m.Priced?
  {
    m.marketCap == ToUnits(supply, decimals) * m.currentPrice
  }

  /** 'no pool': no factory, or `getPool` answers an empty or zero address. */
  predicate PoolMissing(env: Env, token: Address)
  {
    || env.factory.None?
    || (PoolCall(env.factory.value, token).Ok?
        && (PoolCall(env.factory.value, token).value == ""
            || PoolCall(env.factory.value, token).value == ZeroAddress))
  }

  /** 'failed': `getPool` throws, or the pool exists and `decimals()`, the
      sell quote or the snapshot read throws. */
  predicate ReadFails(env: Env, db: Db, token: Address)
  {
    && env.factory.Some?
    && (|| PoolCall(env.factory.value, token).Threw?
        || (var pool := PoolCall(env.factory.value, token).value;
            && pool != "" && pool != ZeroAddress
            && (TokenAt(env, token).decimals.Threw?
                || PoolAt(env, pool).unitSellQuote.Threw?
                || db.readFails)))
  }

  /** The figures of a priced metric: live price, the guarded change, market
      cap 0 when `totalSupply()` throws, volume 0 when log queries fail and
      otherwise the 24-hour window's (pinned down for monotone timestamps). */
  ghost predicate PricedFits(env: Env, db: Db, token: Address, hbarUsd: real, nowMs: nat, m: TokenMetric)
    requires m.Priced?
  {
    && env.factory.Some?
    && PoolCall(env.factory.value, token) == Ok(m.pool)
    && m.pool != "" && m.pool != ZeroAddress
    && TokenAt(env, token).decimals.Ok?
    && PoolAt(env, m.pool).unitSellQuote.Ok?
    && !db.readFails
    && PricedAt(m, PoolAt(env, m.pool).unitSellQuote.value, hbarUsd)
    && m.priceChange24h == Change24h(LatestRow(db.rows, token, None),
                                     LatestRow(db.rows, token, Some(nowMs - DayMs)))
    && (TokenAt(env, token).totalSupply.Threw? ==> m.marketCap == 0.0)
    && (TokenAt(env, token).totalSupply.Ok? ==>
          CappedAt(m, TokenAt(env, token).totalSupply.value, TokenAt(env, token).decimals.value))
    && (env.chain.logQueriesFail ==> m.volume24hUsd == 0.0)
    && (Monotone(env.chain) && !env.chain.logQueriesFail ==>
          m.volume24hUsd == WindowHbar(env.chain.logs, m.pool,
                                       LinearFirst(env.chain, TargetTs(env.chain, nowMs), 0),
                                       env.chain.latest + 1) * hbarUsd)
    && m.snapshotAtMs == nowMs
  }

  /** What the route reports for one (already normalized) token. Decision
      order: no factory or an empty/zero pool gives 'no pool'; a throwing
      `getPool`, `decimals()`, sell quote or snapshot read gives 'failed';
      otherwise the metrics, where a failing `totalSupply()` only zeroes the
      market cap and failing log queries only zero the volume. */
  ghost predicate MetricFits(env: Env, db: Db, token: Address, hbarUsd: real, nowMs: nat, m: TokenMetric)
  {
    && m.token == token
    && (m.WithoutPool? <==> PoolMissing(env, token))
    && (m.Failed? <==> ReadFails(env, db, token))
    && (m.Priced? ==> PricedFits(env, db, token, hbarUsd, nowMs, m))
  }

  /** The body of the per-token `try` block. */
  method MetricForToken(env: Env, db: Db, token: Address, hbarUsd: real, nowMs: nat)
    returns (m: TokenMetric)
    ensures m.token == token
    ensures m.WithoutPool? <==> PoolMissing(env, token)
    ensures m.Failed? <==> ReadFails(env, db, token)
    ensures m.Priced? ==> PricedFits(env, db, token, hbarUsd, nowMs, m)
  {
    if env.factory.None? {
      return WithoutPool(token);
    }
    var pc := PoolCall(env.factory.value, token);
    if pc.Threw? {
      return Failed(token);
    }
    var poolAddr := pc.value;
    if poolAddr == "" || poolAddr == ZeroAddress {
      return WithoutPool(token);
    }
    var tok := TokenAt(env, token);
    var pool := PoolAt(env, poolAddr);
    if tok.decimals.Threw? || pool.unitSellQuote.Threw? || db.readFails {
      return Failed(token);
    }
    var decimals := tok.decimals.value;
    var priceUsd := WeiToHbar(pool.unitSellQuote.value) * hbarUsd;
    var change := Change24h(LatestRow(db.rows, token, None), LatestRow(db.rows, token, Some(nowMs - DayMs)));
    var marketCap := 0.0;
    if tok.totalSupply.Ok? {
      marketCap := ToUnits(tok.totalSupply.value, decimals) * priceUsd;
    }
    var _, vol := Volume24hUsd(env.chain, poolAddr, hbarUsd, nowMs);
    var volume := if vol.Ok? then vol.value else 0.0;
    m := Priced(token, poolAddr, priceUsd, change, marketCap, volume, nowMs);
  }

  /** The per-token loop of the handler: one metric per token, in order. */
  method MetricsFor(env: Env, db: Db, tokens: seq<Address>, hbarUsd: real, nowMs: nat)
    returns (results: seq<TokenMetric>)
    ensures |results| == |tokens|
    ensures forall i :: 0 <= i < |results| ==> MetricFits(env, db, tokens[i], hbarUsd, nowMs, results[i])
  {
    results := [];
    for i := 0 to |tokens|
      invariant |results| == i
      invariant forall j :: 0 <= j < i ==> MetricFits(env, db, tokens[j], hbarUsd, nowMs, results[j])
    {
      var m := MetricForToken(env, db, tokens[i], hbarUsd, nowMs);
      results := results + [m];
    }
  }

  /** The handler: a malformed URL is a 500, a missing or empty `tokens`
      parameter a 400; otherwise one entry per parsed token, in order, each
      priced with the one reference price fetched for the request. */
  method Get(env: Env, db: Db, req: Request, nowMs: nat) returns (resp: Response)
    ensures !req.urlValid ==> resp == Failure(500)
    ensures req.urlValid && (req.tokensParam.None? || req.tokensParam.value == "") ==> resp == Failure(400)
    ensures req.urlValid && req.tokensParam.Some? && req.tokensParam.value != "" ==>
              && resp.Success?
              && |resp.data| == |ParseTokens(req.tokensParam.value)|
              && forall i :: 0 <= i < |resp.data| ==>
                   MetricFits(env, db, ParseTokens(req.tokensParam.value)[i], ReferencePrice(env.feed), nowMs, resp.data[i])
  {
    if !req.urlValid {
      return Failure(500);
    }
    if req.tokensParam.None? || req.tokensParam.value == "" {
      return Failure(400);
    }
    var tokens := ParseTokens(req.tokensParam.value);
    var results := MetricsFor(env, db, tokens, ReferencePrice(env.feed), nowMs);
    return Success(results);
  }
}
