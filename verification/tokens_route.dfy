/** `GET /api/tokens`: the token list from the database, or, when the
    database read fails, a bare list read from the factory registry. */
module TokensRoute {
  import opened Calls
  import opened Chain

  /** At most this many registry entries are visited by the fallback. */
  const MaxFallback: nat := 100

  /** `pool_stats` of a listed token. */
  datatype PoolStats = PoolStats(hbarReserves: string, totalVolume: string, tradeCount: nat, isGraduated: bool)

  /** The statistics every on-chain entry carries: nothing is known. */
  const EmptyStats := PoolStats("0", "0", 0, false)

  /** One entry of the on-chain fallback list. */
  datatype FallbackToken = FallbackToken(
    address: Address,
    name: string,
    symbol: string,
    creator: string,
    decimals: nat,
    iconUri: string,
    projectUri: string,
    poolStats: PoolStats,
    trades: nat)

  /** The shape every on-chain entry has: no creator, no URIs, empty
      statistics and no trades. */
  predicate Bare(e: FallbackToken)
  {
    e.creator == "" && e.iconUri == "" && e.projectUri == "" && e.poolStats == EmptyStats && e.trades == 0
  }

  function Min(a: nat, b: nat): nat
  {
    if a <= b then a else b
  }

  /** The entry for registry index `i`, or none when `allTokens(i)` or one of
      `name()`, `symbol()`, `decimals()` throws (the token is skipped). */
  function EntryAt(env: Env, f: Factory, i: nat): (r: Option<FallbackToken>)
    ensures r.Some? <==>
              && TokenAtIndex(f, i).Ok?
              && TokenAt(env, TokenAtIndex(f, i).value).name.Ok?
              && TokenAt(env, TokenAtIndex(f, i).value).symbol.Ok?
              && TokenAt(env, TokenAtIndex(f, i).value).decimals.Ok?
    ensures r.Some? ==> Bare(r.value) && TokenAtIndex(f, i) == Ok(r.value.address)
    ensures r.Some? ==>
              var tok := TokenAt(env, r.value.address);
              && r.value.name == tok.name.value
              && r.value.symbol == tok.symbol.value
              && r.value.decimals == tok.decimals.value
  {
    match TokenAtIndex(f, i)
    case Threw => None
    case Ok(addr) =>
      var tok := TokenAt(env, addr);
      if tok.name.Threw? || tok.symbol.Threw? || tok.decimals.Threw? then None
      else Some(FallbackToken(addr, tok.name.value, tok.symbol.value, "", tok.decimals.value, "", "", EmptyStats, 0))
  }

  /** Reference definition: the readable entries among indices below `n`, in
      index order. */
  function Listed(env: Env, f: Factory, n: nat): seq<FallbackToken>
    decreases n
  {
    if n == 0 then []
    else
      Listed(env, f, n - 1) + (match EntryAt(env, f, n - 1) case Some(e) => [e] case None => [])
  }

  /** The list is no longer than the number of indices visited. */
  lemma {:induction false} ListedLength(env: Env, f: Factory, n: nat)
    ensures |Listed(env, f, n)| <= n
    decreases n
  {
    if n > 0 {
      ListedLength(env, f, n - 1);
    }
  }

  /** An entry is listed exactly when some index below `n` yields it, so
      every listed entry is bare. */
  lemma {:induction false} ListedMembers(env: Env, f: Factory, n: nat, e: FallbackToken)
    ensures e in Listed(env, f, n) <==> exists i :: 0 <= i < n && EntryAt(env, f, i) == Some(e)
    ensures e in Listed(env, f, n) ==> Bare(e)
    decreases n
  {
    if n > 0 {
      ListedMembers(env, f, n - 1, e);
      var prefix := Listed(env, f, n - 1);
      var last: seq<FallbackToken> := match EntryAt(env, f, n - 1) case Some(x) => [x] case None => [];
      assert Listed(env, f, n) == prefix + last;
      assert e in Listed(env, f, n) <==> e in prefix || e in last;
      if e in last {
        assert EntryAt(env, f, n - 1) == Some(e);
      }
      if exists i :: 0 <= i < n && EntryAt(env, f, i) == Some(e) {
        var i :| 0 <= i < n && EntryAt(env, f, i) == Some(e);
        if i == n - 1 {
          assert e in last;
        }
      }
    }
  }

  /** When every visited index is readable there is one entry per index, in
      index order. */
  lemma {:induction false} ListedAllReadable(env: Env, f: Factory, n: nat)
    requires forall i :: 0 <= i < n ==> EntryAt(env, f, i).Some?
    ensures |Listed(env, f, n)| == n
    ensures forall i :: 0 <= i < n ==> Listed(env, f, n)[i] == EntryAt(env, f, i).value
    decreases n
  {
    if n > 0 {
      ListedAllReadable(env, f, n - 1);
      assert Listed(env, f, n) == Listed(env, f, n - 1) + [EntryAt(env, f, n - 1).value];
    }
  }

  /** Reference definition of `fetchOnChainFallback`: nothing without a
      factory or when `allTokensLength()` throws; otherwise the readable
      entries among the first `min(len, 100)` indices. */
  function Fallback(env: Env): seq<FallbackToken>
  {
    match env.factory
    case None => []
    case Some(f) =>
      match f.length
      case Threw => []
      case Ok(len) => Listed(env, f, Min(len, MaxFallback))
  }

  /** The loop of `fetchOnChainFallback`, each index in its own try/catch. */
  method FetchOnChainFallback(env: Env) returns (r: seq<FallbackToken>)
    ensures r == Fallback(env)
    ensures |r| <= MaxFallback
    ensures env.factory.None? ==> r == []
    ensures env.factory.Some? && env.factory.value.length.Threw? ==> r == []
    ensures forall e :: e in r ==> Bare(e)
  {
    if env.factory.None? {
      return [];
    }
    var f := env.factory.value;
    if f.length.Threw? {
      return [];
    }
    var limit := Min(f.length.value, MaxFallback);
    r := [];
    for i := 0 to limit
      invariant r == Listed(env, f, i)
    {
      var e := EntryAt(env, f, i);
      if e.Some? {
        r := r + [e.value];
      }
    }
    ListedLength(env, f, limit);
    forall e | e in r
      ensures Bare(e)
    {
      ListedMembers(env, f, limit, e);
    }
  }

  /** Where the `data` of the response comes from. */
  datatype Listing<D> = FromDb(rows: seq<D>) | OnChain(tokens: seq<FallbackToken>)

  /** `{ success, data, source? }`. */
  datatype TokensResponse<D> = TokensResponse(success: bool, data: Listing<D>, source: Option<string>)

  /** The handler: the database rows (newest first, as read) when the read
      succeeds; otherwise the on-chain fallback, tagged `source: 'on-chain'`.
      It reports success either way. */
  method GetTokens<D>(env: Env, dbRead: Call<seq<D>>) returns (resp: TokensResponse<D>)
    ensures resp.success
    ensures dbRead.Ok? ==> resp.data == FromDb(dbRead.value) && resp.source.None?
    ensures dbRead.Threw? ==>
              && resp.source == Some("on-chain")
              && resp.data == OnChain(Fallback(env))
              && |resp.data.tokens| <= MaxFallback
  {
    match dbRead
    case Ok(rows) =>
      resp := TokensResponse(true, FromDb(rows), None);
    case Threw =>
      var fallback := FetchOnChainFallback(env);
      resp := TokensResponse(true, OnChain(fallback), Some("on-chain"));
  }
}
