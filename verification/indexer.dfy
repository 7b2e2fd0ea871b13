/** The snapshot indexer (`EVMIndexer`): token discovery, pool resolution,
    one price snapshot per token, the batch run over all tokens, and the
    72-hour retention prune. */
module Indexer {
  import opened Calls
  import opened Text
  import opened Chain

  /** Snapshots whose `createdAt` is older than this are deleted. */
  const RetentionMs: int := 72 * 3600 * 1000

  /** `SnapshotResult`: one token's valuation at the current chain head. */
  datatype Snapshot = Snapshot(
    token: Address,
    pool: Address,
    priceUsd: real,
    priceHbar: real,
    hbarPriceUsd: real,
    reservesHbar: Option<real>,
    reservesToken: Option<real>,
    blockNumber: nat,
    blockTimeMs: int)

  /** A `tokenSnapshot` row: the snapshot as stored, plus the database's
      `createdAt` stamp. */
  datatype Row = Row(snapshot: Snapshot, createdAtMs: int)

  /** The snapshot table, and how the database behaves on this run: which
      tokens' inserts fail, whether `deleteMany` fails, whether reads fail. */
  datatype Db = Db(
    rows: seq<Row>,
    rejectsInsert: set<Address>,
    deleteFails: bool,
    readFails: bool)

  /** `discoverTokens`: the registry in factory order, or nothing when the
      factory address is not configured or any registry read fails. */
  function DiscoverTokens(env: Env): (r: seq<Address>)
    ensures env.factory.None? ==> r == []
    ensures |r| > 0 ==> env.factory.Some? && env.factory.value.length == Ok(|r|)
    ensures |r| > 0 ==> forall i :: 0 <= i < |r| ==> TokenAtIndex(env.factory.value, i) == Ok(r[i])
    ensures env.factory.Some? && ReadRegistry(env.factory.value).Threw? ==> r == []
    ensures env.factory.Some? && ReadRegistry(env.factory.value).Ok? ==> r == ReadRegistry(env.factory.value).value
  {
    match env.factory
    case None => []
    case Some(f) =>
      match ReadRegistry(f)
      case Threw => []
      case Ok(addrs) => addrs
  }

  /** `getPoolForToken`: the token's pool, or none when the factory is not
      configured, `getPool` throws, or it reports an empty or zero address. */
  function GetPoolForToken(env: Env, token: Address): (r: Option<Address>)
    ensures r.Some? <==>
              && env.factory.Some?
              && PoolCall(env.factory.value, token).Ok?
              && PoolCall(env.factory.value, token).value != ""
              && PoolCall(env.factory.value, token).value != ZeroAddress
    ensures r.Some? ==> PoolCall(env.factory.value, token) == Ok(r.value)
  {
    match env.factory
    case None => None
    case Some(f) =>
      match PoolCall(f, token)
      case Threw => None
      case Ok(pool) => if pool == "" || pool == ZeroAddress then None else Some(pool)
  }

  /** `block.timestamp || now` in milliseconds, as stored in `blockTime`. */
  function BlockTimeMs(c: ChainState, nowMs: nat): int
  {
    var ts := Timestamp(c, c.latest);
    (if ts != 0 then ts else nowMs / 1000) * 1000
  }

  /** What `snapshotToken` returns for a token, leaving the insert aside:
      no snapshot without a pool, an exception when `decimals()` or the sell
      quote fails, otherwise the priced snapshot (reserves only when
      `reserves()` answers). It reads the chain only, so one token's outcome
      does not depend on any other token or on the database. */
  function TokenOutcome(env: Env, token: Address, hbarPriceUsd: real, nowMs: nat): (r: Call<Option<Snapshot>>)
    ensures r == Ok(None) <==> GetPoolForToken(env, token).None?
    ensures r.Ok? && r.value.Some? <==>
              && GetPoolForToken(env, token).Some?
              && TokenAt(env, token).decimals.Ok?
              && PoolAt(env, GetPoolForToken(env, token).value).unitSellQuote.Ok?
    ensures r.Ok? && r.value.Some? ==>
              var s := r.value.value;
              && s.token == token
              && Some(s.pool) == GetPoolForToken(env, token)
              && s.priceHbar == WeiToHbar(PoolAt(env, s.pool).unitSellQuote.value)
              && s.priceUsd == s.priceHbar * hbarPriceUsd
              && s.hbarPriceUsd == hbarPriceUsd
              && s.blockNumber == env.chain.latest
              && (s.reservesHbar.Some? <==> PoolAt(env, s.pool).reserves.Ok?)
              && (s.reservesToken.Some? <==> PoolAt(env, s.pool).reserves.Ok?)
  {
    match GetPoolForToken(env, token)
    case None => Ok(None)
    case Some(poolAddr) =>
      var tok := TokenAt(env, token);
      var pool := PoolAt(env, poolAddr);
      if tok.decimals.Threw? || pool.unitSellQuote.Threw? then Threw
      else
        var decimals := tok.decimals.value;
        var priceHbar := WeiToHbar(pool.unitSellQuote.value);
        var reservesHbar := if pool.reserves.Ok? then Some(WeiToHbar(pool.reserves.value.0)) else None;
        var reservesToken := if pool.reserves.Ok? then Some(ToUnits(pool.reserves.value.1, decimals)) else None;
        Ok(Some(Snapshot(token, poolAddr, priceHbar * hbarPriceUsd, priceHbar, hbarPriceUsd,
                         reservesHbar, reservesToken, env.chain.latest, BlockTimeMs(env.chain, nowMs))))
  }

  /** The USD price of a snapshot is its HBAR price times the reference
      HBAR price it carries. */
  predicate PriceConverted(s: Snapshot)
  {
    s.priceUsd == s.priceHbar * s.hbarPriceUsd
  }

  /** The row `snapshotToken` inserts: token and pool lower-cased. */
  function Stored(s: Snapshot): Snapshot
  {
    s.(token := Lower(s.token), pool := Lower(s.pool))
  }

  /** `tokenSnapshot.create`: appends the row unless the database rejects
      this token's insert, in which case nothing changes. */
  function Insert(db: Db, s: Snapshot, nowMs: nat): Db
  {
    if Lower(s.token) in db.rejectsInsert then db
    else db.(rows := db.rows + [Row(Stored(s), nowMs)])
  }

  datatype TokenStep = TokenStep(outcome: Call<Option<Snapshot>>, db: Db)

  /** Whether an outcome carries a snapshot. */
  predicate Produced(o: Call<Option<Snapshot>>)
  {
    o.Ok? && o.value.Some?
  }

  /** The write half of `snapshotToken`: a snapshot is inserted, anything
      else writes nothing. */
  function Persist(o: Call<Option<Snapshot>>, db: Db, nowMs: nat): TokenStep
  {
    if Produced(o) then TokenStep(o, Insert(db, o.value.value, nowMs)) else TokenStep(o, db)
  }

  /** `snapshotToken`: the outcome above, with the row written when there is
      a snapshot. A failed insert is swallowed: the snapshot is still
      returned. A token without a pool, or whose reads throw, writes nothing. */
  function SnapshotToken(env: Env, token: Address, hbarPriceUsd: real, db: Db, nowMs: nat): (r: TokenStep)
    ensures r.outcome == TokenOutcome(env, token, hbarPriceUsd, nowMs)
    ensures !Produced(r.outcome) ==> r.db == db
    ensures Produced(r.outcome) && Lower(token) in db.rejectsInsert ==> r.db == db
    ensures Produced(r.outcome) && Lower(token) !in db.rejectsInsert ==>
              && r.db.rows == db.rows + [Row(Stored(r.outcome.value.value), nowMs)]
              && IsLowerCase(r.db.rows[|db.rows|].snapshot.token)
              && IsLowerCase(r.db.rows[|db.rows|].snapshot.pool)
  {
    var r := Persist(TokenOutcome(env, token, hbarPriceUsd, nowMs), db, nowMs);
    if Produced(r.outcome) then
      LowerIsIdempotent(token);
      LowerIsIdempotent(r.outcome.value.value.pool);
      r
    else r
  }

  /** The tokens whose outcome carries a snapshot, in discovery order. */
  function Producers(outcome: Address -> Call<Option<Snapshot>>, tokens: seq<Address>): (r: seq<Address>)
    ensures |r| <= |tokens|
    ensures forall t :: t in r <==> t in tokens && Produced(outcome(t))
    decreases |tokens|
  {
    if |tokens| == 0 then []
    else (if Produced(outcome(tokens[0])) then [tokens[0]] else []) + Producers(outcome, tokens[1..])
  }

  /** The rows a batch appends: one per snapshot whose insert is accepted. */
  function Persisted(snaps: seq<Snapshot>, rejects: set<Address>, nowMs: nat): seq<Row>
    decreases |snaps|
  {
    if |snaps| == 0 then []
    else
      RowsFor(snaps[0], rejects, nowMs) + Persisted(snaps[1..], rejects, nowMs)
  }

  datatype Batch = Batch(snaps: seq<Snapshot>, db: Db)

  /** The `for (const t of tokens)` loop of `snapshotAllTokens`, each token in
      its own try/catch, for a per-token outcome `outcome`. The snapshots are
      those of the producing tokens, one each, in discovery order; a token that
      throws or has no pool only drops out. The table gains exactly the rows of
      those snapshots whose insert is accepted, in the same order. */
  function SnapshotEach(outcome: Address -> Call<Option<Snapshot>>, tokens: seq<Address>, db: Db, nowMs: nat): (r: Batch)
    ensures |r.snaps| == |Producers(outcome, tokens)|
    decreases |tokens|
  {
    if |tokens| == 0 then Batch([], db)
    else
      var step := Persist(outcome(tokens[0]), db, nowMs);
      var rest := SnapshotEach(outcome, tokens[1..], step.db, nowMs);
      if Produced(step.outcome) then Batch([step.outcome.value.value] + rest.snaps, rest.db)
      else Batch(rest.snaps, rest.db)
  }

  /** The rows one accepted-or-rejected snapshot contributes. */
  function RowsFor(s: Snapshot, rejects: set<Address>, nowMs: nat): seq<Row>
  {
    if Lower(s.token) in rejects then [] else [Row(Stored(s), nowMs)]
  }

  lemma {:induction false} PersistedCons(s: Snapshot, rest: seq<Snapshot>, rejects: set<Address>, nowMs: nat)
    ensures Persisted([s] + rest, rejects, nowMs) == RowsFor(s, rejects, nowMs) + Persisted(rest, rejects, nowMs)
  {
    assert ([s] + rest)[0] == s;
    assert ([s] + rest)[1..] == rest;
  }

  lemma {:induction false} PersistRows(o: Call<Option<Snapshot>>, db: Db, nowMs: nat)
    ensures var step := Persist(o, db, nowMs);
            && step.outcome == o
            && step.db.rejectsInsert == db.rejectsInsert
            && (Produced(o) ==> step.db == db.(rows := db.rows + RowsFor(o.value.value, db.rejectsInsert, nowMs)))
            && (!Produced(o) ==> step.db == db)
  {
  }

  /** The snapshots one outcome contributes to a batch. */
  function SnapsFor(o: Call<Option<Snapshot>>): seq<Snapshot>
  {
    if Produced(o) then [o.value.value] else []
  }

  /** One turn of the batch loop: the first token's step, then the rest. */
  lemma {:induction false} SnapshotEachStep(outcome: Address -> Call<Option<Snapshot>>, tokens: seq<Address>, db: Db, nowMs: nat)
    requires |tokens| > 0
    ensures var step := Persist(outcome(tokens[0]), db, nowMs);
            var rest := SnapshotEach(outcome, tokens[1..], step.db, nowMs);
            SnapshotEach(outcome, tokens, db, nowMs) == Batch(SnapsFor(outcome(tokens[0])) + rest.snaps, rest.db)
  {
    var step := Persist(outcome(tokens[0]), db, nowMs);
    var rest := SnapshotEach(outcome, tokens[1..], step.db, nowMs);
    if !Produced(outcome(tokens[0])) {
      assert [] + rest.snaps == rest.snaps;
    }
  }

  /** Persisting one outcome and then a run of snapshots appends the rows of
      both, in that order. */
  lemma {:induction false} PersistThenRest(o: Call<Option<Snapshot>>, db: Db, nowMs: nat, restSnaps: seq<Snapshot>, restDb: Db)
    requires var step := Persist(o, db, nowMs);
             restDb == step.db.(rows := step.db.rows + Persisted(restSnaps, step.db.rejectsInsert, nowMs))
    ensures restDb == db.(rows := db.rows + Persisted(SnapsFor(o) + restSnaps, db.rejectsInsert, nowMs))
  {
    PersistRows(o, db, nowMs);
    var tail := Persisted(restSnaps, db.rejectsInsert, nowMs);
    if Produced(o) {
      var s := o.value.value;
      PersistedCons(s, restSnaps, db.rejectsInsert, nowMs);
      assert db.rows + RowsFor(s, db.rejectsInsert, nowMs) + tail == db.rows + (RowsFor(s, db.rejectsInsert, nowMs) + tail);
    } else {
      assert SnapsFor(o) + restSnaps == restSnaps;
    }
  }

  /** A batch appends exactly the rows of its snapshots whose insert the
      database accepts, in order, and changes nothing else. */
  lemma {:induction false} SnapshotEachRows(outcome: Address -> Call<Option<Snapshot>>, tokens: seq<Address>, db: Db, nowMs: nat)
    ensures var r := SnapshotEach(outcome, tokens, db, nowMs);
            r.db == db.(rows := db.rows + Persisted(r.snaps, db.rejectsInsert, nowMs))
    decreases |tokens|
  {
    if |tokens| == 0 {
      assert db.rows + [] == db.rows;
    } else {
      var step := Persist(outcome(tokens[0]), db, nowMs);
      var rest := SnapshotEach(outcome, tokens[1..], step.db, nowMs);
      SnapshotEachRows(outcome, tokens[1..], step.db, nowMs);
      SnapshotEachStep(outcome, tokens, db, nowMs);
      PersistThenRest(outcome(tokens[0]), db, nowMs, rest.snaps, rest.db);
    }
  }

  /** The i-th snapshot of a batch is the one the i-th producing token's
      outcome carried. */
  lemma {:induction false} SnapshotEachOutcomes(outcome: Address -> Call<Option<Snapshot>>, tokens: seq<Address>, db: Db, nowMs: nat)
    ensures var r := SnapshotEach(outcome, tokens, db, nowMs);
            forall i :: 0 <= i < |r.snaps| ==> outcome(Producers(outcome, tokens)[i]) == Ok(Some(r.snaps[i]))
    decreases |tokens|
  {
    if |tokens| > 0 {
      var r := SnapshotEach(outcome, tokens, db, nowMs);
      var step := Persist(outcome(tokens[0]), db, nowMs);
      var rest := SnapshotEach(outcome, tokens[1..], step.db, nowMs);
      var ps := Producers(outcome, tokens);
      var ps' := Producers(outcome, tokens[1..]);
      SnapshotEachOutcomes(outcome, tokens[1..], step.db, nowMs);
      if Produced(outcome(tokens[0])) {
        assert ps == [tokens[0]] + ps';
        assert r.snaps == [outcome(tokens[0]).value.value] + rest.snaps;
        forall i | 0 <= i < |r.snaps|
          ensures outcome(ps[i]) == Ok(Some(r.snaps[i]))
        {
          if i > 0 {
            assert ps[i] == ps'[i - 1];
            assert r.snaps[i] == rest.snaps[i - 1];
          }
        }
      } else {
        assert ps == ps';
        assert r.snaps == rest.snaps;
      }
    }
  }

  /** Rows that survive the prune: `createdAt` not before now minus 72 hours. */
  predicate Retained(row: Row, nowMs: nat)
  {
    row.createdAtMs >= nowMs - RetentionMs
  }

  /** `deleteMany({ createdAt: { lt: cutoff } })` on a row sequence: keeps
      exactly the rows created at or after the cutoff, in their order. */
  function Prune(rows: seq<Row>, nowMs: nat): (r: seq<Row>)
    ensures |r| <= |rows|
    ensures forall row :: row in r <==> row in rows && Retained(row, nowMs)
    decreases |rows|
  {
    if |rows| == 0 then []
    else
      (if Retained(rows[0], nowMs) then [rows[0]] else []) + Prune(rows[1..], nowMs)
  }

  /** Pruning a pruned table at the same instant deletes nothing. */
  lemma {:induction false} PruneIsIdempotent(rows: seq<Row>, nowMs: nat)
    ensures Prune(Prune(rows, nowMs), nowMs) == Prune(rows, nowMs)
    decreases |rows|
  {
    if |rows| > 0 {
      PruneIsIdempotent(rows[1..], nowMs);
      var rest := Prune(rows[1..], nowMs);
      if Retained(rows[0], nowMs) {
        assert ([rows[0]] + rest)[0] == rows[0];
        assert ([rows[0]] + rest)[1..] == rest;
      } else {
        assert [] + rest == rest;
      }
    }
  }

  /** Pruning distributes over appending rows, so the prune at the end of a
      run treats old and freshly inserted rows alike. */
  lemma {:induction false} PruneAppend(a: seq<Row>, b: seq<Row>, nowMs: nat)
    ensures Prune(a + b, nowMs) == Prune(a, nowMs) + Prune(b, nowMs)
    decreases |a|
  {
    if |a| == 0 {
      assert a + b == b;
    } else {
      assert (a + b)[0] == a[0];
      assert (a + b)[1..] == a[1..] + b;
      PruneAppend(a[1..], b, nowMs);
    }
  }

  /** The prune step: a failing `deleteMany` is swallowed and leaves the
      table as it was. */
  function PruneDb(db: Db, nowMs: nat): (r: Db)
    ensures db.deleteFails ==> r == db
    ensures !db.deleteFails ==> r == db.(rows := Prune(db.rows, nowMs))
  {
    if db.deleteFails then db else db.(rows := Prune(db.rows, nowMs))
  }

  datatype RunResult = RunResult(snaps: seq<Snapshot>, db: Db)

  /** `snapshotAllTokens`: discover, fetch the reference price once, snapshot
      every token with it, then prune. */
  function SnapshotAllTokens(env: Env, db: Db, nowMs: nat): RunResult
  {
    var tokens := DiscoverTokens(env);
    if |tokens| == 0 then RunResult([], db)
    else
      var hbarUsd := ReferencePrice(env.feed);
      var batch := SnapshotEach(t => TokenOutcome(env, t, hbarUsd, nowMs), tokens, db, nowMs);
      RunResult(batch.snaps, PruneDb(batch.db, nowMs))
  }

  /** A produced snapshot is for its own token, priced with the given
      reference price. */
  lemma {:induction false} OutcomePriced(env: Env, token: Address, hbarPriceUsd: real, nowMs: nat)
    ensures var o := TokenOutcome(env, token, hbarPriceUsd, nowMs);
            Produced(o) ==>
              && o.value.value.token == token
              && o.value.value.hbarPriceUsd == hbarPriceUsd
              && PriceConverted(o.value.value)
  {
  }

  /** With nothing discovered a run returns no snapshots and touches no row:
      no price fetch, no prune. */
  lemma {:induction false} RunWithoutTokens(env: Env, db: Db, nowMs: nat)
    requires |DiscoverTokens(env)| == 0
    ensures SnapshotAllTokens(env, db, nowMs) == RunResult([], db)
  {
  }

  /** Whether every snapshot an outcome function produces is for its own
      token and priced with `hbarUsd`. */
  ghost predicate PricedWith(outcome: Address -> Call<Option<Snapshot>>, hbarUsd: real)
  {
    forall t :: Produced(outcome(t)) ==>
      && outcome(t).value.value.token == t
      && outcome(t).value.value.hbarPriceUsd == hbarUsd
      && PriceConverted(outcome(t).value.value)
  }

  lemma {:induction false} BatchPriced(outcome: Address -> Call<Option<Snapshot>>, hbarUsd: real, tokens: seq<Address>, db: Db, nowMs: nat)
    requires PricedWith(outcome, hbarUsd)
    ensures var r := SnapshotEach(outcome, tokens, db, nowMs);
            var producers := Producers(outcome, tokens);
            && |r.snaps| == |producers|
            && (forall i :: 0 <= i < |r.snaps| ==>
                  && r.snaps[i].token == producers[i]
                  && r.snaps[i].hbarPriceUsd == hbarUsd
                  && PriceConverted(r.snaps[i]))
  {
    var r := SnapshotEach(outcome, tokens, db, nowMs);
    var producers := Producers(outcome, tokens);
    SnapshotEachOutcomes(outcome, tokens, db, nowMs);
    forall i | 0 <= i < |r.snaps|
      ensures r.snaps[i].token == producers[i]
      ensures r.snaps[i].hbarPriceUsd == hbarUsd
      ensures PriceConverted(r.snaps[i])
    {
      assert outcome(producers[i]) == Ok(Some(r.snaps[i]));
    }
  }

  /** Otherwise a run returns one snapshot per producing token in discovery
      order, each for that token and priced with the single reference price
      of the run. */
  lemma {:induction false} RunSnapshots(env: Env, db: Db, nowMs: nat, i: nat)
    requires |DiscoverTokens(env)| > 0
    ensures var r := SnapshotAllTokens(env, db, nowMs);
            var hbarUsd := ReferencePrice(env.feed);
            var producers := Producers(t => TokenOutcome(env, t, hbarUsd, nowMs), DiscoverTokens(env));
            && |r.snaps| == |producers|
            && (i < |r.snaps| ==>
                  && r.snaps[i].token == producers[i]
                  && r.snaps[i].hbarPriceUsd == hbarUsd
                  && PriceConverted(r.snaps[i]))
  {
    var hbarUsd := ReferencePrice(env.feed);
    var outcome := t => TokenOutcome(env, t, hbarUsd, nowMs);
    forall t | Produced(outcome(t))
      ensures outcome(t).value.value.token == t
      ensures outcome(t).value.value.hbarPriceUsd == hbarUsd
      ensures PriceConverted(outcome(t).value.value)
    {
      OutcomePriced(env, t, hbarUsd, nowMs);
    }
    BatchPriced(outcome, hbarUsd, DiscoverTokens(env), db, nowMs);
  }

  /** A run with tokens appends the accepted rows and, unless the delete
      fails, keeps only rows from the last 72 hours, applying the cutoff to
      old and new rows alike. */
  lemma {:induction false} RunRows(env: Env, db: Db, nowMs: nat)
    requires |DiscoverTokens(env)| > 0
    ensures var r := SnapshotAllTokens(env, db, nowMs);
            var added := Persisted(r.snaps, db.rejectsInsert, nowMs);
            && r.db.rejectsInsert == db.rejectsInsert
            && (db.deleteFails ==> r.db.rows == db.rows + added)
            && (!db.deleteFails ==> r.db.rows == Prune(db.rows, nowMs) + Prune(added, nowMs))
  {
    var tokens := DiscoverTokens(env);
    var hbarUsd := ReferencePrice(env.feed);
    var outcome := t => TokenOutcome(env, t, hbarUsd, nowMs);
    var batch := SnapshotEach(outcome, tokens, db, nowMs);
    assert SnapshotAllTokens(env, db, nowMs) == RunResult(batch.snaps, PruneDb(batch.db, nowMs));
    SnapshotEachRows(outcome, tokens, db, nowMs);
    PruneAppend(db.rows, Persisted(batch.snaps, db.rejectsInsert, nowMs), nowMs);
  }

  /** After a run whose prune succeeded, no row is older than 72 hours. */
  lemma {:induction false} RunLeavesOnlyRecentRows(env: Env, db: Db, nowMs: nat)
    requires |DiscoverTokens(env)| > 0 && !db.deleteFails
    ensures forall row :: row in SnapshotAllTokens(env, db, nowMs).db.rows ==> Retained(row, nowMs)
  {
    var tokens := DiscoverTokens(env);
    var hbarUsd := ReferencePrice(env.feed);
    var outcome := t => TokenOutcome(env, t, hbarUsd, nowMs);
    var batch := SnapshotEach(outcome, tokens, db, nowMs);
    SnapshotEachRows(outcome, tokens, db, nowMs);
    assert SnapshotAllTokens(env, db, nowMs).db.rows == Prune(batch.db.rows, nowMs);
  }
}
