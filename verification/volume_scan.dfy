/** The 24-hour volume scan (`volume24hUsd`): the window [fromBlock, latest]
    is cut into chunks the node will accept, and the native-asset side of
    every `Bought` and `Sold` log of the pool is added up. */
module VolumeScan {
  import opened Calls
  import opened Text
  import opened Chain
  import opened BlockSearch

  /** `step`: a chunk spans [start, start + Step], i.e. up to Step + 1 blocks. */
  const Step: nat := 2500

  /** One `getLogs` block range, both ends included. */
  datatype Chunk = Chunk(lo: nat, hi: nat)

  /** The chunks cover [from, latest] exactly: they start at `from`, end at
      `latest`, each is a non-empty range of at most Step + 1 blocks, and each
      begins one block after its predecessor ends (no gap, no overlap). */
  ghost predicate Tiles(cs: seq<Chunk>, from: nat, latest: nat)
  {
    && (from > latest ==> cs == [])
    && (from <= latest ==> |cs| > 0 && cs[0].lo == from && cs[|cs| - 1].hi == latest)
    && (forall i :: 0 <= i < |cs| ==> cs[i].lo <= cs[i].hi <= cs[i].lo + Step)
    && (forall i, j :: 0 <= i && j == i + 1 && j < |cs| ==> cs[j].lo == cs[i].hi + 1)
  }

  /** The block ranges the scan loop requests:
      `for (start = fromBlock; start <= latest; start += step + 1)` with
      `end = min(latest, start + step)`. There are ceil(n / (Step + 1)) of
      them for a window of n blocks. */
  method Chunks(from: nat, latest: nat) returns (cs: seq<Chunk>)
    ensures Tiles(cs, from, latest)
    ensures |cs| == if from > latest then 0 else (latest - from) / (Step + 1) + 1
  {
    cs := [];
    var start := from;
    while start <= latest
      invariant start == from + |cs| * (Step + 1)
      invariant |cs| > 0 ==> cs[0].lo == from && start <= latest + Step + 1
      invariant |cs| > 0 ==> cs[|cs| - 1].hi == if start <= latest then start - 1 else latest
      invariant forall i :: 0 <= i < |cs| ==> cs[i].lo <= cs[i].hi <= cs[i].lo + Step
      invariant forall i, j :: 0 <= i && j == i + 1 && j < |cs| ==> cs[j].lo == cs[i].hi + 1
      decreases latest + 1 - start
    {
      var end := if latest < start + Step then latest else start + Step;
      cs := cs + [Chunk(start, end)];
      start := start + Step + 1;
    }
    if from <= latest {
      ChunkCount(latest - from, |cs| - 1);
    }
  }

  lemma {:induction false} ChunkCount(a: nat, q: nat)
    requires q * (Step + 1) <= a < q * (Step + 1) + Step + 1
    ensures a / (Step + 1) == q
  {
  }

  /** A tiling puts every block of the window in exactly one chunk, and no
      block outside the window in any. */
  lemma {:induction false} TilingPartitions(cs: seq<Chunk>, from: nat, latest: nat, b: nat)
    requires Tiles(cs, from, latest)
    ensures (exists i :: 0 <= i < |cs| && cs[i].lo <= b <= cs[i].hi) <==> from <= b <= latest
    ensures forall i, j :: 0 <= i < |cs| && 0 <= j < |cs| && cs[i].lo <= b <= cs[i].hi && cs[j].lo <= b <= cs[j].hi ==> i == j
  {
    ChunksIncrease(cs, from, latest);
    if from <= b <= latest {
      var i := 0;
      while cs[i].hi < b
        invariant 0 <= i < |cs|
        invariant cs[i].lo <= b
        decreases |cs| - i
      {
        assert i + 1 < |cs|;
        i := i + 1;
      }
    }
  }

  /** In a tiling, a later chunk lies wholly above an earlier one. */
  lemma {:induction false} ChunksIncrease(cs: seq<Chunk>, from: nat, latest: nat)
    requires Tiles(cs, from, latest)
    ensures forall i, j :: 0 <= i < j < |cs| ==> cs[i].hi < cs[j].lo
    ensures forall i :: 0 <= i < |cs| ==> from <= cs[i].lo && cs[i].hi <= latest
  {
    forall i, j | 0 <= i < j < |cs|
      ensures cs[i].hi < cs[j].lo
    {
      var k := i;
      while k + 1 < j
        invariant i <= k < j
        invariant cs[i].hi <= cs[k].hi
        decreases j - k
      {
        assert cs[k + 1].lo == cs[k].hi + 1;
        k := k + 1;
      }
      assert cs[k + 1].lo == cs[k].hi + 1;
    }
    forall i | 0 <= i < |cs|
      ensures from <= cs[i].lo && cs[i].hi <= latest
    {
      if i > 0 {
        assert cs[0].hi < cs[i].lo;
      }
      if i < |cs| - 1 {
        assert cs[i].hi < cs[|cs| - 1].lo;
      }
    }
  }

  /** The native-asset amount a decoded log contributes: the HBAR paid in for
      `Bought` (`args[1]`), the HBAR paid out for `Sold` (`args[2]`), nothing
      for any other event or an undecodable log. */
  function LogHbar(l: RawLog): real
  {
    match l.payload
    case Bought(_, hbarIn, _) => WeiToHbar(hbarIn)
    case Sold(_, _, hbarOut) => WeiToHbar(hbarOut)
    case OtherEvent => 0.0
    case Malformed => 0.0
  }

  /** The running total of the fold over `logs`, in order. */
  function HbarSum(logs: seq<RawLog>): real
    decreases |logs|
  {
    if |logs| == 0 then 0.0 else HbarSum(logs[..|logs| - 1]) + LogHbar(logs[|logs| - 1])
  }

  lemma {:induction false} HbarSumAppend(a: seq<RawLog>, b: seq<RawLog>)
    ensures HbarSum(a + b) == HbarSum(a) + HbarSum(b)
    decreases |b|
  {
    if |b| == 0 {
      assert a + b == a;
    } else {
      assert (a + b)[..|a + b| - 1] == a + b[..|b| - 1];
      assert (a + b)[|a + b| - 1] == b[|b| - 1];
      HbarSumAppend(a, b[..|b| - 1]);
    }
  }

  /** A log `getLogs({address: pool, fromBlock: lo, toBlock: hi, topics: [topic]})`
      returns (address match is case-insensitive, both block bounds included). */
  predicate Selected(l: RawLog, pool: Address, lo: nat, hi: nat, topic: Topic)
  {
    Lower(l.emitter) == Lower(pool) && lo <= l.block <= hi && l.topic == topic
  }

  /** `getLogs` for one pool, block range and topic, in chain order. */
  function GetLogs(logs: seq<RawLog>, pool: Address, lo: nat, hi: nat, topic: Topic): (r: seq<RawLog>)
    ensures forall l :: l in r ==> l in logs && Selected(l, pool, lo, hi, topic)
    ensures forall l :: l in logs && Selected(l, pool, lo, hi, topic) ==> l in r
    decreases |logs|
  {
    if |logs| == 0 then []
    else
      var prefix := GetLogs(logs[..|logs| - 1], pool, lo, hi, topic);
      var l := logs[|logs| - 1];
      assert logs == logs[..|logs| - 1] + [l];
      if Selected(l, pool, lo, hi, topic) then prefix + [l] else prefix
  }

  /** A log of the pool, in blocks [lo, hiExcl), filed under `Bought` or `Sold`. */
  predicate InWindow(l: RawLog, pool: Address, lo: nat, hiExcl: nat)
  {
    Lower(l.emitter) == Lower(pool) && lo <= l.block < hiExcl
    && (l.topic == BoughtTopic || l.topic == SoldTopic)
  }

  /** Reference definition of the window's volume: the contribution of every
      `Bought`/`Sold` log of the pool in blocks [lo, hiExcl), each counted once,
      with no reference to chunks. */
  function WindowHbar(logs: seq<RawLog>, pool: Address, lo: nat, hiExcl: nat): real
    decreases |logs|
  {
    if |logs| == 0 then 0.0
    else
      var l := logs[|logs| - 1];
      WindowHbar(logs[..|logs| - 1], pool, lo, hiExcl)
        + (if InWindow(l, pool, lo, hiExcl) then LogHbar(l) else 0.0)
  }

  /** The two topic queries of one chunk together contribute exactly the
      window sum over that chunk. */
  lemma {:induction false} ChunkLogsSum(logs: seq<RawLog>, pool: Address, lo: nat, hi: nat)
    ensures HbarSum(GetLogs(logs, pool, lo, hi, BoughtTopic) + GetLogs(logs, pool, lo, hi, SoldTopic))
            == WindowHbar(logs, pool, lo, hi + 1)
    decreases |logs|
  {
    var b := GetLogs(logs, pool, lo, hi, BoughtTopic);
    var s := GetLogs(logs, pool, lo, hi, SoldTopic);
    HbarSumAppend(b, s);
    if |logs| > 0 {
      var init := logs[..|logs| - 1];
      var l := logs[|logs| - 1];
      ChunkLogsSum(init, pool, lo, hi);
      HbarSumAppend(GetLogs(init, pool, lo, hi, BoughtTopic), GetLogs(init, pool, lo, hi, SoldTopic));
      if Selected(l, pool, lo, hi, BoughtTopic) {
        HbarSumAppend(GetLogs(init, pool, lo, hi, BoughtTopic), [l]);
      }
      if Selected(l, pool, lo, hi, SoldTopic) {
        HbarSumAppend(GetLogs(init, pool, lo, hi, SoldTopic), [l]);
      }
    }
  }

  /** An empty block range holds no volume. */
  lemma {:induction false} WindowEmpty(logs: seq<RawLog>, pool: Address, lo: nat, hiExcl: nat)
    requires hiExcl <= lo
    ensures WindowHbar(logs, pool, lo, hiExcl) == 0.0
    decreases |logs|
  {
    if |logs| > 0 {
      WindowEmpty(logs[..|logs| - 1], pool, lo, hiExcl);
    }
  }

  /** Adjacent windows add up: summing [lo, mid) and then [mid, hiExcl) counts
      every block of [lo, hiExcl) once. */
  lemma {:induction false} WindowSplit(logs: seq<RawLog>, pool: Address, lo: nat, mid: nat, hiExcl: nat)
    requires lo <= mid <= hiExcl
    ensures WindowHbar(logs, pool, lo, mid) + WindowHbar(logs, pool, mid, hiExcl)
            == WindowHbar(logs, pool, lo, hiExcl)
    decreases |logs|
  {
    if |logs| > 0 {
      WindowSplit(logs[..|logs| - 1], pool, lo, mid, hiExcl);
    }
  }

  /** The `reduce` over one chunk's `[...logsB, ...logsS]`: each log's
      HBAR amount is added to the running total `acc`. */
  method AddLogs(acc: real, logs: seq<RawLog>) returns (total: real)
    ensures total == acc + HbarSum(logs)
  {
    total := acc;
    var j := 0;
    while j < |logs|
      invariant 0 <= j <= |logs|
      invariant total == acc + HbarSum(logs[..j])
      decreases |logs| - j
    {
      HbarSumAppend(logs[..j], [logs[j]]);
      assert logs[..j + 1] == logs[..j] + [logs[j]];
      total := total + LogHbar(logs[j]);
      j := j + 1;
    }
    assert logs[..|logs|] == logs;
  }

  /** The chunk loop of `volume24hUsd` over [from, latest]: the HBAR total
      times the reference price. Every `Bought`/`Sold` log of the pool in the
      window is counted exactly once, and nothing else is counted. A failing
      `getLogs` aborts the scan, but only if some chunk is requested. */
  method ScanVolume(c: ChainState, pool: Address, from: nat, latest: nat, hbarUsd: real)
    returns (r: Call<real>)
    ensures from <= latest && c.logQueriesFail ==> r == Threw
    ensures !(from <= latest && c.logQueriesFail) ==>
              r == Ok(WindowHbar(c.logs, pool, from, latest + 1) * hbarUsd)
    ensures from > latest ==> r == Ok(0.0)
  {
    var cs := Chunks(from, latest);
    ChunksIncrease(cs, from, latest);
    if from > latest {
      WindowEmpty(c.logs, pool, from, latest + 1);
      return Ok(0.0 * hbarUsd);
    }
    WindowEmpty(c.logs, pool, from, from);
    var sumHbar := 0.0;
    var k := 0;
    while k < |cs|
      invariant 0 <= k <= |cs|
      invariant sumHbar == WindowHbar(c.logs, pool, from, if k == 0 then from else cs[k - 1].hi + 1)
      invariant c.logQueriesFail ==> k == 0
      decreases |cs| - k
    {
      if c.logQueriesFail {
        return Threw;
      }
      var chunk := cs[k];
      var logsB := GetLogs(c.logs, pool, chunk.lo, chunk.hi, BoughtTopic);
      var logsS := GetLogs(c.logs, pool, chunk.lo, chunk.hi, SoldTopic);
      sumHbar := AddLogs(sumHbar, logsB + logsS);
      ChunkLogsSum(c.logs, pool, chunk.lo, chunk.hi);
      assert k > 0 ==> cs[k].lo == cs[k - 1].hi + 1;
      WindowSplit(c.logs, pool, from, chunk.lo, chunk.hi + 1);
      k := k + 1;
    }
    assert |cs| > 0 && cs[|cs| - 1].hi == latest;
    assert sumHbar == WindowHbar(c.logs, pool, from, latest + 1);
    assert !c.logQueriesFail;
    var total := sumHbar * hbarUsd;
    assert total == WindowHbar(c.logs, pool, from, latest + 1) * hbarUsd;
    r := Ok(total);
    assert r == Ok(WindowHbar(c.logs, pool, from, latest + 1) * hbarUsd);
  }

  /** `volume24hUsd`: locate the first block of the last day, then scan
      [fromBlock, latest]. The window is never empty, so a chain whose log
      queries fail always makes the scan throw. */
  method Volume24hUsd(c: ChainState, pool: Address, hbarUsd: real, nowMs: nat)
    returns (fromBlock: nat, r: Call<real>)
    ensures fromBlock <= c.latest
    ensures Monotone(c) ==> fromBlock == LinearFirst(c, TargetTs(c, nowMs), 0)
    ensures c.logQueriesFail <==> r == Threw
    ensures r.Ok? ==> r.value == WindowHbar(c.logs, pool, fromBlock, c.latest + 1) * hbarUsd
  {
    fromBlock := FindFromBlock24h(c, nowMs);
    r := ScanVolume(c, pool, fromBlock, c.latest, hbarUsd);
  }
}
