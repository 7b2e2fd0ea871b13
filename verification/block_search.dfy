/** Locating the first block of the last 24 hours by binary search over
    block timestamps (`findFromBlock24h`). */
module BlockSearch {
  import opened Chain

  const DaySeconds: int := 24 * 3600

  /** The instant the search looks for: the head block's timestamp, or the
      wall clock when the head has none, minus one day. */
  function TargetTs(c: ChainState, nowMs: nat): int
  {
    var head := Timestamp(c, c.latest);
    (if head != 0 then head else nowMs / 1000) - DaySeconds
  }

  /** Timestamps never decrease with height (assumed of the chain, not
      checked by the search). */
  ghost predicate Monotone(c: ChainState)
  {
    forall i, j :: 0 <= i <= j <= c.latest ==> Timestamp(c, i) <= Timestamp(c, j)
  }

  /** `h` is the lowest height in [0, latest] whose timestamp reaches `target`. */
  ghost predicate IsFirstAtOrAfter(c: ChainState, target: int, h: nat)
  {
    && h <= c.latest
    && Timestamp(c, h) >= target
    && forall k :: 0 <= k < h ==> Timestamp(c, k) < target
  }

  /** No height in [0, latest] reaches `target`. */
  ghost predicate NoneAtOrAfter(c: ChainState, target: int)
  {
    forall k :: 0 <= k <= c.latest ==> Timestamp(c, k) < target
  }

  /** Reference definition by linear scan from height `h` upwards: the first
      height reaching `target`, or 0 when there is none. */
  function LinearFirst(c: ChainState, target: int, h: nat): nat
    decreases c.latest + 1 - h
  {
    if h > c.latest then 0
    else if Timestamp(c, h) >= target then h
    else LinearFirst(c, target, h + 1)
  }

  /** The linear scan from 0 finds the first height reaching the target, and
      falls back to 0 exactly when no height does. */
  lemma {:induction false} LinearFirstSpec(c: ChainState, target: int, h: nat)
    requires h <= c.latest + 1
    requires forall k :: 0 <= k < h ==> Timestamp(c, k) < target
    ensures var r := LinearFirst(c, target, h);
            (NoneAtOrAfter(c, target) && r == 0) || IsFirstAtOrAfter(c, target, r)
    decreases c.latest + 1 - h
  {
    if h <= c.latest && Timestamp(c, h) < target {
      LinearFirstSpec(c, target, h + 1);
    }
  }

  /** There is only one first height. */
  lemma {:induction false} FirstIsUnique(c: ChainState, target: int, a: nat, b: nat)
    requires IsFirstAtOrAfter(c, target, a) && IsFirstAtOrAfter(c, target, b)
    ensures a == b
  {
  }

  /** `findFromBlock24h`: binary search over [0, latest] for the lowest height
      whose timestamp is at least one day before the head's. Whatever the
      timestamps, the answer is a height of the chain and either 0 or a block
      reaching the target; on a chain with non-decreasing timestamps it is the
      first such block, and 0 when none exists. */
  method FindFromBlock24h(c: ChainState, nowMs: nat) returns (ans: nat)
    ensures ans <= c.latest
    ensures ans == 0 || Timestamp(c, ans) >= TargetTs(c, nowMs)
    ensures Monotone(c) ==>
              || IsFirstAtOrAfter(c, TargetTs(c, nowMs), ans)
              || (NoneAtOrAfter(c, TargetTs(c, nowMs)) && ans == 0)
    ensures Monotone(c) ==> ans == LinearFirst(c, TargetTs(c, nowMs), 0)
  {
    var target := TargetTs(c, nowMs);
    var lo: int := 0;
    var hi: int := c.latest;
    ans := 0;
    while lo <= hi
      invariant 0 <= lo <= hi + 1 <= c.latest + 1
      invariant ans <= c.latest
      invariant ans == 0 || Timestamp(c, ans) >= target
      invariant hi == c.latest ==> ans == 0
      invariant hi < c.latest ==> ans == hi + 1 && Timestamp(c, ans) >= target
      invariant Monotone(c) ==> forall k :: 0 <= k < lo ==> Timestamp(c, k) < target
      decreases hi - lo
    {
      var mid := (lo + hi) / 2;
      if Timestamp(c, mid) >= target {
        ans := mid;
        hi := mid - 1;
      } else {
        lo := mid + 1;
      }
    }
    LinearFirstSpec(c, target, 0);
    if Monotone(c) && !NoneAtOrAfter(c, target) {
      FirstIsUnique(c, target, ans, LinearFirst(c, target, 0));
    }
  }
}
