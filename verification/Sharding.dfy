/** The segment planner: two nested ceiling divisions with clamping and a fallback, and its
    fixed-width twin in the native connector. */
module Sharding {
  import opened Common

  datatype ShardPlan = ShardPlan(nseg: nat, segB: nat)

  datatype SegmentLimits = SegmentLimits(target: pos, max: pos, min: pos, single: pos)

  datatype PlanError = TargetExceedsMax | SegmentExceedsMax

  lemma FloorSign(a: nat, b: pos)
    ensures (-(a as int)) / b <= 0
  {
  }

  /** `-(-a // b)`, with Python's floor division. */
  function CeilDiv(a: nat, b: pos): (q: nat)
    ensures (q - 1) * b < a <= q * b
  {
    var floor: int := (-(a as int)) / b;
    FloorSign(a, b);
    -floor
  }

  lemma CeilDivIsLeast(a: nat, b: pos, q: int)
    ensures q >= CeilDiv(a, b) <==> q * b >= a
  {
  }

  function Plan(payload: nat, lim: SegmentLimits): Result<ShardPlan, PlanError> {
    if payload == 0 then Ok(ShardPlan(1, 0))
    else if lim.target > lim.max then Err(TargetExceedsMax)
    else if payload <= lim.single && payload <= lim.max then Ok(ShardPlan(1, payload))
    else
      var nseg := CeilDiv(payload, lim.target);
      assert nseg > 0;
      var segB := CeilDiv(payload, nseg);
      if segB > lim.max then Err(SegmentExceedsMax)
      else if segB < lim.min && payload <= lim.max then Ok(ShardPlan(1, payload))
      else Ok(ShardPlan(nseg, segB))
  }

  /** What a reader relies on: with several segments, every one of them is non-empty and together
      they cover the payload. */
  predicate ValidLayout(p: ShardPlan, payload: nat) {
    && p.nseg >= 1
    && (p.nseg > 1 ==> p.segB > 0 && (p.nseg - 1) * p.segB < payload <= p.nseg * p.segB)
  }

  /** The balanced layout both planners aim at. */
  function BalancedPlan(payload: nat, target: pos): ShardPlan
    requires payload > 0
  {
    var nseg := CeilDiv(payload, target);
    assert nseg > 0;
    ShardPlan(nseg, CeilDiv(payload, nseg))
  }

  /** Segments are balanced: more than half the target, the last one at most nseg - 1 bytes short. */
  lemma BalancedPlanBounds(payload: nat, target: pos)
    requires payload > 0
    ensures var p := BalancedPlan(payload, target);
            && ValidLayout(p, payload)
            && p.segB <= target
            && (p.nseg > 1 ==> 2 * p.segB > target)
            && payload - (p.nseg - 1) * p.segB >= p.segB - p.nseg + 1
            && (p.nseg == 1 ==> payload <= target && p.segB == payload)
  {
    var n := CeilDiv(payload, target);
    assert n > 0;
    var s := CeilDiv(payload, n);
    CeilDivIsLeast(payload, n, target);
    Balance(payload, target, n, s);
  }

  lemma Balance(payload: nat, target: pos, n: pos, s: pos)
    requires (n - 1) * target < payload <= n * target
    requires (s - 1) * n < payload <= s * n
    requires s <= target
    ensures (n - 1) * s < payload
    ensures payload - (n - 1) * s >= s - n + 1
    ensures n > 1 ==> 2 * s > target
    ensures n == 1 ==> s == payload <= target
  {
    MulMono(n - 1, s, target);
    assert (n - 1) * s == n * s - s;
    if n > 1 && 2 * s <= target {
      HalfTarget(payload, target, n, s);
    }
  }

  lemma HalfTarget(payload: nat, target: pos, n: int, s: pos)
    requires n > 1 && payload <= s * n && 2 * s <= target
    ensures payload <= (n - 1) * target
  {
    MulMono(n, 2 * s, target);
    MulMono(target, 2, n);
    calc {
      2 * payload;
      <= 2 * (s * n);
      == n * (2 * s);
      <= n * target;
      <= n * target + target * (n - 2);
      == 2 * ((n - 1) * target);
    }
  }

  lemma MulMono(k: nat, a: int, b: int)
    requires a <= b
    ensures k * a <= k * b
  {
  }

  /** No layout with fewer segments keeps every segment within the target. */
  lemma BalancedPlanIsLeast(payload: nat, target: pos, m: pos)
    requires payload > 0
    ensures CeilDiv(payload, m) <= target <==> m >= BalancedPlan(payload, target).nseg
  {
    CeilDivIsLeast(payload, m, target);
    CeilDivIsLeast(payload, target, m);
  }

  /** Every plan the Python planner returns: either one record holding everything, or the balanced
      layout with more than one segment. One record it is for a payload within the target, for one within the
      threshold and the maximum, and for one within the maximum whose balanced segments would be too small.
      All records stay within the limits. */
  lemma PlanBounds(payload: nat, lim: SegmentLimits)
    requires Plan(payload, lim).Ok?
    ensures var p := Plan(payload, lim).value;
            && ValidLayout(p, payload)
            && p.segB <= lim.max
            && (p.nseg == 1 ==> p.segB == payload)
            && (p.nseg == 1 <==> || payload <= lim.target
                                 || (payload <= lim.single && payload <= lim.max)
                                 || (payload <= lim.max && BalancedPlan(payload, lim.target).segB < lim.min))
            && (p.nseg > 1 ==>
                  && p == BalancedPlan(payload, lim.target)
                  && p.segB <= lim.target < 2 * p.segB
                  && payload - (p.nseg - 1) * p.segB >= p.segB - p.nseg + 1
                  && forall m: pos :: CeilDiv(payload, m) <= lim.target ==> m >= p.nseg)
  {
    if payload > 0 {
      BalancedPlanBounds(payload, lim.target);
      CeilDivIsLeast(payload, lim.target, 1);
      forall m: pos ensures CeilDiv(payload, m) <= lim.target ==> m >= BalancedPlan(payload, lim.target).nseg {
        BalancedPlanIsLeast(payload, lim.target, m);
      }
    }
  }

  /** The second raise is unreachable: the planner fails exactly on its first check. */
  lemma PlanFailsExactly(payload: nat, lim: SegmentLimits)
    ensures Plan(payload, lim).Err? <==> payload > 0 && lim.target > lim.max
    ensures Plan(payload, lim) != Err(SegmentExceedsMax)
  {
    if payload > 0 {
      BalancedPlanBounds(payload, lim.target);
    }
  }

  /** Per-segment byte lengths, for any shard description. */
  method SliceLengths(payload: nat, shard: ShardPlan) returns (lengths: seq<int>)
    ensures |lengths| == shard.nseg
    ensures forall i :: 0 <= i < shard.nseg - 1 ==> lengths[i] == shard.segB
    ensures shard.nseg > 0 ==> lengths[shard.nseg - 1] == payload - (shard.nseg - 1) * shard.segB
    ensures shard.nseg > 0 ==> Sum(lengths) == payload
  {
    if shard.nseg == 1 {
      lengths := [payload];
      return;
    }
    lengths := [];
    var remaining: int := payload;
    for i := 0 to shard.nseg
      invariant |lengths| == i
      invariant i < shard.nseg ==> remaining == payload - i * shard.segB && Sum(lengths) == i * shard.segB
      invariant forall j :: 0 <= j < i && j < shard.nseg - 1 ==> lengths[j] == shard.segB
      invariant i == shard.nseg > 0 ==>
          lengths[i - 1] == payload - (i - 1) * shard.segB && Sum(lengths) == payload
    {
      ghost var before := lengths;
      if i == shard.nseg - 1 {
        lengths := lengths + [remaining];
      } else {
        lengths := lengths + [shard.segB];
        remaining := remaining - shard.segB;
        assert (i + 1) * shard.segB == i * shard.segB + shard.segB;
      }
      assert lengths[..|lengths| - 1] == before;
    }
  }

  /** The bytes the writer puts into segment `i`: `view[i*s : i*s + s]`. */
  function Cut(p: bytes, i: nat, s: nat): bytes {
    PySlice(p, i * s, i * s + s)
  }

  /** No cut underflows or is empty, and cut lengths are the planned slice lengths. */
  lemma CutLength(p: bytes, plan: ShardPlan, i: nat)
    requires ValidLayout(plan, |p|) && plan.nseg > 1 && i < plan.nseg
    ensures i * plan.segB < |p|
    ensures |Cut(p, i, plan.segB)| == Min(plan.segB, |p| - i * plan.segB)
    ensures |Cut(p, i, plan.segB)| == if i < plan.nseg - 1 then plan.segB else |p| - (plan.nseg - 1) * plan.segB
    ensures |Cut(p, i, plan.segB)| > 0
  {
    var s := plan.segB;
    assert i * s <= (plan.nseg - 1) * s;
    if i < plan.nseg - 1 {
      assert i * s + s == (i + 1) * s <= (plan.nseg - 1) * s;
    } else {
      assert i * s + s == plan.nseg * s;
    }
  }

  function Join(parts: seq<bytes>): bytes {
    if parts == [] then [] else Join(parts[..|parts| - 1]) + parts[|parts| - 1]
  }

  /** The first `n` cuts, as the writer's loop produces them. */
  function Cuts(p: bytes, s: nat, n: nat): (cuts: seq<bytes>)
    ensures |cuts| == n && forall i :: 0 <= i < n ==> cuts[i] == Cut(p, i, s)
  {
    if n == 0 then [] else Cuts(p, s, n - 1) + [Cut(p, n - 1, s)]
  }

  lemma {:induction false} JoinCuts(p: bytes, s: nat, n: nat)
    ensures Join(Cuts(p, s, n)) == PySlice(p, 0, n * s)
  {
    if n > 0 {
      JoinCuts(p, s, n - 1);
      JoinLast(Cuts(p, s, n - 1), Cut(p, n - 1, s));
      NextCut(p, s, n - 1);
    }
  }

  lemma JoinLast(parts: seq<bytes>, last: bytes)
    ensures Join(parts + [last]) == Join(parts) + last
  {
  }

  lemma NextCut(p: bytes, s: nat, i: nat)
    ensures PySlice(p, 0, i * s) + Cut(p, i, s) == PySlice(p, 0, (i + 1) * s)
  {
    assert (i + 1) * s == i * s + s;
    PySliceSplit(p, i * s, s);
  }

  lemma PySliceSplit(p: bytes, at: nat, s: nat)
    ensures PySlice(p, 0, at) + PySlice(p, at, at + s) == PySlice(p, 0, at + s)
  {
  }

  /** The writer's cuts reassemble to the payload. */
  lemma CutsRecoverPayload(p: bytes, plan: ShardPlan)
    requires ValidLayout(plan, |p|) && plan.nseg > 1
    ensures Join(Cuts(p, plan.segB, plan.nseg)) == p
  {
    JoinCuts(p, plan.segB, plan.nseg);
  }

  // ---- The native planner: size_t is 64 bits, nseg is a uint32_t ----

  const SIZE_T: int := 0x1_0000_0000_0000_0000
  const UINT32: int := 0x1_0000_0000

  datatype NativePlanError = DivideByZero | CannotShard

  function NativePlan(payload: nat, target: pos, max: pos): Result<ShardPlan, NativePlanError> {
    if payload <= target && payload <= max then Ok(ShardPlan(1, payload))
    else
      var nseg := ((payload + target - 1) % SIZE_T) / target % UINT32;
      if nseg == 0 then Err(DivideByZero)
      else
        var segB := ((payload + nseg - 1) % SIZE_T) / nseg;
        if segB > max then Err(CannotShard) else Ok(ShardPlan(nseg, segB))
  }

  lemma CeilDivByShift(a: nat, b: pos)
    ensures (a + b - 1) / b == CeilDiv(a, b)
  {
    var q := CeilDiv(a, b);
    var r := (a + b - 1) / b;
    assert r * b <= a + b - 1 < r * b + b;
    CeilDivIsLeast(a, b, r);
    CeilDivIsLeast(a, b, r - 1);
    assert (r - 1) * b == r * b - b;
  }

  /** The second rounding never overflows either, although nothing in the guard mentions it. */
  lemma SecondRoundingFits(payload: nat, target: pos, nseg: pos)
    requires payload <= nseg * target && nseg < UINT32 && payload + target <= SIZE_T
    ensures payload + nseg - 1 < SIZE_T
  {
  }

  /** The casts and wrap-arounds are harmless exactly below these two bounds: there, and only there,
      the native planner computes the mathematical layout. */
  lemma NativePlanIsExact(payload: nat, target: pos, max: pos)
    requires 0 < payload < SIZE_T && target <= max < SIZE_T
    ensures NativePlan(payload, target, max) == Ok(if payload <= target then ShardPlan(1, payload)
                                                   else BalancedPlan(payload, target))
            <==> payload <= target
                 || (payload <= (UINT32 - 1) * target && payload + target <= SIZE_T)
  {
    if payload > target {
      var n := CeilDiv(payload, target);
      assert n > 0;
      CeilDivIsLeast(payload, target, UINT32 - 1);
      if payload + target > SIZE_T {
        WrappedCountIsTooSmall(payload, target);
      } else if payload <= (UINT32 - 1) * target {
        NativePlanFits(payload, target, max);
      }
    }
  }

  lemma DivTimes(y: nat, t: pos)
    ensures 0 <= y / t && (y / t) * t <= y
  {
  }

  lemma ModAtMost(w: nat, m: pos)
    ensures 0 <= w % m <= w
  {
  }

  lemma SmallMod(n: nat, m: pos)
    requires n < m
    ensures n % m == n
  {
  }

  /** If the sum wraps, the computed segment count falls short of the true one. */
  lemma WrappedCountIsTooSmall(payload: nat, target: pos)
    requires payload < SIZE_T && target < SIZE_T && payload + target > SIZE_T
    ensures ((payload + target - 1) % SIZE_T) / target % UINT32 < CeilDiv(payload, target)
  {
    var y := (payload + target - 1) % SIZE_T;
    assert y == payload + target - 1 - SIZE_T;
    var w := y / target;
    DivTimes(y, target);
    ModAtMost(w, UINT32);
    CeilDivIsLeast(payload, target, w);
  }

  /** The first rounding: neither the sum nor the count overflows. */
  lemma FirstCount(payload: nat, target: pos, n: nat)
    requires n == CeilDiv(payload, target) && n < UINT32 && payload + target <= SIZE_T
    ensures ((payload + target - 1) % SIZE_T) / target % UINT32 == n
  {
    SmallMod(payload + target - 1, SIZE_T);
    CeilDivByShift(payload, target);
    SmallMod(n, UINT32);
  }

  /** The second rounding. */
  lemma SecondSize(payload: nat, target: pos, n: pos)
    requires payload <= n * target && n < UINT32 && payload + target <= SIZE_T
    ensures ((payload + n - 1) % SIZE_T) / n == CeilDiv(payload, n)
  {
    SecondRoundingFits(payload, target, n);
    SmallMod(payload + n - 1, SIZE_T);
    CeilDivByShift(payload, n);
  }

  lemma NativePlanFits(payload: nat, target: pos, max: pos)
    requires target < payload <= (UINT32 - 1) * target && payload + target <= SIZE_T
    requires target <= max
    ensures NativePlan(payload, target, max) == Ok(BalancedPlan(payload, target))
  {
    var n := CeilDiv(payload, target);
    assert 0 < n < UINT32 by {
      CeilDivIsLeast(payload, target, UINT32 - 1);
      CeilDivIsLeast(payload, target, 0);
    }
    assert ((payload + target - 1) % SIZE_T) / target % UINT32 == n by {
      FirstCount(payload, target, n);
    }
    assert ((payload + n - 1) % SIZE_T) / n == CeilDiv(payload, n) by {
      SecondSize(payload, target, n);
    }
    assert CeilDiv(payload, n) <= target by {
      CeilDivIsLeast(payload, n, target);
    }
  }
}
