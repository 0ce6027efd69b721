/** What the native connector's set, get and delete do to the same record map: its own planner, no
    checksum, and a reader that checks sizes. uint32_t, size_t and int64_t conversions are explicit. */
module NativeSpec {
  import opened Common
  import opened Sharding
  import opened Limits
  import opened Records
  import opened Engine

  datatype NativeError = NotFound | NotReady | SizeMismatch | MissingSegment | CallFailed

  /** `positive_int_bin`. */
  function PositiveInt(v: Option<int>, fallback: int): int {
    if v.Some? && v.value > 0 then v.value else fallback
  }

  /** `as_record_set_raw` takes the length as a uint32_t. */
  function Raw(chunk: bytes): bytes {
    chunk[..|chunk| % UINT32]
  }

  // ---- set ----

  function NativeMeta(plan: ShardPlan, total: nat, inlined: Option<bytes>): Bins {
    Bins(Some(Ready), Some(plan.nseg), Some(plan.segB), Some(total), None, inlined, None, Some(false))
  }

  function NativeWriteSegs(s: Store, k: Key, p: bytes, segB: nat, n: nat): Store {
    if n == 0 then s
    else Upsert(NativeWriteSegs(s, k, p, segB, n - 1), SegRec(k, n - 1), NO_BINS.(b := Some(Raw(Cut(p, n - 1, segB)))))
  }

  function NativeCommit(s: Store, k: Key, p: bytes, plan: ShardPlan): Store {
    if plan.nseg == 1 then Upsert(s, MetaRec(k), NativeMeta(plan, |p|, Some(Raw(p))))
    else Upsert(NativeWriteSegs(s, k, p, plan.segB, plan.nseg), MetaRec(k), NativeMeta(plan, |p|, None))
  }

  /** The native planner neither wraps nor truncates (see NativePlanIsExact), and no C++ buffer is
      larger than a ptrdiff_t. */
  predicate Plannable(payload: nat, lim: NativeLimits) {
    && payload < SIZE_T / 2
    && lim.target <= lim.max < SIZE_T
    && (payload <= lim.target
        || (payload <= (UINT32 - 1) * lim.target && payload + lim.target <= SIZE_T))
  }

  function NativeLayout(payload: nat, lim: NativeLimits): ShardPlan
    requires Plannable(payload, lim)
  {
    if payload <= lim.target then ShardPlan(1, payload) else BalancedPlan(payload, lim.target)
  }

  lemma NativeLayoutIsValid(payload: nat, lim: NativeLimits)
    requires Plannable(payload, lim)
    ensures var plan := NativeLayout(payload, lim);
            && NativePlan(payload, lim.target, lim.max) == Ok(plan)
            && ValidLayout(plan, payload)
            && plan.nseg < UINT32
            && plan.segB <= lim.target
            && (plan.nseg == 1 ==> plan.segB == payload)
  {
    if payload > 0 {
      NativePlanIsExact(payload, lim.target, lim.max);
      BalancedPlanBounds(payload, lim.target);
      CeilDivIsLeast(payload, lim.target, UINT32 - 1);
    }
  }

  /** Under the limits the constructor derives, no record exceeds the server cap minus the margin. */
  lemma NativeRecordsFitTheServer(target: nat, recordCap: nat, p: bytes, i: nat)
    requires NativeResolve(target, recordCap).Some? && Plannable(|p|, NativeResolve(target, recordCap).value)
    ensures var plan := NativeLayout(|p|, NativeResolve(target, recordCap).value);
            && (plan.nseg == 1 ==> |p| <= recordCap - SAFETY_MARGIN_BYTES)
            && (plan.nseg > 1 && i < plan.nseg ==> 0 < |Cut(p, i, plan.segB)| <= recordCap - SAFETY_MARGIN_BYTES)
  {
    var lim := NativeResolve(target, recordCap).value;
    var plan := NativeLayout(|p|, lim);
    NativeLayoutIsValid(|p|, lim);
    if plan.nseg > 1 && i < plan.nseg {
      CutLength(p, plan, i);
    }
  }

  /** As long as no record reaches 4 GiB, a native set writes what a Python put without checksum would
      write under the native layout. */
  lemma NativeCommitIsCommit(crc: Crc, s: Store, k: Key, p: bytes, plan: ShardPlan)
    requires ValidLayout(plan, |p|) && plan.segB < UINT32 && (plan.nseg == 1 ==> plan.segB == |p|)
    ensures NativeCommit(s, k, p, plan) == Commit(crc, NO_EXTRAS, s, k, p, plan, false)
  {
    if plan.nseg > 1 {
      NativeWriteSegsIsWriteSegs(crc, s, k, p, plan, plan.nseg);
    } else {
      assert Raw(p) == p;
    }
  }

  lemma {:induction false} NativeWriteSegsIsWriteSegs(crc: Crc, s: Store, k: Key, p: bytes, plan: ShardPlan, n: nat)
    requires ValidLayout(plan, |p|) && 1 < plan.nseg && plan.segB < UINT32 && n <= plan.nseg
    ensures NativeWriteSegs(s, k, p, plan.segB, n) == WriteSegs(crc, false, s, k, p, plan.segB, n)
  {
    if n > 0 {
      NativeWriteSegsIsWriteSegs(crc, s, k, p, plan, n - 1);
      CutLength(p, plan, n - 1);
      assert Raw(Cut(p, n - 1, plan.segB)) == Cut(p, n - 1, plan.segB);
    }
  }

  // ---- get ----

  /** The read loop: each segment must have exactly the length the layout gives it. */
  function NativeGather(segs: seq<Option<Bins>>, i: nat, acc: bytes, segB: nat, len: nat): Result<bytes, NativeError>
    requires i <= |segs| && |acc| <= len
    decreases |segs| - i
  {
    if i == |segs| then Ok(acc)
    else if segs[i].None? || segs[i].value.b.None? || |segs[i].value.b.value| != Min(segB, len - |acc|)
      then Err(MissingSegment)
    else NativeGather(segs, i + 1, acc + segs[i].value.b.value, segB, len)
  }

  function NativeSegCount(meta: Bins): nat {
    var nseg := PositiveInt(meta.nseg, 1) % UINT32;
    if nseg == 1 then 0 else nseg
  }

  /** Everything after the meta record has been read. Ok carries the bytes put at the front of the
      caller's buffer. */
  function NativeRead(meta: Bins, segs: seq<Option<Bins>>, len: nat): Result<bytes, NativeError>
  {
    if meta.state != Some(Ready) then Err(NotReady)
    else
      var nseg := PositiveInt(meta.nseg, 1) % UINT32;
      var segB := PositiveInt(meta.segB, len) % SIZE_T;
      var total := PositiveInt(meta.totB, len) % SIZE_T;
      if total != len then Err(SizeMismatch)
      else if nseg == 1 then
        if meta.b.None? || |meta.b.value| != len then Err(SizeMismatch) else Ok(meta.b.value)
      else NativeGather(segs, 0, [], segB, len)
  }

  function NativeGetStore(s: Store, k: Key, len: nat): Result<bytes, NativeError> {
    if MetaRec(k) !in s then Err(NotFound)
    else NativeRead(s[MetaRec(k)], SegReads(s, k, NativeSegCount(s[MetaRec(k)])), len)
  }

  /** The fallbacks and conversions of a read change nothing for numbers in range. */
  lemma NativeReadOfLayout(meta: Bins, segs: seq<Option<Bins>>, plan: ShardPlan, total: nat, len: nat)
    requires meta.state == Some(Ready)
    requires meta.nseg == Some(plan.nseg) && meta.segB == Some(plan.segB) && meta.totB == Some(total)
    requires ValidLayout(plan, total) && plan.nseg < UINT32 && total < SIZE_T / 2
    requires plan.nseg == 1 ==> meta.b.Some? && |meta.b.value| == total
    ensures NativeSegCount(meta) == if plan.nseg > 1 then plan.nseg else 0
    ensures NativeRead(meta, segs, len)
            == if len != total then Err(SizeMismatch)
               else if plan.nseg > 1 then NativeGather(segs, 0, [], plan.segB, len)
               else Ok(meta.b.value)
  {
    SmallMod(plan.nseg, UINT32);
    SmallMod(total, SIZE_T);
    if plan.nseg > 1 {
      MulMono(plan.segB, 1, plan.nseg - 1);
      SmallMod(plan.segB, SIZE_T);
    }
  }

  /** What a native read makes of bins that are missing or not positive: one record, and no size to compare. */
  lemma NativeFallbacks(meta: Bins, segs: seq<Option<Bins>>, len: nat)
    requires len < SIZE_T
    requires meta.nseg.None? || meta.nseg.value <= 0
    requires meta.totB.None? || meta.totB.value <= 0
    ensures NativeRead(meta, segs, len)
            == if meta.state != Some(Ready) then Err(NotReady)
               else if meta.b.Some? && |meta.b.value| == len then Ok(meta.b.value)
               else Err(SizeMismatch)
  {
  }

  lemma {:induction false} NativeGatherCuts(p: bytes, plan: ShardPlan, segs: seq<Option<Bins>>, i: nat)
    requires ValidLayout(plan, |p|) && plan.nseg > 1
    requires CutsOrMissing(p, plan, segs) && i <= |segs|
    ensures |Prefix(p, plan.segB, i)| <= |p|
    ensures var out := NativeGather(segs, i, Prefix(p, plan.segB, i), plan.segB, |p|);
            && (out.Ok? ==> out == Ok(p))
            && (out.Ok? <==> AllPresent(segs, i))
    decreases |segs| - i
  {
    PrefixEnds(p, plan);
    if i < |segs| {
      PrefixStep(p, plan, i);
      CutLength(p, plan, i);
      assert |Prefix(p, plan.segB, i)| == i * plan.segB;
      if segs[i].Some? {
        NativeGatherCuts(p, plan, segs, i + 1);
      }
    }
  }

  // ---- delete ----

  /** Unlike the Python remove, this also deletes segment 0 of a single-record key. */
  function NativeDeleteStore(s: Store, k: Key): (bool, Store) {
    if MetaRec(k) !in s then (false, s)
    else (true, s - {MetaRec(k)} - SegKeys(k, PositiveInt(s[MetaRec(k)].nseg, 1) % UINT32))
  }

  /** Exactly the meta record and the segments it announces, one at least. */
  lemma NativeDeletesExactly(s: Store, k: Key)
    requires MetaRec(k) in s && s[MetaRec(k)].nseg.Some? && 0 < s[MetaRec(k)].nseg.value < UINT32
    ensures NativeDeleteStore(s, k).0
    ensures forall u ::
              Lookup(NativeDeleteStore(s, k).1, u)
              == if u == MetaRec(k) || u in SegKeys(k, s[MetaRec(k)].nseg.value) then None else Lookup(s, u)
  {
    SmallMod(s[MetaRec(k)].nseg.value, UINT32);
  }
}
