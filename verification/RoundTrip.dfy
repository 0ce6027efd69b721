/** One put followed by one get, in every combination of the two implementations and over any earlier
    contents of the store. */
module RoundTrip {
  import opened Common
  import opened Sharding
  import opened Limits
  import opened Records
  import opened Engine
  import opened NativeSpec

  ghost predicate HoldsAs(s: Store, k: Key, p: bytes, plan: ShardPlan) {
    && IsReady(s, k)
    && ValidLayout(plan, |p|)
    && var meta := s[MetaRec(k)];
    && meta.nseg == Some(plan.nseg) && meta.segB == Some(plan.segB) && meta.totB == Some(|p|)
    && (plan.nseg == 1 ==> meta.b == Some(p))
    && (plan.nseg > 1 ==> forall i: nat :: i < plan.nseg ==>
                            SegRec(k, i) in s && s[SegRec(k, i)].b == Some(Cut(p, i, plan.segB)))
  }

  /** The records of `k` hold `p`: whatever else earlier writes left behind in them. */
  ghost predicate Holds(s: Store, k: Key, p: bytes) {
    exists plan :: HoldsAs(s, k, p, plan) && plan.nseg < UINT32
  }

  /** A commit over any store: stale inline payloads, orphan segments and ghosts included. */
  lemma CommitHolds(crc: Crc, o: Opts, s: Store, k: Key, p: bytes, plan: ShardPlan, pinned: bool)
    requires ValidLayout(plan, |p|)
    ensures var s' := Commit(crc, o, s, k, p, plan, pinned);
            && HoldsAs(s', k, p, plan)
            && s'[MetaRec(k)].crc32 == (if o.crcOn then Some(crc(p)) else BinsOf(s, MetaRec(k)).crc32)
            && s'[MetaRec(k)].md == (if o.saveMd then Some(|p|) else BinsOf(s, MetaRec(k)).md)
            && s'[MetaRec(k)].pin == Some(pinned)
            && (plan.nseg > 1 ==> s'[MetaRec(k)].b == BinsOf(s, MetaRec(k)).b)
            && (plan.nseg > 1 && o.crcOn ==> forall i: nat :: i < plan.nseg ==>
                  s'[SegRec(k, i)].crc32 == Some(crc(Cut(p, i, plan.segB))))
            && (forall i: nat :: plan.nseg == 1 || i >= plan.nseg ==>
                  Lookup(s', SegRec(k, i)) == Lookup(s, SegRec(k, i)))
            && SameElsewhere(s, s', k)
  {
    if plan.nseg > 1 {
      WriteSegsPointwise(crc, o.crcOn, s, k, p, plan.segB, plan.nseg);
    }
  }

  /** What a Python get returns from a key that holds `p`. */
  function Expected(crc: Crc, crcOn: bool, p: bytes, crcBin: Option<nat>, cap: Option<nat>): GetOutcome {
    if cap.None? then Miss
    else if |p| > cap.value then RaisedReleased
    else if crcOn && crcBin.Some? && crcBin.value != crc(p) then MissReleased
    else Hit(p)
  }

  lemma GetFromHolds(crc: Crc, crcOn: bool, s: Store, k: Key, p: bytes, plan: ShardPlan, src: Source)
    requires HoldsAs(s, k, p, plan)
    ensures GetStore(crc, crcOn, s, k, src)
            == Expected(crc, crcOn, p, s[MetaRec(k)].crc32, Capacity(src, s[MetaRec(k)]))
  {
    var meta := s[MetaRec(k)];
    var cap := Capacity(src, meta);
    if plan.nseg > 1 && cap.Some? {
      PrefixEnds(p, plan);
      GatherCuts(p, plan, SegReads(s, k, plan.nseg), 0, cap.value);
    }
  }

  lemma NativeGetFromHolds(s: Store, k: Key, p: bytes, plan: ShardPlan, len: nat)
    requires HoldsAs(s, k, p, plan) && plan.nseg < UINT32 && |p| < SIZE_T / 2
    ensures NativeGetStore(s, k, len).Ok? <==> len == |p|
    ensures len == |p| ==> NativeGetStore(s, k, len) == Ok(p)
  {
    var segs := SegReads(s, k, NativeSegCount(s[MetaRec(k)]));
    NativeReadOfLayout(s[MetaRec(k)], segs, plan, |p|, len);
    if plan.nseg > 1 {
      PrefixEnds(p, plan);
      NativeGatherCuts(p, plan, segs, 0);
    }
  }

  /** Native get after Python put: succeeds exactly for the right length, whatever the two planners think
      of each other. */
  lemma NativeReadsPythonPut(crc: Crc, cfg: Config, s: Store, k: Key, p: bytes, pinned: bool, len: nat)
    requires PutStore(crc, cfg, s, k, p, pinned).Ok?
    requires |p| < SIZE_T / 2 && |p| <= (UINT32 - 1) * cfg.lim.target
    ensures var s' := PutStore(crc, cfg, s, k, p, pinned).value;
            NativeGetStore(s', k, len).Ok? <==> len == |p|
    ensures NativeGetStore(PutStore(crc, cfg, s, k, p, pinned).value, k, |p|) == Ok(p)
  {
    var plan := Plan(|p|, cfg.lim).value;
    PlanBounds(|p|, cfg.lim);
    SegmentCountFits(|p|, cfg.lim);
    CommitHolds(crc, cfg.opts, s, k, p, plan, pinned);
    NativeGetFromHolds(PutStore(crc, cfg, s, k, p, pinned).value, k, p, plan, len);
    NativeGetFromHolds(PutStore(crc, cfg, s, k, p, pinned).value, k, p, plan, |p|);
  }

  lemma SegmentCountFits(payload: nat, lim: SegmentLimits)
    requires Plan(payload, lim).Ok? && payload <= (UINT32 - 1) * lim.target
    ensures Plan(payload, lim).value.nseg < UINT32
  {
    CeilDivIsLeast(payload, lim.target, UINT32 - 1);
  }

  /** Python get after native set: the payload comes back exactly when no stale checksum of an earlier Python
      put contradicts it and the buffer, which may be sized by stale chunk metadata, is large enough. The
      native writer has neither bin, and merging keeps the old ones. */
  lemma PythonReadsNativeSet(crc: Crc, crcOn: bool, s: Store, k: Key, p: bytes, lim: NativeLimits, src: Source)
    requires Plannable(|p|, lim) && lim.target < UINT32
    ensures var s' := NativeCommit(s, k, p, NativeLayout(|p|, lim));
            var stale := BinsOf(s, MetaRec(k));
            var cap := Capacity(src, stale);
            GetStore(crc, crcOn, s', k, src) == Hit(p)
            <==> cap.Some? && |p| <= cap.value && (!crcOn || stale.crc32.None? || stale.crc32.value == crc(p))
  {
    var plan := NativeLayout(|p|, lim);
    NativeLayoutIsValid(|p|, lim);
    NativeCommitIsCommit(crc, s, k, p, plan);
    CommitHolds(crc, NO_EXTRAS, s, k, p, plan, false);
    GetFromHolds(crc, crcOn, NativeCommit(s, k, p, plan), k, p, plan, src);
  }

  /** Native get after native set recovers the payload exactly when no single record reaches 4 GiB. */
  lemma NativeReadsNativeSet(crc: Crc, s: Store, k: Key, p: bytes, lim: NativeLimits)
    requires Plannable(|p|, lim)
    ensures var plan := NativeLayout(|p|, lim);
            NativeGetStore(NativeCommit(s, k, p, plan), k, |p|) == Ok(p) <==> plan.segB < UINT32
  {
    var plan := NativeLayout(|p|, lim);
    NativeLayoutIsValid(|p|, lim);
    var s' := NativeCommit(s, k, p, plan);
    if plan.segB < UINT32 {
      NativeCommitIsCommit(crc, s, k, p, plan);
      CommitHolds(crc, NO_EXTRAS, s, k, p, plan, false);
      NativeGetFromHolds(s', k, p, plan, |p|);
    } else if plan.nseg == 1 {
      assert |Raw(p)| < |p|;
    } else {
      TruncatedFirstSegment(s, k, p, plan);
    }
  }

  lemma TruncatedFirstSegment(s: Store, k: Key, p: bytes, plan: ShardPlan)
    requires ValidLayout(plan, |p|) && 1 < plan.nseg < UINT32 && UINT32 <= plan.segB && |p| < SIZE_T / 2
    ensures NativeGetStore(NativeCommit(s, k, p, plan), k, |p|).Err?
  {
    var s' := NativeCommit(s, k, p, plan);
    CutLength(p, plan, 0);
    CutLength(p, plan, 1);
    FirstSegmentWritten(s, k, p, plan.segB, plan.nseg);
    NativeReadOfLayout(s'[MetaRec(k)], SegReads(s', k, plan.nseg), plan, |p|, |p|);
    assert SegReads(s', k, plan.nseg)[0] == Some(s'[SegRec(k, 0)]);
    assert |Raw(Cut(p, 0, plan.segB))| < |Cut(p, 0, plan.segB)| == Min(plan.segB, |p|);
  }

  lemma {:induction false} FirstSegmentWritten(s: Store, k: Key, p: bytes, segB: nat, n: nat)
    requires n > 0
    ensures SegRec(k, 0) in NativeWriteSegs(s, k, p, segB, n)
    ensures NativeWriteSegs(s, k, p, segB, n)[SegRec(k, 0)].b == Some(Raw(Cut(p, 0, segB)))
  {
    if n > 1 {
      FirstSegmentWritten(s, k, p, segB, n - 1);
    }
  }

  /** After a removal nothing of the key is visible, and if it was last written under the layout its meta
      record announced, none of those segments survives. */
  lemma RemoveErases(crc: Crc, crcOn: bool, s: Store, k: Key, p: bytes, plan: ShardPlan, src: Source, len: nat)
    requires HoldsAs(s, k, p, plan) && plan.nseg < UINT32
    ensures forall s' :: s' in {RemoveStore(s, k).1, NativeDeleteStore(s, k).1} ==>
              && MetaRec(k) !in s'
              && GetStore(crc, crcOn, s', k, src) == Miss
              && NativeGetStore(s', k, len) == Err(NotFound)
              && (plan.nseg > 1 ==> forall i: nat :: i < plan.nseg ==> SegRec(k, i) !in s')
              && SameElsewhere(s, s', k)
    ensures RemoveStore(s, k).0 && NativeDeleteStore(s, k).0
  {
  }
}
