/** What the operations of AerospikeStorageEngine do to a record map, as functions. The class in
    EngineClass.dfy performs them step by step and is proved against these. */
module Engine {
  import opened Common
  import opened Sharding
  import opened Records

  /** crc32 is an arbitrary function: only that both sides use the same one matters. */
  type Crc = bytes -> nat

  /** Whether checksums are written and verified, and whether chunk metadata are. */
  datatype Opts = Opts(crcOn: bool, saveMd: bool)

  const NO_EXTRAS := Opts(false, false)

  datatype Config = Config(lim: SegmentLimits, opts: Opts)

  // ---- put ----

  function MetaBins(crc: Crc, o: Opts, plan: ShardPlan, p: bytes, pinned: bool): Bins {
    Bins(Some(Ready), Some(plan.nseg), Some(plan.segB), Some(|p|),
         if o.saveMd then Some(|p|) else None,
         if plan.nseg == 1 then Some(p) else None,
         if o.crcOn then Some(crc(p)) else None,
         Some(pinned))
  }

  function SegBins(crc: Crc, crcOn: bool, chunk: bytes): Bins {
    NO_BINS.(b := Some(chunk), crc32 := if crcOn then Some(crc(chunk)) else None)
  }

  /** The segment batch after its first `n` writes. */
  function WriteSegs(crc: Crc, crcOn: bool, s: Store, k: Key, p: bytes, segB: nat, n: nat): Store {
    if n == 0 then s
    else Upsert(WriteSegs(crc, crcOn, s, k, p, segB, n - 1), SegRec(k, n - 1), SegBins(crc, crcOn, Cut(p, n - 1, segB)))
  }

  /** Segments first, the meta record last. */
  function Commit(crc: Crc, o: Opts, s: Store, k: Key, p: bytes, plan: ShardPlan, pinned: bool): Store {
    var s1 := if plan.nseg == 1 then s else WriteSegs(crc, o.crcOn, s, k, p, plan.segB, plan.nseg);
    Upsert(s1, MetaRec(k), MetaBins(crc, o, plan, p, pinned))
  }

  function PutStore(crc: Crc, cfg: Config, s: Store, k: Key, p: bytes, pinned: bool): Result<Store, PlanError> {
    match Plan(|p|, cfg.lim)
    case Err(e) => Err(e)
    case Ok(plan) => Ok(Commit(crc, cfg.opts, s, k, p, plan, pinned))
  }

  lemma {:induction false} WriteSegsFrame(crc: Crc, crcOn: bool, s: Store, k: Key, p: bytes, segB: nat, n: nat,
                                          u: UserKey)
    requires !(u.SegRec? && u.ck == k && u.index < n)
    ensures Lookup(WriteSegs(crc, crcOn, s, k, p, segB, n), u) == Lookup(s, u)
  {
    if n > 0 {
      WriteSegsFrame(crc, crcOn, s, k, p, segB, n - 1, u);
    }
  }

  lemma {:induction false} WriteSegsAt(crc: Crc, crcOn: bool, s: Store, k: Key, p: bytes, segB: nat, n: nat, i: nat)
    requires i < n
    ensures Lookup(WriteSegs(crc, crcOn, s, k, p, segB, n), SegRec(k, i))
            == Some(Merge(BinsOf(s, SegRec(k, i)), SegBins(crc, crcOn, Cut(p, i, segB))))
  {
    if i < n - 1 {
      WriteSegsAt(crc, crcOn, s, k, p, segB, n - 1, i);
    } else {
      WriteSegsFrame(crc, crcOn, s, k, p, segB, n - 1, SegRec(k, i));
    }
  }

  lemma WriteSegsPointwise(crc: Crc, crcOn: bool, s: Store, k: Key, p: bytes, segB: nat, n: nat)
    ensures var s' := WriteSegs(crc, crcOn, s, k, p, segB, n);
            && (forall i: nat :: i < n ==>
                  && SegRec(k, i) in s'
                  && s'[SegRec(k, i)] == Merge(BinsOf(s, SegRec(k, i)), SegBins(crc, crcOn, Cut(p, i, segB))))
            && (forall u: UserKey :: !(u.SegRec? && u.ck == k && u.index < n) ==> Lookup(s', u) == Lookup(s, u))
  {
    var s' := WriteSegs(crc, crcOn, s, k, p, segB, n);
    forall i: nat | i < n
      ensures Lookup(s', SegRec(k, i)) == Some(Merge(BinsOf(s, SegRec(k, i)), SegBins(crc, crcOn, Cut(p, i, segB))))
    {
      WriteSegsAt(crc, crcOn, s, k, p, segB, n, i);
    }
    forall u: UserKey | !(u.SegRec? && u.ck == k && u.index < n) ensures Lookup(s', u) == Lookup(s, u) {
      WriteSegsFrame(crc, crcOn, s, k, p, segB, n, u);
    }
  }

  // ---- get ----

  /** How a get ends, and what became of its buffer: a miss or an exception comes before a buffer
      was taken, after it was released, or (MissLeaked) with the buffer neither returned nor released.
      A timeout of the segment read is an exception that some callers treat differently. */
  datatype GetOutcome = Miss | MissReleased | MissLeaked | Raised | RaisedReleased | TimedOutReleased | Hit(data: bytes)

  /** The buffer a get works on: the caller's, or one from the allocator, which is sized by the chunk metadata
      of the record or else for a full chunk, and is only to be had while there is memory free. */
  datatype Source = Preallocated(size: nat) | Allocator(saveMd: bool, full: nat, free: bool)

  function AllocSize(saveMd: bool, full: nat, meta: Bins): nat {
    if saveMd && meta.md.Some? then meta.md.value else full
  }

  function Capacity(src: Source, meta: Bins): Option<nat> {
    match src
    case Preallocated(size) => Some(size)
    case Allocator(saveMd, full, free) => if free then Some(AllocSize(saveMd, full, meta)) else None
  }

  /** The loop over batch-read segments: copy in order, stop at a missing record, a record without
      payload bin, or the end of the buffer. */
  function Gather(segs: seq<Option<Bins>>, i: nat, acc: bytes, cap: nat): (out: GetOutcome)
    requires i <= |segs|
    ensures out.Hit? || out.MissReleased? || out.RaisedReleased?
    decreases |segs| - i
  {
    if i == |segs| then Hit(acc)
    else if segs[i].None? then MissReleased
    else if segs[i].value.b.None? then RaisedReleased
    else if |acc| + |segs[i].value.b.value| > cap then RaisedReleased
    else Gather(segs, i + 1, acc + segs[i].value.b.value, cap)
  }

  function SegCount(meta: Bins): nat {
    if meta.nseg.Some? && meta.nseg.value > 1 then meta.nseg.value else 0
  }

  /** Everything after the meta record has been read; `cap` is the buffer size, None when the
      allocator has none to give. */
  function FinishGet(crc: Crc, crcOn: bool, meta: Bins, segs: seq<Option<Bins>>, cap: Option<nat>): GetOutcome {
    if meta.state != Some(Ready) then Miss
    else if meta.nseg.None? then Raised
    else if cap.None? then Miss
    else
      var out :=
        if meta.nseg.value == 1 then
          if meta.b.None? then MissLeaked
          else if |meta.b.value| > cap.value then RaisedReleased
          else Hit(meta.b.value)
        else Gather(segs, 0, [], cap.value);
      if out.Hit? && crcOn && meta.crc32.Some? && meta.crc32.value != crc(out.data) then MissReleased
      else out
  }

  function SegReads(s: Store, k: Key, n: nat): (r: seq<Option<Bins>>)
    ensures |r| == n && forall i :: 0 <= i < n ==> r[i] == Lookup(s, SegRec(k, i))
  {
    if n == 0 then [] else SegReads(s, k, n - 1) + [Lookup(s, SegRec(k, n - 1))]
  }

  function GetStore(crc: Crc, crcOn: bool, s: Store, k: Key, src: Source): GetOutcome {
    if MetaRec(k) !in s then Miss
    else
      var meta := s[MetaRec(k)];
      FinishGet(crc, crcOn, meta, SegReads(s, k, SegCount(meta)), Capacity(src, meta))
  }

  /** Meta records that no put of either implementation writes, too: without the ready state nothing is read; without
      a segment count the get raises before it takes a buffer; a count below one reads nothing at all; and the
      one case in which a buffer is kept. */
  lemma UnusualRecords(crc: Crc, crcOn: bool, s: Store, k: Key, src: Source)
    ensures MetaRec(k) !in s || s[MetaRec(k)].state != Some(Ready) ==> GetStore(crc, crcOn, s, k, src) == Miss
    ensures GetStore(crc, crcOn, s, k, src) == Raised <==> IsReady(s, k) && s[MetaRec(k)].nseg.None?
    ensures GetStore(crc, crcOn, s, k, src) == MissLeaked
            <==> && IsReady(s, k) && s[MetaRec(k)].nseg == Some(1) && s[MetaRec(k)].b.None?
                 && Capacity(src, s[MetaRec(k)]).Some?
    ensures IsReady(s, k) && s[MetaRec(k)].nseg.Some? && s[MetaRec(k)].nseg.value < 1 && !crcOn ==>
              GetStore(crc, crcOn, s, k, src) == if Capacity(src, s[MetaRec(k)]).Some? then Hit([]) else Miss
  {
  }

  /** The payload's first `i` cuts. */
  function Prefix(p: bytes, segB: nat, i: nat): bytes {
    PySlice(p, 0, i * segB)
  }

  lemma PrefixStep(p: bytes, plan: ShardPlan, i: nat)
    requires ValidLayout(plan, |p|) && plan.nseg > 1 && i < plan.nseg
    ensures Prefix(p, plan.segB, i + 1) == Prefix(p, plan.segB, i) + Cut(p, i, plan.segB)
    ensures |Prefix(p, plan.segB, i + 1)| <= |p|
  {
    NextCut(p, plan.segB, i);
  }

  lemma PrefixEnds(p: bytes, plan: ShardPlan)
    requires ValidLayout(plan, |p|) && plan.nseg > 1
    ensures Prefix(p, plan.segB, 0) == []
    ensures Prefix(p, plan.segB, plan.nseg) == p
  {
  }

  /** Every segment read so far is either missing or the right cut of `p`. */
  ghost predicate CutsOrMissing(p: bytes, plan: ShardPlan, segs: seq<Option<Bins>>) {
    && |segs| == plan.nseg
    && forall j :: 0 <= j < |segs| && segs[j].Some? ==> segs[j].value.b == Some(Cut(p, j, plan.segB))
  }

  ghost predicate AllPresent(segs: seq<Option<Bins>>, i: nat) {
    forall j :: i <= j < |segs| ==> segs[j].Some?
  }

  /** Such reads give `p` or fail cleanly, and give `p` exactly when none is missing and the buffer is
      large enough. */
  lemma {:induction false} GatherCuts(p: bytes, plan: ShardPlan, segs: seq<Option<Bins>>, i: nat, cap: nat)
    requires ValidLayout(plan, |p|) && plan.nseg > 1
    requires CutsOrMissing(p, plan, segs)
    requires i <= |segs| && |Prefix(p, plan.segB, i)| <= cap
    ensures var out := Gather(segs, i, Prefix(p, plan.segB, i), cap);
            && (out == Hit(p) || out == MissReleased || out == RaisedReleased)
            && (out == Hit(p) <==> AllPresent(segs, i) && |p| <= cap)
            && (out == RaisedReleased ==> |p| > cap)
            && (out == MissReleased ==> !AllPresent(segs, i))
    decreases |segs| - i
  {
    PrefixEnds(p, plan);
    if i < |segs| && segs[i].Some? {
      PrefixStep(p, plan, i);
      if |Prefix(p, plan.segB, i + 1)| <= cap {
        GatherCuts(p, plan, segs, i + 1, cap);
      }
    }
  }

  // ---- remove, pin, unpin ----

  function SegKeys(k: Key, n: nat): set<UserKey> {
    set i: nat | i < n :: SegRec(k, i)
  }

  /** The meta record goes first, then the segments its nseg announces. */
  function RemoveStore(s: Store, k: Key): (bool, Store) {
    if MetaRec(k) !in s then (false, s)
    else
      var nseg := Or(s[MetaRec(k)].nseg, Some(1)).value;
      (true, s - {MetaRec(k)} - (if nseg > 1 then SegKeys(k, nseg) else {}))
  }

  const PIN_BIN := NO_BINS.(pin := Some(true))
  const UNPIN_BIN := NO_BINS.(pin := Some(false))

  /** `pin_keys`: an unconditional upsert of one bin, so a vanished key comes back as a stateless ghost. */
  function PinKeysStore(s: Store, ks: seq<Key>): Store {
    if ks == [] then s else Upsert(PinKeysStore(s, ks[..|ks| - 1]), MetaRec(ks[|ks| - 1]), PIN_BIN)
  }

  function PinStore(s: Store, k: Key): (bool, Store) {
    if MetaRec(k) in s then (true, PinKeysStore(s, [k])) else (false, s)
  }

  function UnpinStore(s: Store, k: Key): (bool, Store) {
    if MetaRec(k) in s then (true, Upsert(s, MetaRec(k), UNPIN_BIN)) else (false, s)
  }

  /** A removal takes the meta record and exactly the segments it announces, if there are several; without a
      meta record it does nothing. */
  lemma RemovesExactly(s: Store, k: Key)
    ensures RemoveStore(s, k).0 <==> MetaRec(k) in s
    ensures forall u ::
              Lookup(RemoveStore(s, k).1, u)
              == if MetaRec(k) in s && (u == MetaRec(k) || (u in SegKeys(k, SegCount(s[MetaRec(k)])))) then None
                 else Lookup(s, u)
  {
  }

  /** Pinning and unpinning a present key sets its pin bin, true and false, and changes nothing else; an absent key
      is left alone. */
  lemma PinsExactly(s: Store, k: Key)
    ensures MetaRec(k) in s ==>
              && PinStore(s, k) == (true, s[MetaRec(k) := s[MetaRec(k)].(pin := Some(true))])
              && UnpinStore(s, k) == (true, s[MetaRec(k) := s[MetaRec(k)].(pin := Some(false))])
    ensures MetaRec(k) !in s ==> PinStore(s, k) == UnpinStore(s, k) == (false, s)
  {
    assert PinKeysStore(s, []) == s;
    assert [k][..0] == [];
  }

  /** `batched_contains`: the length of the leading run of existing meta records. */
  function ContainsPrefix(s: Store, ks: seq<Key>): nat {
    if ks == [] || MetaRec(ks[0]) !in s then 0 else 1 + ContainsPrefix(s, ks[1..])
  }
}
