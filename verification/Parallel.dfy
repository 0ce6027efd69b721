/** Chunks submitted together and collected in completion order. */
module Parallel {
  import opened Common
  import opened Sharding
  import opened Records
  import opened Engine
  import opened Client
  import opened EngineClass
  import opened Batched

  // ---- _parallel_chunks for a function without side effects ----

  /** `[items[i : i + size] for i in range(0, len(items), size)]`. */
  function Chunks<T>(items: seq<T>, size: pos): (chunks: seq<seq<T>>)
    ensures Concat(chunks) == items
    ensures forall c :: c in chunks ==> 0 < |c| <= size
    ensures forall i :: 0 <= i < |chunks| - 1 ==> |chunks[i]| == size
  {
    if items == [] then []
    else if |items| <= size then
      assert Concat([items][1..]) == [];
      [items]
    else
      var rest := Chunks(items[size..], size);
      assert ([items[..size]] + rest)[1..] == rest;
      [items[..size]] + rest
  }

  function Concat<T>(parts: seq<seq<T>>): seq<T> {
    if parts == [] then [] else parts[0] + Concat(parts[1..])
  }

  function Pointwise<T, U>(f: T -> U, items: seq<T>): (r: seq<U>)
    ensures |r| == |items| && forall i :: 0 <= i < |r| ==> r[i] == f(items[i])
  {
    if items == [] then [] else [f(items[0])] + Pointwise(f, items[1..])
  }

  /** `as_completed` yields the futures in any order; each result goes to its own slot. (More items than
      fit one chunk make at least two chunks, so a second test for a single chunk never succeeds.) */
  method ParallelChunks<T>(fn: seq<T> -> seq<bool>, items: seq<T>, chunkSize: pos) returns (out: seq<bool>)
    ensures out == if |items| <= chunkSize then fn(items) else Concat(Pointwise(fn, Chunks(items, chunkSize)))
  {
    if |items| <= chunkSize {
      return fn(items);
    }
    var chunks := Chunks(items, chunkSize);
    var ordered := new Option<seq<bool>>[|chunks|](_ => None);
    var futures := Range(0, |chunks|);
    while futures != {}
      invariant futures <= Range(0, |chunks|)
      invariant forall i :: 0 <= i < |chunks| && i !in futures ==> ordered[i] == Some(fn(chunks[i]))
    {
      var idx :| idx in futures;
      futures := futures - {idx};
      ordered[idx] := Some(fn(chunks[idx]));
    }
    out := [];
    ghost var mapped := Pointwise(fn, chunks);
    for i := 0 to |chunks|
      invariant out + Concat(mapped[i..]) == Concat(mapped)
    {
      assert ordered[i] == Some(mapped[i]) && mapped[i..][1..] == mapped[i + 1..];
      out := out + ordered[i].value;
    }
  }

  /** For a function that treats items one by one, chunking cannot be observed. */
  lemma {:induction false} ChunkingIsInvisible<T, U>(fn: seq<T> -> seq<U>, f: T -> U, chunks: seq<seq<T>>)
    requires forall c :: fn(c) == Pointwise(f, c)
    ensures Concat(Pointwise(fn, chunks)) == Pointwise(f, Concat(chunks))
  {
    if chunks != [] {
      var m := Pointwise(fn, chunks);
      assert m[1..] == Pointwise(fn, chunks[1..]);
      ChunkingIsInvisible(fn, f, chunks[1..]);
      PointwiseConcat(f, chunks[0], Concat(chunks[1..]));
    }
  }

  lemma PointwiseConcat<T, U>(f: T -> U, a: seq<T>, b: seq<T>)
    ensures Pointwise(f, a + b) == Pointwise(f, a) + Pointwise(f, b)
  {
  }

  // ---- The L2 store: chunks of batched puts, in any order ----

  /** Two stores that agree on a key still do after the same put. */
  lemma PutIsLocal(crc: Crc, cfg: Config, s: Store, t: Store, k: Key, p: bytes, pinned: bool)
    requires Plan(|p|, cfg.lim).Ok?
    requires forall u: UserKey :: u.ck == k ==> Lookup(s, u) == Lookup(t, u)
    ensures forall u: UserKey :: u.ck == k ==>
              Lookup(PutStore(crc, cfg, s, k, p, pinned).value, u)
              == Lookup(PutStore(crc, cfg, t, k, p, pinned).value, u)
  {
    var plan := Plan(|p|, cfg.lim).value;
    if plan.nseg != 1 {
      WriteSegsPointwise(crc, cfg.opts.crcOn, s, k, p, plan.segB, plan.nseg);
      WriteSegsPointwise(crc, cfg.opts.crcOn, t, k, p, plan.segB, plan.nseg);
    }
    forall u: UserKey | u.ck == k
      ensures Lookup(PutStore(crc, cfg, s, k, p, pinned).value, u)
              == Lookup(PutStore(crc, cfg, t, k, p, pinned).value, u)
    {
      assert Lookup(s, u) == Lookup(t, u);
    }
  }

  /** The item that owns key `k`. */
  function Owner(items: seq<Item>, k: Key): (o: Option<nat>)
    ensures o.Some? ==> o.value < |items| && items[o.value].k == k
    ensures o.None? ==> forall i :: 0 <= i < |items| ==> items[i].k != k
  {
    if items == [] then None
    else if items[|items| - 1].k == k then Some(|items| - 1)
    else Owner(items[..|items| - 1], k)
  }

  /** The record at `u` when exactly the items in `done` have been put, each as if it were the only one. */
  function Want(crc: Crc, cfg: Config, s0: Store, items: seq<Item>, pinned: bool, done: set<nat>, u: UserKey)
    : Option<Bins>
    requires AllPlanned(cfg, items)
  {
    var o := Owner(items, u.ck);
    if o.Some? && o.value in done then
      Lookup(PutStore(crc, cfg, s0, u.ck, items[o.value].payload, pinned).value, u)
    else Lookup(s0, u)
  }

  ghost predicate PutExactly(crc: Crc, cfg: Config, s0: Store, s: Store, items: seq<Item>, pinned: bool, done: set<nat>)
    requires AllPlanned(cfg, items)
  {
    forall u :: Lookup(s, u) == Want(crc, cfg, s0, items, pinned, done, u)
  }

  lemma OwnerIsUnique(items: seq<Item>, j: nat)
    requires DistinctKeys(items) && j < |items|
    ensures Owner(items, items[j].k) == Some(j)
  {
  }

  /** One more put of an item that was not done. */
  lemma PutExactlyStep(crc: Crc, cfg: Config, s0: Store, s: Store, items: seq<Item>, pinned: bool,
                       done: set<nat>, j: nat)
    requires AllPlanned(cfg, items) && DistinctKeys(items) && j < |items| && j !in done
    requires PutExactly(crc, cfg, s0, s, items, pinned, done)
    ensures PutExactly(crc, cfg, s0, PutStore(crc, cfg, s, items[j].k, items[j].payload, pinned).value, items, pinned,
                       done + {j})
  {
    var it := items[j];
    var s' := PutStore(crc, cfg, s, it.k, it.payload, pinned).value;
    StoredByPut(crc, cfg, s, it, pinned);
    OwnerIsUnique(items, j);
    forall u: UserKey | u.ck == it.k ensures Lookup(s, u) == Lookup(s0, u) {
      assert Lookup(s, u) == Want(crc, cfg, s0, items, pinned, done, u);
    }
    PutIsLocal(crc, cfg, s, s0, it.k, it.payload, pinned);
    forall u ensures Lookup(s', u) == Want(crc, cfg, s0, items, pinned, done + {j}, u) {
      if u.ck != it.k {
        assert Lookup(s', u) == Lookup(s, u) == Want(crc, cfg, s0, items, pinned, done, u);
        assert Owner(items, u.ck) != Some(j);
      }
    }
  }

  lemma PutAllLast(crc: Crc, cfg: Config, s: Store, items: seq<Item>, pinned: bool, lo: nat, hi: nat)
    requires AllPlanned(cfg, items) && lo < hi <= |items|
    ensures PutAll(crc, cfg, s, items[lo..hi], pinned)
            == PutStore(crc, cfg, PutAll(crc, cfg, s, items[lo..hi - 1], pinned), items[hi - 1].k,
                        items[hi - 1].payload, pinned).value
  {
    assert items[lo..hi][..hi - lo - 1] == items[lo..hi - 1];
  }

  lemma PutExactlyLast(crc: Crc, cfg: Config, s0: Store, s: Store, items: seq<Item>, pinned: bool, before: set<nat>,
                       lo: nat, hi: nat)
    requires AllPlanned(cfg, items) && DistinctKeys(items) && lo < hi <= |items| && hi - 1 !in before
    requires PutExactly(crc, cfg, s0, PutAll(crc, cfg, s, items[lo..hi - 1], pinned), items, pinned, before)
    ensures PutExactly(crc, cfg, s0, PutAll(crc, cfg, s, items[lo..hi], pinned), items, pinned, before + {hi - 1})
  {
    PutExactlyStep(crc, cfg, s0, PutAll(crc, cfg, s, items[lo..hi - 1], pinned), items, pinned, before, hi - 1);
    PutAllLast(crc, cfg, s, items, pinned, lo, hi);
  }

  /** A whole chunk of items that were not done. */
  lemma {:induction false} PutExactlyChunk(crc: Crc, cfg: Config, s0: Store, s: Store, items: seq<Item>, pinned: bool,
                                           done: set<nat>, lo: nat, hi: nat)
    requires AllPlanned(cfg, items) && DistinctKeys(items) && lo <= hi <= |items| && done !! Range(lo, hi)
    requires PutExactly(crc, cfg, s0, s, items, pinned, done)
    ensures PutExactly(crc, cfg, s0, PutAll(crc, cfg, s, items[lo..hi], pinned), items, pinned, done + Range(lo, hi))
  {
    if lo == hi {
      assert done + Range(lo, hi) == done;
    } else {
      var before := done + Range(lo, hi - 1);
      assert hi - 1 in Range(lo, hi) && hi - 1 !in before && before + {hi - 1} == done + Range(lo, hi);
      PutExactlyChunk(crc, cfg, s0, s, items, pinned, done, lo, hi - 1);
      PutExactlyLast(crc, cfg, s0, s, items, pinned, before, lo, hi);
    }
  }

  /** Once everything is done, the order has been forgotten. */
  lemma PutExactlyAll(crc: Crc, cfg: Config, s0: Store, s: Store, items: seq<Item>, pinned: bool)
    requires AllPlanned(cfg, items) && DistinctKeys(items)
    requires PutExactly(crc, cfg, s0, s, items, pinned, Range(0, |items|))
    ensures s == PutAll(crc, cfg, s0, items, pinned)
  {
    PutExactlyChunk(crc, cfg, s0, s0, items, pinned, {}, 0, |items|);
    assert items[0..|items|] == items && {} + Range(0, |items|) == Range(0, |items|);
    var t := PutAll(crc, cfg, s0, items, pinned);
    forall u ensures Lookup(s, u) == Lookup(t, u) {
      assert Lookup(s, u) == Want(crc, cfg, s0, items, pinned, Range(0, |items|), u) == Lookup(t, u);
    }
    SameLookups(s, t);
  }

  // ---- _store_sync ----

  function Zip(ks: seq<Key>, objs: seq<bytes>): (items: seq<Item>)
    ensures |items| == Min(|ks|, |objs|)
    ensures forall i :: 0 <= i < |items| ==> items[i] == Item(ks[i], objs[i])
  {
    if ks == [] || objs == [] then [] else [Item(ks[0], objs[0])] + Zip(ks[1..], objs[1..])
  }

  function Lo(c: nat): nat {
    c * BATCH_KEYS_CHUNK
  }

  function Chunk(items: seq<Item>, c: nat): seq<Item> {
    PySlice(items, Lo(c), Lo(c) + BATCH_KEYS_CHUNK)
  }

  function ChunkCount(items: seq<Item>): nat {
    (|items| + BATCH_KEYS_CHUNK - 1) / BATCH_KEYS_CHUNK
  }

  function ChunkRange(items: seq<Item>, c: nat): set<nat> {
    Range(Lo(c), Min(Lo(c) + BATCH_KEYS_CHUNK, |items|))
  }

  lemma ChunkSlice(items: seq<Item>, c: nat)
    requires c < ChunkCount(items)
    ensures Lo(c) < |items|
    ensures Chunk(items, c) == items[Lo(c)..Min(Lo(c) + BATCH_KEYS_CHUNK, |items|)]
    ensures forall i :: 0 <= i < |items| ==> (i in ChunkRange(items, c) <==> i / BATCH_KEYS_CHUNK == c)
  {
  }

  lemma ChunkDistinct(items: seq<Item>, c: nat)
    requires c < ChunkCount(items) && DistinctKeys(items)
    ensures DistinctKeys(Chunk(items, c)) && (forall cfg :: AllPlanned(cfg, items) ==> AllPlanned(cfg, Chunk(items, c)))
  {
  }

  /** Another chunk's keys are none of this chunk's business. */
  lemma OtherChunkKept(cfg: Config, s: Store, s': Store, items: seq<Item>, c: nat, d: nat, flags: seq<bool>)
    requires DistinctKeys(items) && c < ChunkCount(items) && d < ChunkCount(items) && c != d
    requires SameOutside(s, s', Chunk(items, d)) && Truthful(cfg, s, Chunk(items, c), flags)
    ensures Truthful(cfg, s', Chunk(items, c), flags)
  {
  }

  lemma ChunkPut(e: StorageEngine, s0: Store, s: Store, s': Store, items: seq<Item>, done: set<nat>, c: nat,
                 flags: seq<bool>)
    requires AllPlanned(e.cfg, items) && DistinctKeys(items) && c < ChunkCount(items)
    requires done !! ChunkRange(items, c)
    requires PutExactly(e.crc, e.cfg, s0, s, items, false, done)
    requires PutInOrder(e, s, s', Chunk(items, c), false, flags)
    ensures PutExactly(e.crc, e.cfg, s0, s', items, false, done + ChunkRange(items, c))
  {
    ChunkSlice(items, c);
    PutExactlyChunk(e.crc, e.cfg, s0, s, items, false, done, Lo(c), Min(Lo(c) + BATCH_KEYS_CHUNK, |items|));
  }

  /** What is known of the chunks that have completed. */
  ghost predicate Collected(cfg: Config, s: Store, items: seq<Item>, futures: set<nat>, ordered: seq<Option<seq<bool>>>)
    requires |ordered| == ChunkCount(items)
  {
    forall c :: 0 <= c < |ordered| && c !in futures && ordered[c].Some? ==>
      Truthful(cfg, s, Chunk(items, c), ordered[c].value)
  }

  ghost predicate OnlyTrue(flags: seq<bool>) {
    forall i :: 0 <= i < |flags| ==> flags[i]
  }

  ghost predicate AllTrue(futures: set<nat>, ordered: seq<Option<seq<bool>>>) {
    forall c :: 0 <= c < |ordered| && c !in futures ==> ordered[c].Some? && OnlyTrue(ordered[c].value)
  }

  /** After some chunks have run: what is known of their results, and, fault-free, which puts they amount to. */
  ghost predicate Ran(e: StorageEngine, s0: Store, items: seq<Item>, futures: set<nat>, ordered: seq<Option<seq<bool>>>,
                      done: set<nat>)
    reads e.client
  {
    && |ordered| == ChunkCount(items) && futures <= Range(0, |ordered|)
    && (forall i: nat :: i in done <==> i < |items| && i / BATCH_KEYS_CHUNK !in futures)
    && Collected(e.cfg, e.client.recs, items, futures, ordered)
    && (e.client.reliable && AllPlanned(e.cfg, items) ==>
          PutExactly(e.crc, e.cfg, s0, e.client.recs, items, false, done) && AllTrue(futures, ordered))
  }

  method RunChunk(e: StorageEngine, ghost s0: Store, items: seq<Item>, ghost futures: set<nat>,
                  ordered: seq<Option<seq<bool>>>, ghost done: set<nat>, idx: nat)
    returns (ordered': seq<Option<seq<bool>>>)
    requires DistinctKeys(items) && idx in futures && Ran(e, s0, items, futures, ordered, done)
    modifies e.client
    ensures Ran(e, s0, items, futures - {idx}, ordered', done + ChunkRange(items, idx))
  {
    ghost var s := e.client.recs;
    ChunkSlice(items, idx);
    ChunkDistinct(items, idx);
    var part := BatchedPut(e, Chunk(items, idx), false);
    forall c | 0 <= c < |ordered| && c !in futures && ordered[c].Some?
      ensures Truthful(e.cfg, e.client.recs, Chunk(items, c), ordered[c].value)
    {
      OtherChunkKept(e.cfg, s, e.client.recs, items, c, idx, ordered[c].value);
    }
    if e.client.reliable && AllPlanned(e.cfg, items) {
      ChunkPut(e, s0, s, e.client.recs, items, done, idx, part.value);
    }
    ordered' := ordered[idx := part];
  }

  /** The chunks of a store, each executed by `batched_put`, in any completion order. All of them run even
      if one has failed; None stands for the exception of a failed chunk. */
  method RunChunks(e: StorageEngine, items: seq<Item>) returns (ordered: seq<Option<seq<bool>>>)
    requires DistinctKeys(items)
    modifies e.client
    ensures |ordered| == ChunkCount(items) && Collected(e.cfg, e.client.recs, items, {}, ordered)
    ensures e.client.reliable && AllPlanned(e.cfg, items) ==>
              e.client.recs == PutAll(e.crc, e.cfg, old(e.client.recs), items, false) && AllTrue({}, ordered)
  {
    ghost var s0 := e.client.recs;
    var n := ChunkCount(items);
    ordered := seq(n, _ => None);
    var futures := Range(0, n);
    ghost var done: set<nat> := {};
    assert forall i: nat :: i < |items| ==> i / BATCH_KEYS_CHUNK < n;
    while futures != {}
      invariant Ran(e, s0, items, futures, ordered, done)
      decreases futures
    {
      var idx :| idx in futures;
      ordered := RunChunk(e, s0, items, futures, ordered, done, idx);
      futures := futures - {idx};
      done := done + ChunkRange(items, idx);
    }
    if e.client.reliable && AllPlanned(e.cfg, items) {
      assert done == Range(0, |items|);
      PutExactlyAll(e.crc, e.cfg, s0, e.client.recs, items, false);
    }
  }

  /** Puts the parts together in input order; a missing part is an exception. */
  method Collect(ghost e: StorageEngine, items: seq<Item>, ordered: seq<Option<seq<bool>>>)
    returns (r: Option<seq<bool>>)
    requires DistinctKeys(items) && |ordered| == ChunkCount(items)
    requires Collected(e.cfg, e.client.recs, items, {}, ordered)
    ensures r.Some? ==> Truthful(e.cfg, e.client.recs, items, r.value)
    ensures AllTrue({}, ordered) ==> r.Some? && OnlyTrue(r.value)
  {
    var out: seq<bool> := [];
    for c := 0 to |ordered|
      invariant Min(Lo(c), |items|) >= 0
      invariant Truthful(e.cfg, e.client.recs, items[..Min(Lo(c), |items|)], out)
      invariant AllTrue({}, ordered) ==> OnlyTrue(out)
    {
      if ordered[c].None? {
        return None;
      }
      ChunkSlice(items, c);
      TruthfulExtends(e.cfg, e.client.recs, e.client.recs, items, Lo(c), Min(Lo(c) + BATCH_KEYS_CHUNK, |items|), out,
                      ordered[c].value);
      out := out + ordered[c].value;
    }
    assert items[..|items|] == items;
    return Some(out);
  }

  datatype StoreResult = StoreResult(ok: bool, total: int)

  /** `_store_sync`: success means every pair was stored completely, and the total is then the sum of all
      sizes. Pairing stops at the shorter list. `flags` are the results of the chunks, None for an exception. */
  method StoreSync(e: StorageEngine, ks: seq<Key>, objs: seq<bytes>)
    returns (r: StoreResult, ghost flags: Option<seq<bool>>)
    requires DistinctKeys(Zip(ks, objs))
    modifies e.client
    ensures flags.None? ==> r == StoreResult(false, 0)
    ensures flags.Some? ==>
              && Truthful(e.cfg, e.client.recs, Zip(ks, objs), flags.value)
              && (r.ok <==> OnlyTrue(flags.value)) && r.total == FlaggedBytes(Zip(ks, objs), flags.value)
    ensures r.ok ==> forall i :: 0 <= i < |ks| && i < |objs| ==> Stored(e.cfg, e.client.recs, Item(ks[i], objs[i]))
    ensures r.ok ==> r.total == TotalBytes(Zip(ks, objs))
    ensures 0 <= r.total <= TotalBytes(Zip(ks, objs))
    ensures e.client.reliable && AllPlanned(e.cfg, Zip(ks, objs)) ==>
              r.ok && e.client.recs == PutAll(e.crc, e.cfg, old(e.client.recs), Zip(ks, objs), false)
  {
    var items := Zip(ks, objs);
    var ordered := RunChunks(e, items);
    var results := Collect(e, items, ordered);
    flags := results;
    TotalMono(items, |items|);
    if results.None? {
      return StoreResult(false, 0), flags;
    }
    r := Tally(items, results.value);
  }

  /** The success flag and the bytes of the items flagged true. */
  method Tally(items: seq<Item>, flags: seq<bool>) returns (r: StoreResult)
    requires |items| == |flags|
    ensures r.ok <==> forall i :: 0 <= i < |flags| ==> flags[i]
    ensures r.total == FlaggedBytes(items, flags)
    ensures 0 <= r.total <= TotalBytes(items) && (r.ok ==> r.total == TotalBytes(items))
  {
    var ok, total := true, 0;
    for i := 0 to |items|
      invariant ok <==> forall j :: 0 <= j < i ==> flags[j]
      invariant total == FlaggedBytes(items[..i], flags[..i])
      invariant 0 <= total <= TotalBytes(items[..i]) && (ok ==> total == TotalBytes(items[..i]))
    {
      assert items[..i + 1][..i] == items[..i] && flags[..i + 1][..i] == flags[..i];
      if !flags[i] {
        ok := false;
      } else {
        total := total + |items[i].payload|;
      }
    }
    assert items[..|items|] == items && flags[..|flags|] == flags;
    return StoreResult(ok, total);
  }

  /** The sizes of the items flagged true. */
  function FlaggedBytes(items: seq<Item>, flags: seq<bool>): int
    requires |items| == |flags|
  {
    if items == [] then 0
    else
      var n := |items| - 1;
      FlaggedBytes(items[..n], flags[..n]) + if flags[n] then |items[n].payload| else 0
  }

  function TotalBytes(items: seq<Item>): int {
    if items == [] then 0 else TotalBytes(items[..|items| - 1]) + |items[|items| - 1].payload|
  }

  lemma TotalMono(items: seq<Item>, n: nat)
    requires n <= |items|
    ensures TotalBytes(items[..n]) >= 0 && TotalBytes(items) >= 0
  {
    if n > 0 {
      assert items[..n][..n - 1] == items[..n - 1];
      TotalMono(items, n - 1);
    }
    if |items| > 0 {
      TotalMono(items[..|items| - 1], 0);
    }
  }
}
