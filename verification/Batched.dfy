/** The chunked batch forms of put and get, against their one-key forms. */
module Batched {
  import opened Common
  import opened Sharding
  import opened Records
  import opened Engine
  import opened Client
  import opened RoundTrip
  import opened EngineClass

  const BATCH_KEYS_CHUNK := 32

  // ---- batched_put ----

  datatype Item = Item(k: Key, payload: bytes)

  predicate DistinctKeys(items: seq<Item>) {
    forall i, j :: 0 <= i < j < |items| ==> items[i].k != items[j].k
  }

  predicate AllPlanned(cfg: Config, items: seq<Item>) {
    forall i :: 0 <= i < |items| ==> Plan(|items[i].payload|, cfg.lim).Ok?
  }

  /** One put after the other. */
  function PutAll(crc: Crc, cfg: Config, s: Store, items: seq<Item>, pinned: bool): Store
    requires AllPlanned(cfg, items)
  {
    if items == [] then s
    else
      var n := |items| - 1;
      PutStore(crc, cfg, PutAll(crc, cfg, s, items[..n], pinned), items[n].k, items[n].payload, pinned).value
  }

  lemma {:induction false} PutAllConcat(crc: Crc, cfg: Config, s: Store, a: seq<Item>, b: seq<Item>, pinned: bool)
    requires AllPlanned(cfg, a) && AllPlanned(cfg, b)
    ensures AllPlanned(cfg, a + b)
    ensures PutAll(crc, cfg, s, a + b, pinned) == PutAll(crc, cfg, PutAll(crc, cfg, s, a, pinned), b, pinned)
  {
    if b == [] {
      assert a + b == a;
    } else {
      var n := |b| - 1;
      PutAllConcat(crc, cfg, s, a, b[..n], pinned);
      assert (a + b)[..|a + b| - 1] == a + b[..n];
    }
  }

  ghost predicate OwnedBy(items: seq<Item>, k: Key) {
    exists i :: 0 <= i < |items| && items[i].k == k
  }

  ghost predicate SameOutside(s: Store, s': Store, items: seq<Item>) {
    forall u: UserKey :: !OwnedBy(items, u.ck) ==> Lookup(s', u) == Lookup(s, u)
  }

  /** `s` holds the payload of item `i` under the planned layout. */
  ghost predicate Stored(cfg: Config, s: Store, it: Item) {
    Plan(|it.payload|, cfg.lim).Ok? && HoldsAs(s, it.k, it.payload, Plan(|it.payload|, cfg.lim).value)
  }

  lemma StoredByPut(crc: Crc, cfg: Config, s: Store, it: Item, pinned: bool)
    requires Plan(|it.payload|, cfg.lim).Ok?
    ensures Stored(cfg, PutStore(crc, cfg, s, it.k, it.payload, pinned).value, it)
    ensures SameElsewhere(s, PutStore(crc, cfg, s, it.k, it.payload, pinned).value, it.k)
  {
    PlanBounds(|it.payload|, cfg.lim);
    CommitHolds(crc, cfg.opts, s, it.k, it.payload, Plan(|it.payload|, cfg.lim).value, pinned);
  }

  /** The meta writes of a chunk in which every payload fits one record. */
  function InlineBatch(crc: Crc, cfg: Config, items: seq<Item>, pinned: bool): (ws: seq<KeyedWrite>)
    requires AllPlanned(cfg, items)
    ensures |ws| == |items|
    ensures forall i :: 0 <= i < |items| ==> ws[i] == KeyedWrite(MetaRec(items[i].k),
              MetaBins(crc, cfg.opts, Plan(|items[i].payload|, cfg.lim).value, items[i].payload, pinned))
  {
    if items == [] then []
    else
      var it := items[|items| - 1];
      InlineBatch(crc, cfg, items[..|items| - 1], pinned)
      + [KeyedWrite(MetaRec(it.k), MetaBins(crc, cfg.opts, Plan(|it.payload|, cfg.lim).value, it.payload, pinned))]
  }

  predicate AllInline(cfg: Config, items: seq<Item>)
    requires AllPlanned(cfg, items)
  {
    forall i :: 0 <= i < |items| ==> Plan(|items[i].payload|, cfg.lim).value.nseg <= 1
  }

  lemma {:induction false} AppliedInlineIsPutAll(crc: Crc, cfg: Config, s: Store, items: seq<Item>, pinned: bool,
                                                 ws: seq<KeyedWrite>, mask: seq<bool>, n: nat)
    requires n <= |items| == |ws| == |mask| && AllPlanned(cfg, items) && AllInline(cfg, items)
    requires forall i :: 0 <= i < |items| ==> ws[i] == KeyedWrite(MetaRec(items[i].k),
               MetaBins(crc, cfg.opts, Plan(|items[i].payload|, cfg.lim).value, items[i].payload, pinned))
    requires forall i :: 0 <= i < n ==> mask[i]
    ensures ApplyMask(s, ws, mask, n) == PutAll(crc, cfg, s, items[..n], pinned)
  {
    if n > 0 {
      AppliedInlineIsPutAll(crc, cfg, s, items, pinned, ws, mask, n - 1);
      assert items[..n][..n - 1] == items[..n - 1];
      PlanBounds(|items[n - 1].payload|, cfg.lim);
    }
  }

  /** An applied inline write is a complete put of its item. */
  lemma AppliedInlineIsStored(crc: Crc, cfg: Config, s: Store, items: seq<Item>, pinned: bool,
                              mask: seq<bool>, i: nat)
    requires DistinctKeys(items) && AllPlanned(cfg, items) && AllInline(cfg, items)
    requires i < |items| == |mask| && mask[i]
    ensures Stored(cfg, ApplyMask(s, InlineBatch(crc, cfg, items, pinned), mask, |items|), items[i])
  {
    var ws := InlineBatch(crc, cfg, items, pinned);
    ApplyMaskAt(s, ws, mask, |items|, i);
    PlanBounds(|items[i].payload|, cfg.lim);
  }

  /** Whatever is reported true is completely stored. */
  ghost predicate Truthful(cfg: Config, s: Store, items: seq<Item>, results: seq<bool>) {
    |results| == |items| && forall i :: 0 <= i < |items| && results[i] ==> Stored(cfg, s, items[i])
  }

  /** Fault-free: the same store as put after put, and all true. */
  ghost predicate PutInOrder(e: StorageEngine, s: Store, s': Store, items: seq<Item>, pinned: bool, results: seq<bool>)
  {
    && AllPlanned(e.cfg, items)
    && s' == PutAll(e.crc, e.cfg, s, items, pinned)
    && |results| == |items| && forall i :: 0 <= i < |results| ==> results[i]
  }

  lemma TruthfulExtends(cfg: Config, s: Store, s': Store, items: seq<Item>, lo: nat, hi: nat,
                        results: seq<bool>, part: seq<bool>)
    requires DistinctKeys(items) && lo <= hi <= |items|
    requires Truthful(cfg, s, items[..lo], results) && Truthful(cfg, s', items[lo..hi], part)
    requires SameOutside(s, s', items[lo..hi])
    ensures Truthful(cfg, s', items[..hi], results + part)
  {
  }

  lemma SameOutsideExtends(s0: Store, s: Store, s': Store, items: seq<Item>, lo: nat, hi: nat)
    requires lo <= hi <= |items|
    requires SameOutside(s0, s, items) && SameOutside(s, s', items[lo..hi])
    ensures SameOutside(s0, s', items)
  {
  }

  lemma InOrderExtends(e: StorageEngine, s0: Store, s: Store, s': Store, items: seq<Item>, lo: nat, hi: nat,
                       pinned: bool, results: seq<bool>, part: seq<bool>)
    requires lo <= hi <= |items|
    requires PutInOrder(e, s0, s, items[..lo], pinned, results)
    requires PutInOrder(e, s, s', items[lo..hi], pinned, part)
    ensures PutInOrder(e, s0, s', items[..hi], pinned, results + part)
  {
    PutAllConcat(e.crc, e.cfg, s0, items[..lo], items[lo..hi], pinned);
    assert items[..lo] + items[lo..hi] == items[..hi];
  }

  /** Plans everything before anything is written; None if some item cannot be planned. */
  method PlanItems(cfg: Config, items: seq<Item>) returns (multi: Option<bool>)
    ensures multi.Some? <==> AllPlanned(cfg, items)
    ensures multi.Some? ==> (multi.value <==> !AllInline(cfg, items))
  {
    var any := false;
    for i := 0 to |items|
      invariant forall j :: 0 <= j < i ==> Plan(|items[j].payload|, cfg.lim).Ok?
      invariant any <==> exists j :: 0 <= j < i && Plan(|items[j].payload|, cfg.lim).value.nseg > 1
    {
      var p := Plan(|items[i].payload|, cfg.lim);
      if p.Err? {
        return None;
      }
      any := any || p.value.nseg > 1;
    }
    return Some(any);
  }

  /** One batch write. An error of the call escapes; otherwise an item is flagged exactly if its own record was
      reported done, whatever happened to the others. */
  method PutInline(e: StorageEngine, items: seq<Item>, pinned: bool)
    returns (r: Option<seq<bool>>, ghost st: Status, ghost reports: seq<Status>)
    requires DistinctKeys(items) && AllPlanned(e.cfg, items) && AllInline(e.cfg, items)
    modifies e.client
    ensures r.Some? <==> st.Done?
    ensures r.Some? ==>
              |r.value| == |reports| == |items| && forall i :: 0 <= i < |items| ==> (r.value[i] <==> reports[i].Done?)
    ensures e.client.reliable ==>
              r.Some? && PutInOrder(e, old(e.client.recs), e.client.recs, items, pinned, r.value)
    ensures r.Some? ==> Truthful(e.cfg, e.client.recs, items, r.value)
    ensures SameOutside(old(e.client.recs), e.client.recs, items)
    ensures AllUsable(old(e.client.recs)) ==> AllUsable(e.client.recs)
  {
    ghost var s0 := e.client.recs;
    var writes := InlineBatch(e.crc, e.cfg, items, pinned);
    var status, results, mask := e.client.BatchWrite(writes);
    st, reports := status, results;
    if AllUsable(s0) {
      ApplyMaskKeepsUsable(s0, writes, mask, |writes|);
    }
    forall u: UserKey | !OwnedBy(items, u.ck) ensures Lookup(e.client.recs, u) == Lookup(s0, u) {
      assert !Owns(writes, u.ck);
    }
    if !status.Done? {
      return None, st, reports;
    }
    forall i | 0 <= i < |items| && mask[i] ensures Stored(e.cfg, e.client.recs, items[i]) {
      AppliedInlineIsStored(e.crc, e.cfg, s0, items, pinned, mask, i);
    }
    if e.client.reliable {
      AppliedInlineIsPutAll(e.crc, e.cfg, s0, items, pinned, writes, mask, |items|);
      assert items[..|items|] == items;
    }
    return Some(seq(|results|, i requires 0 <= i < |results| => results[i].Done?)), st, reports;
  }

  /** The next put of a chunk. */
  method PutNext(e: StorageEngine, ghost s0: Store, items: seq<Item>, i: nat, pinned: bool, ghost results: seq<bool>)
    returns (put: PutResult, ghost cause: Cause)
    requires DistinctKeys(items) && AllPlanned(e.cfg, items) && i < |items|
    requires PutSoFar(e, s0, e.client.recs, items, i, pinned, results)
    modifies e.client
    ensures put == Verdict(cause) && (e.client.reliable ==> put.PutOk?)
    ensures !put.PutFailed? ==> PutSoFar(e, s0, e.client.recs, items, i + 1, pinned, results + [put.PutOk?])
    ensures SameOutside(s0, e.client.recs, items) && (AllUsable(s0) ==> AllUsable(e.client.recs))
  {
    var it := items[i];
    ghost var s := e.client.recs;
    put, cause := e.Put(it.k, it.payload, pinned);
    assert items[i..i + 1] == [it] && OwnedBy([it], it.k);
    SameOutsideExtends(s0, s, e.client.recs, items, i, i + 1);
    if !put.PutFailed? {
      StoredByPut(e.crc, e.cfg, s, it, pinned);
      OnePutInOrder(e, s, it, pinned);
      PutChunkExtends(e, s0, s, e.client.recs, items, i, i + 1, pinned, results, [put.PutOk?]);
    }
  }

  /** Put after put. A refused put gives a false flag and the next one is tried; any other failure escapes. `causes` are
      the statuses that decided the puts. */
  method PutEach(e: StorageEngine, items: seq<Item>, pinned: bool)
    returns (r: Option<seq<bool>>, ghost causes: seq<Cause>)
    requires DistinctKeys(items) && AllPlanned(e.cfg, items)
    modifies e.client
    ensures r.Some? ==> |r.value| == |causes| == |items| && forall i :: 0 <= i < |items| ==>
              Verdict(causes[i]) == if r.value[i] then PutOk else PutRefused
    ensures r.None? ==> 0 < |causes| <= |items| && Verdict(causes[|causes| - 1]).PutFailed?
    ensures e.client.reliable ==>
              r.Some? && PutInOrder(e, old(e.client.recs), e.client.recs, items, pinned, r.value)
    ensures r.Some? ==> Truthful(e.cfg, e.client.recs, items, r.value)
    ensures SameOutside(old(e.client.recs), e.client.recs, items)
    ensures AllUsable(old(e.client.recs)) ==> AllUsable(e.client.recs)
  {
    ghost var s0 := e.client.recs;
    var results: seq<bool> := [];
    causes := [];
    for i := 0 to |items|
      invariant |causes| == |results| == i
      invariant forall j :: 0 <= j < i ==> Verdict(causes[j]) == if results[j] then PutOk else PutRefused
      invariant PutSoFar(e, s0, e.client.recs, items, i, pinned, results)
    {
      var put;
      ghost var cause;
      put, cause := PutNext(e, s0, items, i, pinned, results);
      causes := causes + [cause];
      if put.PutFailed? {
        return None, causes;
      }
      results := results + [put.PutOk?];
    }
    assert items[..|items|] == items;
    return Some(results), causes;
  }

  lemma OnePutInOrder(e: StorageEngine, s: Store, it: Item, pinned: bool)
    requires Plan(|it.payload|, e.cfg.lim).Ok?
    ensures PutInOrder(e, s, PutStore(e.crc, e.cfg, s, it.k, it.payload, pinned).value, [it], pinned, [true])
  {
  }

  /** The way a chunk has gone, with what the client reported. */
  datatype ChunkReport = Unplanned | Inline(st: Status, reports: seq<Status>) | Each(causes: seq<Cause>)

  ghost predicate FollowsReport(items: seq<Item>, r: Option<seq<bool>>, how: ChunkReport) {
    match how
    case Unplanned => r.None?
    case Inline(st, reports) =>
      && (r.Some? <==> st.Done?)
      && (r.Some? ==> |r.value| == |reports| == |items|
                      && forall i :: 0 <= i < |items| ==> (r.value[i] <==> reports[i].Done?))
    case Each(causes) =>
      && (r.Some? ==> |r.value| == |causes| == |items|
                      && forall i :: 0 <= i < |items| ==>
                           Verdict(causes[i]) == if r.value[i] then PutOk else PutRefused)
      && (r.None? ==> 0 < |causes| <= |items| && Verdict(causes[|causes| - 1]).PutFailed?)
  }

  /** One chunk: a batch write when every item is a single record, else put after put. None is an error
      that escapes. */
  method BatchedPutChunk(e: StorageEngine, items: seq<Item>, pinned: bool)
    returns (r: Option<seq<bool>>, ghost how: ChunkReport)
    requires DistinctKeys(items)
    modifies e.client
    ensures FollowsReport(items, r, how)
    ensures how.Unplanned? <==> !AllPlanned(e.cfg, items)
    ensures how.Inline? <==> AllPlanned(e.cfg, items) && AllInline(e.cfg, items)
    ensures e.client.reliable && AllPlanned(e.cfg, items) ==>
              r.Some? && PutInOrder(e, old(e.client.recs), e.client.recs, items, pinned, r.value)
    ensures r.Some? ==> Truthful(e.cfg, e.client.recs, items, r.value)
    ensures SameOutside(old(e.client.recs), e.client.recs, items)
    ensures AllUsable(old(e.client.recs)) ==> AllUsable(e.client.recs)
    ensures !AllPlanned(e.cfg, items) ==> r.None? && e.client.recs == old(e.client.recs)
  {
    var multi := PlanItems(e.cfg, items);
    if multi.None? {
      return None, Unplanned;
    }
    if multi.value {
      ghost var causes;
      r, causes := PutEach(e, items, pinned);
      how := Each(causes);
    } else {
      ghost var st, reports;
      r, st, reports := PutInline(e, items, pinned);
      how := Inline(st, reports);
    }
  }

  /** What the first `n` items have come to, from `s0` to `s`. */
  ghost predicate PutSoFar(e: StorageEngine, s0: Store, s: Store, items: seq<Item>, n: nat, pinned: bool,
                           results: seq<bool>)
    requires n <= |items|
  {
    && (e.client.reliable && AllPlanned(e.cfg, items) ==> PutInOrder(e, s0, s, items[..n], pinned, results))
    && Truthful(e.cfg, s, items[..n], results)
    && SameOutside(s0, s, items)
    && (AllUsable(s0) ==> AllUsable(s))
  }

  lemma PutChunkExtends(e: StorageEngine, s0: Store, s: Store, s': Store, items: seq<Item>, lo: nat, hi: nat,
                        pinned: bool, results: seq<bool>, part: seq<bool>)
    requires DistinctKeys(items) && lo <= hi <= |items|
    requires PutSoFar(e, s0, s, items, lo, pinned, results)
    requires e.client.reliable && AllPlanned(e.cfg, items) ==> PutInOrder(e, s, s', items[lo..hi], pinned, part)
    requires Truthful(e.cfg, s', items[lo..hi], part) && SameOutside(s, s', items[lo..hi])
    requires AllUsable(s) ==> AllUsable(s')
    ensures PutSoFar(e, s0, s', items, hi, pinned, results + part)
  {
    SameOutsideExtends(s0, s, s', items, lo, hi);
    TruthfulExtends(e.cfg, s, s', items, lo, hi, results, part);
    if e.client.reliable && AllPlanned(e.cfg, items) {
      InOrderExtends(e, s0, s, s', items, lo, hi, pinned, results, part);
    }
  }

  /** Chunks of 32. With no faults this is put after put; under any faults a reported true means that
      the item is completely stored. */
  method BatchedPut(e: StorageEngine, items: seq<Item>, pinned: bool) returns (r: Option<seq<bool>>)
    requires DistinctKeys(items)
    modifies e.client
    ensures e.client.reliable && AllPlanned(e.cfg, items) ==>
              r.Some? && PutInOrder(e, old(e.client.recs), e.client.recs, items, pinned, r.value)
    ensures r.Some? ==> Truthful(e.cfg, e.client.recs, items, r.value)
    ensures SameOutside(old(e.client.recs), e.client.recs, items)
    ensures AllUsable(old(e.client.recs)) ==> AllUsable(e.client.recs)
  {
    ghost var s0 := e.client.recs;
    var results: seq<bool> := [];
    var i := 0;
    while i < |items|
      invariant i <= |items| && PutSoFar(e, s0, e.client.recs, items, i, pinned, results)
    {
      var hi := Min(i + BATCH_KEYS_CHUNK, |items|);
      ghost var s := e.client.recs;
      var part, how := BatchedPutChunk(e, items[i..hi], pinned);
      SameOutsideExtends(s0, s, e.client.recs, items, i, hi);
      if part.None? {
        return None;
      }
      PutChunkExtends(e, s0, s, e.client.recs, items, i, hi, pinned, results, part.value);
      results := results + part.value;
      i := hi;
    }
    assert items[..|items|] == items;
    return Some(results);
  }
}
