/** Reading a run of keys: the connector gathers all gets and releases what follows the first failure, the
    storage plugin stops at the first miss. */
module Prefix {
  import opened Common
  import opened Records
  import opened Engine
  import opened Client
  import opened EngineClass
  import opened Sharding
  import opened Limits
  import opened RoundTrip
  import opened Sequential

  /** One entry of a gather that returns exceptions. */
  datatype Gathered = Buffer(mo: MemoryObj) | Nothing | Exc

  /** The leading hits of a key list on the current store. */
  ghost function HitRun(e: StorageEngine, ks: seq<Key>): (ps: seq<bytes>)
    reads e.client
  {
    if ks == [] || !e.GetSpec(ks[0], null).Hit? then []
    else [e.GetSpec(ks[0], null).data] + HitRun(e, ks[1..])
  }

  ghost predicate Starts(mo: MemoryObj, p: bytes)
    reads mo.data
  {
    |p| <= mo.data.Length && mo.data[..|p|] == p
  }

  /** The number of leading buffers. */
  function Leading(rs: seq<Gathered>): (n: nat)
    ensures n <= |rs| && forall i :: 0 <= i < n ==> rs[i].Buffer?
  {
    if rs == [] || !rs[0].Buffer? then 0 else 1 + Leading(rs[1..])
  }

  lemma {:induction false} LeadingIsMaximal(rs: seq<Gathered>, i: nat)
    requires i <= |rs| && forall j :: 0 <= j < i ==> rs[j].Buffer?
    requires i == |rs| || !rs[i].Buffer?
    ensures Leading(rs) == i
  {
    if i > 0 {
      LeadingIsMaximal(rs[1..], i - 1);
    }
  }

  ghost predicate DistinctObjs(rs: seq<Gathered>) {
    forall i, j :: 0 <= i < j < |rs| && rs[i].Buffer? && rs[j].Buffer? ==> rs[i].mo != rs[j].mo
  }

  ghost function Objs(rs: seq<Gathered>): set<object> {
    set i | 0 <= i < |rs| && rs[i].Buffer? :: rs[i].mo as object
  }

  /** The pass over the gathered results: the maximal prefix of buffers is returned untouched, every buffer
      after it is released exactly once. */
  method KeepPrefix(rs: seq<Gathered>) returns (objs: seq<MemoryObj>)
    requires DistinctObjs(rs)
    modifies Objs(rs)
    ensures |objs| == Leading(rs) <= |rs|
    ensures forall i :: 0 <= i < |objs| ==> rs[i] == Buffer(objs[i]) && objs[i].refs == old(objs[i].refs)
    ensures forall i :: |objs| <= i < |rs| && rs[i].Buffer? ==> rs[i].mo.refs == old(rs[i].mo.refs) - 1
  {
    objs := [];
    var foundFailure := false;
    for i := 0 to |rs|
      invariant |objs| <= i
      invariant !foundFailure ==> |objs| == i
      invariant foundFailure ==> |objs| < i && !rs[|objs|].Buffer?
      invariant forall j :: 0 <= j < |objs| ==> rs[j] == Buffer(objs[j]) && objs[j].refs == old(objs[j].refs)
      invariant forall j :: |objs| <= j < i && rs[j].Buffer? ==> rs[j].mo.refs == old(rs[j].mo.refs) - 1
      invariant forall j :: i <= j < |rs| && rs[j].Buffer? ==> rs[j].mo.refs == old(rs[j].mo.refs)
    {
      if foundFailure {
        if rs[i].Buffer? {
          assert rs[i].mo in Objs(rs);
          rs[i].mo.RefCountDown();
        }
      } else if rs[i].Buffer? {
        objs := objs + [rs[i].mo];
      } else {
        foundFailure := true;
      }
    }
    LeadingIsMaximal(rs, |objs|);
  }

  /** What a finished get leaves in the gather. */
  ghost predicate Fetched(e: StorageEngine, k: Key, g: Gathered)
    reads e.client, if g.Buffer? then {g.mo, g.mo.data} else {}
  {
    var out := e.GetSpec(k, null);
    && (g.Buffer? ==> g.mo.refs == 1 && out.Hit? && Starts(g.mo, out.data))
    && (e.client.reliable ==> (g.Buffer? <==> out.Hit?))
  }

  /** Whether a fault-free get of `k` ends in an exception. */
  ghost predicate Raises(e: StorageEngine, k: Key)
    reads e.client
  {
    var out := e.GetSpec(k, null);
    out.Raised? || out.RaisedReleased?
  }

  /** One get. `buf` is the buffer it took, if any: returned, or given back. */
  method FetchOne(e: StorageEngine, k: Key) returns (g: Gathered, ghost buf: MemoryObj?)
    ensures Fetched(e, k, g) && Accounted(e, g, buf)
    ensures e.client.reliable ==> (g.Exc? <==> Raises(e, k))
    ensures buf != null ==> fresh(buf) && fresh(buf.data)
  {
    var out, mo;
    ghost var rep;
    out, mo, buf, rep := e.Get(k, null);
    if mo != null {
      return Buffer(mo), buf;
    }
    g := if out.Raised? || out.RaisedReleased? || out.TimedOutReleased? then Exc else Nothing;
  }

  /** A buffer taken is the one returned or, as long as ready records are usable, has been given back. */
  ghost predicate Accounted(e: StorageEngine, g: Gathered, buf: MemoryObj?)
    reads e.client, if buf == null then {} else {buf}
  {
    && (g.Buffer? ==> buf == g.mo)
    && (!g.Buffer? && buf != null && AllUsable(e.client.recs) ==> buf.refs == 0)
  }

  ghost predicate DistinctBufs(bufs: seq<MemoryObj?>) {
    forall i, j :: 0 <= i < j < |bufs| && bufs[i] != null ==> bufs[i] != bufs[j]
  }

  /** The gets, finishing in any order. */
  method GatherGets(e: StorageEngine, ks: seq<Key>) returns (rs: seq<Gathered>, ghost bufs: seq<MemoryObj?>)
    ensures |rs| == |bufs| == |ks| && DistinctBufs(bufs)
    ensures forall i :: 0 <= i < |ks| ==> Fetched(e, ks[i], rs[i]) && Accounted(e, rs[i], bufs[i])
    ensures forall i :: 0 <= i < |bufs| && bufs[i] != null ==> fresh(bufs[i]) && fresh(bufs[i].data)
  {
    rs, bufs := seq(|ks|, _ => Nothing), seq(|ks|, _ => null);
    var pending := Range(0, |ks|);
    while pending != {}
      invariant |rs| == |bufs| == |ks| && DistinctBufs(bufs)
      invariant pending <= Range(0, |ks|) && forall i :: i in pending ==> rs[i] == Nothing && bufs[i] == null
      invariant forall i :: 0 <= i < |ks| && i !in pending ==> Fetched(e, ks[i], rs[i]) && Accounted(e, rs[i], bufs[i])
      invariant forall i :: 0 <= i < |bufs| && bufs[i] != null ==> fresh(bufs[i]) && fresh(bufs[i].data)
      decreases pending
    {
      var i :| i in pending;
      pending := pending - {i};
      var g;
      ghost var buf;
      g, buf := FetchOne(e, ks[i]);
      rs, bufs := rs[i := g], bufs[i := buf];
    }
  }

  /** The payloads of the leading keys, each of which a get hits. */
  ghost predicate Delivered(e: StorageEngine, ks: seq<Key>, objs: seq<MemoryObj>)
    reads e.client, set mo | mo in objs :: mo.data
  {
    && |objs| <= |ks|
    && forall i :: 0 <= i < |objs| ==> e.GetSpec(ks[i], null).Hit? && Starts(objs[i], e.GetSpec(ks[i], null).data)
  }

  /** The leading buffers. */
  ghost function LeadObjs(rs: seq<Gathered>): (objs: seq<MemoryObj>)
    ensures |objs| == Leading(rs) && forall i :: 0 <= i < |objs| ==> rs[i] == Buffer(objs[i])
  {
    if rs == [] || !rs[0].Buffer? then [] else [rs[0].mo] + LeadObjs(rs[1..])
  }

  lemma DeliverPrefix(e: StorageEngine, ks: seq<Key>, rs: seq<Gathered>)
    requires |rs| == |ks| && forall i :: 0 <= i < |ks| ==> Fetched(e, ks[i], rs[i])
    ensures Delivered(e, ks, LeadObjs(rs))
  {
  }

  lemma DeliverOne(e: StorageEngine, ks: seq<Key>, objs: seq<MemoryObj>, mo: MemoryObj)
    requires Delivered(e, ks, objs) && |objs| < |ks|
    requires e.GetSpec(ks[|objs|], null).Hit? && Starts(mo, e.GetSpec(ks[|objs|], null).data)
    ensures Delivered(e, ks, objs + [mo])
  {
  }

  /** Delivered, and as many as there are leading hits. */
  lemma {:induction false} DeliveredIsHitRun(e: StorageEngine, ks: seq<Key>, objs: seq<MemoryObj>)
    requires Delivered(e, ks, objs) && (|objs| < |ks| ==> !e.GetSpec(ks[|objs|], null).Hit?)
    ensures |objs| == |HitRun(e, ks)| && forall i :: 0 <= i < |objs| ==> Starts(objs[i], HitRun(e, ks)[i])
  {
    if objs != [] {
      assert forall i :: 0 <= i < |ks| - 1 ==> ks[1..][i] == ks[i + 1];
      assert forall i :: 0 <= i < |objs| - 1 ==> objs[1..][i] == objs[i + 1];
      DeliveredIsHitRun(e, ks[1..], objs[1..]);
    }
  }

  lemma {:induction false} LeadingEnds(rs: seq<Gathered>)
    ensures Leading(rs) < |rs| ==> !rs[Leading(rs)].Buffer?
  {
    if rs != [] && rs[0].Buffer? {
      LeadingEnds(rs[1..]);
    }
  }

  /** Without faults the first get that gives no buffer is one that does not hit. */
  lemma EndsAtMiss(e: StorageEngine, ks: seq<Key>, rs: seq<Gathered>)
    requires |rs| == |ks| && e.client.reliable && forall i :: 0 <= i < |ks| ==> Fetched(e, ks[i], rs[i])
    ensures Leading(rs) < |ks| ==> !e.GetSpec(ks[Leading(rs)], null).Hit?
  {
    LeadingEnds(rs);
  }

  /** Of all the buffers the gets took, each is returned or has been given back exactly once. */
  ghost predicate Conserved(objs: seq<MemoryObj>, bufs: seq<MemoryObj?>)
    reads set i | 0 <= i < |bufs| && bufs[i] != null :: bufs[i]
  {
    forall i :: 0 <= i < |bufs| && bufs[i] != null ==>
      if i < |objs| then bufs[i] == objs[i] && bufs[i].refs == 1 else bufs[i].refs == 0
  }

  /** The reference counts of what the gather produced, cut down to the leading buffers. */
  method ReleaseRest(e: StorageEngine, ks: seq<Key>, rs: seq<Gathered>, ghost bufs: seq<MemoryObj?>)
    returns (objs: seq<MemoryObj>)
    requires |rs| == |bufs| == |ks| && DistinctBufs(bufs)
    requires forall i :: 0 <= i < |ks| ==> Fetched(e, ks[i], rs[i]) && Accounted(e, rs[i], bufs[i])
    modifies Objs(rs)
    ensures objs == LeadObjs(rs) && forall i :: 0 <= i < |objs| ==> objs[i].refs == 1
    ensures forall i :: |objs| <= i < |rs| && rs[i].Buffer? ==> rs[i].mo.refs == 0
    ensures AllUsable(e.client.recs) ==> Conserved(objs, bufs)
  {
    assert forall i :: 0 <= i < |ks| && rs[i].Buffer? ==> bufs[i] == rs[i].mo && rs[i].mo.refs == 1;
    assert forall i :: 0 <= i < |ks| && bufs[i] != null && !rs[i].Buffer? ==> bufs[i] !in Objs(rs);
    objs := KeepPrefix(rs);
  }

  /** And the contents of those buffers. */
  method KeepGathered(e: StorageEngine, ks: seq<Key>, rs: seq<Gathered>, ghost bufs: seq<MemoryObj?>)
    returns (objs: seq<MemoryObj>)
    requires |rs| == |bufs| == |ks| && DistinctBufs(bufs)
    requires forall i :: 0 <= i < |ks| ==> Fetched(e, ks[i], rs[i]) && Accounted(e, rs[i], bufs[i])
    modifies Objs(rs)
    ensures objs == LeadObjs(rs) && forall i :: 0 <= i < |objs| ==> objs[i].refs == 1
    ensures forall i :: |objs| <= i < |rs| && rs[i].Buffer? ==> rs[i].mo.refs == 0
    ensures AllUsable(e.client.recs) ==> Conserved(objs, bufs)
    ensures Delivered(e, ks, objs)
  {
    DeliverPrefix(e, ks, rs);
    objs := ReleaseRest(e, ks, rs, bufs);
  }

  /** `batched_get_non_blocking` of the connector: exactly the payloads of the leading hits. Of all the buffers
      the gets took, `bufs`, each is returned or has been given back exactly once, whatever fails. */
  method ConnectorGet(e: StorageEngine, ks: seq<Key>)
    returns (objs: seq<MemoryObj>, ghost rs: seq<Gathered>, ghost bufs: seq<MemoryObj?>)
    ensures |rs| == |bufs| == |ks| && objs == LeadObjs(rs)
    ensures forall i :: 0 <= i < |objs| ==> fresh(objs[i]) && objs[i].refs == 1
    ensures forall i :: 0 <= i < |ks| && rs[i].Buffer? ==> bufs[i] == rs[i].mo
    ensures forall i :: |objs| <= i < |ks| && rs[i].Buffer? ==> rs[i].mo.refs == 0
    ensures AllUsable(e.client.recs) ==> Conserved(objs, bufs)
    ensures Delivered(e, ks, objs)
    ensures e.client.reliable ==>
              |objs| == |HitRun(e, ks)| && forall i :: 0 <= i < |objs| ==> Starts(objs[i], HitRun(e, ks)[i])
  {
    var results;
    results, bufs := GatherGets(e, ks);
    rs := results;
    if e.client.reliable {
      EndsAtMiss(e, ks, rs);
    }
    objs := KeepGathered(e, ks, results, bufs);
    if e.client.reliable {
      DeliveredIsHitRun(e, ks, objs);
    }
  }

  /** The loop so far: the gets performed all hit, and their buffers are in hand. */
  ghost predicate AllKept(objs: seq<MemoryObj>, taken: seq<MemoryObj?>)
    reads set mo | mo in objs
  {
    |taken| == |objs| && forall i :: 0 <= i < |objs| ==> taken[i] == objs[i] && objs[i].refs == 1
  }

  /** The get that ended the loop has given its buffer back, if it took one. */
  ghost predicate GivenBack(buf: MemoryObj?)
    reads if buf == null then {} else {buf}
  {
    buf != null ==> buf.refs == 0
  }

  /** How the loop has ended: `kept` are the buffers of the hits, `taken` those of all gets performed. */
  ghost predicate PluginEnded(e: StorageEngine, ks: seq<Key>, raised: bool, kept: seq<MemoryObj>,
                              taken: seq<MemoryObj?>)
    reads e.client, (set mo | mo in kept), set mo | mo in kept :: mo.data
    reads set i | 0 <= i < |taken| && taken[i] != null :: taken[i]
  {
    && Delivered(e, ks, kept) && |kept| <= |taken| <= |kept| + 1
    && |taken| <= |ks| && (|taken| == |kept| ==> !raised && |kept| == |ks|)
    && AllKept(kept, taken[..|kept|])
    && (AllUsable(e.client.recs) && |taken| > |kept| ==> GivenBack(taken[|kept|]))
  }

  /** The loop ends with a get that does not hit. */
  lemma LoopEnds(e: StorageEngine, ks: seq<Key>, raised: bool, objs: seq<MemoryObj>, before: seq<MemoryObj?>,
                 buf: MemoryObj?)
    requires |objs| < |ks| && Delivered(e, ks, objs) && AllKept(objs, before)
    requires AllUsable(e.client.recs) ==> GivenBack(buf)
    ensures PluginEnded(e, ks, raised, objs, before + [buf])
  {
    assert (before + [buf])[..|objs|] == before;
  }

  /** The storage plugin's loop: stop at the first miss; None if a get raises. What has been fetched is returned,
      but when a get raises it is dropped without being released. */
  method PluginLoop(e: StorageEngine, ks: seq<Key>)
    returns (r: Option<seq<MemoryObj>>, ghost kept: seq<MemoryObj>, ghost taken: seq<MemoryObj?>)
    ensures PluginEnded(e, ks, r.None?, kept, taken)
    ensures (r.Some? ==> r.value == kept) && forall mo :: mo in kept ==> fresh(mo)
    ensures e.client.reliable && |kept| < |ks| ==>
              !e.GetSpec(ks[|kept|], null).Hit? && (r.None? <==> Raises(e, ks[|kept|]))
  {
    var objs: seq<MemoryObj> := [];
    kept, taken := [], [];
    for i := 0 to |ks|
      invariant |objs| == i && kept == objs && AllKept(objs, taken) && Delivered(e, ks, objs)
      invariant forall j :: 0 <= j < i ==> fresh(objs[j]) && fresh(objs[j].data)
    {
      ghost var before := taken;
      var out, mo, buf, rep := e.Get(ks[i], null);
      taken := taken + [buf];
      if mo == null {
        LoopEnds(e, ks, out.Raised? || out.RaisedReleased? || out.TimedOutReleased?, objs, before, buf);
        r := if out.Raised? || out.RaisedReleased? || out.TimedOutReleased? then None else Some(objs);
        return;
      }
      DeliverOne(e, ks, objs, mo);
      objs := objs + [mo];
      kept := objs;
    }
    assert taken[..|kept|] == taken;
    return Some(objs), kept, taken;
  }

  /** The same in terms of the leading hits: it delivers the same payloads as the connector, unless the get that
      ends the run raises. */
  method PluginGet(e: StorageEngine, ks: seq<Key>)
    returns (r: Option<seq<MemoryObj>>, ghost kept: seq<MemoryObj>, ghost taken: seq<MemoryObj?>)
    ensures PluginEnded(e, ks, r.None?, kept, taken)
    ensures (r.Some? ==> r.value == kept) && forall mo :: mo in kept ==> fresh(mo)
    ensures e.client.reliable ==>
              && |kept| == |HitRun(e, ks)| && (forall i :: 0 <= i < |kept| ==> Starts(kept[i], HitRun(e, ks)[i]))
              && (r.None? <==> |kept| < |ks| && Raises(e, ks[|kept|]))
  {
    r, kept, taken := PluginLoop(e, ks);
    if e.client.reliable {
      DeliveredIsHitRun(e, ks, kept);
    }
  }

  /** `batched_get`: equal keys are fetched once and share the buffer, in the order asked for. The first get
      that raises ends the call: None. */
  method BatchedGet(e: StorageEngine, ks: seq<Key>) returns (r: Option<seq<Gathered>>)
    ensures r.Some? ==>
              |r.value| == |ks| && forall i :: 0 <= i < |ks| ==> Fetched(e, ks[i], r.value[i]) && !r.value[i].Exc?
    ensures r.Some? ==> forall i, j :: 0 <= i < |ks| && 0 <= j < |ks| && ks[i] == ks[j] ==> r.value[i] == r.value[j]
    ensures e.client.reliable ==> (r.None? <==> exists i :: 0 <= i < |ks| && Raises(e, ks[i]))
  {
    var fetched: map<Key, Gathered> := map[];
    for i := 0 to |ks|
      invariant forall k :: k in fetched ==> Fetched(e, k, fetched[k]) && !fetched[k].Exc?
      invariant forall j :: 0 <= j < i ==> ks[j] in fetched
      invariant forall k :: k in fetched && fetched[k].Buffer? ==> fresh(fetched[k].mo) && fresh(fetched[k].mo.data)
      invariant e.client.reliable ==> forall k :: k in fetched ==> !Raises(e, k)
    {
      if ks[i] !in fetched {
        var g, buf := FetchOne(e, ks[i]);
        if g.Exc? {
          assert e.client.reliable ==> Raises(e, ks[i]);
          return None;
        }
        fetched := fetched[ks[i] := g];
      }
    }
    return Some(seq(|ks|, i requires 0 <= i < |ks| => fetched[ks[i]]));
  }

  /** A run that drops a hit: the first key is readable, the second was overwritten without chunk metadata by a
      longer payload, so its get raises. */
  lemma DroppedHit(e: StorageEngine, k1: Key, k2: Key, p: bytes, p1: bytes, p2: bytes, nlim: NativeLimits)
    requires e.client.reliable && e.cfg.opts == Opts(false, true) && forall n :: e.free(n)
    requires k1 != k2 && |p1| < |p2| && Plan(|p|, e.cfg.lim).Ok? && Plan(|p1|, e.cfg.lim).Ok?
    requires ValidOps(DropOps(e.cfg, k1, k2, p, p1, p2, nlim))
    requires e.client.recs == Run(e.crc, map[], DropOps(e.cfg, k1, k2, p, p1, p2, nlim)).1
    ensures HitRun(e, [k1, k2]) == [p] && Raises(e, k2)
  {
    var s, ops := e.client.recs, DropOps(e.cfg, k1, k2, p, p1, p2, nlim);
    RunRefines(e.crc, map[], map[], ops);
    ThreeSteps(e.crc, map[], map[], ops[0], ops[1], ops[2]);
    assert ops == [ops[0], ops[1], ops[2]];
    var a := AbsRun(e.crc, map[], ops).1;
    assert a[k1] == Value(p, None, Some(|p|)) && a[k2] == Value(p2, None, Some(|p1|));
    assert RefinesAt(s, a, k1) && RefinesAt(s, a, k2);
    GetRefines(e.crc, s, a, k1, false, e.SourceOf(null, BinsOf(s, MetaRec(k1))));
    GetRefines(e.crc, s, a, k2, false, e.SourceOf(null, BinsOf(s, MetaRec(k2))));
    assert [k1, k2][1..] == [k2];
  }

  function DropOps(cfg: Config, k1: Key, k2: Key, p: bytes, p1: bytes, p2: bytes, nlim: NativeLimits): seq<Op> {
    [Put(k1, p, cfg, false), Put(k2, p1, cfg, false), NativeSet(k2, p2, nlim)]
  }

  // ---- batched_async_contains ----

  /** Pinning records that are there changes their pin bin and nothing else: no ghost appears. */
  lemma {:induction false} PinsOfPresentKeys(s: Store, ks: seq<Key>)
    requires forall i :: 0 <= i < |ks| ==> MetaRec(ks[i]) in s
    ensures PinKeysStore(s, ks).Keys == s.Keys
    ensures forall u :: u in s ==>
              PinKeysStore(s, ks)[u] == if u.MetaRec? && u.ck in ks then s[u].(pin := Some(true)) else s[u]
  {
    if ks != [] {
      PinsOfPresentKeys(s, ks[..|ks| - 1]);
      assert MetaRec(ks[|ks| - 1]) in s.Keys;
      assert ks == ks[..|ks| - 1] + [ks[|ks| - 1]];
    }
  }

  lemma {:induction false} ContainsPrefixPresent(s: Store, ks: seq<Key>)
    ensures ContainsPrefix(s, ks) <= |ks|
    ensures forall i :: 0 <= i < ContainsPrefix(s, ks) ==> MetaRec(ks[i]) in s
    ensures ContainsPrefix(s, ks) < |ks| ==> MetaRec(ks[ContainsPrefix(s, ks)]) !in s
  {
    if ks != [] {
      ContainsPrefixPresent(s, ks[1..]);
    }
  }

  /** Counts the leading present keys, all of them without faults, and, when asked to, pins exactly those. */
  method AsyncContains(e: StorageEngine, ks: seq<Key>, pin: bool) returns (count: nat)
    modifies e.client
    ensures count <= |ks| && forall i :: 0 <= i < count ==> MetaRec(ks[i]) in old(e.client.recs)
    ensures e.client.reliable && count < |ks| ==> MetaRec(ks[count]) !in old(e.client.recs)
    ensures e.client.reliable ==>
              && e.client.recs.Keys == old(e.client.recs).Keys
              && forall u :: u in e.client.recs ==>
                   e.client.recs[u]
                   == if pin && u.MetaRec? && u.ck in ks[..count] then old(e.client.recs)[u].(pin := Some(true))
                      else old(e.client.recs)[u]
    ensures forall u: UserKey :: !pin || u.SegRec? || u.ck !in ks[..count] ==>
              Lookup(e.client.recs, u) == Lookup(old(e.client.recs), u)
  {
    ghost var s := e.client.recs;
    count := e.BatchedContains(ks);
    ContainsPrefixPresent(s, ks);
    if pin && count > 0 {
      e.PinKeys(ks[..count]);
      PinsOfPresentKeys(s, ks[..count]);
    }
  }
}
