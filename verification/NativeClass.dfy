/** The native connector's single-key calls, reading into and writing from a raw memory region. */
module NativeClass {
  import opened Common
  import opened Sharding
  import opened Limits
  import opened Records
  import opened Engine
  import opened Client
  import opened NativeSpec

  /** size_t subtraction. */
  function SizeSub(a: nat, b: nat): nat
    requires a < SIZE_T && b < SIZE_T
  {
    if a >= b then a - b else a + SIZE_T - b
  }

  /** The window of a segment lies in the buffer, without wrap-around, and holds its cut. */
  lemma WindowIsCut(buf: bytes, shard: ShardPlan, i: nat)
    requires ValidLayout(shard, |buf|) && shard.nseg > 1 && |buf| < SIZE_T && i < shard.nseg
    ensures i * shard.segB < |buf|
    ensures var len := Min(shard.segB, SizeSub(|buf|, i * shard.segB));
            i * shard.segB + len <= |buf| && buf[i * shard.segB..i * shard.segB + len] == Cut(buf, i, shard.segB)
  {
    CutLength(buf, shard, i);
  }

  /** Filling the window at `at` keeps what lies before it and after it. */
  lemma WindowFilled(before: bytes, after: bytes, lo: nat, at: nat, n: nat, hi: nat)
    requires |before| == |after| && lo <= at && at + n <= hi <= |before|
    requires after[..at] == before[..at] && after[at + n..] == before[at + n..]
    ensures after[..lo] == before[..lo] && after[hi..] == before[hi..]
    ensures after[lo..at + n] == before[lo..at] + after[at..at + n]
  {
    assert after[..lo] == after[..at][..lo] && before[..lo] == before[..at][..lo];
    assert after[hi..] == after[at + n..][hi - at - n..] && before[hi..] == before[at + n..][hi - at - n..];
    assert after[lo..at] == after[..at][lo..] && before[lo..at] == before[..at][lo..];
  }

  /** A segment of the right length takes the read one step further. */
  lemma GatherStep(segs: seq<Option<Bins>>, i: nat, acc: bytes, b: bytes, segB: nat, len: nat)
    requires i < |segs| && |acc| <= len && segs[i].Some? && segs[i].value.b == Some(b)
    requires |b| == Min(segB, len - |acc|)
    ensures NativeGather(segs, i, acc, segB, len) == NativeGather(segs, i + 1, acc + b, segB, len)
  {
  }

  /** The first so many segment writes of a set, and nothing else. */
  ghost predicate PartlySet(s: Store, s': Store, k: Key, p: bytes, plan: ShardPlan) {
    exists i: nat :: i <= plan.nseg && s' == NativeWriteSegs(s, k, p, plan.segB, i)
  }

  lemma {:induction false} NativeSegsFrame(s: Store, k: Key, p: bytes, segB: nat, n: nat)
    ensures var s' := NativeWriteSegs(s, k, p, segB, n);
            && SameElsewhere(s, s', k) && Lookup(s', MetaRec(k)) == Lookup(s, MetaRec(k))
            && (AllUsable(s) ==> AllUsable(s'))
  {
    if n > 0 {
      NativeSegsFrame(s, k, p, segB, n - 1);
    }
  }

  lemma PartlySetFrame(s: Store, s': Store, k: Key, p: bytes, plan: ShardPlan)
    requires PartlySet(s, s', k, p, plan)
    ensures SameElsewhere(s, s', k) && Lookup(s', MetaRec(k)) == Lookup(s, MetaRec(k))
    ensures AllUsable(s) ==> AllUsable(s')
  {
    var i: nat :| i <= plan.nseg && s' == NativeWriteSegs(s, k, p, plan.segB, i);
    NativeSegsFrame(s, k, p, plan.segB, i);
  }

  /** The meta record and the segments it announces, one at least. */
  function DeleteFootprint(s: Store, k: Key): set<UserKey> {
    {MetaRec(k)} + if MetaRec(k) in s then SegKeys(k, PositiveInt(s[MetaRec(k)].nseg, 1) % UINT32) else {}
  }

  class NativeConnector {
    const client: RecordStore
    const lim: NativeLimits

    constructor (client: RecordStore, lim: NativeLimits)
      ensures this.client == client && this.lim == lim
    {
      this.client, this.lim := client, lim;
    }

    /** `read_payload_record`: false unless the record is there with exactly `len` bytes. The region is
        `mem[at .. at + len]`. */
    method ReadPayloadRecord(u: UserKey, mem: array<byte>, at: nat, len: nat) returns (ok: bool)
      requires at + len <= mem.Length
      modifies mem
      ensures ok ==> u in client.recs && client.recs[u].b.Some? && |client.recs[u].b.value| == len
                     && mem[at..at + len] == client.recs[u].b.value
      ensures client.reliable ==>
                (ok <==> u in client.recs && client.recs[u].b.Some? && |client.recs[u].b.value| == len)
      ensures mem[..at] == old(mem[..at]) && mem[at + len..] == old(mem[at + len..])
      ensures !ok ==> mem[..] == old(mem[..])
    {
      var st, bins := client.Get(u);
      if !st.Done? || bins.b.None? || |bins.b.value| != len {
        return false;
      }
      forall j | 0 <= j < len {
        mem[at + j] := bins.b.value[j];
      }
      return true;
    }

    /** `do_single_get` into `mem[base .. base + len]`. Whatever the meta record says, the unsigned `len -
        offset` never wraps, and nothing outside the region is touched. */
    method DoSingleGet(k: Key, mem: array<byte>, base: nat, len: nat) returns (ok: bool)
      requires base + len <= mem.Length && len < SIZE_T
      modifies mem
      ensures mem[..base] == old(mem[..base]) && mem[base + len..] == old(mem[base + len..])
      ensures ok ==> var r := NativeGetStore(client.recs, k, len);
                     r.Ok? && |r.value| <= len && mem[base..base + |r.value|] == r.value
      ensures client.reliable ==> (ok <==> NativeGetStore(client.recs, k, len).Ok?)
    {
      var st, meta := client.Get(MetaRec(k));
      if !st.Done? || meta.state != Some(Ready) {
        return false;
      }
      var nseg := PositiveInt(meta.nseg, 1) % UINT32;
      var segB := PositiveInt(meta.segB, len) % SIZE_T;
      var total := PositiveInt(meta.totB, len) % SIZE_T;
      if total != len {
        return false;
      }
      if nseg == 1 {
        if meta.b.None? || |meta.b.value| != len {
          return false;
        }
        forall j | 0 <= j < len {
          mem[base + j] := meta.b.value[j];
        }
        return true;
      }
      ok := ReadSegments(k, mem, base, len, nseg, segB);
    }

    /** The segment at `offset` of the region. */
    method ReadNext(k: Key, mem: array<byte>, base: nat, len: nat, i: nat, segB: nat, offset: nat)
      returns (ok: bool, offset': nat)
      requires base + len <= mem.Length && len < SIZE_T && offset <= len
      modifies mem
      ensures mem[..base] == old(mem[..base]) && mem[base + len..] == old(mem[base + len..])
      ensures offset <= offset' <= len && offset' - offset <= Min(segB, len - offset)
      ensures ok ==> var rec := Lookup(client.recs, SegRec(k, i));
                     && rec.Some? && rec.value.b.Some?
                     && |rec.value.b.value| == Min(segB, len - offset) == offset' - offset
                     && mem[base..base + offset'] == old(mem[base..base + offset]) + rec.value.b.value
      ensures client.reliable && !ok ==> var rec := Lookup(client.recs, SegRec(k, i));
                rec.None? || rec.value.b.None? || |rec.value.b.value| != Min(segB, len - offset)
    {
      var chunkLen := Min(segB, SizeSub(len, offset));
      ghost var before := mem[..];
      ok := ReadPayloadRecord(SegRec(k, i), mem, base + offset, chunkLen);
      WindowFilled(before, mem[..], base, base + offset, chunkLen, base + len);
      offset' := offset + chunkLen;
    }

    method ReadSegments(k: Key, mem: array<byte>, base: nat, len: nat, nseg: nat, segB: nat) returns (ok: bool)
      requires base + len <= mem.Length && len < SIZE_T
      modifies mem
      ensures mem[..base] == old(mem[..base]) && mem[base + len..] == old(mem[base + len..])
      ensures ok ==> var r := NativeGather(SegReads(client.recs, k, nseg), 0, [], segB, len);
                     r.Ok? && |r.value| <= len && mem[base..base + |r.value|] == r.value
      ensures client.reliable ==> (ok <==> NativeGather(SegReads(client.recs, k, nseg), 0, [], segB, len).Ok?)
    {
      ghost var segs := SegReads(client.recs, k, nseg);
      var offset: nat := 0;
      assert mem[base..base] == [];
      for i := 0 to nseg
        invariant offset <= len
        invariant mem[..base] == old(mem[..base]) && mem[base + len..] == old(mem[base + len..])
        invariant NativeGather(segs, 0, [], segB, len) == NativeGather(segs, i, mem[base..base + offset], segB, len)
      {
        ghost var acc := mem[base..base + offset];
        ok, offset := ReadNext(k, mem, base, len, i, segB, offset);
        if !ok {
          return;
        }
        GatherStep(segs, i, acc, segs[i].value.b.value, segB, len);
      }
      return true;
    }

    method PutPayloadRecord(u: UserKey, chunk: bytes) returns (ok: bool)
      modifies client
      ensures ok ==> client.recs == Upsert(old(client.recs), u, NO_BINS.(b := Some(Raw(chunk))))
      ensures client.recs == old(client.recs)
              || client.recs == Upsert(old(client.recs), u, NO_BINS.(b := Some(Raw(chunk))))
      ensures client.reliable ==> ok
      ensures forall v :: v != u ==> Lookup(client.recs, v) == Lookup(old(client.recs), v)
      ensures u.SegRec? && AllUsable(old(client.recs)) ==> AllUsable(client.recs)
    {
      var st := client.Put(u, NO_BINS.(b := Some(Raw(chunk))));
      return st.Done?;
    }

    /** `do_single_set`: segment after segment, then the meta record. `len - start` never wraps. */
    method DoSingleSet(k: Key, buf: bytes) returns (ok: bool)
      requires Plannable(|buf|, lim)
      modifies client
      ensures ok ==> client.recs == NativeCommit(old(client.recs), k, buf, NativeLayout(|buf|, lim))
      ensures client.reliable ==> ok
      ensures SameElsewhere(old(client.recs), client.recs, k)
      ensures AllUsable(old(client.recs)) ==> AllUsable(client.recs)
      ensures Lookup(client.recs, MetaRec(k)) == Lookup(old(client.recs), MetaRec(k))
              || client.recs == NativeCommit(old(client.recs), k, buf, NativeLayout(|buf|, lim))
      // a set that fails has written the first so many segments and nothing else, or has stored everything
      ensures || PartlySet(old(client.recs), client.recs, k, buf, NativeLayout(|buf|, lim))
              || client.recs == NativeCommit(old(client.recs), k, buf, NativeLayout(|buf|, lim))
    {
      assert client.recs == NativeWriteSegs(client.recs, k, buf, NativeLayout(|buf|, lim).segB, 0);
      NativeLayoutIsValid(|buf|, lim);
      var shard := NativePlan(|buf|, lim.target, lim.max).value;
      if shard.nseg == 1 {
        var st := client.Put(MetaRec(k), NativeMeta(shard, |buf|, Some(Raw(buf))));
        return st.Done?;
      }
      var all := PutSegments(k, buf, shard);
      if !all {
        return false;
      }
      var st := client.Put(MetaRec(k), NativeMeta(shard, |buf|, None));
      return st.Done?;
    }

    method PutNext(k: Key, buf: bytes, shard: ShardPlan, i: nat) returns (ok: bool)
      requires ValidLayout(shard, |buf|) && shard.nseg > 1 && |buf| < SIZE_T && i < shard.nseg
      modifies client
      ensures var after := Upsert(old(client.recs), SegRec(k, i), NO_BINS.(b := Some(Raw(Cut(buf, i, shard.segB)))));
              client.recs == after || (!ok && client.recs == old(client.recs))
      ensures client.reliable ==> ok
    {
      WindowIsCut(buf, shard, i);
      var start := i * shard.segB;
      var chunkLen := Min(shard.segB, SizeSub(|buf|, start));
      ok := PutPayloadRecord(SegRec(k, i), buf[start..start + chunkLen]);
    }

    method PutSegments(k: Key, buf: bytes, shard: ShardPlan) returns (ok: bool)
      requires ValidLayout(shard, |buf|) && shard.nseg > 1 && |buf| < SIZE_T
      modifies client
      ensures ok ==> client.recs == NativeWriteSegs(old(client.recs), k, buf, shard.segB, shard.nseg)
      ensures client.reliable ==> ok
      ensures SameElsewhere(old(client.recs), client.recs, k)
      ensures AllUsable(old(client.recs)) ==> AllUsable(client.recs)
      ensures Lookup(client.recs, MetaRec(k)) == Lookup(old(client.recs), MetaRec(k))
      ensures PartlySet(old(client.recs), client.recs, k, buf, shard)
    {
      ghost var s0 := client.recs;
      assert s0 == NativeWriteSegs(s0, k, buf, shard.segB, 0);
      for i := 0 to shard.nseg
        invariant client.recs == NativeWriteSegs(s0, k, buf, shard.segB, i)
      {
        var one := PutNext(k, buf, shard, i);
        if !one {
          assert client.recs == NativeWriteSegs(s0, k, buf, shard.segB, i)
                 || client.recs == NativeWriteSegs(s0, k, buf, shard.segB, i + 1);
          PartlySetFrame(s0, client.recs, k, buf, shard);
          return false;
        }
      }
      PartlySetFrame(s0, client.recs, k, buf, shard);
      return true;
    }

    /** `do_single_delete`; None for a raised error. */
    method DoSingleDelete(k: Key) returns (r: Option<bool>)
      modifies client
      ensures client.reliable ==>
                && r == Some(NativeDeleteStore(old(client.recs), k).0)
                && client.recs == NativeDeleteStore(old(client.recs), k).1
      ensures r == Some(true) ==> MetaRec(k) !in client.recs
      ensures r == Some(false) ==> client.recs == old(client.recs) && MetaRec(k) !in client.recs
      // nothing is touched before the meta record is gone, and then only segments it may have announced
      ensures MetaRec(k) in client.recs ==> client.recs == old(client.recs)
      ensures forall u :: Lookup(client.recs, u) == Lookup(old(client.recs), u)
                          || (u !in client.recs && u in DeleteFootprint(old(client.recs), k))
      ensures SameElsewhere(old(client.recs), client.recs, k)
      ensures AllUsable(old(client.recs)) ==> AllUsable(client.recs)
    {
      var st, meta := client.Get(MetaRec(k));
      if st.NotFound? {
        return Some(false);
      }
      if !st.Done? {
        return None;
      }
      var nseg := PositiveInt(meta.nseg, 1) % UINT32;
      st := client.Remove(MetaRec(k));
      if st.NotFound? {
        return Some(false);
      }
      if !st.Done? {
        return None;
      }
      ghost var s1 := client.recs;
      for i := 0 to nseg
        invariant MetaRec(k) !in client.recs
        invariant SameElsewhere(s1, client.recs, k)
        invariant forall u :: Lookup(client.recs, u) == Lookup(s1, u) || (u !in client.recs && u in SegKeys(k, i))
        invariant client.reliable ==> client.recs == s1 - SegKeys(k, i)
      {
        st := client.Remove(SegRec(k, i));
        assert SegKeys(k, i + 1) == SegKeys(k, i) + {SegRec(k, i)};
      }
      return Some(true);
    }
  }
}
