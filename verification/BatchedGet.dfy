/** batched_get_preallocated: one batch read of meta records per chunk, single-record payloads copied on
    the spot, multi-segment keys read afterwards one by one. */
module BatchedGet {
  import opened Common
  import opened Records
  import opened Engine
  import opened Client
  import opened EngineClass
  import opened Batched

  datatype Load = Load(k: Key, mo: MemoryObj)

  /** All flags set; the flags so far; or an error that escapes to the caller. */
  datatype Ending = Completed | TimedOut | Escaped

  ghost predicate DistinctBuffers(items: seq<Load>) {
    forall i, j :: 0 <= i < j < |items| ==> items[i].mo != items[j].mo && items[i].mo.data != items[j].mo.data
  }

  ghost function Buffers(items: seq<Load>): set<object> {
    (set i | 0 <= i < |items| :: items[i].mo as object) + (set i | 0 <= i < |items| :: items[i].mo.data as object)
  }

  /** A buffer as a value. */
  datatype Buf = Buf(data: bytes, refs: int)

  ghost function View(mo: MemoryObj): Buf
    reads mo, mo.data
  {
    Buf(mo.data[..], mo.refs)
  }

  ghost function Contents(items: seq<Load>): (cs: seq<Buf>)
    reads (set it | it in items :: it.mo), set it | it in items :: it.mo.data
    ensures |cs| == |items| && forall i :: 0 <= i < |items| ==> cs[i] == View(items[i].mo)
  {
    if items == [] then [] else Contents(items[..|items| - 1]) + [View(items[|items| - 1].mo)]
  }

  /** What a one-key get into the item's buffer would do; whether its failure would not be caught here, as for a meta
      record without nseg or a multi-segment read that raises; whether it takes a segment read; and the reference
      count of the buffer before the call. */
  datatype Goal = Goal(out: GetOutcome, escapes: bool, later: bool, refs: int)

  ghost predicate IsGoal(e: StorageEngine, it: Load, g: Goal)
    reads e.client
  {
    var out := e.GetSpec(it.k, it.mo);
    && g.out == out
    && (g.escapes <==> out.Raised? || (out.RaisedReleased? && e.client.recs[MetaRec(it.k)].nseg != Some(1)))
    && (g.later <==> && IsReady(e.client.recs, it.k) && e.client.recs[MetaRec(it.k)].nseg.Some?
                     && e.client.recs[MetaRec(it.k)].nseg != Some(1))
  }

  ghost predicate Goals(e: StorageEngine, items: seq<Load>, goals: seq<Goal>)
    reads e.client
  {
    |goals| == |items| && forall i :: 0 <= i < |items| ==> IsGoal(e, items[i], goals[i])
  }

  ghost predicate SomeEscapes(goals: seq<Goal>) {
    exists i :: 0 <= i < |goals| && goals[i].escapes
  }

  /** The buffer starts with the payload a one-key get would deliver, and is still the caller's. */
  ghost predicate Loaded(g: Goal, c: Buf) {
    g.out.Hit? && g.out.data <= c.data && c.refs == g.refs
  }

  /** A buffer is released at most once, and only by a segment read. */
  ghost predicate Counted(g: Goal, c: Buf) {
    g.refs - (if g.later then 1 else 0) <= c.refs <= g.refs
  }

  /** The final flag of an item. Without faults, a segment read that misses has released the caller's buffer. */
  ghost predicate Settled(reliable: bool, g: Goal, c: Buf, flag: bool) {
    && (flag ==> Loaded(g, c)) && Counted(g, c)
    && (reliable ==> (flag <==> g.out.Hit?) && !g.escapes
                     && c.refs == g.refs - if g.later && !g.out.Hit? then 1 else 0)
  }

  /** A multi-segment item: no flag yet, and its exceptions would escape. */
  ghost predicate Deferred(g: Goal, c: Buf, flag: bool) {
    !flag && g.later && (g.out.RaisedReleased? ==> g.escapes) && c.refs == g.refs
  }

  /** Whatever is flagged has been loaded, and no buffer has been released twice. */
  ghost predicate FlagsRight(flags: seq<bool>, cs: seq<Buf>, goals: seq<Goal>) {
    && |flags| == |cs| == |goals|
    && forall i :: 0 <= i < |flags| ==> Counted(goals[i], cs[i]) && (flags[i] ==> Loaded(goals[i], cs[i]))
  }

  /** Item `i` is queued at position `from` or later. */
  ghost predicate Pending(multi: seq<nat>, from: nat, i: nat) {
    exists m :: from <= m < |multi| && multi[m] == i
  }

  /** A chunk under way: of the first `n` items each is queued or settled, the others have no flag. */
  ghost predicate UnderWay(reliable: bool, flags: seq<bool>, cs: seq<Buf>, goals: seq<Goal>, multi: seq<nat>,
                           from: nat, n: nat)
  {
    && |flags| == |cs| == |goals| && n <= |goals|
    && (forall m, m' :: from <= m < m' < |multi| ==> multi[m] != multi[m'])
    && (forall m :: from <= m < |multi| ==> multi[m] < n && Deferred(goals[multi[m]], cs[multi[m]], flags[multi[m]]))
    && (forall i: nat :: i < n && !Pending(multi, from, i) ==> Settled(reliable, goals[i], cs[i], flags[i]))
    && (forall i :: n <= i < |goals| ==> !flags[i] && cs[i].refs == goals[i].refs)
  }

  lemma UnderWayFlags(reliable: bool, flags: seq<bool>, cs: seq<Buf>, goals: seq<Goal>, multi: seq<nat>, from: nat,
                      n: nat)
    requires UnderWay(reliable, flags, cs, goals, multi, from, n)
    ensures FlagsRight(flags, cs, goals)
  {
    forall i: nat | i < |goals| && Pending(multi, from, i) ensures Deferred(goals[i], cs[i], flags[i]) {
    }
  }

  /** The next item of the first pass is settled. */
  lemma SettleStep(reliable: bool, flags: seq<bool>, cs: seq<Buf>, goals: seq<Goal>, multi: seq<nat>, j: nat,
                   c: Buf, flag: bool)
    requires j < |goals| && UnderWay(reliable, flags, cs, goals, multi, 0, j)
    requires Settled(reliable, goals[j], c, flag)
    ensures UnderWay(reliable, flags[j := flag], cs[j := c], goals, multi, 0, j + 1)
  {
  }

  /** The next item of the first pass is queued. */
  lemma DeferStep(reliable: bool, flags: seq<bool>, cs: seq<Buf>, goals: seq<Goal>, multi: seq<nat>, j: nat, c: Buf)
    requires j < |goals| && UnderWay(reliable, flags, cs, goals, multi, 0, j) && Deferred(goals[j], c, false)
    ensures UnderWay(reliable, flags[j := false], cs[j := c], goals, multi + [j], 0, j + 1)
  {
    var multi' := multi + [j];
    assert multi'[|multi|] == j;
    forall i: nat | i < j + 1 && !Pending(multi', 0, i)
      ensures Settled(reliable, goals[i], cs[j := c][i], flags[j := false][i])
    {
      forall m | 0 <= m < |multi| ensures multi[m] != i {
        assert multi'[m] == multi[m];
      }
    }
  }

  /** The next queued item of the second pass is settled. */
  lemma LoadStep(reliable: bool, flags: seq<bool>, cs: seq<Buf>, goals: seq<Goal>, multi: seq<nat>, m: nat, n: nat,
                 c: Buf, flag: bool)
    requires m < |multi| && UnderWay(reliable, flags, cs, goals, multi, m, n)
    requires Settled(reliable, goals[multi[m]], c, flag)
    ensures UnderWay(reliable, flags[multi[m] := flag], cs[multi[m] := c], goals, multi, m + 1, n)
  {
    var j := multi[m];
    forall i: nat | i < n && i != j && !Pending(multi, m + 1, i) ensures !Pending(multi, m, i) {
    }
  }

  /** The get of the next queued item fails, whatever it has left in the buffer. */
  lemma FailStep(reliable: bool, flags: seq<bool>, cs: seq<Buf>, goals: seq<Goal>, multi: seq<nat>, m: nat, n: nat,
                 c: Buf)
    requires m < |multi| && UnderWay(reliable, flags, cs, goals, multi, m, n) && Counted(goals[multi[m]], c)
    ensures FlagsRight(flags, cs[multi[m] := c], goals)
  {
    UnderWayFlags(reliable, flags, cs, goals, multi, m, n);
    assert !flags[multi[m]];
  }

  /** The next item of the first pass makes the call escape. */
  lemma EscapeStep(reliable: bool, flags: seq<bool>, cs: seq<Buf>, goals: seq<Goal>, multi: seq<nat>, j: nat, c: Buf)
    requires j < |goals| && UnderWay(reliable, flags, cs, goals, multi, 0, j) && c.refs == goals[j].refs
    ensures FlagsRight(flags, cs[j := c], goals)
  {
    UnderWayFlags(reliable, flags, cs, goals, multi, 0, j);
  }

  // ---- One item ----

  method CopyInline(e: StorageEngine, it: Load, bins: Bins) returns (hit: bool)
    requires MetaRec(it.k) in e.client.recs && bins == e.client.recs[MetaRec(it.k)]
    requires bins.state == Some(Ready) && bins.nseg == Some(1)
    modifies it.mo.data
    ensures hit <==> e.GetSpec(it.k, it.mo).Hit?
    ensures hit ==> e.GetSpec(it.k, it.mo).data <= it.mo.data[..]
  {
    if bins.b.None? {
      return false;
    }
    var ok := WritePayloadInto(it.mo, bins.b.value, 0);
    if !ok {
      return false;
    }
    var data := it.mo.data[..|bins.b.value|];
    assert data == bins.b.value;
    if e.cfg.opts.crcOn && bins.crc32.Some? && e.crc(data) != bins.crc32.value {
      return false;
    }
    return true;
  }

  datatype Triage = Settle | Defer | Escape

  /** One record of the batch read. */
  method TriageOne(e: StorageEngine, it: Load, rec: Option<Bins>, ghost g: Goal) returns (t: Triage, flag: bool)
    requires rec.Some? || e.client.reliable ==> rec == Lookup(e.client.recs, MetaRec(it.k))
    requires IsGoal(e, it, g) && it.mo.refs == g.refs
    modifies it.mo.data
    ensures t.Settle? ==> Settled(e.client.reliable, g, View(it.mo), flag)
    ensures t.Defer? ==> Deferred(g, View(it.mo), flag)
    ensures t.Escape? ==> g.escapes && !flag
  {
    if rec.None? || rec.value.state != Some(Ready) {
      return Settle, false;
    }
    if rec.value.nseg.None? {
      return Escape, false;
    }
    if rec.value.nseg.value != 1 {
      return Defer, false;
    }
    flag := CopyInline(e, it, rec.value);
    return Settle, flag;
  }

  /** How a deferred get ends the pass, if it does. */
  function EndOf(out: GetOutcome): Ending {
    if out.TimedOutReleased? then TimedOut else if out.Raised? || out.RaisedReleased? then Escaped else Completed
  }

  /** A deferred key. A timeout of its segment read is not handled by `get`. */
  method LoadOne(e: StorageEngine, it: Load, ghost g: Goal) returns (end: Ending, flag: bool, ghost rep: Report)
    requires IsGoal(e, it, g) && Deferred(g, View(it.mo), false)
    modifies it.mo, it.mo.data
    ensures e.Reported(it.k, rep) && end == EndOf(e.OutcomeOf(it.k, it.mo, rep))
    ensures flag <==> e.OutcomeOf(it.k, it.mo, rep).Hit?
    ensures end.Completed? ==> Settled(e.client.reliable, g, View(it.mo), flag)
    ensures !end.Completed? ==> !flag && Counted(g, View(it.mo))
    ensures e.client.reliable ==> !end.TimedOut? && (end.Escaped? ==> g.escapes)
  {
    var out, mo;
    ghost var buf;
    out, mo, buf, rep := e.Get(it.k, it.mo);
    if out.TimedOutReleased? {
      return TimedOut, false, rep;
    }
    if out.Raised? || out.RaisedReleased? {
      return Escaped, false, rep;
    }
    return Completed, mo != null, rep;
  }

  // ---- One chunk ----

  /** The flags of a chunk within the result list. */
  function Window(results: seq<bool>, offset: nat, n: nat): seq<bool>
    requires offset + n <= |results|
  {
    results[offset..offset + n]
  }

  /** Outside its window a chunk leaves the flags alone. */
  predicate SameAround(before: seq<bool>, after: seq<bool>, offset: nat, n: nat) {
    && |before| == |after| && offset + n <= |before|
    && before[..offset] == after[..offset] && before[offset + n..] == after[offset + n..]
  }

  lemma WindowUpdate(results: seq<bool>, offset: nat, n: nat, j: nat, flag: bool)
    requires offset + n <= |results| && j < n
    ensures Window(results[offset + j := flag], offset, n) == Window(results, offset, n)[j := flag]
    ensures SameAround(results, results[offset + j := flag], offset, n)
  {
  }

  /** Other items' buffers are not touched. */
  lemma ContentsUpdate(items: seq<Load>, before: seq<Buf>, j: nat)
    requires |before| == |items| && j < |items|
    requires forall i :: 0 <= i < |items| && i != j ==> View(items[i].mo) == before[i]
    ensures Contents(items) == before[j := View(items[j].mo)]
  {
  }

  /** The chunk's part of the state: a function of the flags and of the buffers. */
  ghost predicate Going(e: StorageEngine, items: seq<Load>, results: array<bool>, offset: nat, goals: seq<Goal>,
                        multi: seq<nat>, from: nat, n: nat)
    requires offset + |items| <= results.Length
    reads results, (set it | it in items :: it.mo), set it | it in items :: it.mo.data
  {
    UnderWay(e.client.reliable, Window(results[..], offset, |items|), Contents(items), goals, multi, from, n)
  }

  ghost predicate Right(items: seq<Load>, results: array<bool>, offset: nat, goals: seq<Goal>)
    requires offset + |items| <= results.Length
    reads results, (set it | it in items :: it.mo), set it | it in items :: it.mo.data
  {
    FlagsRight(Window(results[..], offset, |items|), Contents(items), goals)
  }

  /** Stores the flag of item `j`. */
  method PutFlag(ghost e: StorageEngine, ghost items: seq<Load>, results: array<bool>, offset: nat, j: nat, flag: bool,
                 ghost goals: seq<Goal>, ghost multi: seq<nat>, ghost from: nat, ghost n: nat)
    requires j < |items| && offset + |items| <= results.Length
    requires UnderWay(e.client.reliable, Window(results[..], offset, |items|)[j := flag], Contents(items), goals, multi,
                      from, n)
    modifies results
    ensures SameAround(old(results[..]), results[..], offset, |items|)
    ensures Going(e, items, results, offset, goals, multi, from, n)
  {
    WindowUpdate(results[..], offset, |items|, j, flag);
    results[offset + j] := flag;
  }

  /** One record, and what it does to the buffers. */
  method TriageItem(e: StorageEngine, items: seq<Load>, rec: Option<Bins>, j: nat, ghost g: Goal)
    returns (t: Triage, flag: bool)
    requires DistinctBuffers(items) && j < |items| && IsGoal(e, items[j], g) && items[j].mo.refs == g.refs
    requires rec.Some? || e.client.reliable ==> rec == Lookup(e.client.recs, MetaRec(items[j].k))
    modifies items[j].mo.data
    ensures Contents(items) == old(Contents(items))[j := View(items[j].mo)] && items[j].mo.refs == g.refs
    ensures t.Settle? ==> Settled(e.client.reliable, g, View(items[j].mo), flag)
    ensures t.Defer? ==> Deferred(g, View(items[j].mo), flag)
    ensures t.Escape? ==> g.escapes && !flag
  {
    ghost var before := Contents(items);
    assert forall i :: 0 <= i < |items| && i != j ==> items[i].mo.data != items[j].mo.data;
    t, flag := TriageOne(e, items[j], rec, g);
    ContentsUpdate(items, before, j);
  }

  /** One record of the first pass. */
  method TriageNext(e: StorageEngine, items: seq<Load>, rec: Option<Bins>, results: array<bool>, offset: nat,
                    multi: seq<nat>, j: nat, ghost goals: seq<Goal>)
    returns (ok: bool, multi': seq<nat>)
    requires DistinctBuffers(items) && j < |items| && offset + |items| <= results.Length
    requires rec.Some? || e.client.reliable ==> rec == Lookup(e.client.recs, MetaRec(items[j].k))
    requires |goals| == |items| && IsGoal(e, items[j], goals[j])
    requires Going(e, items, results, offset, goals, multi, 0, j)
    modifies results, items[j].mo.data
    ensures SameAround(old(results[..]), results[..], offset, |items|)
    ensures ok ==> Going(e, items, results, offset, goals, multi', 0, j + 1)
    ensures !ok ==> Right(items, results, offset, goals) && goals[j].escapes
  {
    ghost var r := e.client.reliable;
    ghost var flags, cs := Window(results[..], offset, |items|), Contents(items);
    var t, flag := TriageItem(e, items, rec, j, goals[j]);
    if t.Escape? {
      EscapeStep(r, flags, cs, goals, multi, j, View(items[j].mo));
      return false, multi;
    }
    if t.Defer? {
      assert UnderWay(r, flags[j := flag], cs[j := View(items[j].mo)], goals, multi + [j], 0, j + 1) by {
        DeferStep(r, flags, cs, goals, multi, j, View(items[j].mo));
      }
      PutFlag(e, items, results, offset, j, flag, goals, multi + [j], 0, j + 1);
      return true, multi + [j];
    }
    assert UnderWay(r, flags[j := flag], cs[j := View(items[j].mo)], goals, multi, 0, j + 1) by {
      SettleStep(r, flags, cs, goals, multi, j, View(items[j].mo), flag);
    }
    PutFlag(e, items, results, offset, j, flag, goals, multi, 0, j + 1);
    return true, multi;
  }

  /** First pass over the records of the batch read. */
  method TriageAll(e: StorageEngine, items: seq<Load>, rs: seq<Option<Bins>>, results: array<bool>, offset: nat,
                   ghost goals: seq<Goal>)
    returns (ok: bool, multi: seq<nat>)
    requires DistinctBuffers(items) && offset + |items| <= results.Length && |rs| == |items| && Goals(e, items, goals)
    requires Going(e, items, results, offset, goals, [], 0, 0)
    requires forall i :: 0 <= i < |items| && (rs[i].Some? || e.client.reliable) ==>
               rs[i] == Lookup(e.client.recs, MetaRec(items[i].k))
    modifies results, Buffers(items)
    ensures SameAround(old(results[..]), results[..], offset, |items|)
    ensures ok ==> Going(e, items, results, offset, goals, multi, 0, |items|)
    ensures !ok ==> Right(items, results, offset, goals) && SomeEscapes(goals)
  {
    multi := [];
    for j := 0 to |items|
      invariant SameAround(old(results[..]), results[..], offset, |items|)
      invariant Going(e, items, results, offset, goals, multi, 0, j)
    {
      assert items[j].mo.data in Buffers(items);
      ok, multi := TriageNext(e, items, rs[j], results, offset, multi, j, goals);
      if !ok {
        return;
      }
    }
    return true, multi;
  }

  /** One get, and what it does to the buffers. */
  method LoadItem(e: StorageEngine, items: seq<Load>, j: nat, ghost g: Goal) returns (end: Ending, flag: bool)
    requires DistinctBuffers(items) && j < |items| && IsGoal(e, items[j], g) && Deferred(g, View(items[j].mo), false)
    modifies items[j].mo, items[j].mo.data
    ensures Contents(items) == old(Contents(items))[j := View(items[j].mo)]
    ensures end.Completed? ==> Settled(e.client.reliable, g, View(items[j].mo), flag)
    ensures !end.Completed? ==> !flag && Counted(g, View(items[j].mo))
    ensures e.client.reliable ==> !end.TimedOut? && (end.Escaped? ==> g.escapes)
  {
    ghost var before := Contents(items);
    ghost var rep;
    assert forall i :: 0 <= i < |items| && i != j ==>
             items[i].mo.data != items[j].mo.data && items[i].mo != items[j].mo;
    end, flag, rep := LoadOne(e, items[j], g);
    ContentsUpdate(items, before, j);
  }

  /** One deferred key. */
  method LoadNext(e: StorageEngine, items: seq<Load>, results: array<bool>, offset: nat, multi: seq<nat>, m: nat,
                  ghost goals: seq<Goal>)
    returns (end: Ending)
    requires DistinctBuffers(items) && offset + |items| <= results.Length && Goals(e, items, goals)
    requires m < |multi| && Going(e, items, results, offset, goals, multi, m, |items|)
    modifies results, items[multi[m]].mo, items[multi[m]].mo.data
    ensures SameAround(old(results[..]), results[..], offset, |items|)
    ensures end.Completed? ==> Going(e, items, results, offset, goals, multi, m + 1, |items|)
    ensures !end.Completed? ==> Right(items, results, offset, goals)
    ensures e.client.reliable ==> !end.TimedOut? && (end.Escaped? ==> SomeEscapes(goals))
  {
    var j := multi[m];
    ghost var r := e.client.reliable;
    ghost var flags, cs := Window(results[..], offset, |items|), Contents(items);
    var flag;
    end, flag := LoadItem(e, items, j, goals[j]);
    if !end.Completed? {
      assert FlagsRight(flags, cs[j := View(items[j].mo)], goals) by {
        FailStep(r, flags, cs, goals, multi, m, |items|, View(items[j].mo));
      }
      assert SomeEscapes(goals) || !goals[j].escapes;
      return;
    }
    LoadStep(r, flags, cs, goals, multi, m, |items|, View(items[j].mo), flag);
    PutFlag(e, items, results, offset, j, flag, goals, multi, m + 1, |items|);
  }

  /** Second pass: one get per deferred key. However it ends, the flags are right. */
  method LoadDeferred(e: StorageEngine, items: seq<Load>, results: array<bool>, offset: nat, multi: seq<nat>,
                      ghost goals: seq<Goal>)
    returns (end: Ending)
    requires DistinctBuffers(items) && offset + |items| <= results.Length && Goals(e, items, goals)
    requires Going(e, items, results, offset, goals, multi, 0, |items|)
    modifies results, Buffers(items)
    ensures SameAround(old(results[..]), results[..], offset, |items|)
    ensures end.Completed? ==> Going(e, items, results, offset, goals, multi, |multi|, |items|)
    ensures !end.Completed? ==> Right(items, results, offset, goals)
    ensures e.client.reliable ==> !end.TimedOut? && (end.Escaped? ==> SomeEscapes(goals))
  {
    for m := 0 to |multi|
      invariant SameAround(old(results[..]), results[..], offset, |items|)
      invariant Going(e, items, results, offset, goals, multi, m, |items|)
    {
      assert multi[m] < |items|;
      assert items[multi[m]].mo in Buffers(items) && items[multi[m]].mo.data in Buffers(items);
      end := LoadNext(e, items, results, offset, multi, m, goals);
      if !end.Completed? {
        return;
      }
    }
    return Completed;
  }

  /** Every flag of the chunk is final. */
  ghost predicate AllSettled(e: StorageEngine, items: seq<Load>, results: array<bool>, offset: nat, goals: seq<Goal>)
    requires offset + |items| <= results.Length && |goals| == |items|
    reads results, (set it | it in items :: it.mo), set it | it in items :: it.mo.data
  {
    forall i :: 0 <= i < |items| ==>
      Settled(e.client.reliable, goals[i], View(items[i].mo), results[offset + i])
  }

  lemma GoingEnds(e: StorageEngine, items: seq<Load>, results: array<bool>, offset: nat, goals: seq<Goal>,
                  multi: seq<nat>)
    requires offset + |items| <= results.Length && |goals| == |items|
    requires Going(e, items, results, offset, goals, multi, |multi|, |items|)
    ensures AllSettled(e, items, results, offset, goals)
  {
    forall i | 0 <= i < |items|
      ensures Settled(e.client.reliable, goals[i], View(items[i].mo), results[offset + i])
    {
      assert !Pending(multi, |multi|, i) && Window(results[..], offset, |items|)[i] == results[offset + i];
    }
  }

  lemma SettledIsRight(e: StorageEngine, items: seq<Load>, results: array<bool>, offset: nat, goals: seq<Goal>)
    requires offset + |items| <= results.Length && |goals| == |items|
    requires AllSettled(e, items, results, offset, goals)
    ensures Right(items, results, offset, goals)
  {
  }

  /** Before a chunk starts. */
  lemma NothingYet(e: StorageEngine, items: seq<Load>, results: array<bool>, offset: nat, goals: seq<Goal>)
    requires offset + |items| <= results.Length && |goals| == |items|
    requires forall i :: offset <= i < offset + |items| ==> !results[i]
    requires forall i :: 0 <= i < |items| ==> items[i].mo.refs == goals[i].refs
    ensures Going(e, items, results, offset, goals, [], 0, 0) && Right(items, results, offset, goals)
  {
    assert forall i :: 0 <= i < |items| ==> Window(results[..], offset, |items|)[i] == results[offset + i];
  }

  /** Both passes over the records of the batch read. */
  method LoadRecords(e: StorageEngine, items: seq<Load>, rs: seq<Option<Bins>>, results: array<bool>, offset: nat,
                     ghost goals: seq<Goal>)
    returns (end: Ending)
    requires DistinctBuffers(items) && offset + |items| <= results.Length && |rs| == |items| && Goals(e, items, goals)
    requires Going(e, items, results, offset, goals, [], 0, 0)
    requires forall i :: 0 <= i < |items| && (rs[i].Some? || e.client.reliable) ==>
               rs[i] == Lookup(e.client.recs, MetaRec(items[i].k))
    modifies results, Buffers(items)
    ensures SameAround(old(results[..]), results[..], offset, |items|)
    ensures Right(items, results, offset, goals)
    ensures end.Completed? ==> AllSettled(e, items, results, offset, goals)
    ensures e.client.reliable ==> !end.TimedOut? && (end.Escaped? ==> SomeEscapes(goals))
  {
    var ok, multi := TriageAll(e, items, rs, results, offset, goals);
    if !ok {
      return Escaped;
    }
    end := LoadDeferred(e, items, results, offset, multi, goals);
    if end.Completed? {
      GoingEnds(e, items, results, offset, goals, multi);
      SettledIsRight(e, items, results, offset, goals);
    }
  }

  /** One chunk. Flags are right however it ends; without faults they are those of one-key gets. `st` is the status of
      the batch read of the meta records. */
  method LoadChunk(e: StorageEngine, items: seq<Load>, results: array<bool>, offset: nat, ghost goals: seq<Goal>)
    returns (end: Ending, ghost st: Status)
    requires DistinctBuffers(items) && offset + |items| <= results.Length && Goals(e, items, goals)
    requires forall i :: offset <= i < offset + |items| ==> !results[i]
    requires forall i :: 0 <= i < |items| ==> items[i].mo.refs == goals[i].refs
    modifies results, Buffers(items)
    ensures !st.Done? ==> end == (if st.Timeout? then TimedOut else Escaped) && results[..] == old(results[..])
    ensures SameAround(old(results[..]), results[..], offset, |items|)
    ensures Right(items, results, offset, goals)
    ensures end.Completed? ==> AllSettled(e, items, results, offset, goals)
    ensures e.client.reliable ==> !end.TimedOut? && (end.Escaped? ==> SomeEscapes(goals))
  {
    NothingYet(e, items, results, offset, goals);
    var us: seq<UserKey> := seq(|items|, i requires 0 <= i < |items| => MetaRec(items[i].k));
    var status, rs := e.client.BatchRead(us);
    st := status;
    if status.Timeout? {
      return TimedOut, st;
    }
    if !status.Done? {
      return Escaped, st;
    }
    end := LoadRecords(e, items, rs, results, offset, goals);
  }

  // ---- The whole call ----

  lemma SubBuffers(items: seq<Load>, lo: nat, hi: nat)
    requires DistinctBuffers(items) && lo <= hi <= |items|
    ensures DistinctBuffers(items[lo..hi]) && Buffers(items[lo..hi]) <= Buffers(items)
    ensures forall j :: 0 <= j < |items| && !(lo <= j < hi) ==>
              items[j].mo !in Buffers(items[lo..hi]) && items[j].mo.data !in Buffers(items[lo..hi])
  {
  }

  lemma AroundAt(before: seq<bool>, after: seq<bool>, offset: nat, n: nat)
    requires SameAround(before, after, offset, n)
    ensures forall i :: 0 <= i < |before| && !(offset <= i < offset + n) ==> after[i] == before[i]
  {
    forall i | 0 <= i < |before| && !(offset <= i < offset + n) ensures after[i] == before[i] {
      if i < offset {
        assert before[i] == before[..offset][i] && after[i] == after[..offset][i];
      } else {
        assert before[i] == before[offset + n..][i - offset - n] && after[i] == after[offset + n..][i - offset - n];
      }
    }
  }

  lemma RightSlice(items: seq<Load>, results: array<bool>, lo: nat, hi: nat, goals: seq<Goal>)
    requires lo <= hi <= |items| == |goals| == results.Length && Right(items[lo..hi], results, lo, goals[lo..hi])
    ensures forall i :: lo <= i < hi ==>
              Counted(goals[i], View(items[i].mo)) && (results[i] ==> Loaded(goals[i], View(items[i].mo)))
  {
    var chunk, part := items[lo..hi], goals[lo..hi];
    forall i | lo <= i < hi
      ensures Counted(goals[i], View(items[i].mo)) && (results[i] ==> Loaded(goals[i], View(items[i].mo)))
    {
      assert Window(results[..], lo, |chunk|)[i - lo] == results[i];
      assert Contents(chunk)[i - lo] == View(chunk[i - lo].mo);
      assert chunk[i - lo] == items[i] && part[i - lo] == goals[i];
    }
  }

  lemma SettledSlice(e: StorageEngine, items: seq<Load>, results: array<bool>, lo: nat, hi: nat, goals: seq<Goal>)
    requires lo <= hi <= |items| == |goals| == results.Length
    requires AllSettled(e, items[lo..hi], results, lo, goals[lo..hi])
    ensures forall i :: lo <= i < hi ==> Settled(e.client.reliable, goals[i], View(items[i].mo), results[i])
  {
    var chunk, part := items[lo..hi], goals[lo..hi];
    forall i | lo <= i < hi ensures Settled(e.client.reliable, goals[i], View(items[i].mo), results[i]) {
      assert chunk[i - lo] == items[i] && part[i - lo] == goals[i] && results[lo + (i - lo)] == results[i];
    }
  }

  lemma PartEscapes(goals: seq<Goal>, lo: nat, hi: nat)
    requires lo <= hi <= |goals|
    ensures SomeEscapes(goals[lo..hi]) ==> SomeEscapes(goals)
  {
    if SomeEscapes(goals[lo..hi]) {
      var i :| 0 <= i < hi - lo && goals[lo..hi][i].escapes;
      assert goals[lo + i].escapes;
    }
  }

  /** The chunk `items[lo..hi]`, with what it does told item by item. */
  method LoadSlice(e: StorageEngine, items: seq<Load>, results: array<bool>, lo: nat, hi: nat, ghost goals: seq<Goal>)
    returns (end: Ending)
    requires DistinctBuffers(items) && lo <= hi <= |items| == results.Length && Goals(e, items, goals)
    requires forall i :: lo <= i < hi ==> !results[i] && items[i].mo.refs == goals[i].refs
    modifies results, Buffers(items[lo..hi])
    ensures forall i :: 0 <= i < |items| && !(lo <= i < hi) ==> results[i] == old(results[i])
    ensures forall i :: lo <= i < hi ==>
              Counted(goals[i], View(items[i].mo)) && (results[i] ==> Loaded(goals[i], View(items[i].mo)))
    ensures end.Completed? ==> forall i :: lo <= i < hi ==>
              Settled(e.client.reliable, goals[i], View(items[i].mo), results[i])
    ensures e.client.reliable ==> !end.TimedOut? && (end.Escaped? ==> SomeEscapes(goals))
  {
    var chunk := items[lo..hi];
    ghost var part, before := goals[lo..hi], results[..];
    SubBuffers(items, lo, hi);
    ghost var st;
    end, st := LoadChunk(e, chunk, results, lo, part);
    AroundAt(before, results[..], lo, |chunk|);
    RightSlice(items, results, lo, hi, goals);
    if end.Completed? {
      SettledSlice(e, items, results, lo, hi, goals);
    }
    PartEscapes(goals, lo, hi);
  }

  /** With no faults, flag `i` is set exactly when a get of key `i` would hit, and then buffer `i` starts with
      its payload; the call escapes exactly when some item escapes. However it ends, with a timeout of a meta
      or of a segment read in particular, the flags set so far are right. A buffer with a flag is still
      the caller's; one without is released by a segment read that missed, once, and by nothing else. */
  method BatchedGetPreallocated(e: StorageEngine, items: seq<Load>, ghost goals: seq<Goal>)
    returns (end: Ending, results: array<bool>)
    requires DistinctBuffers(items) && Goals(e, items, goals)
    requires forall i :: 0 <= i < |items| ==> items[i].mo.refs == goals[i].refs
    modifies Buffers(items)
    ensures fresh(results) && results.Length == |items|
    ensures forall i :: 0 <= i < |items| ==>
              Counted(goals[i], View(items[i].mo)) && (results[i] ==> Loaded(goals[i], View(items[i].mo)))
    ensures end.Completed? && e.client.reliable ==> forall i :: 0 <= i < |items| ==>
              && (results[i] <==> goals[i].out.Hit?)
              && items[i].mo.refs == goals[i].refs - if goals[i].later && !goals[i].out.Hit? then 1 else 0
    ensures e.client.reliable ==> !end.TimedOut? && (end.Escaped? <==> SomeEscapes(goals))
  {
    results := new bool[|items|](_ => false);
    var offset := 0;
    while offset < |items|
      invariant offset <= |items|
      invariant forall i :: 0 <= i < offset ==> Settled(e.client.reliable, goals[i], View(items[i].mo), results[i])
      invariant forall i :: offset <= i < |items| ==> !results[i] && items[i].mo.refs == goals[i].refs
      modifies results, Buffers(items)
    {
      var hi := Min(offset + BATCH_KEYS_CHUNK, |items|);
      SubBuffers(items, offset, hi);
      end := LoadSlice(e, items, results, offset, hi, goals);
      if !end.Completed? {
        return;
      }
      offset := hi;
    }
    return Completed, results;
  }
}
