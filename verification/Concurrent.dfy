/** Any number of writers, readers, removers and pinners on any keys, interleaved record by record.
    Servers may apply a write late, repeatedly, or after its client has given up or crashed; any call and any
    record of a batch may fail; any record may expire at any time. Every put brings its own payload, layout
    and settings. A native writer is a put without checksum and chunk metadata; a native reader has its own
    completion rule. */
module Concurrent {
  import opened Common
  import opened Sharding
  import opened Limits
  import opened Records
  import opened Engine
  import opened NativeSpec
  import opened Client
  import opened EngineClass

  type Pid = nat

  datatype Write = Write(u: UserKey, b: Bins)

  datatype Reader = Python(crcOn: bool, src: Source) | Native(len: nat)

  datatype ReadResult = Py(out: GetOutcome) | Nat(res: Result<bytes, NativeError>)

  /** Program points of the running calls. `seen` is the ready meta record a finished get has worked with. `failed`
      is the status of a client call of the get that failed as a whole, `lost` tells that the read of a single
      segment did. */
  datatype Task =
    | Putting(k: Key, p: bytes, plan: ShardPlan, o: Opts, pinned: bool, acked: map<nat, bool>) // segment batch issued
    | Committing(k: Key, x: Write)                                                            // meta write issued
    | PutDone(k: Key, ok: bool)
    | Reading(k: Key, r: Reader, meta: Bins, got: map<nat, Option<Bins>>, lost: bool)
    | ReadDone(k: Key, r: Reader, res: ReadResult, seen: Option<Bins>, failed: Option<Status>, lost: bool)
    | Removing(k: Key, nseg: int)                                       // nseg read, meta still there
    | Sweeping(k: Key, nseg: int)                                       // meta removed
    | RemoveDone(k: Key, ok: bool)

  /** `issued`: writes handed to the network; `applied`: those some server has performed; `committed`:
      the payloads for which some put of the key has issued its meta write. */
  datatype State = State(store: Store, tasks: map<Pid, Task>, issued: set<Write>, applied: set<Write>,
                         committed: map<Key, set<bytes>>)

  const INIT := State(map[], map[], {}, {}, map[])

  datatype Step =
    | StartPut(pid: Pid, k: Key, p: bytes, plan: ShardPlan, o: Opts, pinned: bool)
    | Apply(x: Write)
    | AckSeg(pid: Pid, i: nat, ok: bool)
    | EndBatch(pid: Pid)
    | AckMeta(pid: Pid, ok: bool)
    | IssuePin(k: Key, value: bool)
    | StartGet(pid: Pid, k: Key, r: Reader)
    | FailGet(pid: Pid, k: Key, r: Reader, st: Status)     // the read of the meta record fails
    | ReadSeg(pid: Pid, i: nat, fault: bool)
    | FailRead(pid: Pid, st: Status)                       // the read of the segments fails as a whole
    | EndGet(pid: Pid)
    | StartRemove(pid: Pid, k: Key, selectFails: bool)
    | RemoveMeta(pid: Pid, ok: bool)
    | SweepSeg(pid: Pid, i: nat)
    | EndRemove(pid: Pid)
    | Expire(u: UserKey)
    | Crash(pid: Pid)

  function SegWrite(crc: Crc, k: Key, p: bytes, segB: nat, crcOn: bool, i: nat): Write {
    Write(SegRec(k, i), SegBins(crc, crcOn, Cut(p, i, segB)))
  }

  function SegWrites(crc: Crc, k: Key, p: bytes, plan: ShardPlan, crcOn: bool): set<Write> {
    set i: nat | i < plan.nseg :: SegWrite(crc, k, p, plan.segB, crcOn, i)
  }

  /** Issues the meta write of a put. */
  function IssueMeta(crc: Crc, st: State, pid: Pid, k: Key, p: bytes, plan: ShardPlan, o: Opts, pinned: bool): State {
    var x := Write(MetaRec(k), MetaBins(crc, o, plan, p, pinned));
    st.(tasks := st.tasks[pid := Committing(k, x)],
        issued := st.issued + {x},
        committed := st.committed[k := Committed(st, k) + {p}])
  }

  function Committed(st: State, k: Key): set<bytes> {
    if k in st.committed then st.committed[k] else {}
  }

  function SegsNeeded(r: Reader, meta: Bins): nat {
    if r.Python? then SegCount(meta) else NativeSegCount(meta)
  }

  function Collected(got: map<nat, Option<Bins>>, n: nat): (segs: seq<Option<Bins>>)
    ensures |segs| == n
    ensures forall i :: 0 <= i < n ==> segs[i] == if i in got then got[i] else None
  {
    if n == 0 then [] else Collected(got, n - 1) + [if n - 1 in got then got[n - 1] else None]
  }

  function Finish(crc: Crc, r: Reader, meta: Bins, segs: seq<Option<Bins>>): ReadResult {
    match r
    case Python(crcOn, src) => Py(FinishGet(crc, crcOn, meta, segs, Capacity(src, meta)))
    case Native(len) => Nat(NativeRead(meta, segs, len))
  }

  /** What a get returns once all its reads are in. */
  function Ending(crc: Crc, t: Task): ReadResult
    requires t.Reading?
  {
    Finish(crc, t.r, t.meta, Collected(t.got, SegsNeeded(t.r, t.meta)))
  }

  predicate IsFailure(status: Status) {
    !status.Done? && !status.NotFound?
  }

  predicate At(st: State, pid: Pid) {
    pid in st.tasks
  }

  predicate Enabled(crc: Crc, st: State, step: Step) {
    match step
    case StartPut(pid, _, p, plan, _, _) => !At(st, pid) && ValidLayout(plan, |p|)
    case Apply(x) => x in st.issued
    case AckSeg(pid, i, ok) =>
      && At(st, pid) && st.tasks[pid].Putting?
      && var t := st.tasks[pid];
      && i < t.plan.nseg && i !in t.acked
      && (ok ==> SegWrite(crc, t.k, t.p, t.plan.segB, t.o.crcOn, i) in st.applied)
    case EndBatch(pid) =>
      && At(st, pid) && st.tasks[pid].Putting?
      && forall i: nat :: i < st.tasks[pid].plan.nseg ==> i in st.tasks[pid].acked
    case AckMeta(pid, ok) =>
      At(st, pid) && st.tasks[pid].Committing? && (ok ==> st.tasks[pid].x in st.applied)
    case IssuePin(_, _) => true
    case StartGet(pid, _, _) => !At(st, pid)
    case FailGet(pid, _, _, status) => !At(st, pid) && IsFailure(status)
    case ReadSeg(pid, i, _) =>
      && At(st, pid) && st.tasks[pid].Reading?
      && i < SegsNeeded(st.tasks[pid].r, st.tasks[pid].meta) && i !in st.tasks[pid].got
    case FailRead(pid, status) =>
      && IsFailure(status) && At(st, pid) && st.tasks[pid].Reading?
      && var t := st.tasks[pid];
      && SegsNeeded(t.r, t.meta) > 0 && (t.r.Python? ==> Capacity(t.r.src, t.meta).Some?)
    case EndGet(pid) =>
      && At(st, pid) && st.tasks[pid].Reading?
      && forall i: nat :: i < SegsNeeded(st.tasks[pid].r, st.tasks[pid].meta) ==> i in st.tasks[pid].got
    case StartRemove(pid, _, _) => !At(st, pid)
    case RemoveMeta(pid, _) => At(st, pid) && st.tasks[pid].Removing?
    case SweepSeg(pid, i) => At(st, pid) && st.tasks[pid].Sweeping? && i < st.tasks[pid].nseg
    case EndRemove(pid) => At(st, pid) && st.tasks[pid].Sweeping?
    case Expire(u) => u in st.store
    case Crash(pid) => At(st, pid)
  }

  function Next(crc: Crc, st: State, step: Step): State
    requires Enabled(crc, st, step)
  {
    match step
    case StartPut(pid, k, p, plan, o, pinned) =>
      if plan.nseg == 1 then IssueMeta(crc, st, pid, k, p, plan, o, pinned)
      else
        st.(tasks := st.tasks[pid := Putting(k, p, plan, o, pinned, map[])],
            issued := st.issued + SegWrites(crc, k, p, plan, o.crcOn))
    case Apply(x) => st.(store := Upsert(st.store, x.u, x.b), applied := st.applied + {x})
    case AckSeg(pid, i, ok) =>
      var t := st.tasks[pid];
      st.(tasks := st.tasks[pid := t.(acked := t.acked[i := ok])])
    case EndBatch(pid) =>
      var t := st.tasks[pid];
      if forall i: nat :: i < t.plan.nseg ==> t.acked[i] then IssueMeta(crc, st, pid, t.k, t.p, t.plan, t.o, t.pinned)
      else st.(tasks := st.tasks[pid := PutDone(t.k, false)])
    case AckMeta(pid, ok) => st.(tasks := st.tasks[pid := PutDone(st.tasks[pid].k, ok)])
    case IssuePin(k, value) => st.(issued := st.issued + {Write(MetaRec(k), NO_BINS.(pin := Some(value)))})
    case StartGet(pid, k, r) =>
      var t :=
        if IsReady(st.store, k) then Reading(k, r, st.store[MetaRec(k)], map[], false)
        else if MetaRec(k) in st.store then ReadDone(k, r, Finish(crc, r, st.store[MetaRec(k)], []), None, None, false)
        else ReadDone(k, r, if r.Python? then Py(Miss) else Nat(Err(NativeError.NotFound)), None, None, false);
      st.(tasks := st.tasks[pid := t])
    case FailGet(pid, k, r, status) =>
      var res := if r.Native? then Nat(Err(CallFailed)) else Py(MetaVerdict(status));
      st.(tasks := st.tasks[pid := ReadDone(k, r, res, None, Some(status), false)])
    case ReadSeg(pid, i, fault) =>
      var t := st.tasks[pid];
      var one := if fault then None else Lookup(st.store, SegRec(t.k, i));
      st.(tasks := st.tasks[pid := t.(got := t.got[i := one], lost := t.lost || fault)])
    case FailRead(pid, status) =>
      var t := st.tasks[pid];
      var res := if t.r.Native? then Nat(Err(CallFailed)) else Py(SegsVerdict(status));
      st.(tasks := st.tasks[pid := ReadDone(t.k, t.r, res, Some(t.meta), Some(status), t.lost)])
    case EndGet(pid) =>
      var t := st.tasks[pid];
      st.(tasks := st.tasks[pid := ReadDone(t.k, t.r, Ending(crc, t), Some(t.meta), None, t.lost)])
    case StartRemove(pid, k, selectFails) =>
      var t :=
        if selectFails then Removing(k, 1)
        else if MetaRec(k) in st.store then Removing(k, Or(st.store[MetaRec(k)].nseg, Some(1)).value)
        else RemoveDone(k, false);
      st.(tasks := st.tasks[pid := t])
    case RemoveMeta(pid, ok) =>
      var t := st.tasks[pid];
      if ok && MetaRec(t.k) in st.store then
        st.(store := st.store - {MetaRec(t.k)}, tasks := st.tasks[pid := Sweeping(t.k, t.nseg)])
      else st.(tasks := st.tasks[pid := RemoveDone(t.k, false)])
    case SweepSeg(pid, i) => st.(store := st.store - {SegRec(st.tasks[pid].k, i)})
    case EndRemove(pid) => st.(tasks := st.tasks[pid := RemoveDone(st.tasks[pid].k, true)])
    case Expire(u) => st.(store := st.store - {u})
    case Crash(pid) => st.(tasks := st.tasks - {pid})
  }

  predicate IsRun(crc: Crc, st: State, steps: seq<Step>)
    decreases |steps|
  {
    steps == [] || (Enabled(crc, st, steps[0]) && IsRun(crc, Next(crc, st, steps[0]), steps[1..]))
  }

  function Exec(crc: Crc, st: State, steps: seq<Step>): State
    requires IsRun(crc, st, steps)
    decreases |steps|
  {
    if steps == [] then st else Exec(crc, Next(crc, st, steps[0]), steps[1..])
  }

  // ---- Every run, whatever is written ----

  /** `c` is the checksum of one of the payloads. */
  ghost predicate SumOf(crc: Crc, ps: set<bytes>, c: nat) {
    exists p :: p in ps && crc(p) == c
  }

  /** A meta record tells nothing before some put has issued it, is usable once ready, and its checksum is that of
      a payload committed under the key. */
  ghost predicate MetaSane(crc: Crc, st: State, k: Key, b: Bins) {
    && Usable(b)
    && (b.state.Some? ==> k in st.committed)
    && (b.crc32.Some? ==> SumOf(crc, Committed(st, k), b.crc32.value))
  }

  ghost predicate RecordsSane(crc: Crc, st: State) {
    && (forall k :: MetaRec(k) in st.store ==> MetaSane(crc, st, k, st.store[MetaRec(k)]))
    && (forall x :: x in st.issued && x.u.MetaRec? ==> MetaWriteOk(x.b) && MetaSane(crc, st, x.u.ck, x.b))
  }

  /** Without a buffer: a miss, or an exception for a failed call. Working with the meta record `meta`: never an
      exception before the buffer is taken, never a buffer kept and not returned, and a verified payload has
      the checksum of the record. */
  ghost predicate OutcomeSane(crc: Crc, r: Reader, res: ReadResult, seen: Option<Bins>, failed: Option<Status>) {
    match r
    case Python(crcOn, _) =>
      && res.Py?
      && (failed.None? && seen.None? ==> res.out == Miss)
      && (failed.None? && seen.Some? ==> res.out !in {MissLeaked, Raised, TimedOutReleased})
      && (failed.Some? ==> IsFailure(failed.value))
      && (failed.Some? && seen.None? ==> res.out == MetaVerdict(failed.value))
      && (failed.Some? && seen.Some? ==> res.out == SegsVerdict(failed.value))
      && (seen.Some? && res.out.Hit? && crcOn && seen.value.crc32.Some? ==> crc(res.out.data) == seen.value.crc32.value)
    case Native(_) => res.Nat? && (seen.None? ==> res.res.Err?) && (failed.Some? ==> res.res == Err(CallFailed))
  }

  ghost predicate TaskSane(crc: Crc, st: State, t: Task) {
    match t
    case Reading(k, _, meta, _, _) => meta.state == Some(Ready) && MetaSane(crc, st, k, meta)
    case ReadDone(k, r, res, seen, failed, _) =>
      && OutcomeSane(crc, r, res, seen, failed)
      && (seen.Some? ==> MetaSane(crc, st, k, seen.value) && k in st.committed)
    case _ => true
  }

  ghost predicate TasksSane(crc: Crc, st: State) {
    forall pid :: pid in st.tasks ==> TaskSane(crc, st, st.tasks[pid])
  }

  ghost predicate Sane(crc: Crc, st: State) {
    RecordsSane(crc, st) && TasksSane(crc, st)
  }

  /** Commits are never forgotten. */
  ghost predicate CommitsGrow(st: State, st': State) {
    forall k :: k in st.committed ==> k in st'.committed && st.committed[k] <= st'.committed[k]
  }

  lemma MetaStaysSane(crc: Crc, st: State, st': State, k: Key, b: Bins)
    requires CommitsGrow(st, st') && MetaSane(crc, st, k, b)
    ensures MetaSane(crc, st', k, b)
  {
    if b.crc32.Some? {
      var p :| p in Committed(st, k) && crc(p) == b.crc32.value;
      assert p in Committed(st', k);
    }
  }

  lemma NextGrows(crc: Crc, st: State, step: Step)
    requires Enabled(crc, st, step)
    ensures CommitsGrow(st, Next(crc, st, step))
  {
  }

  lemma IssuedMetaIsSane(crc: Crc, st: State, pid: Pid, k: Key, p: bytes, plan: ShardPlan, o: Opts, pinned: bool)
    ensures var st' := IssueMeta(crc, st, pid, k, p, plan, o, pinned);
            MetaSane(crc, st', k, MetaBins(crc, o, plan, p, pinned))
  {
    assert p in Committed(IssueMeta(crc, st, pid, k, p, plan, o, pinned), k);
  }

  lemma NextKeepsRecordsSane(crc: Crc, st: State, step: Step)
    requires RecordsSane(crc, st) && Enabled(crc, st, step)
    ensures RecordsSane(crc, Next(crc, st, step))
  {
    var st' := Next(crc, st, step);
    NextGrows(crc, st, step);
    forall x | x in st'.issued && x.u.MetaRec? ensures MetaWriteOk(x.b) && MetaSane(crc, st', x.u.ck, x.b) {
      if x in st.issued {
        MetaStaysSane(crc, st, st', x.u.ck, x.b);
      } else if step.StartPut? {
        IssuedMetaIsSane(crc, st, step.pid, step.k, step.p, step.plan, step.o, step.pinned);
      } else if step.EndBatch? {
        var t := st.tasks[step.pid];
        IssuedMetaIsSane(crc, st, step.pid, t.k, t.p, t.plan, t.o, t.pinned);
      }
    }
    forall k | MetaRec(k) in st'.store ensures MetaSane(crc, st', k, st'.store[MetaRec(k)]) {
      if step.Apply? && step.x.u == MetaRec(k) {
        assert MetaSane(crc, st', k, step.x.b);
        assert MetaRec(k) in st.store ==> MetaSane(crc, st, k, st.store[MetaRec(k)]);
      } else {
        MetaStaysSane(crc, st, st', k, st.store[MetaRec(k)]);
      }
    }
  }

  lemma TaskStaysSane(crc: Crc, st: State, st': State, t: Task)
    requires CommitsGrow(st, st') && TaskSane(crc, st, t)
    ensures TaskSane(crc, st', t)
  {
    if t.Reading? {
      MetaStaysSane(crc, st, st', t.k, t.meta);
    } else if t.ReadDone? && t.seen.Some? {
      MetaStaysSane(crc, st, st', t.k, t.seen.value);
    }
  }

  lemma EndingIsSane(crc: Crc, t: Task)
    requires t.Reading? && t.meta.state == Some(Ready) && Usable(t.meta)
    ensures OutcomeSane(crc, t.r, Ending(crc, t), Some(t.meta), None)
  {
  }

  /** The task a step moves. */
  lemma MovedTaskIsSane(crc: Crc, st: State, step: Step, pid: Pid)
    requires Sane(crc, st) && Enabled(crc, st, step)
    requires pid in Next(crc, st, step).tasks
    requires pid in st.tasks ==> Next(crc, st, step).tasks[pid] != st.tasks[pid]
    ensures TaskSane(crc, st, Next(crc, st, step).tasks[pid])
  {
    assert pid in st.tasks ==> TaskSane(crc, st, st.tasks[pid]);
    if step.EndGet? {
      EndingIsSane(crc, st.tasks[pid]);
    }
  }

  lemma NextKeepsTasksSane(crc: Crc, st: State, step: Step)
    requires Sane(crc, st) && Enabled(crc, st, step)
    ensures TasksSane(crc, Next(crc, st, step))
  {
    var st' := Next(crc, st, step);
    NextGrows(crc, st, step);
    forall pid | pid in st'.tasks ensures TaskSane(crc, st', st'.tasks[pid]) {
      if !(pid in st.tasks && st'.tasks[pid] == st.tasks[pid]) {
        MovedTaskIsSane(crc, st, step, pid);
      }
      TaskStaysSane(crc, st, st', st'.tasks[pid]);
    }
  }

  lemma {:induction false} ExecKeepsSane(crc: Crc, st: State, steps: seq<Step>)
    requires Sane(crc, st) && IsRun(crc, st, steps)
    ensures Sane(crc, Exec(crc, st, steps))
    decreases |steps|
  {
    if steps != [] {
      NextKeepsRecordsSane(crc, st, steps[0]);
      NextKeepsTasksSane(crc, st, steps[0]);
      ExecKeepsSane(crc, Next(crc, st, steps[0]), steps[1..]);
    }
  }

  /** In every run, with any payloads, overwrites and faults: no get keeps a buffer it does not return, and one
      that saw no ready meta record misses; and what the failure of a call leads to. */
  lemma NoGetLeaks(crc: Crc, steps: seq<Step>, pid: Pid)
    requires IsRun(crc, INIT, steps)
    requires var st := Exec(crc, INIT, steps); pid in st.tasks && st.tasks[pid].ReadDone? && st.tasks[pid].r.Python?
    ensures var t := Exec(crc, INIT, steps).tasks[pid];
            && t.res.Py? && t.res.out != MissLeaked
            && (t.failed.None? ==> t.res.out != Raised && t.res.out != TimedOutReleased)
            && (t.failed.None? && t.seen.None? ==> t.res.out == Miss)
            && (t.failed.Some? ==>
                  t.res.out == if t.seen.None? then MetaVerdict(t.failed.value) else SegsVerdict(t.failed.value))
    ensures AllUsable(Exec(crc, INIT, steps).store)
  {
    ExecKeepsSane(crc, INIT, steps);
  }

  /** In every such run, what a verifying get delivers over a meta record with a checksum has the checksum of a
      payload committed under that key. So where checksums tell these payloads from everything else, a mixture
      is never delivered. */
  lemma VerifiedReadsAreWhole(crc: Crc, steps: seq<Step>, pid: Pid)
    requires IsRun(crc, INIT, steps)
    requires var st := Exec(crc, INIT, steps);
             && pid in st.tasks && st.tasks[pid].ReadDone?
             && var t := st.tasks[pid];
             && t.r.Python? && t.r.crcOn && t.seen.Some? && t.seen.value.crc32.Some? && t.res.Py? && t.res.out.Hit?
    ensures var st := Exec(crc, INIT, steps);
            var t := st.tasks[pid];
            && SumOf(crc, Committed(st, t.k), crc(t.res.out.data))
            && ((forall p, d :: p in Committed(st, t.k) && crc(d) == crc(p) ==> d == p) ==>
                  t.res.out.data in Committed(st, t.k))
  {
    ExecKeepsSane(crc, INIT, steps);
    var st := Exec(crc, INIT, steps);
    assert TaskSane(crc, st, st.tasks[pid]);
  }

  /** As long as no put of `k` has got past its segment batch, no get of `k` succeeds, in every run. */
  lemma UncommittedIsInvisible(crc: Crc, steps: seq<Step>, k: Key)
    requires IsRun(crc, INIT, steps) && k !in Exec(crc, INIT, steps).committed
    ensures var st := Exec(crc, INIT, steps);
            && !IsReady(st.store, k)
            && forall pid :: pid in st.tasks && st.tasks[pid].ReadDone? && st.tasks[pid].k == k ==>
                 var t := st.tasks[pid];
                 t.res == Py(Miss) || (t.failed.Some? && t.res == Py(Raised)) || (t.res.Nat? && t.res.res.Err?)
  {
    ExecKeepsSane(crc, INIT, steps);
    var st := Exec(crc, INIT, steps);
    forall pid | pid in st.tasks && st.tasks[pid].ReadDone? && st.tasks[pid].k == k
      ensures var t := st.tasks[pid];
              t.res == Py(Miss) || (t.failed.Some? && t.res == Py(Raised)) || (t.res.Nat? && t.res.res.Err?)
    {
      assert TaskSane(crc, st, st.tasks[pid]);
    }
  }

  // ---- Removal ----

  /** Whether the removal by `pid` under way, or its last one, has removed the meta record of `k`. */
  predicate Removed(st: State, step: Step, pid: Pid, k: Key, before: bool) {
    if step.StartRemove? && step.pid == pid then false
    else before || (step == RemoveMeta(pid, true) && At(st, pid) && st.tasks[pid].k == k && MetaRec(k) in st.store)
  }

  /** Once that has happened, no write of the meta record is applied. */
  ghost predicate UnwrittenAfter(crc: Crc, st: State, steps: seq<Step>, pid: Pid, k: Key, removed: bool)
    requires IsRun(crc, st, steps)
    decreases |steps|
  {
    steps == []
    || (&& (removed ==> !(steps[0].Apply? && steps[0].x.u == MetaRec(k)))
        && UnwrittenAfter(crc, Next(crc, st, steps[0]), steps[1..], pid, k, Removed(st, steps[0], pid, k, removed)))
  }

  ghost predicate RemovalOk(st: State, pid: Pid, k: Key, removed: bool) {
    && (removed ==> MetaRec(k) !in st.store)
    && (pid in st.tasks && st.tasks[pid].k == k && (st.tasks[pid].Sweeping? || st.tasks[pid] == RemoveDone(k, true)) ==>
          removed)
  }

  lemma NextKeepsRemoval(crc: Crc, st: State, step: Step, pid: Pid, k: Key, removed: bool)
    requires RemovalOk(st, pid, k, removed) && Enabled(crc, st, step)
    requires removed ==> !(step.Apply? && step.x.u == MetaRec(k))
    ensures RemovalOk(Next(crc, st, step), pid, k, Removed(st, step, pid, k, removed))
  {
  }

  lemma {:induction false} ExecKeepsRemoval(crc: Crc, st: State, steps: seq<Step>, pid: Pid, k: Key, removed: bool)
    requires IsRun(crc, st, steps) && RemovalOk(st, pid, k, removed) && UnwrittenAfter(crc, st, steps, pid, k, removed)
    ensures exists r :: RemovalOk(Exec(crc, st, steps), pid, k, r)
    decreases |steps|
  {
    if steps != [] {
      NextKeepsRemoval(crc, st, steps[0], pid, k, removed);
      ExecKeepsRemoval(crc, Next(crc, st, steps[0]), steps[1..], pid, k, Removed(st, steps[0], pid, k, removed));
      var r :| RemovalOk(Exec(crc, Next(crc, st, steps[0]), steps[1..]), pid, k, r);
      assert RemovalOk(Exec(crc, st, steps), pid, k, r);
    } else {
      assert RemovalOk(Exec(crc, st, steps), pid, k, removed);
    }
  }

  /** In every run, when a removal has reported success and no write of the meta record was applied after it took
      effect, the meta record is absent: no get that starts now finds the key. */
  lemma RemovedKeysAreGone(crc: Crc, steps: seq<Step>, pid: Pid, k: Key)
    requires IsRun(crc, INIT, steps) && UnwrittenAfter(crc, INIT, steps, pid, k, false)
    requires var st := Exec(crc, INIT, steps); pid in st.tasks && st.tasks[pid] == RemoveDone(k, true)
    ensures MetaRec(k) !in Exec(crc, INIT, steps).store
  {
    ExecKeepsRemoval(crc, INIT, steps, pid, k, false);
  }

  // ---- Content-addressed runs ----

  /** What every put of the key `k` carries: one payload and one layout. Nothing is assumed of other keys. */
  datatype Content = Content(k: Key, p: bytes, plan: ShardPlan, crc: Crc)

  ghost predicate Good(w: Content) {
    ValidLayout(w.plan, |w.p|)
  }

  predicate Addressed(w: Content, step: Step) {
    step.StartPut? && step.k == w.k ==> step.p == w.p && step.plan == w.plan
  }

  ghost predicate IsAddressedRun(w: Content, st: State, steps: seq<Step>) {
    IsRun(w.crc, st, steps) && forall i :: 0 <= i < |steps| ==> Addressed(w, steps[i])
  }

  ghost predicate PinGhost(b: Bins) {
    b.(pin := None) == NO_BINS
  }

  ghost predicate FullMeta(w: Content, b: Bins) {
    var plan := w.plan;
    && b.state == Some(Ready)
    && b.nseg == Some(plan.nseg) && b.segB == Some(plan.segB) && b.totB == Some(|w.p|)
    && (b.md.None? || b.md == Some(|w.p|))
    && (plan.nseg == 1 ==> b.b == Some(w.p))
    && (b.crc32.None? || b.crc32 == Some(w.crc(w.p)))
  }

  /** The inductive invariant of a record: a segment holds its slice, a meta record is complete or a pin
      ghost. Nothing in between is ever stored. */
  ghost predicate RecordOk(w: Content, u: UserKey, b: Bins) {
    match u
    case MetaRec(_) => PinGhost(b) || FullMeta(w, b)
    case SegRec(_, i) => i < w.plan.nseg && b.b == Some(Cut(w.p, i, w.plan.segB))
  }

  /** A buffer that may turn out too small. */
  predicate Short(p: bytes, src: Source) {
    match src
    case Preallocated(size) => size < |p|
    case Allocator(_, full, free) => free && full < |p|
  }

  /** A get ends with a miss, with exactly the payload, or with an exception about a buffer that really is
      too small or about a call that failed; and it never keeps a buffer it does not return. */
  ghost predicate SafeResult(w: Content, r: Reader, res: ReadResult, failed: Option<Status>) {
    match r
    case Python(_, src) =>
      && res.Py?
      && (|| res.out == Miss || res.out == MissReleased || res.out == Hit(w.p)
          || (res.out == RaisedReleased && (Short(w.p, src) || failed.Some?))
          || ((res.out == Raised || res.out == TimedOutReleased) && failed.Some?))
    case Native(len) =>
      && res.Nat?
      && (res.res.Ok? && w.plan.nseg < UINT32 && |w.p| < SIZE_T / 2 ==>
            res.res.value == w.p && len == |w.p|)
  }

  ghost predicate TaskOk(w: Content, t: Task) {
    match t
    case Putting(_, p, plan, _, _, _) => p == w.p && plan == w.plan
    case Reading(_, _, meta, got, _) =>
      && FullMeta(w, meta)
      && forall i :: i in got && got[i].Some? ==> RecordOk(w, SegRec(w.k, i), got[i].value)
    case ReadDone(_, r, res, _, failed, _) => SafeResult(w, r, res, failed)
    case _ => true
  }

  ghost predicate StoredOk(w: Content, st: State) {
    forall u :: u in st.store && u.ck == w.k ==> RecordOk(w, u, st.store[u])
  }

  ghost predicate IssuedOk(w: Content, st: State) {
    forall x :: x in st.issued && x.u.ck == w.k ==> RecordOk(w, x.u, x.b)
  }

  ghost predicate RecordsOk(w: Content, st: State) {
    StoredOk(w, st) && IssuedOk(w, st)
  }

  ghost predicate TasksOk(w: Content, st: State) {
    forall pid :: pid in st.tasks && st.tasks[pid].k == w.k ==> TaskOk(w, st.tasks[pid])
  }

  ghost predicate Inv(w: Content, st: State) {
    RecordsOk(w, st) && TasksOk(w, st)
  }

  /** Enough buffer for a Python reader, the exact length for a native one. */
  ghost predicate Fits(w: Content, r: Reader) {
    match r
    case Python(_, src) => !Short(w.p, src) && (src.Allocator? ==> src.free)
    case Native(len) => len == |w.p| < SIZE_T / 2 && w.plan.nseg < UINT32
  }

  ghost predicate Delivers(w: Content, res: ReadResult) {
    res == Py(Hit(w.p)) || res == Nat(Ok(w.p))
  }

  /** Completion of a get, for either reader: `segs` are what the reader happened to see. */
  lemma FinishIsSafe(w: Content, r: Reader, meta: Bins, segs: seq<Option<Bins>>)
    requires Good(w) && FullMeta(w, meta) && |segs| == SegsNeeded(r, meta)
    requires forall i :: 0 <= i < |segs| && segs[i].Some? ==> RecordOk(w, SegRec(w.k, i), segs[i].value)
    ensures SafeResult(w, r, Finish(w.crc, r, meta, segs), None)
    ensures Fits(w, r) && AllPresent(segs, 0) ==> Delivers(w, Finish(w.crc, r, meta, segs))
  {
    match r
    case Python(_, _) => PythonFinishIsSafe(w, r, meta, segs);
    case Native(_) => NativeFinishIsSafe(w, r, meta, segs);
  }

  lemma PythonFinishIsSafe(w: Content, r: Reader, meta: Bins, segs: seq<Option<Bins>>)
    requires Good(w) && FullMeta(w, meta) && r.Python? && |segs| == SegsNeeded(r, meta)
    requires forall i :: 0 <= i < |segs| && segs[i].Some? ==> RecordOk(w, SegRec(w.k, i), segs[i].value)
    ensures SafeResult(w, r, Finish(w.crc, r, meta, segs), None)
    ensures Fits(w, r) && AllPresent(segs, 0) ==> Delivers(w, Finish(w.crc, r, meta, segs))
  {
    var plan, p := w.plan, w.p;
    var cap := Capacity(r.src, meta);
    assert cap.Some? && cap.value < |p| ==> Short(p, r.src);
    if plan.nseg > 1 && cap.Some? {
      PrefixEnds(p, plan);
      GatherCuts(p, plan, segs, 0, cap.value);
    }
  }

  lemma NativeFinishIsSafe(w: Content, r: Reader, meta: Bins, segs: seq<Option<Bins>>)
    requires Good(w) && FullMeta(w, meta) && r.Native? && |segs| == SegsNeeded(r, meta)
    requires forall i :: 0 <= i < |segs| && segs[i].Some? ==> RecordOk(w, SegRec(w.k, i), segs[i].value)
    ensures SafeResult(w, r, Finish(w.crc, r, meta, segs), None)
    ensures Fits(w, r) && AllPresent(segs, 0) ==> Delivers(w, Finish(w.crc, r, meta, segs))
  {
    var plan, p := w.plan, w.p;
    if plan.nseg < UINT32 && |p| < SIZE_T / 2 {
      NativeReadOfLayout(meta, segs, plan, |p|, r.len);
      if plan.nseg > 1 && r.len == |p| {
        PrefixEnds(p, plan);
        NativeGatherCuts(p, plan, segs, 0);
      }
    }
  }

  lemma MergeIsOk(w: Content, u: UserKey, old_: Bins, b: Bins)
    requires Good(w) && RecordOk(w, u, b)
    requires RecordOk(w, u, old_) || old_ == NO_BINS
    ensures RecordOk(w, u, Merge(old_, b))
  {
  }

  lemma EndingIsSafe(w: Content, t: Task)
    requires Good(w) && t.Reading? && TaskOk(w, t)
    ensures SafeResult(w, t.r, Ending(w.crc, t), None)
    ensures Fits(w, t.r) && AllPresent(Collected(t.got, SegsNeeded(t.r, t.meta)), 0) ==>
              Delivers(w, Ending(w.crc, t))
  {
    FinishIsSafe(w, t.r, t.meta, Collected(t.got, SegsNeeded(t.r, t.meta)));
  }

  lemma NextKeepsStored(w: Content, st: State, step: Step)
    requires Good(w) && RecordsOk(w, st) && Enabled(w.crc, st, step)
    ensures StoredOk(w, Next(w.crc, st, step))
  {
    if step.Apply? && step.x.u.ck == w.k {
      MergeIsOk(w, step.x.u, BinsOf(st.store, step.x.u), step.x.b);
    }
  }

  lemma NextKeepsIssued(w: Content, st: State, step: Step)
    requires IssuedOk(w, st) && TasksOk(w, st) && Enabled(w.crc, st, step) && Addressed(w, step)
    ensures IssuedOk(w, Next(w.crc, st, step))
  {
    if step.EndBatch? && st.tasks[step.pid].k == w.k {
      assert TaskOk(w, st.tasks[step.pid]);
    }
  }

  lemma NextKeepsRecords(w: Content, st: State, step: Step)
    requires Good(w) && Inv(w, st) && Enabled(w.crc, st, step) && Addressed(w, step)
    ensures RecordsOk(w, Next(w.crc, st, step))
  {
    NextKeepsStored(w, st, step);
    NextKeepsIssued(w, st, step);
  }

  lemma TaskKeepsItsKey(crc: Crc, st: State, step: Step, pid: Pid)
    requires Enabled(crc, st, step) && pid in Next(crc, st, step).tasks && pid in st.tasks
    ensures Next(crc, st, step).tasks[pid].k == st.tasks[pid].k
  {
  }

  lemma EndGetIsOk(w: Content, st: State, pid: Pid)
    requires Good(w) && Inv(w, st) && Enabled(w.crc, st, EndGet(pid)) && st.tasks[pid].k == w.k
    ensures TaskOk(w, Next(w.crc, st, EndGet(pid)).tasks[pid])
  {
    assert TaskOk(w, st.tasks[pid]);
    EndingIsSafe(w, st.tasks[pid]);
  }

  lemma ReadSegIsOk(w: Content, st: State, step: Step)
    requires Inv(w, st) && Enabled(w.crc, st, step) && step.ReadSeg? && st.tasks[step.pid].k == w.k
    ensures TaskOk(w, Next(w.crc, st, step).tasks[step.pid])
  {
    assert TaskOk(w, st.tasks[step.pid]);
  }

  lemma OtherMovesAreOk(w: Content, st: State, step: Step, pid: Pid)
    requires RecordsOk(w, st) && Enabled(w.crc, st, step) && Addressed(w, step) && !step.ReadSeg? && !step.EndGet?
    requires pid in Next(w.crc, st, step).tasks && Next(w.crc, st, step).tasks[pid].k == w.k
    requires pid in st.tasks ==> TaskOk(w, st.tasks[pid]) && Next(w.crc, st, step).tasks[pid] != st.tasks[pid]
    ensures TaskOk(w, Next(w.crc, st, step).tasks[pid])
  {
  }

  lemma MovedTaskIsOk(w: Content, st: State, step: Step, pid: Pid)
    requires Good(w) && Inv(w, st) && Enabled(w.crc, st, step) && Addressed(w, step)
    requires pid in Next(w.crc, st, step).tasks && Next(w.crc, st, step).tasks[pid].k == w.k
    requires pid in st.tasks ==> Next(w.crc, st, step).tasks[pid] != st.tasks[pid]
    ensures TaskOk(w, Next(w.crc, st, step).tasks[pid])
  {
    if pid in st.tasks {
      TaskKeepsItsKey(w.crc, st, step, pid);
    }
    if step.EndGet? {
      EndGetIsOk(w, st, pid);
    } else if step.ReadSeg? {
      ReadSegIsOk(w, st, step);
    } else {
      OtherMovesAreOk(w, st, step, pid);
    }
  }

  lemma NextKeepsTasks(w: Content, st: State, step: Step)
    requires Good(w) && Inv(w, st) && Enabled(w.crc, st, step) && Addressed(w, step)
    ensures TasksOk(w, Next(w.crc, st, step))
  {
    var st' := Next(w.crc, st, step);
    forall pid | pid in st'.tasks && st'.tasks[pid].k == w.k && !(pid in st.tasks && st'.tasks[pid] == st.tasks[pid])
      ensures TaskOk(w, st'.tasks[pid])
    {
      MovedTaskIsOk(w, st, step, pid);
    }
  }

  lemma NextKeepsInv(w: Content, st: State, step: Step)
    requires Good(w) && Inv(w, st) && Enabled(w.crc, st, step) && Addressed(w, step)
    ensures Inv(w, Next(w.crc, st, step))
  {
    NextKeepsRecords(w, st, step);
    NextKeepsTasks(w, st, step);
  }

  lemma {:induction false} ExecKeepsInv(w: Content, st: State, steps: seq<Step>)
    requires Good(w) && Inv(w, st) && IsAddressedRun(w, st, steps)
    ensures Inv(w, Exec(w.crc, st, steps))
    decreases |steps|
  {
    if steps != [] {
      NextKeepsInv(w, st, steps[0]);
      ExecKeepsInv(w, Next(w.crc, st, steps[0]), steps[1..]);
    }
  }

  /** Run safety: if all puts of a key carry the same payload in the same layout, then in every interleaving with
      anything else, on this key and on others, and with any faults, a completed get of the key is a miss or
      exactly that payload; it raises only for want of buffer or because a call failed. */
  lemma EveryGetIsSafe(w: Content, steps: seq<Step>, pid: Pid)
    requires Good(w) && IsAddressedRun(w, INIT, steps)
    requires var st := Exec(w.crc, INIT, steps);
             pid in st.tasks && st.tasks[pid].ReadDone? && st.tasks[pid].k == w.k
    ensures var t := Exec(w.crc, INIT, steps).tasks[pid]; SafeResult(w, t.r, t.res, t.failed)
  {
    ExecKeepsInv(w, INIT, steps);
  }

  // ---- A key that is neither removed nor expires: visible means complete ----

  /** No record of `k` expires, and no removal of its meta record takes effect. Removals may be tried and fail,
      anything may happen to other keys, and any read may fail. */
  predicate Spares(st: State, step: Step, k: Key) {
    match step
    case Expire(u) => u.ck != k
    case RemoveMeta(pid, ok) => ok && At(st, pid) && st.tasks[pid].k == k ==> MetaRec(k) !in st.store
    case _ => true
  }

  /** A removal touches segments only after its meta removal has taken effect. */
  ghost predicate NoSweeper(w: Content, st: State) {
    forall pid :: pid in st.tasks && st.tasks[pid].k == w.k ==> !st.tasks[pid].Sweeping?
  }

  ghost predicate RunSpares(crc: Crc, st: State, steps: seq<Step>, k: Key)
    requires IsRun(crc, st, steps)
    decreases |steps|
  {
    steps == [] || (Spares(st, steps[0], k) && RunSpares(crc, Next(crc, st, steps[0]), steps[1..], k))
  }

  ghost predicate SparingRun(w: Content, st: State, steps: seq<Step>) {
    IsAddressedRun(w, st, steps) && RunSpares(w.crc, st, steps, w.k)
  }

  ghost predicate SparingStep(w: Content, st: State, step: Step) {
    Enabled(w.crc, st, step) && Addressed(w, step) && Spares(st, step, w.k)
  }

  ghost predicate SegsPresent(w: Content, s: Store) {
    w.plan.nseg > 1 ==> forall i: nat :: i < w.plan.nseg ==> SegRec(w.k, i) in s
  }

  ghost predicate Undisturbed(t: Task)
    requires t.ReadDone?
  {
    t.failed.None? && !t.lost
  }

  /** What a call on the key has achieved. */
  ghost predicate CommitTask(w: Content, s: Store, t: Task) {
    match t
    case Putting(_, _, _, _, _, acked) => forall i: nat :: i in acked && acked[i] ==> SegRec(w.k, i) in s
    case Committing(_, x) => x.u == MetaRec(w.k) && x.b.state == Some(Ready)
    case PutDone(_, ok) => ok ==> IsReady(s, w.k)
    case Reading(_, _, _, got, lost) =>
      && SegsPresent(w, s)
      && (!lost ==> forall i: nat :: i in got && i < w.plan.nseg && w.plan.nseg > 1 ==> got[i].Some?)
    case ReadDone(_, r, res, seen, _, _) => seen.Some? && Undisturbed(t) && Fits(w, r) ==> Delivers(w, res)
    case _ => true
  }

  /** Applied writes of `k` are stored. */
  ghost predicate AppliedWrites(w: Content, st: State) {
    && (forall x :: x in st.applied && x.u.ck == w.k ==> x.u in st.store)
    && (forall x :: x in st.applied && x.u == MetaRec(w.k) && x.b.state == Some(Ready) ==> IsReady(st.store, w.k))
  }

  /** Every write that may still make `k` ready was issued after all segments of `k` were stored. */
  ghost predicate CommitWrites(w: Content, st: State) {
    forall x :: x in st.issued && x.u == MetaRec(w.k) && x.b.state.Some? ==> SegsPresent(w, st.store)
  }

  ghost predicate ReadyComplete(w: Content, st: State) {
    IsReady(st.store, w.k) ==> SegsPresent(w, st.store)
  }

  ghost predicate CommitTasks(w: Content, st: State) {
    forall pid :: pid in st.tasks && st.tasks[pid].k == w.k ==> CommitTask(w, st.store, st.tasks[pid])
  }

  ghost predicate CommitInv(w: Content, st: State) {
    && Inv(w, st) && NoSweeper(w, st) && AppliedWrites(w, st) && CommitWrites(w, st) && ReadyComplete(w, st)
    && CommitTasks(w, st)
  }

  /** No record of `k` is lost, nor its readiness. */
  lemma SparedRecordsStay(w: Content, st: State, step: Step)
    requires Good(w) && RecordsOk(w, st) && NoSweeper(w, st) && SparingStep(w, st, step)
    ensures forall u :: u in st.store && u.ck == w.k ==> u in Next(w.crc, st, step).store
    ensures IsReady(st.store, w.k) ==> IsReady(Next(w.crc, st, step).store, w.k)
  {
  }

  lemma NextKeepsNoSweeper(w: Content, st: State, step: Step)
    requires NoSweeper(w, st) && SparingStep(w, st, step)
    ensures NoSweeper(w, Next(w.crc, st, step))
  {
  }

  lemma NextKeepsAppliedWrites(w: Content, st: State, step: Step)
    requires Good(w) && RecordsOk(w, st) && NoSweeper(w, st) && AppliedWrites(w, st) && SparingStep(w, st, step)
    ensures AppliedWrites(w, Next(w.crc, st, step))
  {
    SparedRecordsStay(w, st, step);
  }

  /** The meta write of a segmented put is issued only when all its segments have been acknowledged. */
  lemma EndBatchFindsSegs(w: Content, st: State, step: Step)
    requires CommitInv(w, st) && Enabled(w.crc, st, step) && step.EndBatch? && st.tasks[step.pid].k == w.k
    ensures var t := st.tasks[step.pid];
            && t.plan == w.plan
            && forall i: nat :: i < t.plan.nseg && t.acked[i] ==> SegRec(w.k, i) in st.store
  {
    assert TaskOk(w, st.tasks[step.pid]) && CommitTask(w, st.store, st.tasks[step.pid]);
  }

  lemma NextKeepsCommitWrites(w: Content, st: State, step: Step)
    requires Good(w) && CommitInv(w, st) && SparingStep(w, st, step)
    ensures CommitWrites(w, Next(w.crc, st, step))
  {
    SparedRecordsStay(w, st, step);
    if step.EndBatch? && st.tasks[step.pid].k == w.k {
      EndBatchFindsSegs(w, st, step);
    }
  }

  lemma NextKeepsReadyComplete(w: Content, st: State, step: Step)
    requires Good(w) && CommitInv(w, st) && SparingStep(w, st, step)
    ensures ReadyComplete(w, Next(w.crc, st, step))
  {
    SparedRecordsStay(w, st, step);
    if IsReady(Next(w.crc, st, step).store, w.k) && !IsReady(st.store, w.k) {
      assert step.Apply? && step.x.u == MetaRec(w.k) && step.x.b.state.Some?;
    }
  }

  /** A task that the step leaves alone keeps its promise. */
  lemma OtherTasksKeepCommit(w: Content, st: State, step: Step, t: Task)
    requires Good(w) && RecordsOk(w, st) && NoSweeper(w, st) && SparingStep(w, st, step)
    requires CommitTask(w, st.store, t)
    ensures CommitTask(w, Next(w.crc, st, step).store, t)
  {
    SparedRecordsStay(w, st, step);
  }

  lemma EndGetKeepsCommit(w: Content, st: State, pid: Pid)
    requires Good(w) && Inv(w, st) && Enabled(w.crc, st, EndGet(pid))
    requires st.tasks[pid].k == w.k && CommitTask(w, st.store, st.tasks[pid])
    ensures CommitTask(w, st.store, Next(w.crc, st, EndGet(pid)).tasks[pid])
  {
    var t := st.tasks[pid];
    assert TaskOk(w, t);
    EndingIsSafe(w, t);
    if Fits(w, t.r) && !t.lost {
      AllReadsPresent(w, t);
    }
  }

  lemma AllReadsPresent(w: Content, t: Task)
    requires Good(w) && t.Reading? && TaskOk(w, t) && Fits(w, t.r)
    requires forall i: nat :: i < SegsNeeded(t.r, t.meta) ==> i in t.got
    requires forall i: nat :: i in t.got && i < w.plan.nseg && w.plan.nseg > 1 ==> t.got[i].Some?
    ensures AllPresent(Collected(t.got, SegsNeeded(t.r, t.meta)), 0)
  {
    SegsNeededAre(w, t.r, t.meta);
  }

  lemma SegsNeededAre(w: Content, r: Reader, meta: Bins)
    requires Good(w) && FullMeta(w, meta) && Fits(w, r)
    ensures SegsNeeded(r, meta) == if w.plan.nseg > 1 then w.plan.nseg else 0
  {
    if r.Native? {
      SmallMod(w.plan.nseg, UINT32);
    }
  }

  lemma AckKeepsCommit(w: Content, st: State, step: Step)
    requires AppliedWrites(w, st) && Enabled(w.crc, st, step) && (step.AckSeg? || step.AckMeta?)
    requires st.tasks[step.pid].k == w.k && CommitTask(w, st.store, st.tasks[step.pid])
    ensures CommitTask(w, st.store, Next(w.crc, st, step).tasks[step.pid])
  {
  }

  lemma ReadSegKeepsCommit(w: Content, st: State, step: Step)
    requires Enabled(w.crc, st, step) && step.ReadSeg?
    requires st.tasks[step.pid].k == w.k && CommitTask(w, st.store, st.tasks[step.pid])
    ensures CommitTask(w, st.store, Next(w.crc, st, step).tasks[step.pid])
  {
  }

  /** A step that needs neither an acknowledgement nor the result of a read. */
  predicate StartsOrEnds(step: Step) {
    !step.AckSeg? && !step.AckMeta? && !step.ReadSeg? && !step.EndGet?
  }

  /** All other tasks that move have nothing to remember: a get starts with a complete key. */
  lemma OtherMovesKeepCommit(w: Content, st: State, step: Step, pid: Pid)
    requires ReadyComplete(w, st) && Enabled(w.crc, st, step) && StartsOrEnds(step)
    requires pid in Next(w.crc, st, step).tasks && Next(w.crc, st, step).tasks[pid].k == w.k
    requires pid in st.tasks ==> Next(w.crc, st, step).tasks[pid] != st.tasks[pid]
    ensures CommitTask(w, st.store, Next(w.crc, st, step).tasks[pid])
  {
  }

  /** The task a step moves keeps its promise, on the store as it was. */
  lemma MovedTaskKeepsCommit(w: Content, st: State, step: Step, pid: Pid)
    requires Good(w) && Inv(w, st) && AppliedWrites(w, st) && ReadyComplete(w, st) && Enabled(w.crc, st, step)
    requires pid in Next(w.crc, st, step).tasks && Next(w.crc, st, step).tasks[pid].k == w.k
    requires pid in st.tasks ==> Next(w.crc, st, step).tasks[pid] != st.tasks[pid]
    requires pid in st.tasks ==> st.tasks[pid].k == w.k && CommitTask(w, st.store, st.tasks[pid])
    ensures CommitTask(w, st.store, Next(w.crc, st, step).tasks[pid])
  {
    if step.AckSeg? || step.AckMeta? {
      AckKeepsCommit(w, st, step);
    } else if step.ReadSeg? {
      ReadSegKeepsCommit(w, st, step);
    } else if step.EndGet? {
      EndGetKeepsCommit(w, st, pid);
    } else {
      OtherMovesKeepCommit(w, st, step, pid);
    }
  }

  lemma NextKeepsCommitTasks(w: Content, st: State, step: Step)
    requires Good(w) && CommitInv(w, st) && SparingStep(w, st, step)
    ensures CommitTasks(w, Next(w.crc, st, step))
  {
    var st' := Next(w.crc, st, step);
    forall pid | pid in st'.tasks && st'.tasks[pid].k == w.k ensures CommitTask(w, st'.store, st'.tasks[pid]) {
      if !(pid in st.tasks && st'.tasks[pid] == st.tasks[pid]) {
        if pid in st.tasks {
          TaskKeepsItsKey(w.crc, st, step, pid);
        }
        MovedTaskKeepsCommit(w, st, step, pid);
      }
      OtherTasksKeepCommit(w, st, step, st'.tasks[pid]);
    }
  }

  lemma NextKeepsCommitInv(w: Content, st: State, step: Step)
    requires Good(w) && CommitInv(w, st) && SparingStep(w, st, step)
    ensures CommitInv(w, Next(w.crc, st, step))
  {
    NextKeepsInv(w, st, step);
    NextKeepsNoSweeper(w, st, step);
    NextKeepsAppliedWrites(w, st, step);
    NextKeepsCommitWrites(w, st, step);
    NextKeepsReadyComplete(w, st, step);
    NextKeepsCommitTasks(w, st, step);
  }

  lemma {:induction false} ExecKeepsCommitInv(w: Content, st: State, steps: seq<Step>)
    requires Good(w) && CommitInv(w, st) && SparingRun(w, st, steps)
    ensures CommitInv(w, Exec(w.crc, st, steps))
    decreases |steps|
  {
    if steps != [] {
      NextKeepsCommitInv(w, st, steps[0]);
      ExecKeepsCommitInv(w, Next(w.crc, st, steps[0]), steps[1..]);
    }
  }

  /** The gets of `k` that are finished in `st` but were not in `st0` found the meta record, or failed to read it. */
  ghost predicate LaterGetsSaw(w: Content, st0: State, st: State) {
    forall pid :: pid in st.tasks && UnseeingGet(st.tasks[pid], w.k) ==>
      pid in st0.tasks && st0.tasks[pid] == st.tasks[pid]
  }

  predicate UnseeingGet(t: Task, k: Key) {
    t.ReadDone? && t.k == k && t.seen.None? && t.failed.None?
  }

  /** While `k` is ready, no step ends a get of `k` in this way. */
  lemma UnseeingGetIsOld(w: Content, st: State, step: Step, pid: Pid)
    requires Enabled(w.crc, st, step) && IsReady(st.store, w.k)
    requires var st' := Next(w.crc, st, step); pid in st'.tasks && UnseeingGet(st'.tasks[pid], w.k)
    ensures pid in st.tasks && st.tasks[pid] == Next(w.crc, st, step).tasks[pid]
  {
  }

  lemma NextKeepsLaterGets(w: Content, st0: State, st: State, step: Step)
    requires Enabled(w.crc, st, step) && IsReady(st.store, w.k) && LaterGetsSaw(w, st0, st)
    ensures LaterGetsSaw(w, st0, Next(w.crc, st, step))
  {
    var st' := Next(w.crc, st, step);
    forall pid | pid in st'.tasks && UnseeingGet(st'.tasks[pid], w.k)
      ensures pid in st0.tasks && st0.tasks[pid] == st'.tasks[pid]
    {
      UnseeingGetIsOld(w, st, step, pid);
    }
  }

  lemma {:induction false} ReadyPersists(w: Content, st0: State, st: State, steps: seq<Step>)
    requires Good(w) && Inv(w, st) && NoSweeper(w, st) && SparingRun(w, st, steps)
    requires IsReady(st.store, w.k) && LaterGetsSaw(w, st0, st)
    ensures IsReady(Exec(w.crc, st, steps).store, w.k) && LaterGetsSaw(w, st0, Exec(w.crc, st, steps))
    decreases |steps|
  {
    if steps != [] {
      NextKeepsInv(w, st, steps[0]);
      NextKeepsNoSweeper(w, st, steps[0]);
      SparedRecordsStay(w, st, steps[0]);
      NextKeepsLaterGets(w, st0, st, steps[0]);
      ReadyPersists(w, st0, Next(w.crc, st, steps[0]), steps[1..]);
    }
  }

  /** Meta-last commit: in every run that takes no record of the key away, a ready meta record means that all
      segments are there. All puts of the key carry the same; other keys and all reads are free. */
  lemma ReadyImpliesComplete(w: Content, steps: seq<Step>)
    requires Good(w) && SparingRun(w, INIT, steps) && IsReady(Exec(w.crc, INIT, steps).store, w.k)
    ensures SegsPresent(w, Exec(w.crc, INIT, steps).store)
  {
    ExecKeepsCommitInv(w, INIT, steps);
  }

  /** A put that has reported success is visible and complete, whatever its server did and in whatever order. */
  lemma ReportedPutIsVisible(w: Content, steps: seq<Step>, pid: Pid)
    requires Good(w) && SparingRun(w, INIT, steps)
    requires var st := Exec(w.crc, INIT, steps); pid in st.tasks && st.tasks[pid] == PutDone(w.k, true)
    ensures var s := Exec(w.crc, INIT, steps).store; IsReady(s, w.k) && SegsPresent(w, s)
  {
    ExecKeepsCommitInv(w, INIT, steps);
    var st := Exec(w.crc, INIT, steps);
    assert CommitTask(w, st.store, st.tasks[pid]);
  }

  /** A get that has seen the meta record delivers, if its buffer fits and none of its own reads failed. */
  lemma SeeingGetDelivers(w: Content, steps: seq<Step>, pid: Pid)
    requires Good(w) && SparingRun(w, INIT, steps)
    requires var st := Exec(w.crc, INIT, steps);
             && pid in st.tasks && st.tasks[pid].ReadDone?
             && var t := st.tasks[pid];
             && t.k == w.k && t.seen.Some? && Undisturbed(t) && Fits(w, t.r)
    ensures Delivers(w, Exec(w.crc, INIT, steps).tasks[pid].res)
  {
    ExecKeepsCommitInv(w, INIT, steps);
    var st := Exec(w.crc, INIT, steps);
    assert CommitTask(w, st.store, st.tasks[pid]);
  }

  /** Once visible, always delivered: after `before` the key is ready; every get of it that ends in `after`, with a
      buffer that fits and none of its own reads failed, returns the payload. Other keys may be removed and
      expire, and other gets may fail. */
  lemma VisibleKeysHit(w: Content, before: seq<Step>, after: seq<Step>, pid: Pid)
    requires Good(w) && SparingRun(w, INIT, before) && SparingRun(w, Exec(w.crc, INIT, before), after)
    requires IsReady(Exec(w.crc, INIT, before).store, w.k)
    requires var st0, st := Exec(w.crc, INIT, before), Exec(w.crc, Exec(w.crc, INIT, before), after);
             && pid in st.tasks && st.tasks[pid].ReadDone? && (pid in st0.tasks ==> st0.tasks[pid] != st.tasks[pid])
             && var t := st.tasks[pid];
             && t.k == w.k && Undisturbed(t) && Fits(w, t.r)
    ensures Delivers(w, Exec(w.crc, Exec(w.crc, INIT, before), after).tasks[pid].res)
  {
    ExecKeepsCommitInv(w, INIT, before);
    var st0 := Exec(w.crc, INIT, before);
    ExecKeepsCommitInv(w, st0, after);
    var st := Exec(w.crc, st0, after);
    assert CommitTask(w, st.store, st.tasks[pid]);
    ReadyPersists(w, st0, st0, after);
  }

  // ---- What single calls achieve ----

  /** A removal that finds the key knows its layout, and once its meta removal has taken effect it may remove every
      segment of it. */
  lemma RemovalKnowsLayout(w: Content, st: State, pid: Pid, i: nat)
    requires Good(w) && Inv(w, st) && IsReady(st.store, w.k) && !At(st, pid) && i < w.plan.nseg
    ensures var st1 := Next(w.crc, st, StartRemove(pid, w.k, false));
            var st2 := Next(w.crc, st1, RemoveMeta(pid, true));
            && MetaRec(w.k) !in st2.store && st2.tasks[pid] == Sweeping(w.k, w.plan.nseg)
            && Enabled(w.crc, st2, SweepSeg(pid, i))
            && SegRec(w.k, i) !in Next(w.crc, st2, SweepSeg(pid, i)).store
  {
  }

  /** A pin or unpin, when applied, sets the pin bin and changes nothing else, if there is a record or not. */
  lemma PinTakesEffect(crc: Crc, st: State, k: Key, value: bool)
    ensures var st1 := Next(crc, st, IssuePin(k, value));
            var x := Write(MetaRec(k), NO_BINS.(pin := Some(value)));
            && Enabled(crc, st1, Apply(x))
            && Next(crc, st1, Apply(x)).store
               == st.store[MetaRec(k) := BinsOf(st.store, MetaRec(k)).(pin := Some(value))]
  {
  }

  // ---- Both planners give good layouts ----

  lemma PythonLayoutIsGood(k: Key, p: bytes, plan: ShardPlan, crc: Crc, lim: SegmentLimits)
    requires Plan(|p|, lim) == Ok(plan)
    ensures Good(Content(k, p, plan, crc))
  {
    PlanBounds(|p|, lim);
  }

  lemma NativeLayoutIsGood(k: Key, p: bytes, plan: ShardPlan, crc: Crc, nlim: NativeLimits)
    requires Plannable(|p|, nlim) && NativePlan(|p|, nlim.target, nlim.max) == Ok(plan)
    ensures Good(Content(k, p, plan, crc))
  {
    NativeLayoutIsValid(|p|, nlim);
  }
}
