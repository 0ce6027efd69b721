/** AerospikeStorageEngine, one client call at a time, under any failures. */
module EngineClass {
  import opened Common
  import opened Sharding
  import opened Records
  import opened Engine
  import opened Client

  datatype PutResult = PutOk | PutConfigError | PutRefused | PutFailed

  datatype RemoveResult = Removed | Absent | RemoveFailed

  /** How a put ends after a client call, and after a record of its segment batch, with status `st`. */
  function CallVerdict(st: Status): PutResult {
    if st.Done? then PutOk else if st.Refused? || st.Rejected? then PutRefused else PutFailed
  }

  function RecordVerdict(st: Status): PutResult {
    if st.Done? then PutOk else if st.Refused? then PutRefused else PutFailed
  }

  /** The status that has decided a put: of a call, or of a record in a batch. */
  datatype Cause = OfCall(st: Status) | OfRecord(st: Status)

  function Verdict(c: Cause): PutResult {
    match c
    case OfCall(st) => CallVerdict(st)
    case OfRecord(st) => RecordVerdict(st)
  }

  /** What `exists` makes of the status of its read; None for a raised error. */
  function ExistsVerdict(st: Status): Option<bool> {
    if st.Done? then Some(true) else if st.NotFound? || st.Timeout? then Some(false) else None
  }

  /** Which failures are told apart, and how: a put refuses what the operator can act on and lets everything else
      escape, a size rejection too if only a record reports it; `exists` hides timeouts and nothing else. */
  lemma FailureTable(st: Status)
    ensures CallVerdict(st).PutOk? <==> st == Done
    ensures CallVerdict(st).PutRefused? <==> st in {Refused, Rejected}
    ensures RecordVerdict(st) == if st == Rejected then PutFailed else CallVerdict(st)
    ensures ExistsVerdict(st) == Some(false) <==> st in {NotFound, Timeout}
    ensures ExistsVerdict(st).None? <==> st in {Refused, Rejected, Failed}
    ensures MetaVerdict(st) == Miss <==> st !in {Refused, Rejected, Failed}
    ensures SegsVerdict(st) == if st == Timeout then TimedOutReleased else RaisedReleased
  {
  }

  /** What `get` makes of a failed read of the meta record, and of the segments. */
  function MetaVerdict(st: Status): GetOutcome {
    if st.Refused? || st.Rejected? || st.Failed? then Raised else Miss
  }

  function SegsVerdict(st: Status): GetOutcome {
    if st.Timeout? then TimedOutReleased else RaisedReleased
  }

  /** What the client reported to a get: for the meta record, for the segment read, and the records of that. */
  datatype Report = Report(meta: Status, segs: Status, found: seq<Option<Bins>>)

  /** The segment writes of a put, as a batch. */
  function SegBatch(crc: Crc, crcOn: bool, k: Key, p: bytes, segB: nat, n: nat): (ws: seq<KeyedWrite>)
    ensures |ws| == n
    ensures forall i :: 0 <= i < n ==> ws[i] == KeyedWrite(SegRec(k, i), SegBins(crc, crcOn, Cut(p, i, segB)))
  {
    if n == 0 then []
    else
      SegBatch(crc, crcOn, k, p, segB, n - 1)
      + [KeyedWrite(SegRec(k, n - 1), SegBins(crc, crcOn, Cut(p, n - 1, segB)))]
  }

  /** Some of the segment writes of a put have been performed, and nothing else. */
  ghost predicate PartlyWritten(crc: Crc, crcOn: bool, s: Store, s': Store, k: Key, p: bytes, plan: ShardPlan) {
    exists mask: seq<bool> :: |mask| == plan.nseg
      && s' == ApplyMask(s, SegBatch(crc, crcOn, k, p, plan.segB, plan.nseg), mask, plan.nseg)
  }

  lemma {:induction false} AppliedBatchIsWriteSegs(crc: Crc, crcOn: bool, s: Store, k: Key, p: bytes, segB: nat,
                                                   ws: seq<KeyedWrite>, mask: seq<bool>, n: nat)
    requires n <= |ws| == |mask| && forall i :: 0 <= i < n ==> mask[i]
    requires forall i :: 0 <= i < n ==> ws[i] == KeyedWrite(SegRec(k, i), SegBins(crc, crcOn, Cut(p, i, segB)))
    ensures ApplyMask(s, ws, mask, n) == WriteSegs(crc, crcOn, s, k, p, segB, n)
  {
    if n > 0 {
      AppliedBatchIsWriteSegs(crc, crcOn, s, k, p, segB, ws, mask, n - 1);
    }
  }

  /** Pin writes, as a batch: the order in which they are applied cannot matter. */
  function PinBatch(ks: seq<Key>): (ws: seq<KeyedWrite>)
    ensures |ws| == |ks| && forall i :: 0 <= i < |ks| ==> ws[i] == KeyedWrite(MetaRec(ks[i]), PIN_BIN)
  {
    if ks == [] then [] else PinBatch(ks[..|ks| - 1]) + [KeyedWrite(MetaRec(ks[|ks| - 1]), PIN_BIN)]
  }

  lemma {:induction false} AppliedPinsArePins(s: Store, ks: seq<Key>, ws: seq<KeyedWrite>, mask: seq<bool>, n: nat)
    requires n <= |ks| == |ws| == |mask| && forall i :: 0 <= i < n ==> mask[i]
    requires forall i :: 0 <= i < |ks| ==> ws[i] == KeyedWrite(MetaRec(ks[i]), PIN_BIN)
    ensures ApplyMask(s, ws, mask, n) == PinKeysStore(s, ks[..n])
  {
    if n > 0 {
      AppliedPinsArePins(s, ks, ws, mask, n - 1);
      assert ks[..n][..n - 1] == ks[..n - 1];
    }
  }

  /** `write_payload_into`: all or nothing. */
  method WritePayloadInto(mo: MemoryObj, payload: bytes, offset: nat) returns (ok: bool)
    modifies mo.data
    ensures ok <==> offset + |payload| <= mo.data.Length
    ensures ok ==> mo.data[..] == old(mo.data[..offset]) + payload + old(mo.data[offset + |payload|..])
    ensures !ok ==> mo.data[..] == old(mo.data[..])
  {
    var end := offset + |payload|;
    if end > mo.data.Length {
      return false;
    }
    forall j | 0 <= j < |payload| {
      mo.data[offset + j] := payload[j];
    }
    return true;
  }

  /** The loop over batch-read segments, in order. */
  method CopySegments(mo: MemoryObj, rs: seq<Option<Bins>>) returns (out: GetOutcome, totalWritten: nat)
    modifies mo, mo.data
    ensures out == Gather(rs, 0, [], mo.data.Length)
    ensures out.Hit? ==> totalWritten == |out.data| <= mo.data.Length && mo.data[..totalWritten] == out.data
    ensures out.Hit? ==> mo.data[totalWritten..] == old(mo.data[..])[totalWritten..]
    ensures mo.refs == old(mo.refs) - if out.Hit? then 0 else 1
  {
    totalWritten := 0;
    assert mo.data[..0] == [];
    for i := 0 to |rs|
      invariant totalWritten <= mo.data.Length && mo.refs == old(mo.refs)
      invariant mo.data[totalWritten..] == old(mo.data[..])[totalWritten..]
      invariant Gather(rs, 0, [], mo.data.Length) == Gather(rs, i, mo.data[..totalWritten], mo.data.Length)
    {
      if rs[i].None? {
        mo.RefCountDown();
        return MissReleased, totalWritten;
      }
      if rs[i].value.b.None? {
        mo.RefCountDown();
        return RaisedReleased, totalWritten;
      }
      var chunk := rs[i].value.b.value;
      ghost var acc := mo.data[..totalWritten];
      var ok := WritePayloadInto(mo, chunk, totalWritten);
      if !ok {
        mo.RefCountDown();
        return RaisedReleased, totalWritten;
      }
      totalWritten := totalWritten + |chunk|;
      assert mo.data[..totalWritten] == acc + chunk;
    }
    return Hit(mo.data[..totalWritten]), totalWritten;
  }

  lemma {:induction false} GatherHitSawAll(rs: seq<Option<Bins>>, i: nat, acc: bytes, cap: nat)
    requires i <= |rs| && Gather(rs, i, acc, cap).Hit?
    ensures AllPresent(rs, i)
    decreases |rs| - i
  {
    if i < |rs| {
      GatherHitSawAll(rs, i + 1, acc + rs[i].value.b.value, cap);
    }
  }

  /** A pin write that may or may not have been performed. */
  ghost predicate MaskedPin(s: Store, s': Store, u: UserKey) {
    Lookup(s', u) == Lookup(s, u) || Lookup(s', u) == Some(Merge(BinsOf(s, u), PIN_BIN))
  }

  lemma {:induction false} AppliedPinsAt(s: Store, ws: seq<KeyedWrite>, mask: seq<bool>, n: nat, u: UserKey)
    requires n <= |ws| == |mask| && forall i :: 0 <= i < |ws| ==> ws[i].b == PIN_BIN
    ensures MaskedPin(s, ApplyMask(s, ws, mask, n), u)
  {
    if n > 0 {
      AppliedPinsAt(s, ws, mask, n - 1, u);
    }
  }

  lemma OnePinOrNone(s: Store, s': Store, k: Key)
    requires MetaRec(k) in s && MaskedPin(s, s', MetaRec(k))
    requires forall u :: u != MetaRec(k) ==> Lookup(s', u) == Lookup(s, u)
    ensures s' == s || s' == PinStore(s, k).1
  {
    PinsExactly(s, k);
    if Lookup(s', MetaRec(k)) == Lookup(s, MetaRec(k)) {
      SameLookups(s, s');
    } else {
      SameLookups(s[MetaRec(k) := s[MetaRec(k)].(pin := Some(true))], s');
    }
  }

  /** The meta record and the segments it announces, if there are several. */
  function RemoveFootprint(s: Store, k: Key): set<UserKey> {
    {MetaRec(k)} + if MetaRec(k) in s then SegKeys(k, SegCount(s[MetaRec(k)])) else {}
  }

  class StorageEngine {
    const client: RecordStore
    const cfg: Config
    const crc: Crc
    /** The allocator: the size of a full chunk, and which sizes it has memory for. */
    const full: nat
    const free: nat -> bool

    constructor (client: RecordStore, cfg: Config, crc: Crc, full: nat, free: nat -> bool)
      ensures this.client == client && this.cfg == cfg && this.crc == crc && this.full == full && this.free == free
    {
      this.client, this.cfg, this.crc, this.full, this.free := client, cfg, crc, full, free;
    }

    /** `exists`; None for a raised error. A timeout counts as absent. */
    method Exists(k: Key) returns (r: Option<bool>, ghost st: Status)
      ensures r == ExistsVerdict(st) && (st.Done? ==> MetaRec(k) in client.recs)
      ensures st.NotFound? ==> MetaRec(k) !in client.recs
      ensures client.reliable ==> r == Some(MetaRec(k) in client.recs)
      ensures r == Some(true) ==> MetaRec(k) in client.recs
    {
      var status, bins := client.Get(MetaRec(k));
      st := status;
      match status
      case Done => r := Some(true);
      case NotFound => r := Some(false);
      case Timeout => r := Some(false);
      case _ => r := None;
    }

    /** Segments first; the meta record only after every segment reported success. */
    method Put(k: Key, view: bytes, pinned: bool) returns (r: PutResult, ghost cause: Cause)
      modifies client
      ensures Plan(|view|, cfg.lim).Ok? ==> r == Verdict(cause)
      ensures r.PutOk? ==> PutStore(crc, cfg, old(client.recs), k, view, pinned) == Ok(client.recs)
      ensures r.PutConfigError? <==> Plan(|view|, cfg.lim).Err?
      ensures r.PutConfigError? ==> client.recs == old(client.recs)
      ensures client.reliable ==> r.PutOk? || r.PutConfigError?
      ensures SameElsewhere(old(client.recs), client.recs, k)
      // a put that fails has changed nothing but segments, or has stored everything
      ensures Lookup(client.recs, MetaRec(k)) == Lookup(old(client.recs), MetaRec(k))
              || PutStore(crc, cfg, old(client.recs), k, view, pinned) == Ok(client.recs)
      ensures || client.recs == old(client.recs)
              || PutStore(crc, cfg, old(client.recs), k, view, pinned) == Ok(client.recs)
              || PartlyWritten(crc, cfg.opts.crcOn, old(client.recs), client.recs, k, view, Plan(|view|, cfg.lim).value)
      ensures AllUsable(old(client.recs)) ==> AllUsable(client.recs)
    {
      var planned := Plan(|view|, cfg.lim);
      if planned.Err? {
        return PutConfigError, OfCall(Done);
      }
      var p := planned.value;
      var mbins := MetaBins(crc, cfg.opts, p, view, pinned);
      assert MetaWriteOk(mbins);
      if p.nseg == 1 {
        var st := client.Put(MetaRec(k), mbins);
        return CallVerdict(st), OfCall(st);
      }
      r, cause := PutSegments(k, view, p);
      if r.PutOk? {
        var st := client.Put(MetaRec(k), mbins);
        return CallVerdict(st), OfCall(st);
      }
    }

    /** The segment batch; success only if every record reported success. */
    method PutSegments(k: Key, view: bytes, p: ShardPlan) returns (r: PutResult, ghost cause: Cause)
      modifies client
      ensures r == Verdict(cause)
      ensures r.PutOk? ==> client.recs == WriteSegs(crc, cfg.opts.crcOn, old(client.recs), k, view, p.segB, p.nseg)
      ensures AllUsable(old(client.recs)) ==> AllUsable(client.recs)
      ensures PartlyWritten(crc, cfg.opts.crcOn, old(client.recs), client.recs, k, view, p)
      ensures !r.PutConfigError? && (client.reliable ==> r.PutOk?)
      ensures SameElsewhere(old(client.recs), client.recs, k)
      ensures Lookup(client.recs, MetaRec(k)) == Lookup(old(client.recs), MetaRec(k))
    {
      ghost var s0 := client.recs;
      var writes: seq<KeyedWrite> := [];
      for i := 0 to p.nseg
        invariant |writes| == i
        invariant forall j :: 0 <= j < i ==>
            writes[j] == KeyedWrite(SegRec(k, j), SegBins(crc, cfg.opts.crcOn, Cut(view, j, p.segB)))
      {
        var start := i * p.segB;
        var chunk := PySlice(view, start, start + p.segB);
        writes := writes + [KeyedWrite(SegRec(k, i), SegBins(crc, cfg.opts.crcOn, chunk))];
      }
      assert writes == SegBatch(crc, cfg.opts.crcOn, k, view, p.segB, p.nseg);
      var st, results, mask := client.BatchWrite(writes);
      if AllUsable(s0) {
        ApplyMaskKeepsUsable(s0, writes, mask, |writes|);
      }
      assert forall u: UserKey :: u.ck != k ==> !Owns(writes, u.ck);
      ApplyMaskFrame(s0, writes, mask, |writes|, MetaRec(k));
      if !st.Done? {
        return CallVerdict(st), OfCall(st);
      }
      for i := 0 to |results|
        invariant forall j :: 0 <= j < i ==> results[j].Done?
      {
        if !results[i].Done? {
          return RecordVerdict(results[i]), OfRecord(results[i]);
        }
      }
      AppliedBatchIsWriteSegs(crc, cfg.opts.crcOn, s0, k, view, p.segB, writes, mask, |writes|);
      return PutOk, OfCall(st);
    }

    method AllocateForRead(meta: Bins) returns (mo: MemoryObj?)
      ensures mo != null <==> free(AllocSize(cfg.opts.saveMd, full, meta))
      ensures mo != null ==>
                fresh(mo) && fresh(mo.data) && mo.data.Length == AllocSize(cfg.opts.saveMd, full, meta) && mo.refs == 1
    {
      var size := AllocSize(cfg.opts.saveMd, full, meta);
      if free(size) {
        mo := new MemoryObj(size);
      } else {
        mo := null;
      }
    }

    /** The buffer a get uses when it finds `meta`. */
    ghost function SourceOf(preallocated: MemoryObj?, meta: Bins): Source {
      if preallocated != null then Preallocated(preallocated.data.Length)
      else Allocator(cfg.opts.saveMd, full, free(AllocSize(cfg.opts.saveMd, full, meta)))
    }

    /** What `get` computes on the current store. */
    ghost function GetSpec(k: Key, preallocated: MemoryObj?): GetOutcome
      reads client
    {
      GetStore(crc, cfg.opts.crcOn, client.recs, k, SourceOf(preallocated, BinsOf(client.recs, MetaRec(k))))
    }

    /** Outcomes a failing client call may cause instead of the specified one: before there is a buffer, or in the
        segment read of a ready record. A single record is read in one call and leaves no such choice. */
    ghost predicate Faulty(k: Key, out: GetOutcome)
      reads client
    {
      && !client.reliable
      && (|| out.Miss? || out.Raised?
          || ((out.MissReleased? || out.RaisedReleased? || out.TimedOutReleased?)
              && IsReady(client.recs, k) && client.recs[MetaRec(k)].nseg != Some(1)))
    }

    /** A report that can come from the current store: with no faults, everything is read as it is. */
    ghost predicate Reported(k: Key, rep: Report)
      reads client
    {
      && (rep.meta.Done? ==> MetaRec(k) in client.recs)
      && (rep.meta.NotFound? ==> MetaRec(k) !in client.recs)
      && (rep.meta.Done? ==> ReadsOf(k, client.recs[MetaRec(k)], rep))
      && (client.reliable ==> rep.meta.Done? || rep.meta.NotFound?)
    }

    ghost predicate ReadsOf(k: Key, meta: Bins, rep: Report)
      reads client
    {
      && |rep.found| == SegCount(meta)
      && (forall i :: 0 <= i < |rep.found| && rep.found[i].Some? ==> rep.found[i] == Lookup(client.recs, SegRec(k, i)))
      && (client.reliable ==> rep.segs.Done? && rep.found == SegReads(client.recs, k, SegCount(meta)))
    }

    /** The outcome a report leads to, under any faults. */
    ghost function OutcomeOf(k: Key, preallocated: MemoryObj?, rep: Report): GetOutcome
      requires Reported(k, rep)
      reads client
    {
      if !rep.meta.Done? then MetaVerdict(rep.meta)
      else
        var meta := client.recs[MetaRec(k)];
        var cap := Capacity(SourceOf(preallocated, meta), meta);
        if meta.state == Some(Ready) && meta.nseg.Some? && meta.nseg != Some(1) && cap.Some? && !rep.segs.Done? then
          SegsVerdict(rep.segs)
        else FinishGet(crc, cfg.opts.crcOn, meta, rep.found, cap)
    }

    /** The part of `get` that owns a buffer: the outcome is the one its reads lead to. */
    method ReadInto(k: Key, bins: Bins, mo: MemoryObj) returns (out: GetOutcome, ghost rep: Report)
      requires bins.state == Some(Ready) && bins.nseg.Some?
      modifies mo, mo.data
      ensures rep.meta.Done? && ReadsOf(k, bins, rep)
      ensures out == if bins.nseg != Some(1) && !rep.segs.Done? then SegsVerdict(rep.segs)
                     else FinishGet(crc, cfg.opts.crcOn, bins, rep.found, Some(mo.data.Length))
      ensures client.reliable || out.Hit? || bins.nseg == Some(1) ==>
                out == FinishGet(crc, cfg.opts.crcOn, bins, SegReads(client.recs, k, SegCount(bins)),
                                 Some(mo.data.Length))
      ensures bins.nseg != Some(1) ==>
                out.Hit? || out.MissReleased? || out.RaisedReleased? || (out.TimedOutReleased? && !client.reliable)
      ensures !out.Miss? && !out.Raised?
      ensures out.Hit? ==> |out.data| <= mo.data.Length && mo.data[..|out.data|] == out.data
      ensures out.Hit? ==> mo.data[|out.data|..] == old(mo.data[..])[|out.data|..]
      ensures mo.refs == old(mo.refs) - if out.Hit? || out.MissLeaked? then 0 else 1
    {
      var totalWritten := 0;
      var nseg := bins.nseg.value;
      rep := Report(Done, Done, SegReads(client.recs, k, SegCount(bins)));
      if nseg == 1 {
        if bins.b.None? {
          return MissLeaked, rep;
        }
        var ok := WritePayloadInto(mo, bins.b.value, 0);
        if !ok {
          mo.RefCountDown();
          return RaisedReleased, rep;
        }
        totalWritten := |bins.b.value|;
        assert mo.data[..totalWritten] == bins.b.value;
      } else {
        var us: seq<UserKey> := seq(SegCount(bins), i requires 0 <= i => SegRec(k, i));
        var st, rs := client.BatchRead(us);
        if !st.Done? {
          rep := rep.(segs := st);
          mo.RefCountDown();
          return if st.Timeout? then TimedOutReleased else RaisedReleased, rep;
        }
        rep := rep.(found := rs);
        assert client.reliable ==> rs == SegReads(client.recs, k, SegCount(bins));
        out, totalWritten := CopySegments(mo, rs);
        if out.Hit? {
          GatherHitSawAll(rs, 0, [], mo.data.Length);
          assert rs == SegReads(client.recs, k, SegCount(bins));
        }
        if !out.Hit? {
          return;
        }
      }
      var data := mo.data[..totalWritten];
      if cfg.opts.crcOn && bins.crc32.Some? && crc(data) != bins.crc32.value {
        mo.RefCountDown();
        return MissReleased, rep;
      }
      return Hit(data), rep;
    }

    /** `buf` is the buffer the call worked on, `mo` what it returns, `rep` what the client reported. */
    method Get(k: Key, preallocated: MemoryObj?)
      returns (out: GetOutcome, mo: MemoryObj?, ghost buf: MemoryObj?, ghost rep: Report)
      modifies BufferFrame(preallocated)
      ensures Reported(k, rep) && out == OutcomeOf(k, preallocated, rep)
      ensures out == GetSpec(k, preallocated) || Faulty(k, out)
      ensures mo == (if out.Hit? then buf else null)
      ensures buf == null <==> out.Miss? || out.Raised?
      ensures buf != null ==> if preallocated == null then fresh(buf) && fresh(buf.data) else buf == preallocated
      // the payload is at the front of the buffer, the rest is as it was
      ensures out.Hit? ==> |out.data| <= mo.data.Length && mo.data[..|out.data|] == out.data
      ensures preallocated != null && out.Hit? ==>
                preallocated.data[|out.data|..] == old(preallocated.data[..])[|out.data|..]
      // reference counting: never released when returned, else exactly once, but for one kind of meta record
      ensures buf != null ==>
                buf.refs == (if preallocated == null then 1 else old(preallocated.refs))
                            - (if out.Hit? || out.MissLeaked? then 0 else 1)
      ensures preallocated != null && buf == null ==>
                preallocated.refs == old(preallocated.refs) && preallocated.data[..] == old(preallocated.data[..])
      ensures out.MissLeaked? ==> MetaRec(k) in client.recs && !Usable(client.recs[MetaRec(k)])
      ensures AllUsable(client.recs) && buf != null && !out.Hit? ==>
                buf.refs == (if preallocated == null then 1 else old(preallocated.refs)) - 1
    {
      var st, bins := client.Get(MetaRec(k));
      rep := Report(st, Done, SegReads(client.recs, k, SegCount(bins)));
      if !st.Done? {
        return (if st.NotFound? || st.Timeout? then Miss else Raised), null, null, rep;
      }
      if bins.state != Some(Ready) {
        return Miss, null, null, rep;
      }
      if bins.nseg.None? {
        return Raised, null, null, rep;
      }
      var m := preallocated;
      if m == null {
        m := AllocateForRead(bins);
      }
      if m == null {
        return Miss, null, null, rep;
      }
      out, rep := ReadInto(k, bins, m);
      return out, if out.Hit? then m else null, m, rep;
    }

    /** `pin_keys`: failures are logged and dropped. Each meta record is as it was or has its pin bin set. */
    method PinKeys(ks: seq<Key>)
      modifies client
      ensures client.reliable ==> client.recs == PinKeysStore(old(client.recs), ks)
      ensures forall u :: MaskedPin(old(client.recs), client.recs, u)
      ensures forall u: UserKey :: u.SegRec? || u.ck !in ks ==> Lookup(client.recs, u) == Lookup(old(client.recs), u)
      ensures AllUsable(old(client.recs)) ==> AllUsable(client.recs)
    {
      if ks == [] {
        return;
      }
      var writes := PinBatch(ks);
      ghost var s0 := client.recs;
      var st, results, mask := client.BatchWrite(writes);
      if AllUsable(s0) {
        ApplyMaskKeepsUsable(s0, writes, mask, |writes|);
      }
      forall u: UserKey | u.SegRec? || u.ck !in ks ensures Lookup(client.recs, u) == Lookup(s0, u) {
        ApplyMaskFrame(s0, writes, mask, |writes|, u);
      }
      forall u ensures MaskedPin(s0, client.recs, u) {
        AppliedPinsAt(s0, writes, mask, |writes|, u);
      }
      if client.reliable {
        AppliedPinsArePins(s0, ks, writes, mask, |ks|);
        assert ks[..|ks|] == ks;
      }
    }

    method Pin(k: Key) returns (r: Option<bool>)
      modifies client
      ensures client.reliable ==>
                (r, client.recs) == (Some(PinStore(old(client.recs), k).0), PinStore(old(client.recs), k).1)
      // under faults, too: the record as it was or pinned, and nothing where there was nothing
      ensures client.recs == old(client.recs)
              || (MetaRec(k) in old(client.recs) && client.recs == PinStore(old(client.recs), k).1)
      ensures SameElsewhere(old(client.recs), client.recs, k)
      ensures AllUsable(old(client.recs)) ==> AllUsable(client.recs)
    {
      var there, st := Exists(k);
      if there != Some(true) {
        return there;
      }
      ghost var s0 := client.recs;
      PinKeys([k]);
      OnePinOrNone(s0, client.recs, k);
      return Some(true);
    }

    method Unpin(k: Key) returns (ok: bool)
      modifies client
      ensures client.reliable ==> (ok, client.recs) == UnpinStore(old(client.recs), k)
      ensures ok ==> MetaRec(k) in client.recs && client.recs[MetaRec(k)].pin == Some(false)
      // under faults, too: the record as it was or unpinned, and nothing where there was nothing
      ensures client.recs == old(client.recs)
              || (MetaRec(k) in old(client.recs) && client.recs == UnpinStore(old(client.recs), k).1)
      ensures SameElsewhere(old(client.recs), client.recs, k)
      ensures AllUsable(old(client.recs)) ==> AllUsable(client.recs)
    {
      var st := client.Touch(MetaRec(k));
      if !st.Done? {
        return false;
      }
      st := client.Put(MetaRec(k), UNPIN_BIN);
      return st.Done?;
    }

    /** The meta record goes first; what happens to the segments afterwards does not matter to anybody. */
    method Remove(k: Key) returns (r: RemoveResult)
      modifies client
      ensures client.reliable ==>
                (r.Removed?, client.recs) == RemoveStore(old(client.recs), k) && !r.RemoveFailed?
      ensures r.Removed? ==> MetaRec(k) !in client.recs
      ensures r.Absent? ==> client.recs == old(client.recs) && MetaRec(k) !in client.recs
      // nothing is touched before the meta record is gone, and then only segments it may have announced
      ensures MetaRec(k) in client.recs ==> client.recs == old(client.recs)
      ensures forall u :: Lookup(client.recs, u) == Lookup(old(client.recs), u)
                          || (u !in client.recs && u in RemoveFootprint(old(client.recs), k))
      ensures SameElsewhere(old(client.recs), client.recs, k)
      ensures AllUsable(old(client.recs)) ==> AllUsable(client.recs)
    {
      var nseg := 1;
      var st, bins := client.Get(MetaRec(k));
      if st.NotFound? {
        return Absent;
      }
      if st.Done? && bins.nseg.Some? {
        nseg := bins.nseg.value;
      }
      st := client.Remove(MetaRec(k));
      if st.NotFound? {
        return Absent;
      }
      if !st.Done? {
        return RemoveFailed;
      }
      if nseg > 1 {
        st := client.BatchRemove(SegKeys(k, nseg));
      }
      assert client.recs - {} == client.recs;
      return Removed;
    }

    /** Counts up to the first record that is not there. */
    method BatchedContains(ks: seq<Key>) returns (count: nat)
      ensures client.reliable ==> count == ContainsPrefix(client.recs, ks)
      ensures count <= |ks| && forall i :: 0 <= i < count ==> MetaRec(ks[i]) in client.recs
    {
      count := 0;
      if ks == [] {
        return;
      }
      var us: seq<UserKey> := seq(|ks|, i requires 0 <= i < |ks| => MetaRec(ks[i]));
      var st, rs := client.BatchRead(us);
      if !st.Done? {
        return;
      }
      assert ks[0..] == ks;
      for i := 0 to |rs|
        invariant count == i && forall j :: 0 <= j < i ==> MetaRec(ks[j]) in client.recs
        invariant client.reliable ==> ContainsPrefix(client.recs, ks) == i + ContainsPrefix(client.recs, ks[i..])
      {
        assert ks[i..][0] == ks[i] && ks[i..][1..] == ks[i + 1..];
        if rs[i].None? {
          return;
        }
        count := count + 1;
      }
    }
  }
}
