/** Whole operations and runs on the store as it really is, a map from printed user keys to bins: they do there what
    they do on the record map, and touch only printed keys of the logical keys they name. */
module PrintedRuns {
  import opened Common
  import opened Sharding
  import opened Limits
  import opened Records
  import opened Engine
  import opened NativeSpec
  import opened Keys
  import opened Sequential

  /** What a client sends: an upsert or a removal of one record. */
  datatype Act = Write(u: UserKey, b: Bins) | Delete(u: UserKey)

  function Do(s: Store, act: Act): Store {
    match act
    case Write(u, b) => Upsert(s, u, b)
    case Delete(u) => s - {u}
  }

  function DoAll(s: Store, acts: seq<Act>): Store {
    if acts == [] then s else Do(DoAll(s, acts[..|acts| - 1]), acts[|acts| - 1])
  }

  function LookupPrinted(ss: StringStore, x: string): Option<Bins> {
    if x in ss then Some(ss[x]) else None
  }

  function DoPrinted(ss: StringStore, act: Act): StringStore {
    match act
    case Write(u, b) =>
      var old_ := LookupPrinted(ss, Print(u));
      ss[Print(u) := Merge(if old_.Some? then old_.value else NO_BINS, b)]
    case Delete(u) => ss - {Print(u)}
  }

  function DoAllPrinted(ss: StringStore, acts: seq<Act>): StringStore {
    if acts == [] then ss else DoPrinted(DoAllPrinted(ss, acts[..|acts| - 1]), acts[|acts| - 1])
  }

  ghost predicate Within(acts: seq<Act>, ks: set<Key>) {
    forall i :: 0 <= i < |acts| ==> acts[i].u.ck in ks
  }

  // ---- Sequences of acts ----

  lemma DoOneMore(s: Store, acts: seq<Act>, act: Act)
    ensures DoAll(s, acts + [act]) == Do(DoAll(s, acts), act)
  {
    assert (acts + [act])[..|acts|] == acts;
  }

  lemma {:induction false} DoAllConcat(s: Store, a: seq<Act>, b: seq<Act>)
    ensures DoAll(s, a + b) == DoAll(DoAll(s, a), b)
  {
    if b == [] {
      assert a + b == a;
    } else {
      assert (a + b)[..|a + b| - 1] == a + b[..|b| - 1];
      DoAllConcat(s, a, b[..|b| - 1]);
    }
  }

  /** The string store keeps representing the record map, and the keys of other logical keys keep their bins. */
  lemma {:induction false} ActsArePrinted(ss: StringStore, s: Store, acts: seq<Act>, ks: set<Key>)
    requires Represents(ss, s) && Within(acts, ks)
    ensures Represents(DoAllPrinted(ss, acts), DoAll(s, acts))
    ensures forall v: UserKey :: v.ck !in ks ==>
              LookupPrinted(DoAllPrinted(ss, acts), Print(v)) == LookupPrinted(ss, Print(v))
  {
    if acts != [] {
      var init, last := acts[..|acts| - 1], acts[|acts| - 1];
      ActsArePrinted(ss, s, init, ks);
      var ss', s' := DoAllPrinted(ss, init), DoAll(s, init);
      RepresentsKept(ss', s', last.u, if last.Write? then Merge(BinsOf(s', last.u), last.b) else NO_BINS);
      forall v: UserKey | v.ck !in ks
        ensures LookupPrinted(DoPrinted(ss', last), Print(v)) == LookupPrinted(ss, Print(v))
      {
        if Print(v) == Print(last.u) {
          PrintIsInjective(v, last.u);
        }
      }
    }
  }

  // ---- The acts of the operations ----

  function SegActs(crc: Crc, crcOn: bool, k: Key, p: bytes, segB: nat, n: nat): (acts: seq<Act>)
    ensures |acts| == n && Within(acts, {k})
  {
    if n == 0 then []
    else SegActs(crc, crcOn, k, p, segB, n - 1) + [Write(SegRec(k, n - 1), SegBins(crc, crcOn, Cut(p, n - 1, segB)))]
  }

  lemma {:induction false} SegActsWrite(crc: Crc, crcOn: bool, s: Store, k: Key, p: bytes, segB: nat, n: nat)
    ensures DoAll(s, SegActs(crc, crcOn, k, p, segB, n)) == WriteSegs(crc, crcOn, s, k, p, segB, n)
  {
    if n > 0 {
      DoOneMore(s, SegActs(crc, crcOn, k, p, segB, n - 1),
                Write(SegRec(k, n - 1), SegBins(crc, crcOn, Cut(p, n - 1, segB))));
      SegActsWrite(crc, crcOn, s, k, p, segB, n - 1);
    }
  }

  function NativeSegActs(k: Key, p: bytes, segB: nat, n: nat): (acts: seq<Act>)
    ensures |acts| == n && Within(acts, {k})
  {
    if n == 0 then []
    else NativeSegActs(k, p, segB, n - 1) + [Write(SegRec(k, n - 1), NO_BINS.(b := Some(Raw(Cut(p, n - 1, segB)))))]
  }

  lemma {:induction false} NativeSegActsWrite(s: Store, k: Key, p: bytes, segB: nat, n: nat)
    ensures DoAll(s, NativeSegActs(k, p, segB, n)) == NativeWriteSegs(s, k, p, segB, n)
  {
    if n > 0 {
      DoOneMore(s, NativeSegActs(k, p, segB, n - 1),
                Write(SegRec(k, n - 1), NO_BINS.(b := Some(Raw(Cut(p, n - 1, segB))))));
      NativeSegActsWrite(s, k, p, segB, n - 1);
    }
  }

  function SegDeletes(k: Key, n: nat): (acts: seq<Act>)
    ensures |acts| == n && Within(acts, {k})
  {
    if n == 0 then [] else SegDeletes(k, n - 1) + [Delete(SegRec(k, n - 1))]
  }

  lemma {:induction false} SegDeletesRemove(s: Store, k: Key, n: nat)
    ensures DoAll(s, SegDeletes(k, n)) == s - SegKeys(k, n)
  {
    if n == 0 {
      assert s - SegKeys(k, 0) == s;
    } else {
      assert SegDeletes(k, n)[..n - 1] == SegDeletes(k, n - 1);
      SegDeletesRemove(s, k, n - 1);
      assert SegKeys(k, n) == SegKeys(k, n - 1) + {SegRec(k, n - 1)};
    }
  }

  function PinActs(ks: seq<Key>): (acts: seq<Act>)
    ensures |acts| == |ks| && Within(acts, set k | k in ks)
  {
    if ks == [] then [] else PinActs(ks[..|ks| - 1]) + [Write(MetaRec(ks[|ks| - 1]), PIN_BIN)]
  }

  lemma {:induction false} PinActsPin(s: Store, ks: seq<Key>)
    ensures DoAll(s, PinActs(ks)) == PinKeysStore(s, ks)
  {
    if ks != [] {
      assert PinActs(ks)[..|ks| - 1] == PinActs(ks[..|ks| - 1]);
      PinActsPin(s, ks[..|ks| - 1]);
    }
  }

  /** The logical keys an operation names. */
  function Named(op: Op): set<Key> {
    match op
    case PinKeys(ks) => set k | k in ks
    case Contains(_) => {}
    case _ => {op.k}
  }

  function RemoveActs(s: Store, k: Key, nseg: nat): (acts: seq<Act>)
    ensures Within(acts, {k})
  {
    if MetaRec(k) in s then [Delete(MetaRec(k))] + SegDeletes(k, nseg) else []
  }

  /** What the operation sends when it finds `s`. */
  function ActsOf(crc: Crc, s: Store, op: Op): (acts: seq<Act>)
    requires ValidOp(op)
    ensures Within(acts, Named(op))
  {
    match op
    case Put(k, p, cfg, pinned) =>
      (match Plan(|p|, cfg.lim)
       case Err(_) => []
       case Ok(plan) =>
         (if plan.nseg == 1 then [] else SegActs(crc, cfg.opts.crcOn, k, p, plan.segB, plan.nseg))
         + [Write(MetaRec(k), MetaBins(crc, cfg.opts, plan, p, pinned))])
    case NativeSet(k, p, nlim) =>
      var plan := NativeLayout(|p|, nlim);
      if plan.nseg == 1 then [Write(MetaRec(k), NativeMeta(plan, |p|, Some(Raw(p))))]
      else NativeSegActs(k, p, plan.segB, plan.nseg) + [Write(MetaRec(k), NativeMeta(plan, |p|, None))]
    case Remove(k) =>
      var nseg := if MetaRec(k) in s then Or(s[MetaRec(k)].nseg, Some(1)).value else 1;
      RemoveActs(s, k, if nseg > 1 then nseg else 0)
    case NativeDelete(k) =>
      RemoveActs(s, k, if MetaRec(k) in s then PositiveInt(s[MetaRec(k)].nseg, 1) % UINT32 else 0)
    case Pin(k) => if MetaRec(k) in s then PinActs([k]) else []
    case PinKeys(ks) => PinActs(ks)
    case Unpin(k) => if MetaRec(k) in s then [Write(MetaRec(k), UNPIN_BIN)] else []
    case _ => []
  }

  lemma RemoveActsRemove(s: Store, k: Key, nseg: nat)
    requires MetaRec(k) in s
    ensures DoAll(s, RemoveActs(s, k, nseg)) == s - {MetaRec(k)} - SegKeys(k, nseg)
  {
    DoOneMore(s, [], Delete(MetaRec(k)));
    assert [] + [Delete(MetaRec(k))] == [Delete(MetaRec(k))];
    DoAllConcat(s, [Delete(MetaRec(k))], SegDeletes(k, nseg));
    SegDeletesRemove(s - {MetaRec(k)}, k, nseg);
  }

  lemma ActsAreTheStep(crc: Crc, s: Store, op: Op)
    requires ValidOp(op)
    ensures DoAll(s, ActsOf(crc, s, op)) == Step(crc, s, op).1
  {
    match op
    case Put(k, p, cfg, pinned) =>
      if Plan(|p|, cfg.lim).Ok? {
        var plan := Plan(|p|, cfg.lim).value;
        var segs := if plan.nseg == 1 then [] else SegActs(crc, cfg.opts.crcOn, k, p, plan.segB, plan.nseg);
        SegActsWrite(crc, cfg.opts.crcOn, s, k, p, plan.segB, plan.nseg);
        DoOneMore(s, segs, Write(MetaRec(k), MetaBins(crc, cfg.opts, plan, p, pinned)));
      }
    case NativeSet(k, p, nlim) =>
      var plan := NativeLayout(|p|, nlim);
      if plan.nseg > 1 {
        NativeSegActsWrite(s, k, p, plan.segB, plan.nseg);
        DoOneMore(s, NativeSegActs(k, p, plan.segB, plan.nseg), Write(MetaRec(k), NativeMeta(plan, |p|, None)));
      } else {
        NativeLayoutIsValid(|p|, nlim);
        DoOneMore(s, [], Write(MetaRec(k), NativeMeta(plan, |p|, Some(Raw(p)))));
        assert [] + ActsOf(crc, s, op) == ActsOf(crc, s, op);
      }
    case Remove(k) =>
      if MetaRec(k) in s {
        var nseg := Or(s[MetaRec(k)].nseg, Some(1)).value;
        RemoveActsRemove(s, k, if nseg > 1 then nseg else 0);
        assert SegKeys(k, 0) == {};
      }
    case NativeDelete(k) =>
      if MetaRec(k) in s {
        RemoveActsRemove(s, k, PositiveInt(s[MetaRec(k)].nseg, 1) % UINT32);
      }
    case Pin(k) => PinActsPin(s, [k]);
    case PinKeys(ks) => PinActsPin(s, ks);
    case Unpin(k) =>
      DoOneMore(s, [], Write(MetaRec(k), UNPIN_BIN));
      assert [] + [Write(MetaRec(k), UNPIN_BIN)] == [Write(MetaRec(k), UNPIN_BIN)];
    case _ =>
  }

  // ---- Runs ----

  function NamedIn(ops: seq<Op>): set<Key> {
    if ops == [] then {} else Named(ops[0]) + NamedIn(ops[1..])
  }

  /** Everything a run sends to the server, in order. */
  function RunActs(crc: Crc, s: Store, ops: seq<Op>): (acts: seq<Act>)
    requires ValidOps(ops)
    decreases |ops|
  {
    if ops == [] then [] else ActsOf(crc, s, ops[0]) + RunActs(crc, Step(crc, s, ops[0]).1, ops[1..])
  }

  lemma {:induction false} RunActsAreTheRun(crc: Crc, s: Store, ops: seq<Op>)
    requires ValidOps(ops)
    ensures DoAll(s, RunActs(crc, s, ops)) == Run(crc, s, ops).1
    ensures Within(RunActs(crc, s, ops), NamedIn(ops))
    decreases |ops|
  {
    if ops != [] {
      var s' := Step(crc, s, ops[0]).1;
      ActsAreTheStep(crc, s, ops[0]);
      RunActsAreTheRun(crc, s', ops[1..]);
      DoAllConcat(s, ActsOf(crc, s, ops[0]), RunActs(crc, s', ops[1..]));
    }
  }

  /** Every run, on printed keys: the string store ends up representing the record map the run computes, and every
      record of a logical key that no operation names still has the bins it had, separators in key names or not. */
  lemma PrintedRun(crc: Crc, ss: StringStore, s: Store, ops: seq<Op>)
    requires ValidOps(ops) && Represents(ss, s)
    ensures Represents(DoAllPrinted(ss, RunActs(crc, s, ops)), Run(crc, s, ops).1)
    ensures forall v: UserKey :: v.ck !in NamedIn(ops) ==>
              LookupPrinted(DoAllPrinted(ss, RunActs(crc, s, ops)), Print(v)) == LookupPrinted(ss, Print(v))
  {
    RunActsAreTheRun(crc, s, ops);
    ActsArePrinted(ss, s, RunActs(crc, s, ops), NamedIn(ops));
  }
}
