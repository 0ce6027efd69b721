/** Whole runs of one client at a time, with both implementations, arbitrary overwrites and a different
    configuration in every call: the record map behaves like a map from keys to payloads. */
module Sequential {
  import opened Common
  import opened Sharding
  import opened Limits
  import opened Records
  import opened Engine
  import opened NativeSpec
  import opened RoundTrip

  datatype Op =
    | Put(k: Key, p: bytes, cfg: Config, pinned: bool)
    | NativeSet(k: Key, p: bytes, nlim: NativeLimits)
    | Get(k: Key, crcOn: bool, src: Source)
    | NativeGet(k: Key, len: nat)
    | Remove(k: Key)
    | NativeDelete(k: Key)
    | Exists(k: Key)
    | Pin(k: Key)
    | PinKeys(ks: seq<Key>)
    | Unpin(k: Key)
    | Contains(ks: seq<Key>)

  /** `size` is that of the object a hit returns, payload or not. */
  datatype Obs = Flag(ok: bool) | Count(n: nat) | Got(out: GetOutcome, size: nat) | NativeGot(data: Option<bytes>)

  /** The caller's buffer is returned as it is, one sized by chunk metadata too; a full-chunk buffer is cut down
      to the bytes read. */
  function ReturnedSize(src: Source, md: Option<nat>, out: GetOutcome): nat {
    if !out.Hit? then 0
    else match src
      case Preallocated(size) => size
      case Allocator(saveMd, _, _) => if saveMd && md.Some? then md.value else |out.data|
  }

  function OkData(r: Result<bytes, NativeError>): Option<bytes> {
    if r.Ok? then Some(r.value) else None
  }

  /** The real system: every operation acts on records. */
  function Step(crc: Crc, s: Store, op: Op): (Obs, Store)
    requires ValidOp(op)
  {
    match op
    case Put(k, p, cfg, pinned) =>
      (match PutStore(crc, cfg, s, k, p, pinned)
       case Err(_) => (Flag(false), s)
       case Ok(s') => (Flag(true), s'))
    case NativeSet(k, p, nlim) => (Flag(true), NativeCommit(s, k, p, NativeLayout(|p|, nlim)))
    case Get(k, crcOn, src) =>
      var out := GetStore(crc, crcOn, s, k, src);
      (Got(out, ReturnedSize(src, BinsOf(s, MetaRec(k)).md, out)), s)
    case NativeGet(k, len) => (NativeGot(OkData(NativeGetStore(s, k, len))), s)
    case Remove(k) => (Flag(RemoveStore(s, k).0), RemoveStore(s, k).1)
    case NativeDelete(k) => (Flag(NativeDeleteStore(s, k).0), NativeDeleteStore(s, k).1)
    case Exists(k) => (Flag(MetaRec(k) in s), s)
    case Pin(k) => (Flag(PinStore(s, k).0), PinStore(s, k).1)
    case PinKeys(ks) => (Flag(true), PinKeysStore(s, ks))
    case Unpin(k) => (Flag(UnpinStore(s, k).0), UnpinStore(s, k).1)
    case Contains(ks) => (Count(ContainsPrefix(s, ks)), s)
  }

  /** Payload sizes for which neither side truncates an integer: below 2^32 segments, native records
      below 4 GiB. */
  predicate ValidOp(op: Op) {
    match op
    case Put(_, p, cfg, _) => |p| < SIZE_T / 2 && |p| <= (UINT32 - 1) * cfg.lim.target
    case NativeSet(_, p, nlim) => Plannable(|p|, nlim) && nlim.target < UINT32
    case _ => true
  }

  /** The abstract state of a key: a stateless record left by a pin, or a payload together with the
      checksum and the announced size that happen to accompany it. */
  datatype Rec = Ghost | Value(payload: bytes, crcBin: Option<nat>, md: Option<nat>)

  type Abs = map<Key, Rec>

  function CrcBin(a: Abs, k: Key): Option<nat> {
    if k in a && a[k].Value? then a[k].crcBin else None
  }

  function MdBin(a: Abs, k: Key): Option<nat> {
    if k in a && a[k].Value? then a[k].md else None
  }

  /** A write keeps what it does not mention. */
  function Written(crc: Crc, o: Opts, a: Abs, k: Key, p: bytes): Rec {
    Value(p, if o.crcOn then Some(crc(p)) else CrcBin(a, k), if o.saveMd then Some(|p|) else MdBin(a, k))
  }

  function AbsGet(crc: Crc, a: Abs, k: Key, crcOn: bool, src: Source): Obs {
    if k in a && a[k].Value? then
      var out := Expected(crc, crcOn, a[k].payload, a[k].crcBin, Capacity(src, NO_BINS.(md := a[k].md)));
      Got(out, ReturnedSize(src, a[k].md, out))
    else Got(Miss, 0)
  }

  function PinAbs(a: Abs, ks: seq<Key>): Abs {
    if ks == [] then a
    else
      var a' := PinAbs(a, ks[..|ks| - 1]);
      var k := ks[|ks| - 1];
      if k in a' then a' else a'[k := Ghost]
  }

  function PrefixIn<T>(a: map<Key, T>, ks: seq<Key>): nat {
    if ks == [] || ks[0] !in a then 0 else 1 + PrefixIn(a, ks[1..])
  }

  function AbsStep(crc: Crc, a: Abs, op: Op): (Obs, Abs) {
    match op
    case Put(k, p, cfg, pinned) =>
      if Plan(|p|, cfg.lim).Err? then (Flag(false), a)
      else (Flag(true), a[k := Written(crc, cfg.opts, a, k, p)])
    case NativeSet(k, p, _) => (Flag(true), a[k := Written(crc, NO_EXTRAS, a, k, p)])
    case Get(k, crcOn, src) => (AbsGet(crc, a, k, crcOn, src), a)
    case NativeGet(k, len) =>
      (NativeGot(if k in a && a[k].Value? && |a[k].payload| == len then Some(a[k].payload) else None), a)
    case Remove(k) => (Flag(k in a), a - {k})
    case NativeDelete(k) => (Flag(k in a), a - {k})
    case Exists(k) => (Flag(k in a), a)
    case Pin(k) => (Flag(k in a), a)
    case PinKeys(ks) => (Flag(true), PinAbs(a, ks))
    case Unpin(k) => (Flag(k in a), a)
    case Contains(ks) => (Count(PrefixIn(a, ks)), a)
  }

  // ---- Refinement ----

  ghost predicate RefinesAt(s: Store, a: Abs, k: Key) {
    && (k in a <==> MetaRec(k) in s)
    && (k in a && a[k].Ghost? ==> s[MetaRec(k)].(pin := None) == NO_BINS)
    && (k in a && a[k].Value? ==>
          && Holds(s, k, a[k].payload)
          && |a[k].payload| < SIZE_T / 2
          && s[MetaRec(k)].crc32 == a[k].crcBin && s[MetaRec(k)].md == a[k].md)
  }

  ghost predicate Refines(s: Store, a: Abs) {
    forall k :: RefinesAt(s, a, k)
  }

  lemma FrameHolds(s: Store, s': Store, k: Key, p: bytes)
    requires Holds(s, k, p) && MetaRec(k) in s'
    requires forall i: nat :: Lookup(s', SegRec(k, i)) == Lookup(s, SegRec(k, i))
    requires s'[MetaRec(k)].(pin := None) == s[MetaRec(k)].(pin := None)
    ensures Holds(s', k, p)
  {
  }

  /** An operation on one key leaves the relation alone everywhere else. */
  lemma FrameRefines(s: Store, s': Store, a: Abs, a': Abs, k: Key)
    requires Refines(s, a) && SameElsewhere(s, s', k)
    requires forall k' :: k' != k ==> (k' in a' <==> k' in a) && (k' in a ==> a'[k'] == a[k'])
    requires RefinesAt(s', a', k)
    ensures Refines(s', a')
  {
    forall k' | k' != k ensures RefinesAt(s', a', k') {
      assert RefinesAt(s, a, k');
      assert Lookup(s', MetaRec(k')) == Lookup(s, MetaRec(k'));
      if k' in a && a[k'].Value? {
        FrameHolds(s, s', k', a[k'].payload);
      }
    }
  }

  /** A commit of either implementation. */
  lemma CommitRefines(crc: Crc, o: Opts, s: Store, a: Abs, k: Key, p: bytes, plan: ShardPlan, pinned: bool)
    requires Refines(s, a) && ValidLayout(plan, |p|) && plan.nseg < UINT32 && |p| < SIZE_T / 2
    ensures Refines(Commit(crc, o, s, k, p, plan, pinned), a[k := Written(crc, o, a, k, p)])
  {
    CommitHolds(crc, o, s, k, p, plan, pinned);
    assert RefinesAt(s, a, k);
    var s' := Commit(crc, o, s, k, p, plan, pinned);
    assert HoldsAs(s', k, p, plan);
    FrameRefines(s, s', a, a[k := Written(crc, o, a, k, p)], k);
  }

  lemma RemoveRefines(s: Store, a: Abs, k: Key, s': Store)
    requires Refines(s, a) && MetaRec(k) !in s' && SameElsewhere(s, s', k)
    ensures Refines(s', a - {k})
  {
    FrameRefines(s, s', a, a - {k}, k);
  }

  /** Writing only the pin bin: a present key keeps what it is, an absent key becomes a ghost. */
  lemma PinBinRefines(s: Store, a: Abs, k: Key, pin: bool)
    requires Refines(s, a)
    ensures Refines(Upsert(s, MetaRec(k), NO_BINS.(pin := Some(pin))), if k in a then a else a[k := Ghost])
  {
    var s' := Upsert(s, MetaRec(k), NO_BINS.(pin := Some(pin)));
    assert RefinesAt(s, a, k);
    if k in a && a[k].Value? {
      FrameHolds(s, s', k, a[k].payload);
    }
    FrameRefines(s, s', a, if k in a then a else a[k := Ghost], k);
  }

  lemma {:induction false} PinKeysRefines(s: Store, a: Abs, ks: seq<Key>)
    requires Refines(s, a)
    ensures Refines(PinKeysStore(s, ks), PinAbs(a, ks))
  {
    if ks != [] {
      PinKeysRefines(s, a, ks[..|ks| - 1]);
      PinBinRefines(PinKeysStore(s, ks[..|ks| - 1]), PinAbs(a, ks[..|ks| - 1]), ks[|ks| - 1], true);
    }
  }

  lemma {:induction false} ContainsRefines(s: Store, a: Abs, ks: seq<Key>)
    requires Refines(s, a)
    ensures ContainsPrefix(s, ks) == PrefixIn(a, ks)
  {
    if ks != [] {
      assert RefinesAt(s, a, ks[0]);
      ContainsRefines(s, a, ks[1..]);
    }
  }

  lemma GetRefines(crc: Crc, s: Store, a: Abs, k: Key, crcOn: bool, src: Source)
    requires Refines(s, a)
    ensures var out := GetStore(crc, crcOn, s, k, src);
            Got(out, ReturnedSize(src, BinsOf(s, MetaRec(k)).md, out)) == AbsGet(crc, a, k, crcOn, src)
  {
    assert RefinesAt(s, a, k);
    if k in a && a[k].Value? {
      var plan :| HoldsAs(s, k, a[k].payload, plan) && plan.nseg < UINT32;
      GetFromHolds(crc, crcOn, s, k, a[k].payload, plan, src);
    }
  }

  lemma NativeGetRefines(s: Store, a: Abs, k: Key, len: nat)
    requires Refines(s, a)
    ensures OkData(NativeGetStore(s, k, len))
            == if k in a && a[k].Value? && |a[k].payload| == len then Some(a[k].payload) else None
  {
    assert RefinesAt(s, a, k);
    if k in a && a[k].Value? {
      var plan :| HoldsAs(s, k, a[k].payload, plan) && plan.nseg < UINT32;
      NativeGetFromHolds(s, k, a[k].payload, plan, len);
    }
  }

  /** One operation: the caller sees the same thing, and the relation is kept. */
  lemma StepRefines(crc: Crc, s: Store, a: Abs, op: Op)
    requires Refines(s, a) && ValidOp(op)
    ensures Step(crc, s, op).0 == AbsStep(crc, a, op).0
    ensures Refines(Step(crc, s, op).1, AbsStep(crc, a, op).1)
  {
    match op
    case Put(k, p, cfg, pinned) =>
      if Plan(|p|, cfg.lim).Ok? {
        PlanBounds(|p|, cfg.lim);
        SegmentCountFits(|p|, cfg.lim);
        CommitRefines(crc, cfg.opts, s, a, k, p, Plan(|p|, cfg.lim).value, pinned);
      }
    case NativeSet(k, p, nlim) =>
      NativeLayoutIsValid(|p|, nlim);
      NativeCommitIsCommit(crc, s, k, p, NativeLayout(|p|, nlim));
      CommitRefines(crc, NO_EXTRAS, s, a, k, p, NativeLayout(|p|, nlim), false);
    case Get(k, crcOn, src) => GetRefines(crc, s, a, k, crcOn, src);
    case NativeGet(k, len) => NativeGetRefines(s, a, k, len);
    case Remove(k) =>
      assert RefinesAt(s, a, k);
      if k in a {
        RemoveRefines(s, a, k, RemoveStore(s, k).1);
      } else {
        assert a - {k} == a;
      }
    case NativeDelete(k) =>
      assert RefinesAt(s, a, k);
      if k in a {
        RemoveRefines(s, a, k, NativeDeleteStore(s, k).1);
      } else {
        assert a - {k} == a;
      }
    case Exists(k) => assert RefinesAt(s, a, k);
    case Pin(k) =>
      assert RefinesAt(s, a, k);
      PinKeysRefines(s, a, [k]);
      assert PinAbs(a, [k]) == if k in a then a else a[k := Ghost];
    case PinKeys(ks) => PinKeysRefines(s, a, ks);
    case Unpin(k) =>
      assert RefinesAt(s, a, k);
      PinBinRefines(s, a, k, false);
    case Contains(ks) => ContainsRefines(s, a, ks);
  }

  predicate ValidOps(ops: seq<Op>) {
    forall i :: 0 <= i < |ops| ==> ValidOp(ops[i])
  }

  function Run(crc: Crc, s: Store, ops: seq<Op>): (seq<Obs>, Store)
    requires ValidOps(ops)
    decreases |ops|
  {
    if ops == [] then ([], s)
    else
      var (o, s') := Step(crc, s, ops[0]);
      var (os, s'') := Run(crc, s', ops[1..]);
      ([o] + os, s'')
  }

  function AbsRun(crc: Crc, a: Abs, ops: seq<Op>): (seq<Obs>, Abs)
    decreases |ops|
  {
    if ops == [] then ([], a)
    else
      var (o, a') := AbsStep(crc, a, ops[0]);
      var (os, a'') := AbsRun(crc, a', ops[1..]);
      ([o] + os, a'')
  }

  /** Every run: no observation distinguishes the sharded store from the abstract map. Growing or
      shrinking segment counts, orphan segments and stale inline payloads never show through. */
  lemma {:induction false} RunRefines(crc: Crc, s: Store, a: Abs, ops: seq<Op>)
    requires Refines(s, a) && ValidOps(ops)
    ensures Run(crc, s, ops).0 == AbsRun(crc, a, ops).0
    ensures Refines(Run(crc, s, ops).1, AbsRun(crc, a, ops).1)
    decreases |ops|
  {
    if ops != [] {
      StepRefines(crc, s, a, ops[0]);
      RunRefines(crc, Step(crc, s, ops[0]).1, AbsStep(crc, a, ops[0]).1, ops[1..]);
    }
  }

  // ---- A plain map from keys to payloads ----

  /** What a caller thinks a get does: a reader that uses chunk metadata gets an object of the payload's size. */
  function PlainGet(m: map<Key, bytes>, k: Key, src: Source): Obs {
    if k !in m then Got(Miss, 0)
    else
      var p := m[k];
      match src
      case Preallocated(size) => if |p| <= size then Got(Hit(p), size) else Got(RaisedReleased, 0)
      case Allocator(saveMd, full, free) =>
        if !free then Got(Miss, 0)
        else if saveMd || |p| <= full then Got(Hit(p), |p|)
        else Got(RaisedReleased, 0)
  }

  /** What a caller thinks the store is. */
  function PlainStep(m: map<Key, bytes>, op: Op): (Obs, map<Key, bytes>) {
    match op
    case Put(k, p, cfg, _) =>
      if Plan(|p|, cfg.lim).Err? then (Flag(false), m) else (Flag(true), m[k := p])
    case NativeSet(k, p, _) => (Flag(true), m[k := p])
    case Get(k, _, src) => (PlainGet(m, k, src), m)
    case NativeGet(k, len) => (NativeGot(if k in m && |m[k]| == len then Some(m[k]) else None), m)
    case Remove(k) => (Flag(k in m), m - {k})
    case NativeDelete(k) => (Flag(k in m), m - {k})
    case Exists(k) => (Flag(k in m), m)
    case Pin(k) => (Flag(k in m), m)
    case PinKeys(_) => (Flag(true), m)
    case Unpin(k) => (Flag(k in m), m)
    case Contains(ks) => (Count(PrefixIn(m, ks)), m)
  }

  function PlainRun(m: map<Key, bytes>, ops: seq<Op>): seq<Obs>
    decreases |ops|
  {
    if ops == [] then []
    else [PlainStep(m, ops[0]).0] + PlainRun(PlainStep(m, ops[0]).1, ops[1..])
  }

  /** What the writers of a deployment agree to store, and its readers may rely on. */
  datatype Rules = Rules(checksums: bool, sizes: bool)

  /** Nobody verifies checksums or everybody writes them; nobody sizes buffers by chunk metadata or
      everybody writes them; and pins go through `pin`, which looks before it writes. */
  predicate Disciplined(op: Op, rules: Rules) {
    && (op.Get? ==> op.crcOn ==> rules.checksums)
    && (op.Get? && op.src.Allocator? ==> op.src.saveMd ==> rules.sizes)
    && (op.Put? ==> (rules.checksums ==> op.cfg.opts.crcOn) && (rules.sizes ==> op.cfg.opts.saveMd))
    && (op.NativeSet? ==> !rules.checksums && !rules.sizes)
    && !op.PinKeys?
  }

  ghost predicate Plain(crc: Crc, a: Abs, m: map<Key, bytes>, rules: Rules) {
    && a.Keys == m.Keys
    && forall k :: k in a ==>
         && a[k].Value? && a[k].payload == m[k]
         && (rules.checksums ==> a[k].crcBin == Some(crc(m[k])))
         && (rules.sizes ==> a[k].md == Some(|m[k]|))
  }

  lemma {:induction false} PrefixInKeys<T, U>(a: map<Key, T>, m: map<Key, U>, ks: seq<Key>)
    requires a.Keys == m.Keys
    ensures PrefixIn(a, ks) == PrefixIn(m, ks)
  {
    if ks != [] {
      assert ks[0] in a.Keys <==> ks[0] in m.Keys;
      PrefixInKeys(a, m, ks[1..]);
    }
  }

  lemma {:induction false} AbsRunIsPlain(crc: Crc, a: Abs, m: map<Key, bytes>, ops: seq<Op>, rules: Rules)
    requires Plain(crc, a, m, rules)
    requires forall i :: 0 <= i < |ops| ==> Disciplined(ops[i], rules)
    ensures AbsRun(crc, a, ops).0 == PlainRun(m, ops)
    decreases |ops|
  {
    if ops != [] {
      var op := ops[0];
      assert forall k :: k in a <==> k in m by {
        assert forall k :: k in a.Keys <==> k in m.Keys;
      }
      if op.Contains? {
        PrefixInKeys(a, m, op.ks);
      }
      assert Plain(crc, AbsStep(crc, a, op).1, PlainStep(m, op).1, rules);
      AbsRunIsPlain(crc, AbsStep(crc, a, op).1, PlainStep(m, op).1, ops[1..], rules);
    }
  }

  /** The documented contract, for every disciplined run from an empty store: a map from keys to bytes. */
  lemma StoreIsAPlainMap(crc: Crc, ops: seq<Op>, rules: Rules)
    requires ValidOps(ops)
    requires forall i :: 0 <= i < |ops| ==> Disciplined(ops[i], rules)
    ensures Run(crc, map[], ops).0 == PlainRun(map[], ops)
  {
    RunRefines(crc, map[], map[], ops);
    AbsRunIsPlain(crc, map[], map[], ops, rules);
  }

  // ---- Exactly when a run looks like that map ----

  function PlainState(m: map<Key, bytes>, ops: seq<Op>): map<Key, bytes>
    decreases |ops|
  {
    if ops == [] then m else PlainState(PlainStep(m, ops[0]).1, ops[1..])
  }

  /** What a caller has to remember about one key since its last removal: the checksum and the size that were
      last written, and whether it was pinned unconditionally. */
  datatype Past = Past(sum: Option<nat>, size: Option<nat>, pinned: bool)

  const NO_PAST := Past(None, None, false)

  function Remember(crc: Crc, past: Past, op: Op, k: Key): Past {
    match op
    case Put(k', p, cfg, _) =>
      if k' == k && Plan(|p|, cfg.lim).Ok? then
        past.(sum := if cfg.opts.crcOn then Some(crc(p)) else past.sum,
              size := if cfg.opts.saveMd then Some(|p|) else past.size)
      else past
    case Remove(k') => if k' == k then NO_PAST else past
    case NativeDelete(k') => if k' == k then NO_PAST else past
    case PinKeys(ks) => if k in ks then past.(pinned := true) else past
    case _ => past
  }

  function RememberAll(crc: Crc, past: Past, ops: seq<Op>, k: Key): Past
    decreases |ops|
  {
    if ops == [] then past else RememberAll(crc, Remember(crc, past, ops[0], k), ops[1..], k)
  }

  ghost predicate Explains(a: Abs, m: map<Key, bytes>, past: Past, k: Key) {
    && (k in m <==> k in a && a[k].Value?)
    && (k in m ==> a[k].payload == m[k])
    && (k in a <==> k in m || past.pinned)
    && CrcBin(a, k) == past.sum && MdBin(a, k) == past.size
  }

  lemma {:induction false} PinAbsAt(a: Abs, ks: seq<Key>, k: Key)
    ensures k in PinAbs(a, ks) <==> k in a || k in ks
    ensures k in PinAbs(a, ks) ==> PinAbs(a, ks)[k] == if k in a then a[k] else Ghost
  {
    if ks != [] {
      PinAbsAt(a, ks[..|ks| - 1], k);
      assert ks == ks[..|ks| - 1] + [ks[|ks| - 1]];
    }
  }

  lemma StepExplains(crc: Crc, a: Abs, m: map<Key, bytes>, past: Past, op: Op, k: Key)
    requires Explains(a, m, past, k)
    ensures Explains(AbsStep(crc, a, op).1, PlainStep(m, op).1, Remember(crc, past, op, k), k)
  {
    if op.PinKeys? {
      PinAbsAt(a, op.ks, k);
    }
  }

  lemma {:induction false} RunExplains(crc: Crc, a: Abs, m: map<Key, bytes>, past: Past, ops: seq<Op>, k: Key)
    requires Explains(a, m, past, k)
    ensures Explains(AbsRun(crc, a, ops).1, PlainState(m, ops), RememberAll(crc, past, ops, k), k)
    decreases |ops|
  {
    if ops != [] {
      StepExplains(crc, a, m, past, ops[0], k);
      RunExplains(crc, AbsStep(crc, a, ops[0]).1, PlainStep(m, ops[0]).1, Remember(crc, past, ops[0], k), ops[1..], k);
    }
  }

  /** The buffer a reader will get suits the payload `p`: a size announced in the past is the right one, and a
      reader that expects an announced size but finds none can make do with a full chunk. */
  predicate GoodFit(past: Past, p: bytes, src: Source) {
    src.Allocator? && src.free && src.saveMd ==> if past.size.Some? then past.size.value == |p| else |p| <= src.full
  }

  /** The payload fits the buffer. */
  predicate Room(p: bytes, src: Source) {
    match src
    case Preallocated(size) => |p| <= size
    case Allocator(saveMd, full, free) => free && (saveMd || |p| <= full)
  }

  /** After any run at all, a get disagrees with the plain map exactly when its buffer is sized wrongly by what an
      earlier payload left behind, or when, with a buffer that suits, it verifies a checksum that an earlier
      payload left behind. */
  lemma GetAgreesExactly(crc: Crc, ops: seq<Op>, k: Key, crcOn: bool, src: Source)
    requires ValidOps(ops)
    ensures var s := Run(crc, map[], ops).1;
            var m := PlainState(map[], ops);
            var past := RememberAll(crc, NO_PAST, ops, k);
            Step(crc, s, Get(k, crcOn, src)).0 == PlainStep(m, Get(k, crcOn, src)).0
            <==> (k in m ==>
                    && GoodFit(past, m[k], src)
                    && !(Room(m[k], src) && crcOn && past.sum.Some? && past.sum.value != crc(m[k])))
  {
    RunRefines(crc, map[], map[], ops);
    RunExplains(crc, map[], map[], NO_PAST, ops, k);
    GetRefines(crc, Run(crc, map[], ops).1, AbsRun(crc, map[], ops).1, k, crcOn, src);
  }

  /** The flags of these operations tell whether the meta record is there. */
  predicate TellsPresence(op: Op) {
    op.Exists? || op.Remove? || op.NativeDelete? || op.Pin? || op.Unpin?
  }

  /** They disagree with the plain map exactly for a key that is not in it but was pinned unconditionally since
      it was last removed. */
  lemma FlagsAgreeExactly(crc: Crc, ops: seq<Op>, op: Op)
    requires ValidOps(ops) && TellsPresence(op)
    ensures var s := Run(crc, map[], ops).1;
            var m := PlainState(map[], ops);
            Step(crc, s, op).0 == PlainStep(m, op).0
            <==> op.k in m || !RememberAll(crc, NO_PAST, ops, op.k).pinned
  {
    RunRefines(crc, map[], map[], ops);
    RunExplains(crc, map[], map[], NO_PAST, ops, op.k);
    StepRefines(crc, Run(crc, map[], ops).1, AbsRun(crc, map[], ops).1, op);
  }

  lemma {:induction false} PrefixesAgreeExactly<T, U>(a: map<Key, T>, m: map<Key, U>, ks: seq<Key>)
    requires m.Keys <= a.Keys
    ensures PrefixIn(m, ks) <= |ks|
    ensures PrefixIn(a, ks) == PrefixIn(m, ks) <==> PrefixIn(m, ks) == |ks| || ks[PrefixIn(m, ks)] !in a
  {
    if ks != [] {
      assert ks[0] in m.Keys ==> ks[0] in a.Keys;
      PrefixesAgreeExactly(a, m, ks[1..]);
    }
  }

  /** A count disagrees with the plain map exactly when the first key that is not in the map was pinned
      unconditionally since it was last removed. */
  lemma CountAgreesExactly(crc: Crc, ops: seq<Op>, ks: seq<Key>)
    requires ValidOps(ops)
    ensures var s := Run(crc, map[], ops).1;
            var m := PlainState(map[], ops);
            && PrefixIn(m, ks) <= |ks|
            && (Step(crc, s, Contains(ks)).0 == PlainStep(m, Contains(ks)).0
                <==> PrefixIn(m, ks) == |ks| || !RememberAll(crc, NO_PAST, ops, ks[PrefixIn(m, ks)]).pinned)
  {
    var s, a, m := Run(crc, map[], ops).1, AbsRun(crc, map[], ops).1, PlainState(map[], ops);
    RunRefines(crc, map[], map[], ops);
    forall k ensures Explains(a, m, RememberAll(crc, NO_PAST, ops, k), k) {
      RunExplains(crc, map[], map[], NO_PAST, ops, k);
    }
    StepRefines(crc, s, a, Contains(ks));
    assert forall k :: k in m ==> Explains(a, m, RememberAll(crc, NO_PAST, ops, k), k);
    PrefixesAgreeExactly(a, m, ks);
    PrefixEndsOutside(m, ks);
    if PrefixIn(m, ks) < |ks| {
      var k := ks[PrefixIn(m, ks)];
      assert Explains(a, m, RememberAll(crc, NO_PAST, ops, k), k);
    }
  }

  lemma {:induction false} PrefixEndsOutside<T>(m: map<Key, T>, ks: seq<Key>)
    ensures PrefixIn(m, ks) <= |ks|
    ensures PrefixIn(m, ks) < |ks| ==> ks[PrefixIn(m, ks)] !in m
  {
    if ks != [] {
      PrefixEndsOutside(m, ks[1..]);
    }
  }

  /** In every run a ready meta record is usable, so a get never keeps a buffer it does not return. */
  lemma RunsStayUsable(crc: Crc, ops: seq<Op>)
    requires ValidOps(ops)
    ensures AllUsable(Run(crc, map[], ops).1)
  {
    RunRefines(crc, map[], map[], ops);
    var s, a := Run(crc, map[], ops).1, AbsRun(crc, map[], ops).1;
    forall k | MetaRec(k) in s ensures Usable(s[MetaRec(k)]) {
      assert RefinesAt(s, a, k);
    }
  }

  // ---- Concrete runs ----

  lemma ThreeSteps(crc: Crc, a: Abs, m: map<Key, bytes>, x: Op, y: Op, z: Op)
    ensures var a1 := AbsStep(crc, a, x); var a2 := AbsStep(crc, a1.1, y);
            && AbsRun(crc, a, [x, y, z]).0 == [a1.0, a2.0, AbsStep(crc, a2.1, z).0]
            && AbsRun(crc, a, [x, y, z]).1 == AbsStep(crc, a2.1, z).1
    ensures var m1 := PlainStep(m, x); var m2 := PlainStep(m1.1, y);
            PlainRun(m, [x, y, z]) == [m1.0, m2.0, PlainStep(m2.1, z).0]
  {
    var a1, m1 := AbsStep(crc, a, x).1, PlainStep(m, x).1;
    var a2, m2 := AbsStep(crc, a1, y).1, PlainStep(m1, y).1;
    assert [x, y, z][1..] == [y, z] && [y, z][1..] == [z] && [z][1..] == [];
    assert AbsRun(crc, a2, [z]).0 == [AbsStep(crc, a2, z).0];
    assert AbsRun(crc, a2, [z]).1 == AbsStep(crc, a2, z).1;
    assert AbsRun(crc, a1, [y, z]).0 == [AbsStep(crc, a1, y).0] + AbsRun(crc, a2, [z]).0;
    assert AbsRun(crc, a1, [y, z]).1 == AbsRun(crc, a2, [z]).1;
    assert PlainRun(m2, [z]) == [PlainStep(m2, z).0];
    assert PlainRun(m1, [y, z]) == [PlainStep(m1, y).0] + PlainRun(m2, [z]);
  }

  /** Without that discipline the contract fails: a payload written without checksum over one written
      with checksum cannot be read by a client that verifies. */
  lemma StaleChecksumHidesPayload(crc: Crc, k: Key, p1: bytes, p2: bytes, cfg: Config, nlim: NativeLimits)
    requires cfg.opts.crcOn && crc(p1) != crc(p2) && Plan(|p1|, cfg.lim).Ok?
    requires ValidOp(Put(k, p1, cfg, false)) && ValidOp(NativeSet(k, p2, nlim))
    ensures var ops := [Put(k, p1, cfg, false), NativeSet(k, p2, nlim), Get(k, true, Preallocated(|p2|))];
            && Run(crc, map[], ops).0 == [Flag(true), Flag(true), Got(MissReleased, 0)]
            && PlainRun(map[], ops) == [Flag(true), Flag(true), Got(Hit(p2), |p2|)]
  {
    var x, y, z := Put(k, p1, cfg, false), NativeSet(k, p2, nlim), Get(k, true, Preallocated(|p2|));
    RunRefines(crc, map[], map[], [x, y, z]);
    ThreeSteps(crc, map[], map[], x, y, z);
  }

  /** A longer payload written without chunk metadata over one with them makes the reader's buffer too small. */
  lemma StaleSizeRaises(crc: Crc, k: Key, p1: bytes, p2: bytes, cfg: Config, nlim: NativeLimits, full: nat)
    requires cfg.opts.saveMd && |p1| < |p2| && Plan(|p1|, cfg.lim).Ok?
    requires ValidOp(Put(k, p1, cfg, false)) && ValidOp(NativeSet(k, p2, nlim))
    ensures var ops := [Put(k, p1, cfg, false), NativeSet(k, p2, nlim), Get(k, false, Allocator(true, full, true))];
            && Run(crc, map[], ops).0 == [Flag(true), Flag(true), Got(RaisedReleased, 0)]
            && PlainRun(map[], ops) == [Flag(true), Flag(true), Got(Hit(p2), |p2|)]
  {
    var x, y, z := Put(k, p1, cfg, false), NativeSet(k, p2, nlim), Get(k, false, Allocator(true, full, true));
    RunRefines(crc, map[], map[], [x, y, z]);
    ThreeSteps(crc, map[], map[], x, y, z);
  }

  /** Nor does `exists` promise a hit after an unguarded pin of an absent key. */
  lemma GhostPinExistsButMisses(crc: Crc, k: Key, src: Source)
    ensures var ops := [PinKeys([k]), Exists(k), Get(k, false, src)];
            Run(crc, map[], ops).0 == [Flag(true), Flag(true), Got(Miss, 0)]
  {
    var x, y, z := PinKeys([k]), Exists(k), Get(k, false, src);
    RunRefines(crc, map[], map[], [x, y, z]);
    ThreeSteps(crc, map[], map[], x, y, z);
    assert PinAbs(map[], [k]) == map[k := Ghost];
  }
}
