/** The ref-counted registry of clients: one connected client per configuration key. */
module Registry {
  import opened Common

  type ConfigKey = string

  /** A holder as a value; `closes` counts the close calls on its client. */
  datatype HolderState = HolderState(key: ConfigKey, refcount: int, closes: nat)

  /** Holders in order of creation, and the registry from keys to their positions. */
  datatype Model = Model(holders: seq<HolderState>, registry: map<ConfigKey, nat>)

  const INIT := Model([], map[])

  /** `get_or_create`; `connects` tells whether a new client manages to connect. The result is the holder's
      position, or None for the exception. */
  function Acquire(m: Model, key: ConfigKey, connects: bool): (Model, Option<nat>)
    requires Valid(m)
  {
    if key in m.registry then
      var i := m.registry[key];
      var h := m.holders[i];
      (m.(holders := m.holders[i := h.(refcount := h.refcount + 1)]), Some(i))
    else if !connects then (m, None)
    else
      (Model(m.holders + [HolderState(key, 1, 0)], m.registry[key := |m.holders|]), Some(|m.holders|))
  }

  function ReleaseAt(m: Model, i: nat): Model
    requires i < |m.holders|
  {
    var h := m.holders[i];
    if h.refcount <= 0 then m
    else if h.refcount > 1 then
      m.(holders := m.holders[i := h.(refcount := h.refcount - 1)])
    else
      Model(m.holders[i := h.(refcount := 0, closes := h.closes + 1)],
            m.registry - {h.key})
  }

  /** A holder is registered under its key exactly while its count is positive, and its client is closed once,
      when the count reaches zero. */
  predicate Valid(m: Model) {
    && (forall k :: k in m.registry ==>
          m.registry[k] < |m.holders| && m.holders[m.registry[k]].key == k && m.holders[m.registry[k]].refcount > 0)
    && (forall i :: 0 <= i < |m.holders| ==>
          var h := m.holders[i];
          && h.refcount >= 0
          && h.closes == (if h.refcount > 0 then 0 else 1)
          && (h.refcount > 0 ==> h.key in m.registry && m.registry[h.key] == i))
  }

  /** An acquisition fails exactly if nothing is registered and the new client cannot connect, and then changes
      nothing; otherwise it returns the holder registered for the key, a new one only if there was none. */
  lemma AcquiresExactly(m: Model, key: ConfigKey, connects: bool)
    requires Valid(m)
    ensures var (m', r) := Acquire(m, key, connects);
            && (r.Some? <==> key in m.registry || connects)
            && (r.None? ==> m' == m)
            && (r.Some? ==>
                  && key in m'.registry && m'.registry[key] == r.value < |m'.holders|
                  && m'.holders[r.value].key == key && m'.holders[r.value].closes == 0
                  && (if key in m.registry then r.value == m.registry[key] && |m'.holders| == |m.holders|
                      else r.value == |m.holders| && |m'.holders| == |m.holders| + 1)
                  && (forall i :: 0 <= i < |m.holders| && i != r.value ==> m'.holders[i] == m.holders[i])
                  && (forall k :: k != key ==> (k in m'.registry <==> k in m.registry)
                                               && (k in m.registry ==> m'.registry[k] == m.registry[k])))
  {
  }

  lemma AcquireKeepsValid(m: Model, key: ConfigKey, connects: bool)
    requires Valid(m)
    ensures Valid(Acquire(m, key, connects).0)
  {
  }

  lemma ReleaseKeepsValid(m: Model, i: nat)
    requires Valid(m) && i < |m.holders|
    ensures Valid(ReleaseAt(m, i))
  {
  }

  datatype Op = Get(key: ConfigKey, connects: bool) | Drop(i: nat)

  /** A drop names any holder ever handed out, dead ones included. */
  predicate CanDo(m: Model, op: Op) {
    op.Drop? ==> op.i < |m.holders|
  }

  function Step(m: Model, op: Op): Model
    requires Valid(m) && CanDo(m, op)
  {
    match op
    case Get(key, connects) => Acquire(m, key, connects).0
    case Drop(i) => ReleaseAt(m, i)
  }

  lemma StepKeepsValid(m: Model, op: Op)
    requires Valid(m) && CanDo(m, op)
    ensures Valid(Step(m, op))
  {
    match op
    case Get(key, connects) => AcquireKeepsValid(m, key, connects);
    case Drop(i) => ReleaseKeepsValid(m, i);
  }

  predicate IsRun(m: Model, ops: seq<Op>)
    requires Valid(m)
    decreases |ops|
  {
    ops == [] || (CanDo(m, ops[0]) && (StepKeepsValid(m, ops[0]); IsRun(Step(m, ops[0]), ops[1..])))
  }

  function Exec(m: Model, ops: seq<Op>): Model
    requires Valid(m) && IsRun(m, ops)
    decreases |ops|
  {
    if ops == [] then m
    else
      StepKeepsValid(m, ops[0]);
      Exec(Step(m, ops[0]), ops[1..])
  }

  /** The get_or_create calls of a run that returned holder `i`. */
  function Acquisitions(m: Model, ops: seq<Op>, i: nat): nat
    requires Valid(m) && IsRun(m, ops)
    decreases |ops|
  {
    if ops == [] then 0
    else
      StepKeepsValid(m, ops[0]);
      (if ops[0].Get? && Acquire(m, ops[0].key, ops[0].connects).1 == Some(i) then 1 else 0)
      + Acquisitions(Step(m, ops[0]), ops[1..], i)
  }

  /** The releases of a run that found holder `i` with a positive count. */
  function EffectiveReleases(m: Model, ops: seq<Op>, i: nat): nat
    requires Valid(m) && IsRun(m, ops)
    decreases |ops|
  {
    if ops == [] then 0
    else
      StepKeepsValid(m, ops[0]);
      (if ops[0].Drop? && ops[0].i == i && m.holders[i].refcount > 0 then 1 else 0)
      + EffectiveReleases(Step(m, ops[0]), ops[1..], i)
  }

  function RefcountOf(m: Model, i: nat): int {
    if i < |m.holders| then m.holders[i].refcount else 0
  }

  lemma StepCounts(m: Model, op: Op, i: nat)
    requires Valid(m) && CanDo(m, op)
    ensures Valid(Step(m, op)) && |m.holders| <= |Step(m, op).holders|
    ensures RefcountOf(Step(m, op), i) == RefcountOf(m, i)
              + (if op.Get? && Acquire(m, op.key, op.connects).1 == Some(i) then 1 else 0)
              - (if op.Drop? && op.i == i && m.holders[i].refcount > 0 then 1 else 0)
  {
    StepKeepsValid(m, op);
  }

  /** Over every run: the count of a holder moves by acquisitions minus effective releases, and the state
      stays valid. */
  lemma {:induction false} RunCounts(m: Model, ops: seq<Op>, i: nat)
    requires Valid(m) && IsRun(m, ops)
    ensures Valid(Exec(m, ops)) && |m.holders| <= |Exec(m, ops).holders|
    ensures RefcountOf(Exec(m, ops), i) == RefcountOf(m, i) + Acquisitions(m, ops, i) - EffectiveReleases(m, ops, i)
    decreases |ops|
  {
    if ops != [] {
      StepCounts(m, ops[0], i);
      RunCounts(Step(m, ops[0]), ops[1..], i);
    }
  }

  /** What a user of the registry can rely on after any sequence of calls, surplus releases on dead holders
      included. */
  lemma EveryRunIsSound(ops: seq<Op>, i: nat)
    requires IsRun(INIT, ops) && i < |Exec(INIT, ops).holders|
    ensures var m := Exec(INIT, ops);
            var h := m.holders[i];
            && h.refcount == Acquisitions(INIT, ops, i) - EffectiveReleases(INIT, ops, i) >= 0
            && (h.refcount > 0 <==> h.key in m.registry && m.registry[h.key] == i)
            && (h.refcount > 0 <==> h.closes == 0)
            && h.closes <= 1
            && (forall j :: 0 <= j < |m.holders| && j != i && m.holders[j].key == h.key ==>
                  h.refcount == 0 || m.holders[j].refcount == 0)
  {
    RunCounts(INIT, ops, i);
  }

  /** A release never disturbs another holder: a stale one does nothing at all, and a last one removes only
      its own registration. */
  lemma ReleaseIsPrivate(m: Model, i: nat, j: nat)
    requires Valid(m) && i < |m.holders| && j < |m.holders| && i != j
    ensures ReleaseAt(m, i).holders[j] == m.holders[j]
    ensures m.holders[j].refcount > 0 ==>
              var m' := ReleaseAt(m, i); m.holders[j].key in m'.registry && m'.registry[m.holders[j].key] == j
    ensures m.holders[i].refcount == 0 ==> ReleaseAt(m, i) == m
  {
  }

  // ---- The classes ----

  class Holder {
    const key: ConfigKey
    var refcount: int
    var closes: nat // close calls on the client
    ghost const pos: nat

    constructor (key: ConfigKey, ghost pos: nat)
      ensures this.key == key && this.pos == pos && refcount == 0 && closes == 0
    {
      this.key, this.pos, refcount, closes := key, pos, 0, 0;
    }
  }

  ghost function StateOf(h: Holder): HolderState
    reads h
  {
    HolderState(h.key, h.refcount, h.closes)
  }

  ghost function StatesOf(hs: seq<Holder>): (states: seq<HolderState>)
    reads hs
    ensures |states| == |hs| && forall i :: 0 <= i < |hs| ==> states[i] == StateOf(hs[i])
  {
    if hs == [] then [] else StatesOf(hs[..|hs| - 1]) + [StateOf(hs[|hs| - 1])]
  }

  class HolderRegistry {
    var registry: map<ConfigKey, Holder>
    ghost var all: seq<Holder> // every holder ever created

    ghost predicate Consistent()
      reads this, all
    {
      && (forall i :: 0 <= i < |all| ==> all[i].pos == i)
      && (forall k :: k in registry ==> registry[k].pos < |all| && all[registry[k].pos] == registry[k])
      && Valid(Abs())
    }

    ghost function Abs(): (m: Model)
      reads this, all
      ensures |m.holders| == |all| && forall i :: 0 <= i < |all| ==> m.holders[i] == StateOf(all[i])
      ensures m.registry == map k | k in registry :: registry[k].pos
    {
      Model(StatesOf(all), map k | k in registry :: registry[k].pos)
    }

    lemma SameModel(m: Model)
      requires |m.holders| == |all| && Valid(m)
      requires forall i :: 0 <= i < |all| ==> all[i].pos == i && StateOf(all[i]) == m.holders[i]
      requires forall k :: k in registry <==> k in m.registry
      requires forall k :: k in registry ==> registry[k].pos == m.registry[k] && all[m.registry[k]] == registry[k]
      ensures Abs() == m && Consistent()
    {
      assert Abs().holders == m.holders;
      assert Abs().registry == m.registry;
    }

    constructor ()
      ensures Consistent() && Abs() == INIT
    {
      registry, all := map[], [];
    }

    method GetOrCreate(key: ConfigKey, connects: bool) returns (h: Holder?)
      requires Consistent()
      modifies this, all
      ensures Consistent()
      ensures Abs() == Acquire(old(Abs()), key, connects).0
      ensures var i := Acquire(old(Abs()), key, connects).1;
              if i.None? then h == null else i.value < |all| && h == all[i.value]
      ensures h == null <==> key !in old(registry) && !connects
      ensures h == null ==> registry == old(registry) && all == old(all)
      ensures h != null ==> key in registry && registry[key] == h && h.key == key
    {
      if key in registry {
        h := Reuse(key);
      } else if !connects {
        h := null;
      } else {
        h := Create(key);
      }
    }

    method Reuse(key: ConfigKey) returns (h: Holder)
      requires Consistent() && key in registry
      modifies registry[key]
      ensures Consistent() && Abs() == Acquire(old(Abs()), key, true).0 && h == registry[key] == all[h.pos]
    {
      ghost var m := Abs();
      ghost var m' := Acquire(m, key, true).0;
      AcquireKeepsValid(m, key, true);
      h := registry[key];
      h.refcount := h.refcount + 1;
      forall i | 0 <= i < |all| ensures all[i].pos == i && StateOf(all[i]) == m'.holders[i] {
        if i != h.pos {
          assert all[i] != h;
        }
      }
      SameModel(m');
    }

    method Create(key: ConfigKey) returns (h: Holder)
      requires Consistent() && key !in registry
      modifies this
      ensures Consistent() && Abs() == Acquire(old(Abs()), key, true).0
      ensures |all| == |old(all)| + 1 && h == all[|all| - 1]
    {
      ghost var m, before := Abs(), all;
      ghost var m' := Acquire(m, key, true).0;
      AcquireKeepsValid(m, key, true);
      h := new Holder(key, |all|);
      registry := registry[key := h];
      all := all + [h];
      h.refcount := h.refcount + 1;
      forall i | 0 <= i < |all| ensures all[i].pos == i && StateOf(all[i]) == m'.holders[i] {
        if i < |before| {
          assert all[i] == before[i] && StateOf(before[i]) == m.holders[i];
        }
      }
      SameModel(m');
    }

    method Release(h: Holder)
      requires Consistent() && h.pos < |all| && all[h.pos] == h
      modifies this, h
      ensures all == old(all) && Consistent()
      ensures Abs() == ReleaseAt(old(Abs()), h.pos)
    {
      ghost var m := Abs();
      ReleaseKeepsValid(m, h.pos);
      if h.refcount <= 0 {
        return;
      }
      h.refcount := h.refcount - 1;
      if h.refcount == 0 {
        h.closes := h.closes + 1;
        registry := registry - {h.key};
      }
      ghost var m' := ReleaseAt(m, h.pos);
      forall i | 0 <= i < |all| ensures all[i].pos == i && StateOf(all[i]) == m'.holders[i] {
        if i != h.pos {
          assert all[i] != h;
        }
      }
      SameModel(m');
    }
  }
}
