/** Completion of L2 tasks: ids, the done map, and the event that tells the consumer to look. Every step is
    one critical section or one event operation; any number of workers and submissions interleave. */
module Completion {

  type Tid = nat

  datatype Res = Res(ok: bool, total: nat)

  /** Where the worker of a task is. `Silent`: it stored its result, but the listener it calls before the
      notification raised, so the notification never happens. */
  datatype Worker = Working | Stored(res: Res) | Notified(res: Res) | Silent(res: Res)

  /** The consumer has seen the event and cleared it, but has not popped yet. */
  datatype Consumer = Idle | Woken

  /** `ids`: what the submissions have returned, those of lookup and load tasks included. */
  datatype State = State(nextId: Tid, ids: seq<Tid>, workers: map<Tid, Worker>, done: map<Tid, Res>, signalled: bool,
                         consumer: Consumer, pops: seq<map<Tid, Res>>)

  const INIT := State(0, [], map[], map[], false, Idle, [])

  datatype Step =
    | Submit
    | SubmitElsewhere                // lookup and load tasks draw ids from the same counter
    | Store(tid: Tid, res: Res)      // insert into the done map, under the lock
    | ListenerRaises(tid: Tid)
    | Notify(tid: Tid)
    | Consume
    | Pop                            // swap the done map for an empty one, under the lock

  predicate Enabled(st: State, step: Step) {
    match step
    case Submit => true
    case SubmitElsewhere => true
    case Store(tid, _) => tid in st.workers && st.workers[tid].Working?
    case ListenerRaises(tid) => tid in st.workers && st.workers[tid].Stored? && st.workers[tid].res.ok
    case Notify(tid) => tid in st.workers && st.workers[tid].Stored?
    case Consume => st.signalled
    case Pop => true
  }

  function Next(st: State, step: Step): State
    requires Enabled(st, step)
  {
    match step
    case Submit =>
      st.(workers := st.workers[st.nextId := Working], ids := st.ids + [st.nextId], nextId := st.nextId + 1)
    case SubmitElsewhere => st.(ids := st.ids + [st.nextId], nextId := st.nextId + 1)
    case Store(tid, res) => st.(done := st.done[tid := res], workers := st.workers[tid := Stored(res)])
    case ListenerRaises(tid) => st.(workers := st.workers[tid := Silent(st.workers[tid].res)])
    case Notify(tid) => st.(signalled := true, workers := st.workers[tid := Notified(st.workers[tid].res)])
    case Consume => st.(signalled := false, consumer := Woken)
    case Pop => st.(done := map[], consumer := Idle, pops := st.pops + [st.done])
  }

  predicate IsRun(st: State, steps: seq<Step>)
    decreases |steps|
  {
    steps == [] || (Enabled(st, steps[0]) && IsRun(Next(st, steps[0]), steps[1..]))
  }

  function Exec(st: State, steps: seq<Step>): State
    requires IsRun(st, steps)
    decreases |steps|
  {
    if steps == [] then st else Exec(Next(st, steps[0]), steps[1..])
  }

  // ---- Conservation ----

  /** How often a task has been handed to the consumer. */
  function Deliveries(pops: seq<map<Tid, Res>>, tid: Tid): nat {
    if pops == [] then 0
    else Deliveries(pops[..|pops| - 1], tid) + if tid in pops[|pops| - 1] then 1 else 0
  }

  /** A task that has stored its result is in the done map or has been delivered, exactly one of the two
      and exactly once; a task that has not is in neither. */
  ghost predicate Conserved(st: State) {
    && (forall tid :: tid in st.workers ==> tid < st.nextId)
    && (forall tid :: Deliveries(st.pops, tid) + (if tid in st.done then 1 else 0)
                      == if tid in st.workers && !st.workers[tid].Working? then 1 else 0)
    && (forall tid :: tid in st.done && tid in st.workers && !st.workers[tid].Working? ==>
          st.done[tid] == st.workers[tid].res)
    && (forall i, tid :: 0 <= i < |st.pops| && tid in st.pops[i] && tid in st.workers && !st.workers[tid].Working? ==>
          st.pops[i][tid] == st.workers[tid].res)
  }

  lemma DeliveriesGrow(pops: seq<map<Tid, Res>>, last: map<Tid, Res>)
    ensures forall tid :: Deliveries(pops + [last], tid) == Deliveries(pops, tid) + if tid in last then 1 else 0
  {
    assert (pops + [last])[..|pops|] == pops;
  }

  lemma {:induction false} DeliveredFrom(pops: seq<map<Tid, Res>>, i: nat, tid: Tid)
    requires i < |pops| && tid in pops[i]
    ensures Deliveries(pops, tid) >= 1
  {
    if i < |pops| - 1 {
      DeliveredFrom(pops[..|pops| - 1], i, tid);
    }
  }

  lemma StoreKeepsConserved(st: State, tid: Tid, res: Res)
    requires Conserved(st) && Enabled(st, Store(tid, res))
    ensures Conserved(Next(st, Store(tid, res)))
  {
    forall i | 0 <= i < |st.pops| ensures tid !in st.pops[i] {
      if tid in st.pops[i] {
        DeliveredFrom(st.pops, i, tid);
      }
    }
  }

  lemma PopKeepsConserved(st: State)
    requires Conserved(st)
    ensures Conserved(Next(st, Pop))
  {
    DeliveriesGrow(st.pops, st.done);
  }

  lemma NextKeepsConserved(st: State, step: Step)
    requires Conserved(st) && Enabled(st, step)
    ensures Conserved(Next(st, step))
  {
    match step
    case Pop => PopKeepsConserved(st);
    case Submit =>
      assert st.nextId !in st.workers;
    case Store(tid, res) => StoreKeepsConserved(st, tid, res);
    case _ =>
  }

  // ---- Wakeups ----

  /** Every undelivered result has somebody about to fetch it or to raise the event, or its listener raised. */
  ghost predicate Awake(st: State) {
    forall tid :: tid in st.done ==>
      && tid in st.workers && !st.workers[tid].Working?
      && (|| st.workers[tid].Stored? || (st.workers[tid].Silent? && st.workers[tid].res.ok)
          || st.signalled || st.consumer == Woken)
  }

  lemma NextKeepsAwake(st: State, step: Step)
    requires Conserved(st) && Awake(st) && Enabled(st, step)
    ensures Awake(Next(st, step))
  {
  }

  lemma {:induction false} ExecKeeps(st: State, steps: seq<Step>)
    requires Conserved(st) && Awake(st) && IsRun(st, steps)
    ensures Conserved(Exec(st, steps)) && Awake(Exec(st, steps))
    decreases |steps|
  {
    if steps != [] {
      NextKeepsConserved(st, steps[0]);
      NextKeepsAwake(st, steps[0]);
      ExecKeeps(Next(st, steps[0]), steps[1..]);
    }
  }

  /** In every run: each finished task is delivered by at most one pop, by exactly one or still waiting, with
      the result its worker computed. */
  lemma EveryTaskIsDeliveredOnce(steps: seq<Step>, tid: Tid)
    requires IsRun(INIT, steps)
    ensures var st := Exec(INIT, steps);
            && Deliveries(st.pops, tid) <= 1
            && (tid in st.workers && !st.workers[tid].Working? ==>
                  (Deliveries(st.pops, tid) == 1 <==> tid !in st.done))
            && (tid !in st.workers || st.workers[tid].Working? ==> Deliveries(st.pops, tid) == 0 && tid !in st.done)
            && (forall i :: 0 <= i < |st.pops| && tid in st.pops[i] ==>
                  tid in st.workers && !st.workers[tid].Working? && st.pops[i][tid] == st.workers[tid].res)
  {
    ExecKeeps(INIT, steps);
    var st := Exec(INIT, steps);
    forall i | 0 <= i < |st.pops| && tid in st.pops[i] ensures Deliveries(st.pops, tid) >= 1 {
      DeliveredFrom(st.pops, i, tid);
    }
  }

  /** A pop right now delivers every finished task that has not been delivered. */
  lemma PopDrains(steps: seq<Step>, tid: Tid)
    requires IsRun(INIT, steps)
    ensures var st := Exec(INIT, steps);
            tid in st.workers && !st.workers[tid].Working? ==> Deliveries(Next(st, Pop).pops, tid) == 1
    ensures var st := Next(Exec(INIT, steps), Pop); st.done == map[] && st.consumer == Idle
  {
    ExecKeeps(INIT, steps);
    var st := Exec(INIT, steps);
    DeliveriesGrow(st.pops, st.done);
  }

  /** Results are waiting, and nobody will ever say so. */
  ghost predicate Stuck(st: State) {
    && st.done != map[] && !st.signalled && st.consumer == Idle
    && forall tid :: tid in st.workers ==> !st.workers[tid].Stored?
  }

  /** No lost wakeup: a stuck state needs a raising listener, and all results waiting in it are its victims. */
  lemma OnlyListenersLoseWakeups(steps: seq<Step>)
    requires IsRun(INIT, steps)
    ensures var st := Exec(INIT, steps);
            Stuck(st) ==> forall tid :: tid in st.done ==>
              tid in st.workers && st.workers[tid].Silent? && st.workers[tid].res.ok
  {
    ExecKeeps(INIT, steps);
  }

  ghost predicate NoneSilent(st: State) {
    forall tid :: tid in st.workers ==> !st.workers[tid].Silent?
  }

  lemma {:induction false} WithoutRaisingNoneSilent(st: State, steps: seq<Step>)
    requires IsRun(st, steps) && NoneSilent(st)
    requires forall i :: 0 <= i < |steps| ==> !steps[i].ListenerRaises?
    ensures NoneSilent(Exec(st, steps))
    decreases |steps|
  {
    if steps != [] {
      WithoutRaisingNoneSilent(Next(st, steps[0]), steps[1..]);
    }
  }

  function Notifications(steps: seq<Step>): nat {
    if steps == [] then 0 else Notifications(steps[..|steps| - 1]) + if steps[|steps| - 1].Notify? then 1 else 0
  }

  function Wakeups(steps: seq<Step>): nat {
    if steps == [] then 0 else Wakeups(steps[..|steps| - 1]) + if steps[|steps| - 1].Consume? then 1 else 0
  }

  lemma {:induction false} CountsConcat(a: seq<Step>, b: seq<Step>)
    ensures Notifications(a + b) == Notifications(a) + Notifications(b) && Wakeups(a + b) == Wakeups(a) + Wakeups(b)
  {
    if b == [] {
      assert a + b == a;
    } else {
      assert (a + b)[..|a + b| - 1] == a + b[..|b| - 1];
      CountsConcat(a, b[..|b| - 1]);
    }
  }

  lemma {:induction false} WakeupsBounded(st: State, steps: seq<Step>)
    requires IsRun(st, steps)
    ensures Wakeups(steps) + (if Exec(st, steps).signalled then 1 else 0)
            <= Notifications(steps) + if st.signalled then 1 else 0
    decreases |steps|
  {
    if steps != [] {
      WakeupsBounded(Next(st, steps[0]), steps[1..]);
      assert steps == [steps[0]] + steps[1..] && [steps[0]][..0] == [];
      CountsConcat([steps[0]], steps[1..]);
    }
  }

  /** The consumer is never woken more often than it was notified: taking the event clears it. */
  lemma NoSpuriousWakeups(steps: seq<Step>)
    requires IsRun(INIT, steps)
    ensures Wakeups(steps) <= Notifications(steps)
  {
    WakeupsBounded(INIT, steps);
  }

  /** As long as no listener raises, no run gets stuck. */
  lemma NoLostWakeup(steps: seq<Step>)
    requires IsRun(INIT, steps)
    requires forall i :: 0 <= i < |steps| ==> !steps[i].ListenerRaises?
    ensures !Stuck(Exec(INIT, steps))
  {
    ExecKeeps(INIT, steps);
    WithoutRaisingNoneSilent(INIT, steps);
    var st := Exec(INIT, steps);
    if st.done != map[] {
      var tid :| tid in st.done;
      assert st.workers[tid].Stored? || st.signalled || st.consumer == Woken;
    }
  }

  /** A raising listener does lose the wakeup: the notification comes after it, outside any handler. */
  lemma RaisingListenerGetsStuck(res: Res)
    requires res.ok
    ensures var steps := [Submit, Store(0, res), ListenerRaises(0)];
            IsRun(INIT, steps) && Stuck(Exec(INIT, steps)) && Exec(INIT, steps).done == map[0 := res]
  {
    var a, b, c := Submit, Store(0, res), ListenerRaises(0);
    assert [a, b, c][1..] == [b, c] && [b, c][1..] == [c] && [c][1..] == [];
    var s1 := Next(INIT, a);
    var s2 := Next(s1, b);
    var s3 := Next(s2, c);
    assert IsRun(s3, []) && Exec(s3, []) == s3;
    assert IsRun(s2, [c]) && Exec(s2, [c]) == s3;
    assert IsRun(s1, [b, c]) && Exec(s1, [b, c]) == s3;
    assert 0 in s3.done;
  }

  ghost predicate IdsFresh(st: State) {
    && (forall i, j :: 0 <= i < j < |st.ids| ==> st.ids[i] != st.ids[j])
    && (forall i :: 0 <= i < |st.ids| ==> st.ids[i] < st.nextId)
    && (forall tid :: tid in st.workers ==> tid in st.ids)
  }

  lemma {:induction false} ExecKeepsIdsFresh(st: State, steps: seq<Step>)
    requires IdsFresh(st) && IsRun(st, steps)
    ensures IdsFresh(Exec(st, steps))
    decreases |steps|
  {
    if steps != [] {
      ExecKeepsIdsFresh(Next(st, steps[0]), steps[1..]);
    }
  }

  /** Tasks of all three kinds have pairwise distinct ids, and the next submission gets another one. */
  lemma FreshIds(steps: seq<Step>)
    requires IsRun(INIT, steps)
    ensures var st := Exec(INIT, steps);
            && (forall i, j :: 0 <= i < j < |st.ids| ==> st.ids[i] != st.ids[j])
            && st.nextId !in st.ids
            && (forall tid :: tid in st.workers ==> tid in st.ids)
  {
    ExecKeepsIdsFresh(INIT, steps);
  }
}
