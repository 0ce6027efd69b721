/** Overwriting a key in place: the meta record of one payload over segments of which another put has
    already replaced some. What a reader that verifies no checksum then gets. */
module Overwrites {
  import opened Common
  import opened Sharding
  import opened Records
  import opened Engine
  import opened Client
  import opened EngineClass
  import opened RoundTrip

  /** The segments a reader finds: cuts of `p2` at the indices in `d`, of `p1` elsewhere. */
  function Mixed(p1: bytes, s1: nat, p2: bytes, s2: nat, d: set<nat>, n: nat): (parts: seq<bytes>)
    ensures |parts| == n
    ensures forall i :: 0 <= i < n ==> parts[i] == if i in d then Cut(p2, i, s2) else Cut(p1, i, s1)
  {
    if n == 0 then []
    else
      var last := if n - 1 in d then Cut(p2, n - 1, s2) else Cut(p1, n - 1, s1);
      Mixed(p1, s1, p2, s2, d, n - 1) + [last]
  }

  /** `parts` were read, none missing. */
  ghost predicate AllRead(segs: seq<Option<Bins>>, parts: seq<bytes>) {
    |segs| == |parts| && forall i :: 0 <= i < |segs| ==> segs[i].Some? && segs[i].value.b == Some(parts[i])
  }

  // ---- Joining parts ----

  lemma JoinNext(parts: seq<bytes>, i: nat)
    requires i < |parts|
    ensures Join(parts[..i + 1]) == Join(parts[..i]) + parts[i]
  {
    assert parts[..i + 1] == parts[..i] + [parts[i]];
    JoinLast(parts[..i], parts[i]);
  }

  lemma {:induction false} JoinGrows(parts: seq<bytes>, i: nat)
    requires i <= |parts|
    ensures Join(parts[..i]) <= Join(parts)
    decreases |parts| - i
  {
    if i == |parts| {
      assert parts[..i] == parts;
    } else {
      JoinNext(parts, i);
      JoinGrows(parts, i + 1);
    }
  }

  /** The first `i` parts joined, and where part `i` starts. */
  function JoinTo(parts: seq<bytes>, i: nat): bytes
    requires i <= |parts|
  {
    if i == 0 then [] else JoinTo(parts, i - 1) + parts[i - 1]
  }

  function Offset(parts: seq<bytes>, i: nat): nat
    requires i <= |parts|
  {
    if i == 0 then 0 else Offset(parts, i - 1) + |parts[i - 1]|
  }

  /** `part` is the slice of `p` at `at`. */
  predicate SliceAt(p: bytes, at: nat, part: bytes) {
    at + |part| <= |p| && p[at..at + |part|] == part
  }

  /** Each of the first `i` parts is the slice of `p` at its offset. */
  predicate SpellsTo(parts: seq<bytes>, p: bytes, i: nat)
    requires i <= |parts|
  {
    i == 0 || (SpellsTo(parts, p, i - 1) && SliceAt(p, Offset(parts, i - 1), parts[i - 1]))
  }

  /** All of them are, and together they reach the end. */
  predicate Spells(parts: seq<bytes>, p: bytes) {
    SpellsTo(parts, p, |parts|) && Offset(parts, |parts|) == |p|
  }

  lemma {:induction false} JoinToIsJoin(parts: seq<bytes>, i: nat)
    requires i <= |parts|
    ensures JoinTo(parts, i) == Join(parts[..i]) && |JoinTo(parts, i)| == Offset(parts, i)
  {
    if i > 0 {
      JoinToIsJoin(parts, i - 1);
      JoinNext(parts, i - 1);
    }
  }

  lemma {:induction false} JoinToGrows(parts: seq<bytes>, i: nat, n: nat)
    requires i <= n <= |parts|
    ensures JoinTo(parts, i) <= JoinTo(parts, n)
  {
    if i < n {
      JoinToGrows(parts, i, n - 1);
    }
  }

  lemma SliceAfter(a: bytes, b: bytes, p: bytes)
    requires a + b <= p
    ensures SliceAt(p, |a|, b)
  {
    assert b == (a + b)[|a|..];
  }

  lemma ExtendPrefix(joined: bytes, p: bytes, at: nat, part: bytes)
    requires SliceAt(p, at, part) && joined == p[..at]
    ensures joined + part == p[..at + |part|]
  {
  }

  lemma {:induction false} SpelledPrefix(parts: seq<bytes>, p: bytes, i: nat)
    requires i <= |parts| && SpellsTo(parts, p, i)
    ensures Offset(parts, i) <= |p| && JoinTo(parts, i) == p[..Offset(parts, i)]
  {
    if i > 0 {
      SpelledPrefix(parts, p, i - 1);
      ExtendPrefix(JoinTo(parts, i - 1), p, Offset(parts, i - 1), parts[i - 1]);
    }
  }

  lemma JoinedPart(parts: seq<bytes>, i: nat)
    requires i < |parts|
    ensures SliceAt(JoinTo(parts, |parts|), Offset(parts, i), parts[i])
  {
    JoinToIsJoin(parts, i);
    JoinToGrows(parts, i + 1, |parts|);
    SliceAfter(JoinTo(parts, i), parts[i], JoinTo(parts, |parts|));
  }

  lemma {:induction false} JoinedSpells(parts: seq<bytes>, i: nat)
    requires i <= |parts|
    ensures SpellsTo(parts, JoinTo(parts, |parts|), i)
  {
    if i > 0 {
      JoinedSpells(parts, i - 1);
      JoinedPart(parts, i - 1);
    }
  }

  /** Parts of any lengths join to `p` exactly when they spell it. */
  lemma JoinsExactly(parts: seq<bytes>, p: bytes)
    ensures Join(parts) == p <==> Spells(parts, p)
  {
    JoinToIsJoin(parts, |parts|);
    assert parts[..|parts|] == parts;
    JoinedSpells(parts, |parts|);
    if Spells(parts, p) {
      SpelledPrefix(parts, p, |parts|);
    }
  }

  lemma {:induction false} JoinBound(parts: seq<bytes>, s: nat)
    requires forall i :: 0 <= i < |parts| ==> |parts[i]| <= s
    ensures |Join(parts)| <= |parts| * s
    ensures |Join(parts)| == |parts| * s <==> forall i :: 0 <= i < |parts| ==> |parts[i]| == s
  {
    if parts != [] {
      var init := parts[..|parts| - 1];
      JoinBound(init, s);
      assert |parts| * s == |init| * s + s;
      assert forall i :: 0 <= i < |init| ==> parts[i] == init[i];
    }
  }

  /** Parts of known lengths can be told apart after joining. */
  lemma {:induction false} JoinSeparates(a: seq<bytes>, b: seq<bytes>)
    requires |a| == |b| && forall i :: 0 <= i < |a| ==> |a[i]| == |b[i]|
    requires Join(a) == Join(b)
    ensures a == b
  {
    if a != [] {
      var n := |a| - 1;
      var x, y := Join(a[..n]), Join(b[..n]);
      assert |a[n]| == |b[n]| && x + a[n] == y + b[n];
      assert |x| == |y|;
      assert x == (x + a[n])[..|x|] == (y + b[n])[..|y|] == y;
      assert a[n] == (x + a[n])[|x|..] == (y + b[n])[|y|..] == b[n];
      JoinSeparates(a[..n], b[..n]);
      assert a == a[..n] + [a[n]] && b == b[..n] + [b[n]];
    }
  }

  // ---- What a mixed read gives ----

  ghost predicate CutsAgree(p1: bytes, p2: bytes, s: nat, d: set<nat>, n: nat) {
    forall i :: i in d && i < n ==> Cut(p2, i, s) == Cut(p1, i, s)
  }

  /** A payload that reaches into segment `n` fills all segments before it. */
  lemma EarlierCutsAreFull(p: bytes, s: nat, n: nat, i: nat)
    requires |p| > n * s && i < n
    ensures |Cut(p, i, s)| == s
  {
    MulMono(s, i + 1, n);
    assert (i + 1) * s == i * s + s;
  }

  lemma CutReach(p: bytes, i: nat, s: nat)
    ensures |Cut(p, i, s)| <= s
    ensures |Cut(p, i, s)| > 0 ==> |p| > i * s
  {
  }

  /** If the parts before the last are shorter than planned, so is the whole: a last part that made up for it would
      come from a payload whose earlier parts are all full. */
  lemma FrontIsFull(q: seq<bytes>, p1: bytes, p2: bytes, plan: ShardPlan, d: set<nat>)
    requires ValidLayout(plan, |p1|) && plan.nseg > 1
    requires q == Mixed(p1, plan.segB, p2, plan.segB, d, plan.nseg) && |Join(q)| == |p1|
    ensures |Join(q[..plan.nseg - 1])| == (plan.nseg - 1) * plan.segB
    ensures forall i: nat :: i < plan.nseg - 1 ==> |q[i]| == plan.segB
  {
    var n, s := plan.nseg - 1, plan.segB;
    var front := q[..n];
    assert q == front + [q[n]];
    JoinLast(front, q[n]);
    CutLength(p1, plan, n);
    forall i | 0 <= i < |front| ensures |front[i]| <= s {
      CutReach(p1, i, s);
      CutReach(p2, i, s);
    }
    JoinBound(front, s);
    if |Join(front)| < n * s {
      CutReach(p2, n, s);
      forall i | 0 <= i < n ensures |front[i]| == s {
        EarlierCutsAreFull(p2, s, n, i);
        EarlierCutsAreFull(p1, s, n, i);
      }
    }
    assert forall i: nat :: i < n ==> q[i] == front[i];
  }

  lemma MixedLengths(p1: bytes, p2: bytes, plan: ShardPlan, d: set<nat>)
    requires ValidLayout(plan, |p1|) && plan.nseg > 1
    requires |Join(Mixed(p1, plan.segB, p2, plan.segB, d, plan.nseg))| == |p1|
    ensures forall i: nat :: i < plan.nseg ==>
              |Mixed(p1, plan.segB, p2, plan.segB, d, plan.nseg)[i]| == |Cut(p1, i, plan.segB)|
  {
    var n, s := plan.nseg - 1, plan.segB;
    var q := Mixed(p1, s, p2, s, d, plan.nseg);
    FrontIsFull(q, p1, p2, plan, d);
    assert q == q[..n] + [q[n]];
    JoinLast(q[..n], q[n]);
    forall i: nat | i < plan.nseg ensures |q[i]| == |Cut(p1, i, s)| {
      CutLength(p1, plan, i);
    }
  }

  /** The mixture spells the old payload exactly when no replaced cut differs. */
  lemma MixedIsOldExactly(p1: bytes, p2: bytes, plan: ShardPlan, d: set<nat>)
    requires ValidLayout(plan, |p1|) && plan.nseg > 1
    ensures Join(Mixed(p1, plan.segB, p2, plan.segB, d, plan.nseg)) == p1
            <==> CutsAgree(p1, p2, plan.segB, d, plan.nseg)
  {
    var q, c := Mixed(p1, plan.segB, p2, plan.segB, d, plan.nseg), Cuts(p1, plan.segB, plan.nseg);
    CutsRecoverPayload(p1, plan);
    if Join(q) == p1 {
      MixedLengths(p1, p2, plan, d);
      JoinSeparates(q, c);
      forall i | i in d && i < plan.nseg ensures Cut(p2, i, plan.segB) == Cut(p1, i, plan.segB) {
        assert q[i] == c[i];
      }
    }
    if CutsAgree(p1, p2, plan.segB, d, plan.nseg) {
      assert q == c;
    }
  }

  lemma {:induction false} GatherJoins(segs: seq<Option<Bins>>, parts: seq<bytes>, i: nat, cap: nat)
    requires AllRead(segs, parts) && i <= |parts| && |Join(parts[..i])| <= cap
    ensures Gather(segs, i, Join(parts[..i]), cap)
            == if |Join(parts)| <= cap then Hit(Join(parts)) else RaisedReleased
    decreases |parts| - i
  {
    if i == |parts| {
      assert parts[..i] == parts;
    } else {
      JoinNext(parts, i);
      JoinGrows(parts, i + 1);
      if |Join(parts[..i + 1])| <= cap {
        GatherJoins(segs, parts, i + 1, cap);
      }
    }
  }

  /** A reader without verification, whatever payloads, layouts and lengths the segments come from. */
  lemma MixedReadOutcome(crc: Crc, meta: Bins, segs: seq<Option<Bins>>, parts: seq<bytes>, cap: nat)
    requires meta.state == Some(Ready) && meta.nseg == Some(|parts|) && |parts| > 1 && AllRead(segs, parts)
    ensures FinishGet(crc, false, meta, segs, Some(cap))
            == if |Join(parts)| <= cap then Hit(Join(parts)) else RaisedReleased
  {
    assert parts[..0] == [];
    GatherJoins(segs, parts, 0, cap);
  }

  /** Only segments that `p2` has. */
  predicate Reaches(p2: bytes, s2: nat, d: set<nat>) {
    forall i :: i in d ==> i * s2 < |p2|
  }

  /** Reading a further part: a full cut, or what `p2` has there. */
  lemma ReachStep(p2: bytes, i: nat, s: nat, part: bytes, before: nat)
    requires before >= Min(i * s, |p2|)
    requires |part| == s || (i * s < |p2| && part == Cut(p2, i, s))
    ensures before + |part| >= Min((i + 1) * s, |p2|)
  {
    assert (i + 1) * s == i * s + s;
  }

  lemma MixedLast(p1: bytes, p2: bytes, s: nat, d: set<nat>, i: nat)
    ensures |Join(Mixed(p1, s, p2, s, d, i + 1))|
            == |Join(Mixed(p1, s, p2, s, d, i))| + |if i in d then Cut(p2, i, s) else Cut(p1, i, s)|
  {
    JoinLast(Mixed(p1, s, p2, s, d, i), if i in d then Cut(p2, i, s) else Cut(p1, i, s));
  }

  lemma {:induction false} MixedReach(p1: bytes, p2: bytes, s: nat, d: set<nat>, n: nat, m: nat)
    requires |p1| > n * s && m <= n && Reaches(p2, s, d)
    ensures |Join(Mixed(p1, s, p2, s, d, m))| >= Min(m * s, |p2|)
  {
    if m > 0 {
      var i := m - 1;
      MixedReach(p1, p2, s, d, n, i);
      MixedLast(p1, p2, s, d, i);
      EarlierCutsAreFull(p1, s, n, i);
      ReachStep(p2, i, s, if i in d then Cut(p2, i, s) else Cut(p1, i, s), |Join(Mixed(p1, s, p2, s, d, i))|);
    }
  }

  /** A mixture never spells a new payload of another layout: it is too short for a longer one, too long for a
      shorter one. */
  lemma OtherLayoutNeverSpelled(p1: bytes, p2: bytes, plan: ShardPlan, d: set<nat>)
    requires ValidLayout(plan, |p1|) && plan.nseg > 1 && Reaches(p2, plan.segB, d) && !ValidLayout(plan, |p2|)
    ensures Join(Mixed(p1, plan.segB, p2, plan.segB, d, plan.nseg)) != p2
  {
    var n, s := plan.nseg, plan.segB;
    var q := Mixed(p1, s, p2, s, d, n);
    if |p2| > n * s {
      forall i | 0 <= i < n ensures |q[i]| <= s {
        CutReach(p1, i, s);
        CutReach(p2, i, s);
      }
      JoinBound(q, s);
    } else {
      assert |p2| <= (n - 1) * s && n - 1 !in d;
      MixedReach(p1, p2, s, d, n - 1, n - 1);
      MixedLast(p1, p2, s, d, n - 1);
      CutLength(p1, plan, n - 1);
    }
  }

  lemma MixedBothWays(p1: bytes, p2: bytes, plan: ShardPlan, d: set<nat>)
    ensures Mixed(p1, plan.segB, p2, plan.segB, d, plan.nseg)
            == Mixed(p2, plan.segB, p1, plan.segB, Range(0, plan.nseg) - d, plan.nseg)
    ensures CutsAgree(p2, p1, plan.segB, Range(0, plan.nseg) - d, plan.nseg)
            <==> CutsAgree(p1, p2, plan.segB, Range(0, plan.nseg) - d, plan.nseg)
  {
  }

  /** One segment size: the mixture is the new payload exactly when that has this layout and no cut that was
      left differs. */
  lemma MixedIsNewExactly(p1: bytes, p2: bytes, plan: ShardPlan, d: set<nat>)
    requires ValidLayout(plan, |p1|) && plan.nseg > 1 && Reaches(p2, plan.segB, d)
    ensures Join(Mixed(p1, plan.segB, p2, plan.segB, d, plan.nseg)) == p2
            <==> ValidLayout(plan, |p2|) && CutsAgree(p1, p2, plan.segB, Range(0, plan.nseg) - d, plan.nseg)
  {
    var rest := Range(0, plan.nseg) - d;
    if ValidLayout(plan, |p2|) {
      MixedIsOldExactly(p2, p1, plan, rest);
      MixedBothWays(p1, p2, plan, d);
    } else {
      OtherLayoutNeverSpelled(p1, p2, plan, d);
    }
  }

  /** Under one segment size, spelling is agreement. */
  lemma SpellsExactly(p1: bytes, p2: bytes, plan: ShardPlan, d: set<nat>)
    requires ValidLayout(plan, |p1|) && plan.nseg > 1 && Reaches(p2, plan.segB, d)
    ensures var parts := Mixed(p1, plan.segB, p2, plan.segB, d, plan.nseg);
            && (Spells(parts, p1) <==> CutsAgree(p1, p2, plan.segB, d, plan.nseg))
            && (Spells(parts, p2) <==> && ValidLayout(plan, |p2|)
                                       && CutsAgree(p1, p2, plan.segB, Range(0, plan.nseg) - d, plan.nseg))
  {
    var parts := Mixed(p1, plan.segB, p2, plan.segB, d, plan.nseg);
    JoinsExactly(parts, p1);
    JoinsExactly(parts, p2);
    MixedIsOldExactly(p1, p2, plan, d);
    MixedIsNewExactly(p1, p2, plan, d);
  }

  /** A reader holding the meta record of `p1` over any segments replaced by cuts of `p2`, in any two layouts: it
      delivers a payload exactly when the parts spell it. Under one segment size, that is the old payload
      exactly when no replaced cut differs. */
  lemma OldPayloadExactly(crc: Crc, meta: Bins, p1: bytes, plan: ShardPlan, p2: bytes, s2: nat, d: set<nat>,
                          segs: seq<Option<Bins>>, cap: nat)
    requires ValidLayout(plan, |p1|) && plan.nseg > 1
    requires meta.state == Some(Ready) && meta.nseg == Some(plan.nseg)
    requires AllRead(segs, Mixed(p1, plan.segB, p2, s2, d, plan.nseg))
    ensures var parts := Mixed(p1, plan.segB, p2, s2, d, plan.nseg);
            && (forall p :: FinishGet(crc, false, meta, segs, Some(cap)) == Hit(p) <==> |p| <= cap && Spells(parts, p))
            && (s2 == plan.segB ==> (Spells(parts, p1) <==> CutsAgree(p1, p2, s2, d, plan.nseg)))
  {
    var parts := Mixed(p1, plan.segB, p2, s2, d, plan.nseg);
    MixedReadOutcome(crc, meta, segs, parts, cap);
    forall p ensures Join(parts) == p <==> Spells(parts, p) {
      JoinsExactly(parts, p);
    }
    if s2 == plan.segB {
      MixedIsOldExactly(p1, p2, plan, d);
    }
  }

  /** Fully old or fully new, for payloads of any lengths in any two layouts: exactly when the parts spell one of
      the two. Under one segment size: exactly when the payloads agree on all replaced segments, or on
      all others and the new one fits the old layout. */
  lemma OldOrNewExactly(crc: Crc, meta: Bins, p1: bytes, plan: ShardPlan, p2: bytes, s2: nat, d: set<nat>,
                        segs: seq<Option<Bins>>, cap: nat)
    requires ValidLayout(plan, |p1|) && plan.nseg > 1
    requires meta.state == Some(Ready) && meta.nseg == Some(plan.nseg)
    requires AllRead(segs, Mixed(p1, plan.segB, p2, s2, d, plan.nseg))
    ensures var parts := Mixed(p1, plan.segB, p2, s2, d, plan.nseg);
            FinishGet(crc, false, meta, segs, Some(cap)) in {Hit(p1), Hit(p2)}
            <==> (|p1| <= cap && Spells(parts, p1)) || (|p2| <= cap && Spells(parts, p2))
    ensures s2 == plan.segB && Reaches(p2, s2, d) ==>
              (FinishGet(crc, false, meta, segs, Some(cap)) in {Hit(p1), Hit(p2)}
               <==> || (|p1| <= cap && CutsAgree(p1, p2, s2, d, plan.nseg))
                    || (&& |p2| <= cap && ValidLayout(plan, |p2|)
                        && CutsAgree(p1, p2, s2, Range(0, plan.nseg) - d, plan.nseg)))
  {
    OldPayloadExactly(crc, meta, p1, plan, p2, s2, d, segs, cap);
    if s2 == plan.segB && Reaches(p2, s2, d) {
      SpellsExactly(p1, p2, plan, d);
    }
  }

  // ---- A put that fails in its segment batch ----

  lemma {:induction false} ApplyMaskSkips(s: Store, writes: seq<KeyedWrite>, mask: seq<bool>, n: nat, i: nat)
    requires n <= |writes| == |mask| && i < |writes| && !mask[i]
    requires forall j :: 0 <= j < |writes| && j != i ==> writes[j].u != writes[i].u
    ensures Lookup(ApplyMask(s, writes, mask, n), writes[i].u) == Lookup(s, writes[i].u)
  {
    if n > 0 {
      ApplyMaskSkips(s, writes, mask, n - 1, i);
    }
  }

  function Replaced(mask: seq<bool>, n: nat): set<nat> {
    set i: nat | i < |mask| && i < n && mask[i] :: i
  }

  /** The store after such a put: the old meta record, and the segments the mask says are new. */
  lemma FailedPutMixes(crc: Crc, crcOn: bool, s: Store, k: Key, p1: bytes, plan: ShardPlan, p2: bytes, plan2: ShardPlan,
                       mask: seq<bool>)
    requires HoldsAs(s, k, p1, plan) && plan.nseg > 1 && |mask| == plan2.nseg
    ensures var s' := ApplyMask(s, SegBatch(crc, crcOn, k, p2, plan2.segB, plan2.nseg), mask, plan2.nseg);
            && Lookup(s', MetaRec(k)) == Lookup(s, MetaRec(k))
            && AllRead(SegReads(s', k, plan.nseg),
                       Mixed(p1, plan.segB, p2, plan2.segB, Replaced(mask, plan.nseg), plan.nseg))
  {
    var ws := SegBatch(crc, crcOn, k, p2, plan2.segB, plan2.nseg);
    ApplyMaskFrame(s, ws, mask, plan2.nseg, MetaRec(k));
    var s' := ApplyMask(s, ws, mask, plan2.nseg);
    forall i: nat | i < plan.nseg
      ensures SegRec(k, i) in s'
      ensures s'[SegRec(k, i)].b
              == Some(if i < |mask| && mask[i] then Cut(p2, i, plan2.segB) else Cut(p1, i, plan.segB))
    {
      if i >= |mask| {
        ApplyMaskFrame(s, ws, mask, plan2.nseg, SegRec(k, i));
        assert Lookup(s', SegRec(k, i)) == Lookup(s, SegRec(k, i));
      } else if mask[i] {
        ApplyMaskAt(s, ws, mask, plan2.nseg, i);
      } else {
        ApplyMaskSkips(s, ws, mask, plan2.nseg, i);
        assert Lookup(s', SegRec(k, i)) == Lookup(s, SegRec(k, i));
      }
    }
  }

  /** The parts a reader finds after such a put. */
  function PartsAfter(p1: bytes, plan: ShardPlan, p2: bytes, plan2: ShardPlan, mask: seq<bool>): seq<bytes> {
    Mixed(p1, plan.segB, p2, plan2.segB, Replaced(mask, plan.nseg), plan.nseg)
  }

  lemma ReplacedReaches(p2: bytes, plan2: ShardPlan, mask: seq<bool>, n: nat)
    requires ValidLayout(plan2, |p2|) && plan2.nseg > 1 && |mask| == plan2.nseg
    ensures Reaches(p2, plan2.segB, Replaced(mask, n))
  {
    forall i | i in Replaced(mask, n) ensures i * plan2.segB < |p2| {
      CutLength(p2, plan2, i);
    }
  }

  /** An overwriting put of any payload, in any layout, that fails before its meta write: a get without
      verification gives a payload exactly when the buffer suffices and the parts spell it. Under one segment
      size the old payload survives exactly when no written segment differs, and the new one shows exactly when
      it fits the old layout and no other segment differs. */
  lemma FailedPutGivesExactly(crc: Crc, crcOn: bool, s: Store, k: Key, p1: bytes, plan: ShardPlan, p2: bytes,
                              plan2: ShardPlan, mask: seq<bool>, src: Source)
    requires HoldsAs(s, k, p1, plan) && plan.nseg > 1
    requires ValidLayout(plan2, |p2|) && plan2.nseg > 1 && |mask| == plan2.nseg
    ensures var s' := ApplyMask(s, SegBatch(crc, crcOn, k, p2, plan2.segB, plan2.nseg), mask, plan2.nseg);
            var cap, parts := Capacity(src, s[MetaRec(k)]), PartsAfter(p1, plan, p2, plan2, mask);
            forall p :: GetStore(crc, false, s', k, src) == Hit(p)
                        <==> cap.Some? && |p| <= cap.value && Spells(parts, p)
    ensures plan2.segB == plan.segB ==>
              var parts, d := PartsAfter(p1, plan, p2, plan2, mask), Replaced(mask, plan.nseg);
              && (Spells(parts, p1) <==> CutsAgree(p1, p2, plan.segB, d, plan.nseg))
              && (Spells(parts, p2) <==> && ValidLayout(plan, |p2|)
                                         && CutsAgree(p1, p2, plan.segB, Range(0, plan.nseg) - d, plan.nseg))
  {
    var d, parts := Replaced(mask, plan.nseg), PartsAfter(p1, plan, p2, plan2, mask);
    FailedPutMixes(crc, crcOn, s, k, p1, plan, p2, plan2, mask);
    var s' := ApplyMask(s, SegBatch(crc, crcOn, k, p2, plan2.segB, plan2.nseg), mask, plan2.nseg);
    var meta, cap := s[MetaRec(k)], Capacity(src, s[MetaRec(k)]);
    assert Lookup(s', MetaRec(k)) == Some(meta);
    OldPayloadExactly(crc, meta, p1, plan, p2, plan2.segB, d, SegReads(s', k, plan.nseg),
                      if cap.Some? then cap.value else 0);
    if plan2.segB == plan.segB {
      ReplacedReaches(p2, plan2, mask, plan.nseg);
      SpellsExactly(p1, p2, plan, d);
    }
  }

  /** A key that fits one record is not touched by such a put. */
  lemma FailedPutSparesSingleRecord(crc: Crc, crcOn: bool, s: Store, k: Key, p1: bytes, plan: ShardPlan, p2: bytes,
                                    plan2: ShardPlan, mask: seq<bool>, src: Source, verify: bool)
    requires HoldsAs(s, k, p1, plan) && plan.nseg == 1 && |mask| == plan2.nseg
    ensures var s' := ApplyMask(s, SegBatch(crc, crcOn, k, p2, plan2.segB, plan2.nseg), mask, plan2.nseg);
            GetStore(crc, verify, s', k, src) == GetStore(crc, verify, s, k, src)
  {
    var ws := SegBatch(crc, crcOn, k, p2, plan2.segB, plan2.nseg);
    ApplyMaskFrame(s, ws, mask, plan2.nseg, MetaRec(k));
    assert Lookup(ApplyMask(s, ws, mask, plan2.nseg), MetaRec(k)) == Lookup(s, MetaRec(k));
  }

  // ---- Two concrete runs of one client ----

  const ONE_BYTE := Config(SegmentLimits(1, 1, 1, 1), NO_EXTRAS)

  /** The put of two bytes that both runs start with. */
  lemma TwoBytesPut(crc: Crc, k: Key, p1: bytes, pinned: bool)
    requires |p1| == 2
    ensures PutStore(crc, ONE_BYTE, map[], k, p1, pinned).Ok?
    ensures HoldsAs(PutStore(crc, ONE_BYTE, map[], k, p1, pinned).value, k, p1, ShardPlan(2, 1))
  {
    CommitHolds(crc, NO_EXTRAS, map[], k, p1, ShardPlan(2, 1), pinned);
  }

  lemma ByteCut(p: bytes, i: nat)
    requires i < |p|
    ensures Cut(p, i, 1) == [p[i]]
  {
  }

  lemma JoinTwo(a: byte, b: byte)
    ensures Join([[a], [b]]) == [a, b]
  {
    assert [[a], [b]] == [[a]] + [[b]] && [[a]] == [] + [[a]];
    JoinLast([[a]], [b]);
    JoinLast([], [a]);
  }

  /** The second put, of `p2`, loses its meta write and the segment writes the mask leaves out. */
  function StopPut(crc: Crc, s: Store, k: Key, p2: bytes, mask: seq<bool>): Store {
    ApplyMask(s, SegBatch(crc, false, k, p2, 1, |mask|), mask, |mask|)
  }

  lemma StoppedParts(p1: bytes, p2: bytes, mask: seq<bool>, a: byte, b: byte)
    requires |p1| == 2 && |p2| == |mask| >= 2
    requires a == (if mask[0] then p2 else p1)[0] && b == (if mask[1] then p2 else p1)[1]
    ensures PartsAfter(p1, ShardPlan(2, 1), p2, ShardPlan(|p2|, 1), mask) == [[a], [b]]
  {
    ByteCut(p1, 0);
    ByteCut(p1, 1);
    ByteCut(p2, 0);
    ByteCut(p2, 1);
  }

  lemma StoppedPutGives(crc: Crc, s: Store, k: Key, p1: bytes, p2: bytes, mask: seq<bool>, a: byte, b: byte)
    requires |p1| == 2 && HoldsAs(s, k, p1, ShardPlan(2, 1)) && |p2| == |mask| >= 2
    requires a == (if mask[0] then p2 else p1)[0] && b == (if mask[1] then p2 else p1)[1]
    ensures GetStore(crc, false, StopPut(crc, s, k, p2, mask), k, Preallocated(3)) == Hit([a, b])
  {
    var plan, plan2 := ShardPlan(2, 1), ShardPlan(|p2|, 1);
    FailedPutGivesExactly(crc, false, s, k, p1, plan, p2, plan2, mask, Preallocated(3));
    StoppedParts(p1, p2, mask, a, b);
    JoinTwo(a, b);
    JoinsExactly([[a], [b]], [a, b]);
  }

  /** A torn read: one segment write of an overwriting put is lost, and with it the put. */
  lemma TornRead(crc: Crc, k: Key, pinned: bool)
    ensures PutStore(crc, ONE_BYTE, map[], k, [1, 2], pinned).Ok?
    ensures var s := PutStore(crc, ONE_BYTE, map[], k, [1, 2], pinned).value;
            GetStore(crc, false, StopPut(crc, s, k, [3, 4], [true, false]), k, Preallocated(3)) == Hit([3, 2])
  {
    TwoBytesPut(crc, k, [1, 2], pinned);
    StoppedPutGives(crc, PutStore(crc, ONE_BYTE, map[], k, [1, 2], pinned).value, k, [1, 2], [3, 4],
                    [true, false], 3, 2);
  }

  /** A truncated read: all segments of a longer payload are written, and then the meta write is lost. */
  lemma TruncatedRead(crc: Crc, k: Key, pinned: bool)
    ensures PutStore(crc, ONE_BYTE, map[], k, [1, 2], pinned).Ok?
    ensures var s := PutStore(crc, ONE_BYTE, map[], k, [1, 2], pinned).value;
            GetStore(crc, false, StopPut(crc, s, k, [3, 4, 5], [true, true, true]), k, Preallocated(3)) == Hit([3, 4])
  {
    TwoBytesPut(crc, k, [1, 2], pinned);
    StoppedPutGives(crc, PutStore(crc, ONE_BYTE, map[], k, [1, 2], pinned).value, k, [1, 2], [3, 4, 5],
                    [true, true, true], 3, 4);
  }
}
