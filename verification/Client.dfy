/** The Aerospike client as the engine sees it: a record map behind an unreliable network. A failed write
    may or may not have been applied. With `reliable` every call succeeds. */
module Client {
  import opened Common
  import opened Records

  /** Outcome classes the engine tells apart. `Refused`: busy or forbidden TTL. `Rejected`: record too big or device
      overload, which the engine recognises only when the call as a whole reports it. */
  datatype Status = Done | NotFound | Timeout | Refused | Rejected | Failed

  datatype KeyedWrite = KeyedWrite(u: UserKey, b: Bins)

  /** The writes of a batch whose mask bit is set, among the first `n`. */
  function ApplyMask(s: Store, writes: seq<KeyedWrite>, mask: seq<bool>, n: nat): Store
    requires n <= |writes| && |mask| == |writes|
  {
    if n == 0 then s
    else
      var s' := ApplyMask(s, writes, mask, n - 1);
      if mask[n - 1] then Upsert(s', writes[n - 1].u, writes[n - 1].b) else s'
  }

  /** A batch promises no order: its effect is determined only if equal keys carry equal writes. */
  predicate Unordered(writes: seq<KeyedWrite>) {
    forall i, j :: 0 <= i < j < |writes| && writes[i].u == writes[j].u ==> writes[i] == writes[j]
  }

  predicate Owns(writes: seq<KeyedWrite>, k: Key) {
    exists i :: 0 <= i < |writes| && writes[i].u.ck == k
  }

  lemma {:induction false} ApplyMaskFrame(s: Store, writes: seq<KeyedWrite>, mask: seq<bool>, n: nat, u: UserKey)
    requires n <= |writes| && |mask| == |writes|
    requires forall i :: 0 <= i < n ==> writes[i].u != u
    ensures Lookup(ApplyMask(s, writes, mask, n), u) == Lookup(s, u)
  {
    if n > 0 {
      ApplyMaskFrame(s, writes, mask, n - 1, u);
    }
  }

  /** A write that was applied shows in the record, on top of the old bins. */
  lemma {:induction false} ApplyMaskAt(s: Store, writes: seq<KeyedWrite>, mask: seq<bool>, n: nat, i: nat)
    requires i < n <= |writes| && |mask| == |writes| && mask[i]
    requires forall j :: 0 <= j < |writes| && j != i ==> writes[j].u != writes[i].u
    ensures writes[i].u in ApplyMask(s, writes, mask, n)
    ensures ApplyMask(s, writes, mask, n)[writes[i].u] == Merge(BinsOf(s, writes[i].u), writes[i].b)
  {
    if i < n - 1 {
      ApplyMaskAt(s, writes, mask, n - 1, i);
    } else {
      ApplyMaskFrame(s, writes, mask, n - 1, writes[i].u);
    }
  }

  /** No batch of the engine, applied to any extent, makes a ready meta record unusable. */
  lemma {:induction false} ApplyMaskKeepsUsable(s: Store, writes: seq<KeyedWrite>, mask: seq<bool>, n: nat)
    requires n <= |writes| == |mask| && AllUsable(s)
    requires forall i :: 0 <= i < |writes| && writes[i].u.MetaRec? ==> MetaWriteOk(writes[i].b)
    ensures AllUsable(ApplyMask(s, writes, mask, n))
  {
    if n > 0 {
      ApplyMaskKeepsUsable(s, writes, mask, n - 1);
      UpsertKeepsUsable(ApplyMask(s, writes, mask, n - 1), writes[n - 1].u, writes[n - 1].b);
    }
  }

  class RecordStore {
    var recs: Store
    const reliable: bool

    constructor (reliable: bool)
      ensures recs == map[] && this.reliable == reliable
    {
      recs := map[];
      this.reliable := reliable;
    }

    /** Any failure the network may come up with, never when reliable. */
    method Weather() returns (st: Status)
      ensures st != NotFound
      ensures reliable ==> st.Done?
    {
      st := Done;
      if !reliable {
        var kind: int := *;
        st := if kind == 0 then Timeout else if kind == 1 then Refused else if kind == 2 then Rejected
              else if kind == 3 then Failed else Done;
      }
    }

    method Put(u: UserKey, bins: Bins) returns (st: Status)
      modifies this
      ensures st != NotFound && (reliable ==> st.Done?)
      ensures st.Done? ==> recs == Upsert(old(recs), u, bins)
      ensures recs == old(recs) || recs == Upsert(old(recs), u, bins)
    {
      st := Weather();
      var applied: bool := *;
      if st.Done? || applied {
        recs := Upsert(recs, u, bins);
      }
    }

    /** `get` and `select`. */
    method Get(u: UserKey) returns (st: Status, bins: Bins)
      ensures reliable ==> st.Done? || st.NotFound?
      ensures st.Done? ==> u in recs && bins == recs[u]
      ensures st.NotFound? ==> u !in recs
    {
      st := Weather();
      bins := NO_BINS;
      if st.Done? {
        if u in recs {
          bins := recs[u];
        } else {
          st := NotFound;
        }
      }
    }

    method Remove(u: UserKey) returns (st: Status)
      modifies this
      ensures reliable ==> st.Done? || st.NotFound?
      ensures st.Done? ==> u in old(recs) && recs == old(recs) - {u}
      ensures st.NotFound? ==> u !in old(recs) && recs == old(recs)
      ensures recs == old(recs) || recs == old(recs) - {u}
    {
      st := Weather();
      var applied: bool := *;
      if st.Done? && u !in recs {
        st := NotFound;
      } else if st.Done? || applied {
        recs := recs - {u};
      }
    }

    /** `touch`: refreshes the expiry of an existing record, changes no bin. */
    method Touch(u: UserKey) returns (st: Status)
      ensures reliable ==> st.Done? || st.NotFound?
      ensures st.Done? ==> u in recs
      ensures st.NotFound? ==> u !in recs
    {
      var bins;
      st, bins := Get(u);
    }

    /** `batch_write` of upserts: some call-level status, and one status per record. */
    method BatchWrite(writes: seq<KeyedWrite>) returns (st: Status, results: seq<Status>, ghost mask: seq<bool>)
      modifies this
      ensures |mask| == |writes| && (st.Done? ==> |results| == |writes|)
      ensures st.Done? ==> forall i :: 0 <= i < |writes| && results[i].Done? ==> mask[i]
      ensures Unordered(writes) ==> recs == ApplyMask(old(recs), writes, mask, |writes|)
      ensures forall u: UserKey :: !Owns(writes, u.ck) ==> Lookup(recs, u) == Lookup(old(recs), u)
      ensures reliable ==> st.Done? && forall i :: 0 <= i < |writes| ==> mask[i] && results[i].Done?
    {
      st := Weather();
      results, mask := [], [];
      ghost var s0 := recs;
      for i := 0 to |writes|
        invariant |results| == |mask| == i
        invariant forall j :: 0 <= j < i && results[j].Done? ==> mask[j]
        invariant reliable ==> forall j :: 0 <= j < i ==> mask[j] && results[j].Done?
        invariant recs == ApplyMask(s0, writes, mask + seq(|writes| - i, _ => false), i)
      {
        var one := Weather();
        var applied: bool := *;
        ghost var padded := mask + seq(|writes| - i, _ => false);
        ghost var m' := mask + [one.Done? || applied];
        ghost var padded' := m' + seq(|writes| - (i + 1), _ => false);
        ApplyMaskPrefix(s0, writes, padded, padded', i);
        if one.Done? || applied {
          recs := Upsert(recs, writes[i].u, writes[i].b);
        }
        results, mask := results + [one], m';
      }
      assert mask + seq(0, _ => false) == mask;
      forall u: UserKey | !Owns(writes, u.ck) ensures Lookup(recs, u) == Lookup(s0, u) {
        ApplyMaskFrame(s0, writes, mask, |writes|, u);
      }
    }

    lemma {:induction false} ApplyMaskPrefix(s: Store, writes: seq<KeyedWrite>, m: seq<bool>, m': seq<bool>, n: nat)
      requires n <= |writes| == |m| == |m'| && m[..n] == m'[..n]
      ensures ApplyMask(s, writes, m, n) == ApplyMask(s, writes, m', n)
    {
      if n > 0 {
        assert m[..n][..n - 1] == m[..n - 1] && m'[..n][..n - 1] == m'[..n - 1];
        assert m[n - 1] == m[..n][n - 1] == m'[..n][n - 1] == m'[n - 1];
        ApplyMaskPrefix(s, writes, m, m', n - 1);
      }
    }

    /** `batch_write` of removals; the caller only learns the call-level status. */
    method BatchRemove(us: set<UserKey>) returns (st: Status)
      modifies this
      ensures reliable ==> st.Done? && recs == old(recs) - us
      ensures forall u :: Lookup(recs, u) == Lookup(old(recs), u) || (u in us && u !in recs)
    {
      st := Weather();
      ghost var s0 := recs;
      var left := us;
      while left != {}
        invariant left <= us
        invariant forall u :: Lookup(recs, u) == Lookup(s0, u) || (u in us && u !in recs)
        invariant reliable ==> recs == s0 - (us - left)
      {
        var u :| u in left;
        left := left - {u};
        var lost: bool := *;
        if reliable || !lost {
          recs := recs - {u};
        }
      }
    }

    /** `batch_read`: a record is delivered as it is or, on a per-record failure, not at all. */
    method BatchRead(us: seq<UserKey>) returns (st: Status, rs: seq<Option<Bins>>)
      ensures st != NotFound
      ensures st.Done? ==> |rs| == |us| && forall i :: 0 <= i < |us| && rs[i].Some? ==> rs[i] == Lookup(recs, us[i])
      ensures reliable ==> st.Done? && forall i :: 0 <= i < |us| ==> rs[i] == Lookup(recs, us[i])
    {
      st := Weather();
      rs := [];
      for i := 0 to |us|
        invariant |rs| == i
        invariant forall j :: 0 <= j < i && rs[j].Some? ==> rs[j] == Lookup(recs, us[j])
        invariant reliable ==> forall j :: 0 <= j < i ==> rs[j] == Lookup(recs, us[j])
      {
        var one := Weather();
        rs := rs + [if one.Done? then Lookup(recs, us[i]) else None];
      }
    }
  }

  /** A LMCache buffer: a fixed number of bytes and a reference count. */
  class MemoryObj {
    const data: array<byte>
    var refs: int

    constructor (size: nat)
      ensures fresh(data) && data.Length == size && refs == 1
    {
      data := new byte[size];
      refs := 1;
    }

    method RefCountDown()
      modifies this
      ensures refs == old(refs) - 1
    {
      refs := refs - 1;
    }
  }

  ghost function BufferFrame(mo: MemoryObj?): set<object> {
    if mo == null then {} else {mo, mo.data}
  }
}
