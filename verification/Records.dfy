/** The Aerospike record map: user keys, bins, and write operations that merge bins (the write
    policy never replaces a record). */
module Records {
  import opened Common

  type Key = string

  /** The two record families of a logical key. Module Keys shows that their printed forms never
      collide, so that this datatype stands for the printed keys. */
  datatype UserKey = MetaRec(ck: Key) | SegRec(ck: Key, index: nat)

  datatype State = Ready | OtherState(text: string)

  /** `md`: the size announced by the serialized chunk metadata. */
  datatype Bins = Bins(state: Option<State>, nseg: Option<int>, segB: Option<int>, totB: Option<int>, md: Option<nat>,
                       b: Option<bytes>, crc32: Option<nat>, pin: Option<bool>)

  const NO_BINS := Bins(None, None, None, None, None, None, None, None)

  type Store = map<UserKey, Bins>

  function Or<T>(new_: Option<T>, old_: Option<T>): Option<T> {
    if new_.Some? then new_ else old_
  }

  /** Bins that a write does not mention keep their value. */
  function Merge(old_: Bins, w: Bins): Bins {
    Bins(Or(w.state, old_.state), Or(w.nseg, old_.nseg), Or(w.segB, old_.segB), Or(w.totB, old_.totB),
         Or(w.md, old_.md), Or(w.b, old_.b), Or(w.crc32, old_.crc32), Or(w.pin, old_.pin))
  }

  function Lookup(s: Store, u: UserKey): Option<Bins> {
    if u in s then Some(s[u]) else None
  }

  function BinsOf(s: Store, u: UserKey): Bins {
    if u in s then s[u] else NO_BINS
  }

  function Upsert(s: Store, u: UserKey, w: Bins): Store {
    s[u := Merge(BinsOf(s, u), w)]
  }

  /** Nothing outside the records of `k` differs. */
  ghost predicate SameElsewhere(s: Store, s': Store, k: Key) {
    forall u: UserKey :: u.ck != k ==> Lookup(s', u) == Lookup(s, u)
  }

  /** A record a get can work with: if it is ready, it tells the number of segments, and a single record
      has its payload. */
  predicate Usable(b: Bins) {
    b.state == Some(Ready) ==> b.nseg.Some? && (b.nseg == Some(1) ==> b.b.Some?)
  }

  ghost predicate AllUsable(s: Store) {
    forall k :: MetaRec(k) in s ==> Usable(s[MetaRec(k)])
  }

  /** What is ever written to a meta record: everything at once, or neither state nor segment count. */
  predicate MetaWriteOk(w: Bins) {
    (w.state == Some(Ready) && Usable(w)) || (w.state.None? && w.nseg.None?)
  }

  predicate IsReady(s: Store, k: Key) {
    MetaRec(k) in s && s[MetaRec(k)].state == Some(Ready)
  }

  lemma UpsertKeepsUsable(s: Store, u: UserKey, w: Bins)
    requires AllUsable(s) && (u.MetaRec? ==> MetaWriteOk(w))
    ensures AllUsable(Upsert(s, u, w))
  {
  }

  lemma SameLookups(s: Store, t: Store)
    requires forall u :: Lookup(s, u) == Lookup(t, u)
    ensures s == t
  {
    assert forall u :: u in s <==> u in t by {
      forall u ensures u in s <==> u in t {
        assert Lookup(s, u) == Lookup(t, u);
      }
    }
    forall u | u in s ensures s[u] == t[u] {
      assert Lookup(s, u) == Lookup(t, u);
    }
  }
}
