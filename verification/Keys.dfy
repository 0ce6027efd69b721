/** User keys as strings. Logical keys are arbitrary, separators included. */
module Keys {
  import opened Records

  function Digit(d: nat): char
    requires d < 10
  {
    ('0' as int + d) as char
  }

  /** `str(n)` and `std::to_string(n)`. */
  function Decimal(n: nat): string {
    if n < 10 then [Digit(n)] else Decimal(n / 10) + [Digit(n % 10)]
  }

  predicate IsDigit(c: char) {
    '0' <= c <= '9'
  }

  function Number(s: string): int {
    if s == "" then 0 else Number(s[..|s| - 1]) * 10 + (s[|s| - 1] as int - '0' as int)
  }

  lemma DecimalFacts(n: nat)
    ensures Decimal(n) != "" && (forall c :: c in Decimal(n) ==> IsDigit(c)) && Number(Decimal(n)) == n
    ensures if n == 0 then Decimal(n) == "0" else Decimal(n)[0] != '0'
  {
    if n >= 10 {
      DecimalFacts(n / 10);
      assert Decimal(n)[..|Decimal(n)| - 1] == Decimal(n / 10);
    } else {
      assert Number("") == 0;
    }
  }

  lemma DecimalNext(n: nat, d: nat)
    requires n > 0 && d < 10
    ensures Decimal(n * 10 + d) == Decimal(n) + [Digit(d)]
  {
  }

  /** The canonical numeral: a text of digits without leading zero is the print of its value. */
  lemma {:induction false} DecimalIsCanonical(t: string)
    requires t != "" && (forall c :: c in t ==> IsDigit(c)) && t[0] != '0'
    ensures Number(t) > 0 && Decimal(Number(t)) == t
  {
    var init, last := t[..|t| - 1], t[|t| - 1];
    assert last in t && t[0] in t && t == init + [last];
    if init == "" {
      assert Number(init) == 0;
    } else {
      DecimalIsCanonical(init);
      DecimalNext(Number(init), last as int - '0' as int);
    }
  }

  function MetaKey(ck: Key): string {
    ck + "|m"
  }

  function SegmentKey(ck: Key, index: nat): string {
    ck + "|s|" + Decimal(index)
  }

  function Print(u: UserKey): string {
    match u
    case MetaRec(ck) => MetaKey(ck)
    case SegRec(ck, i) => SegmentKey(ck, i)
  }

  /** The texts on the wire. */
  lemma PrintedKeys(ck: Key)
    ensures Print(MetaRec(ck)) == ck + "|m" && Print(SegRec(ck, 0)) == ck + "|s|0"
    ensures Print(SegRec(ck, 10)) == ck + "|s|10"
  {
    assert Decimal(10) == Decimal(1) + [Digit(0)] == "10";
  }

  lemma LastChar(u: UserKey)
    ensures var s := Print(u); |s| >= 2 && (s[|s| - 1] == 'm' <==> u.MetaRec?)
    ensures u.SegRec? ==> IsDigit(Print(u)[|Print(u)| - 1])
  {
  }

  /** The last separator sits right before the index, so equal keys have indices of equal length. */
  lemma SuffixLengths(a: string, d: string, a': string, d': string)
    requires a + "|s|" + d == a' + "|s|" + d'
    requires forall c :: c in d' ==> IsDigit(c)
    ensures |d| >= |d'|
  {
    var s := a + "|s|" + d;
    assert s[|s| - |d| - 1] == '|';
    forall i | |s| - |d'| <= i < |s| ensures IsDigit(s[i]) {
      assert s[i] == d'[i - (|s| - |d'|)] && d'[i - (|s| - |d'|)] in d';
    }
  }

  /** Meta and segment keys are pairwise distinct over all logical keys and indices. */
  lemma PrintIsInjective(u: UserKey, v: UserKey)
    requires Print(u) == Print(v)
    ensures u == v
  {
    LastChar(u);
    LastChar(v);
    if u.SegRec? {
      var d, d' := Decimal(u.index), Decimal(v.index);
      DecimalFacts(u.index);
      DecimalFacts(v.index);
      SuffixLengths(u.ck, d, v.ck, d');
      SuffixLengths(v.ck, d', u.ck, d);
      var s, s' := Print(u), Print(v);
      assert d == s[|s| - |d|..] == s'[|s'| - |d'|..] == d';
      assert u.ck == s[..|s| - |d| - 3] == s'[..|s'| - |d'| - 3] == v.ck;
    } else {
      assert u.ck == Print(u)[..|Print(u)| - 2] == Print(v)[..|Print(v)| - 2] == v.ck;
    }
  }

  // ---- The string-keyed store behaves like the record map ----

  type StringStore = map<string, Bins>

  ghost predicate Represents(ss: StringStore, s: Store) {
    && (forall u :: Print(u) in ss <==> u in s)
    && (forall u :: u in s ==> ss[Print(u)] == s[u])
    && (forall x :: x in ss ==> Printed(x))
  }

  ghost predicate Printed(x: string) {
    exists u :: x == Print(u)
  }

  /** Writing or removing one printed key changes exactly the record it stands for. */
  lemma RepresentsKept(ss: StringStore, s: Store, u: UserKey, b: Bins)
    requires Represents(ss, s)
    ensures Represents(ss[Print(u) := b], s[u := b])
    ensures Represents(ss - {Print(u)}, s - {u})
  {
    forall v | Print(v) == Print(u) ensures v == u {
      PrintIsInjective(u, v);
    }
  }

  predicate MetaSuffix(x: string) {
    |x| >= 2 && x[|x| - 2..] == "|m"
  }

  /** `list()`: keep the user keys that end in `|m`, without that suffix. */
  method List(userKeys: seq<string>) returns (keysOut: seq<Key>)
    ensures keysOut == MetaOwners(userKeys)
  {
    keysOut := [];
    for i := 0 to |userKeys|
      invariant keysOut == MetaOwners(userKeys[..i])
    {
      var x := userKeys[i];
      assert userKeys[..i + 1][..i] == userKeys[..i];
      if MetaSuffix(x) {
        keysOut := keysOut + [x[..|x| - 2]];
      }
    }
    assert userKeys[..|userKeys|] == userKeys;
  }

  function MetaOwners(userKeys: seq<string>): seq<Key> {
    if userKeys == [] then []
    else
      var rest := MetaOwners(userKeys[..|userKeys| - 1]);
      var x := userKeys[|userKeys| - 1];
      if MetaSuffix(x) then rest + [x[..|x| - 2]] else rest
  }

  lemma SuffixStripped(x: string, ck: Key)
    ensures MetaSuffix(x) && x[..|x| - 2] == ck <==> x == MetaKey(ck)
  {
    if MetaSuffix(x) {
      assert x == x[..|x| - 2] + x[|x| - 2..];
    }
  }

  lemma {:induction false} ListOwners(userKeys: seq<string>, ck: Key)
    ensures ck in MetaOwners(userKeys) <==> MetaKey(ck) in userKeys
  {
    if userKeys != [] {
      var init, x := userKeys[..|userKeys| - 1], userKeys[|userKeys| - 1];
      assert userKeys == init + [x];
      ListOwners(init, ck);
      SuffixStripped(x, ck);
    }
  }

  /** A scan that visits the store's user keys yields exactly the logical keys that own a meta record. */
  lemma ListIsExact(ss: StringStore, s: Store, userKeys: seq<string>)
    requires Represents(ss, s) && (forall x :: x in userKeys <==> x in ss)
    ensures forall ck :: ck in MetaOwners(userKeys) <==> MetaRec(ck) in s
  {
    forall ck ensures ck in MetaOwners(userKeys) <==> MetaRec(ck) in s {
      ListOwners(userKeys, ck);
      assert Print(MetaRec(ck)) == MetaKey(ck);
    }
  }
}
