/** The native connector's translation of a printed object key into a cache-engine key, against the
    Python mapping. */
module NativeKeys {
  import opened Common
  import opened Keys

  const U64: int := 0x1_0000_0000_0000_0000

  // ---- split ----

  function Split(s: string, sep: char): (parts: seq<string>)
    ensures |parts| >= 1
  {
    if s == "" then [""]
    else
      var rest := Split(s[1..], sep);
      if s[0] == sep then [""] + rest else Extend([s[0]], rest)
  }

  function Extend(word: string, parts: seq<string>): seq<string>
    requires |parts| >= 1
  {
    [word + parts[0]] + parts[1..]
  }

  lemma ExtendTwice(v: string, w: string, parts: seq<string>)
    requires |parts| >= 1
    ensures Extend(v, Extend(w, parts)) == Extend(v + w, parts)
  {
    assert v + (w + parts[0]) == (v + w) + parts[0];
  }

  lemma ExtendEmpty(parts: seq<string>)
    requires |parts| >= 1
    ensures Extend("", parts) == parts
  {
    assert "" + parts[0] == parts[0];
  }

  /** One character: a separator closes the current word, anything else lengthens it. */
  lemma SplitStep(s: string, sep: char, start: nat, i: nat)
    requires start <= i < |s|
    ensures Extend(s[start..i], Split(s[i..], sep))
            == if s[i] == sep then [s[start..i]] + Split(s[i + 1..], sep)
               else Extend(s[start..i + 1], Split(s[i + 1..], sep))
  {
    assert s[i..][1..] == s[i + 1..];
    var rest := Split(s[i + 1..], sep);
    if s[i] == sep {
      assert s[start..i] + "" == s[start..i];
    } else {
      ExtendTwice(s[start..i], [s[i]], rest);
      assert s[start..i] + [s[i]] == s[start..i + 1];
    }
  }

  /** The loop state: closed words, the current word, and the split of what is left. */
  ghost predicate Progress(s: string, sep: char, out: seq<string>, start: nat, i: nat)
    requires start <= i <= |s|
  {
    Split(s, sep) == out + Extend(s[start..i], Split(s[i..], sep))
  }

  lemma ProgressStep(s: string, sep: char, out: seq<string>, start: nat, i: nat)
    requires start <= i < |s| && Progress(s, sep, out, start, i)
    ensures if s[i] == sep then Progress(s, sep, out + [s[start..i]], i + 1, i + 1)
            else Progress(s, sep, out, start, i + 1)
  {
    SplitStep(s, sep, start, i);
    if s[i] == sep {
      var rest := Split(s[i + 1..], sep);
      ExtendEmpty(rest);
      assert s[i + 1..i + 1] == "";
      assert out + ([s[start..i]] + rest) == (out + [s[start..i]]) + rest;
    }
  }

  /** The index loop of `split`. */
  method SplitLoop(s: string, sep: char) returns (out: seq<string>)
    ensures out == Split(s, sep)
  {
    out := [];
    var start := 0;
    assert Progress(s, sep, [], 0, 0) by {
      assert s[0..] == s && s[0..0] == "";
      ExtendEmpty(Split(s, sep));
    }
    for i := 0 to |s|
      invariant start <= i
      invariant Progress(s, sep, out, start, i)
    {
      ProgressStep(s, sep, out, start, i);
      if s[i] == sep {
        out := out + [s[start..i]];
        start := i + 1;
      }
    }
    assert Split(s[|s|..], sep) == [""];
    assert Extend(s[start..|s|], [""]) == [s[start..]] by {
      assert s[start..|s|] + "" == s[start..];
    }
    out := out + [s[start..]];
  }

  lemma {:induction false} SplitConcat(x: string, y: string, sep: char)
    ensures Split(x + [sep] + y, sep) == Split(x, sep) + Split(y, sep)
  {
    var z := x + [sep] + y;
    if x == "" {
      assert z[1..] == y;
    } else {
      assert z[1..] == x[1..] + [sep] + y;
      SplitConcat(x[1..], y, sep);
    }
  }

  lemma {:induction false} SplitFree(x: string, sep: char)
    ensures sep !in x <==> Split(x, sep) == [x]
    ensures sep !in x <==> |Split(x, sep)| == 1
  {
    if x != "" {
      assert x == [x[0]] + x[1..];
      SplitFree(x[1..], sep);
    }
  }

  function JoinWith(parts: seq<string>, sep: char): string
    requires |parts| >= 1
  {
    if |parts| == 1 then parts[0] else parts[0] + [sep] + JoinWith(parts[1..], sep)
  }

  /** `split` inverts joining separator-free parts. */
  lemma {:induction false} SplitInvertsJoin(parts: seq<string>, sep: char)
    requires |parts| >= 1 && forall i :: 0 <= i < |parts| ==> sep !in parts[i]
    ensures Split(JoinWith(parts, sep), sep) == parts
  {
    SplitFree(parts[0], sep);
    if |parts| > 1 {
      SplitConcat(parts[0], JoinWith(parts[1..], sep), sep);
      SplitInvertsJoin(parts[1..], sep);
    }
  }

  // ---- hexadecimal ----

  function HexDigit(d: nat): char
    requires d < 16
  {
    if d < 10 then ('0' as int + d) as char else ('a' as int + d - 10) as char
  }

  predicate IsHex(c: char) {
    '0' <= c <= '9' || 'a' <= c <= 'f' || 'A' <= c <= 'F'
  }

  predicate IsLowerHex(c: char) {
    '0' <= c <= '9' || 'a' <= c <= 'f'
  }

  function HexVal(c: char): int {
    if '0' <= c <= '9' then c as int - '0' as int
    else if 'a' <= c <= 'f' then c as int - 'a' as int + 10
    else c as int - 'A' as int + 10
  }

  predicate AllHex(s: string) {
    forall c :: c in s ==> IsHex(c)
  }

  predicate AllLowerHex(s: string) {
    forall c :: c in s ==> IsLowerHex(c)
  }

  function HexValue(s: string): int {
    if s == "" then 0 else HexValue(s[..|s| - 1]) * 16 + HexVal(s[|s| - 1])
  }

  /** Python's `format(n, "x")`. */
  function Hex(n: nat): string {
    if n < 16 then [HexDigit(n)] else Hex(n / 16) + [HexDigit(n % 16)]
  }

  /** `parse_hex_u64`: shifting left and or-ing the digit in, on 64 bits. */
  method ParseHexU64(hex: string) returns (r: Option<nat>)
    ensures r.Some? <==> AllHex(hex)
    ensures r.Some? ==> r.value == HexValue(hex) % U64
  {
    var value: nat := 0;
    for i := 0 to |hex|
      invariant AllHex(hex[..i])
      invariant value == HexValue(hex[..i]) % U64
    {
      var c := hex[i];
      assert hex[..i + 1] == hex[..i] + [c];
      if !IsHex(c) {
        assert c in hex;
        return None;
      }
      HexValueSnoc(hex[..i], c);
      ShiftMod(HexValue(hex[..i]), HexVal(c));
      value := value * 16 % U64 + HexVal(c);
    }
    assert hex[..|hex|] == hex;
    return Some(value);
  }

  lemma Spread(a: int, d: int)
    requires d > 0
    ensures a >= 1 ==> a * d >= d
    ensures a <= -1 ==> a * d <= -d
  {
  }

  lemma DivUnique(x: int, d: pos, q: int, r: int)
    requires x == q * d + r && 0 <= r < d
    ensures x / d == q && x % d == r
  {
    var q', r' := x / d, x % d;
    assert x == q' * d + r';
    assert (q - q') * d == q * d - q' * d;
    Spread(q - q', d);
  }

  lemma ShiftMod(v: int, d: int)
    requires 0 <= d < 16
    ensures (v % U64) * 16 % U64 + d == (v * 16 + d) % U64
  {
    var q, r := v / U64, v % U64;
    var q2, r2 := r * 16 / U64, r * 16 % U64;
    assert r2 == 16 * (r - q2 * (U64 / 16));
    assert r2 + d < U64;
    DivUnique(v * 16 + d, U64, 16 * q + q2, r2 + d);
  }

  function TrimLow64Hex(hex: string): string {
    var low := if |hex| > 16 then hex[|hex| - 16..] else hex;
    var digits := StripZeros(low);
    if digits == "" then "0" else digits
  }

  function StripZeros(s: string): string {
    if s != "" && s[0] == '0' then StripZeros(s[1..]) else s
  }

  function Pow16(n: nat): nat {
    if n == 0 then 1 else 16 * Pow16(n - 1)
  }

  lemma {:induction false} HexValueConcat(a: string, b: string)
    requires AllHex(b)
    ensures HexValue(a + b) == HexValue(a) * Pow16(|b|) + HexValue(b)
    ensures 0 <= HexValue(b) < Pow16(|b|)
  {
    if b == "" {
      assert a + b == a;
    } else {
      var init, c := b[..|b| - 1], b[|b| - 1];
      HexValueConcat(a, init);
      assert a + b == (a + init) + [c] && b == init + [c] && c in b;
      HexValueSnoc(a + init, c);
      HexValueSnoc(init, c);
      ShiftSum(HexValue(a), Pow16(|init|), HexValue(init), HexVal(c));
    }
  }

  lemma HexValueSnoc(s: string, c: char)
    ensures HexValue(s + [c]) == HexValue(s) * 16 + HexVal(c)
  {
    assert (s + [c])[..|s|] == s;
  }

  lemma ShiftSum(a: int, p: int, b: int, d: int)
    ensures (a * p + b) * 16 + d == a * (16 * p) + (b * 16 + d)
  {
  }

  lemma {:induction false} StripZerosFacts(s: string)
    requires AllLowerHex(s)
    ensures var t := StripZeros(s); AllLowerHex(t) && HexValue(t) == HexValue(s) && (t != "" ==> t[0] != '0')
  {
    if s != "" && s[0] == '0' {
      assert forall c :: c in s[1..] ==> c in s;
      StripZerosFacts(s[1..]);
      assert s == "0" + s[1..];
      HexValueConcat("0", s[1..]);
      assert HexValue("0") == 0 by {
        assert "0"[..0] == "";
      }
    }
  }

  lemma HexStep(v: nat, c: nat)
    requires v > 0 && c < 16
    ensures Hex(v * 16 + c) == Hex(v) + [HexDigit(c)]
  {
  }

  lemma DigitOfVal(c: char)
    requires IsLowerHex(c)
    ensures 0 <= HexVal(c) < 16 && HexDigit(HexVal(c)) == c && (HexVal(c) == 0 <==> c == '0')
  {
  }

  lemma OneDigit(c: char)
    requires IsLowerHex(c) && c != '0'
    ensures HexValue([c]) > 0 && Hex(HexValue([c])) == [c]
  {
    DigitOfVal(c);
    assert [c] == "" + [c] && HexValue("") == 0;
    HexValueSnoc("", c);
  }

  lemma OneMoreDigit(init: string, c: char)
    requires IsLowerHex(c) && HexValue(init) > 0 && Hex(HexValue(init)) == init
    ensures HexValue(init + [c]) > 0 && Hex(HexValue(init + [c])) == init + [c]
  {
    DigitOfVal(c);
    HexValueSnoc(init, c);
    HexStep(HexValue(init), HexVal(c));
  }

  /** A numeral without leading zero is the canonical print of its value. */
  lemma {:induction false} HexIsCanonical(t: string)
    requires t != "" && AllLowerHex(t) && t[0] != '0'
    ensures HexValue(t) > 0 && Hex(HexValue(t)) == t
  {
    var init, c := t[..|t| - 1], t[|t| - 1];
    assert t == init + [c] && c in t;
    if init == "" {
      OneDigit(c);
    } else {
      assert AllLowerHex(init) && init[0] == t[0];
      HexIsCanonical(init);
      OneMoreDigit(init, c);
    }
  }

  lemma Pow16Of16()
    ensures Pow16(16) == U64
  {
    assert Pow16(4) == 0x1_0000;
    assert Pow16(8) == 0x1_0000 * Pow16(4);
    assert Pow16(12) == 0x1_0000 * Pow16(8);
    assert Pow16(16) == 0x1_0000 * Pow16(12);
  }

  lemma LowDigits(hex: string)
    requires AllLowerHex(hex) && |hex| > 16
    ensures HexValue(hex[|hex| - 16..]) == HexValue(hex) % U64
  {
    var high, low := hex[..|hex| - 16], hex[|hex| - 16..];
    assert hex == high + low;
    assert forall c :: c in low ==> c in hex;
    Pow16Of16();
    HexValueConcat(high, low);
  }

  lemma {:induction false} HexValueBound(s: string)
    requires AllLowerHex(s) && |s| <= 16
    ensures 0 <= HexValue(s) < U64
  {
    HexValueConcat("", s);
    assert "" + s == s;
    PowMono(|s|, 16);
    Pow16Of16();
  }

  lemma PowMono(a: nat, b: nat)
    requires a <= b
    ensures Pow16(a) <= Pow16(b)
    decreases b
  {
    if a < b {
      PowMono(a, b - 1);
    }
  }

  lemma ShortTrim(low: string)
    requires AllLowerHex(low) && |low| <= 16
    ensures 0 <= HexValue(low) < U64
    ensures (if StripZeros(low) == "" then "0" else StripZeros(low)) == Hex(HexValue(low))
  {
    HexValueBound(low);
    StripZerosFacts(low);
    if StripZeros(low) == "" {
      assert HexValue("") == 0 && Hex(0) == "0";
    } else {
      HexIsCanonical(StripZeros(low));
    }
  }

  lemma HexNotNegative(s: string)
    requires AllLowerHex(s)
    ensures HexValue(s) >= 0
  {
    HexValueConcat("", s);
    assert "" + s == s;
  }

  /** Trimming the text is reducing the number modulo 2^64 and printing it canonically. */
  lemma TrimIsModulo(hex: string)
    requires AllLowerHex(hex)
    ensures 0 <= HexValue(hex) && TrimLow64Hex(hex) == Hex(HexValue(hex) % U64)
  {
    HexNotNegative(hex);
    if |hex| > 16 {
      assert AllLowerHex(hex[|hex| - 16..]) by {
        assert forall c :: c in hex[|hex| - 16..] ==> c in hex;
      }
      LowDigits(hex);
      ShortTrim(hex[|hex| - 16..]);
    } else {
      ShortTrim(hex);
      DivUnique(HexValue(hex), U64, 0, HexValue(hex));
    }
  }

  // ---- the two translations ----

  function WorldSize(kvRank: nat): nat {
    var w := kvRank / 0x100_0000 % 0x100;
    if w == 0 then 1 else w
  }

  function WorkerId(kvRank: nat): nat {
    kvRank / 0x1_0000 % 0x100
  }

  function At(x: string, y: string): string {
    x + ['@'] + y
  }

  function Format(model: string, world: nat, worker: nat, hash: string, dtype: string, salt: string): string {
    At(model, At(Decimal(world), At(Decimal(worker), At(hash,
      if salt == "" then dtype else At(dtype, "cache_salt%" + salt)))))
  }

  /** `int.from_bytes(h, "big")`. */
  function FromBytes(h: bytes): nat {
    if h == [] then 0 else FromBytes(h[..|h| - 1]) * 256 + h[|h| - 1] as nat
  }

  /** `bytes.hex()`. */
  function BytesHex(h: bytes): string {
    if h == [] then ""
    else BytesHex(h[..|h| - 1]) + [HexDigit(h[|h| - 1] as nat / 16), HexDigit(h[|h| - 1] as nat % 16)]
  }

  /** The key string the Python side builds from an object key. */
  function PythonKey(model: string, kvRank: nat, chunkHash: bytes, salt: string, dtype: string): string {
    Format(model, WorldSize(kvRank), WorkerId(kvRank), Hex(FromBytes(chunkHash) % U64), dtype, salt)
  }

  function Native(parts: seq<string>, dtype: string): Option<string> {
    if (|parts| != 3 && |parts| != 4) || !AllHex(parts[1]) then None
    else
      var rank := HexValue(parts[1]) % U64;
      Some(Format(parts[0], WorldSize(rank), WorkerId(rank), TrimLow64Hex(parts[2]), dtype,
                  if |parts| == 4 then parts[3] else ""))
  }

  /** `native_key_to_cache_engine_key`; None stands for the exceptions. */
  method NativeKey(key: string, dtype: string) returns (r: Option<string>)
    ensures r == Native(Split(key, '@'), dtype)
  {
    var parts := SplitLoop(key, '@');
    if |parts| != 3 && |parts| != 4 {
      return None;
    }
    var rank := ParseHexU64(parts[1]);
    if rank.None? {
      return None;
    }
    var world := rank.value / 0x100_0000 % 0x100;
    var worker := rank.value / 0x1_0000 % 0x100;
    if world == 0 {
      world := 1;
    }
    var s := parts[0] + "@" + Decimal(world) + "@" + Decimal(worker) + "@" + TrimLow64Hex(parts[2]) + "@" + dtype;
    Nested(parts[0], Decimal(world), Decimal(worker), TrimLow64Hex(parts[2]), dtype);
    if |parts| == 4 && parts[3] != "" {
      s := s + "@cache_salt%" + parts[3];
      NestedTail(parts[0], Decimal(world), Decimal(worker), TrimLow64Hex(parts[2]), dtype, parts[3]);
    }
    return Some(s);
  }

  lemma Nested(a: string, b: string, c: string, d: string, e: string)
    ensures a + "@" + b + "@" + c + "@" + d + "@" + e == At(a, At(b, At(c, At(d, e))))
  {
  }

  lemma NestedTail(a: string, b: string, c: string, d: string, e: string, salt: string)
    ensures At(a, At(b, At(c, At(d, e)))) + "@cache_salt%" + salt
            == At(a, At(b, At(c, At(d, At(e, "cache_salt%" + salt)))))
  {
    assert "@cache_salt%" == "@" + "cache_salt%";
    assert e + "@cache_salt%" + salt == At(e, "cache_salt%" + salt);
  }

  /** A printed object key: model, rank, hash, and the salt when there is one. */
  function ObjectKeyText(model: string, rank: string, hash: string, salt: string): string {
    At(model, At(rank, if salt == "" then hash else At(hash, salt)))
  }

  lemma {:induction false} BytesHexValue(h: bytes)
    ensures AllLowerHex(BytesHex(h)) && HexValue(BytesHex(h)) == FromBytes(h)
  {
    if h != [] {
      var init, last := h[..|h| - 1], h[|h| - 1] as nat;
      BytesHexValue(init);
      var x, y := HexDigit(last / 16), HexDigit(last % 16);
      var s := BytesHex(h);
      assert s == BytesHex(init) + [x, y];
      assert s[..|s| - 1] == BytesHex(init) + [x];
      assert (BytesHex(init) + [x])[..|BytesHex(init)|] == BytesHex(init);
      assert HexVal(x) == last / 16 && HexVal(y) == last % 16;
    }
  }

  lemma {:induction false} HexFacts(n: nat)
    ensures AllLowerHex(Hex(n)) && HexValue(Hex(n)) == n
  {
    if n < 16 {
      assert Hex(n)[..0] == "";
    } else {
      HexFacts(n / 16);
      assert Hex(n)[..|Hex(n)| - 1] == Hex(n / 16);
    }
  }

  lemma RankField(rank: nat, c: pos, k: int)
    requires c * (k * 0x100) == U64
    ensures rank % U64 / c % 0x100 == rank / c % 0x100
  {
    var q, a, b := rank / U64, rank / c, rank % c;
    var a', b' := a / 0x100, a % 0x100;
    assert q * U64 == q * (c * (k * 0x100)) == (q * k * 0x100) * c;
    assert rank % U64 == rank - q * U64 == (a - q * k * 0x100) * c + b;
    DivUnique(rank % U64, c, a - q * k * 0x100, b);
    DivUnique(a - q * k * 0x100, 0x100, a' - q * k, b');
  }

  lemma RankFields(rank: nat)
    ensures WorldSize(rank % U64) == WorldSize(rank) && WorkerId(rank % U64) == WorkerId(rank)
  {
    RankField(rank, 0x100_0000, 0x1_0000_0000);
    RankField(rank, 0x1_0000, 0x100_0000_0000);
  }

  lemma SplitAt(x: string, y: string)
    ensures Split(At(x, y), '@') == Split(x, '@') + Split(y, '@')
    ensures '@' !in x ==> Split(At(x, y), '@') == [x] + Split(y, '@')
  {
    SplitConcat(x, y, '@');
    SplitFree(x, '@');
  }

  lemma TextParts(model: string, rank: string, hash: string, salt: string)
    requires '@' !in rank && '@' !in hash
    ensures Split(ObjectKeyText(model, rank, hash, salt), '@')
            == Split(model, '@') + [rank, hash] + (if salt == "" then [] else Split(salt, '@'))
  {
    SplitFree(hash, '@');
    SplitAt(hash, salt);
    var tail := if salt == "" then hash else At(hash, salt);
    SplitAt(rank, tail);
    SplitAt(model, At(rank, tail));
  }

  lemma NoAt(s: string)
    requires AllHex(s) || forall c :: c in s ==> IsDigit(c)
    ensures '@' !in s
  {
  }

  lemma FourParts(model: string, a: string, b: string, c: string, tail: string)
    requires '@' !in a && '@' !in b && '@' !in c
    ensures Split(At(model, At(a, At(b, At(c, tail)))), '@') == Split(model, '@') + [a, b, c] + Split(tail, '@')
  {
    var x := At(c, tail);
    var y := At(b, x);
    var z := At(a, y);
    assert Split(x, '@') == [c] + Split(tail, '@') by {
      SplitAt(c, tail);
    }
    assert Split(y, '@') == [b] + Split(x, '@') by {
      SplitAt(b, x);
    }
    assert Split(z, '@') == [a] + Split(y, '@') by {
      SplitAt(a, y);
    }
    assert Split(At(model, z), '@') == Split(model, '@') + Split(z, '@') by {
      SplitAt(model, z);
    }
  }

  lemma FormatParts(model: string, world: nat, worker: nat, hash: string, dtype: string, salt: string)
    requires '@' !in hash && '@' !in dtype
    ensures Split(Format(model, world, worker, hash, dtype, salt), '@')
            == Split(model, '@') + [Decimal(world), Decimal(worker), hash, dtype]
               + (if salt == "" then [] else Split("cache_salt%" + salt, '@'))
  {
    DecimalFacts(world);
    DecimalFacts(worker);
    NoAt(Decimal(world));
    NoAt(Decimal(worker));
    SplitFree(dtype, '@');
    SplitAt(dtype, "cache_salt%" + salt);
    var tail := if salt == "" then dtype else At(dtype, "cache_salt%" + salt);
    FourParts(model, Decimal(world), Decimal(worker), hash, tail);
  }

  /** The rank packs the world size into bits 24 to 31 and the worker into bits 16 to 23, below which and above which
      anything may stand; a world of no workers counts as one. */
  lemma RankLayout(high: nat, world: nat, worker: nat, low: nat)
    requires world < 0x100 && worker < 0x100 && low < 0x1_0000
    ensures var rank := high * 0x1_0000_0000 + world * 0x100_0000 + worker * 0x1_0000 + low;
            WorldSize(rank) == (if world == 0 then 1 else world) && WorkerId(rank) == worker
  {
    var rank := high * 0x1_0000_0000 + world * 0x100_0000 + worker * 0x1_0000 + low;
    DivUnique(rank, 0x100_0000, high * 0x100 + world, worker * 0x1_0000 + low);
    DivUnique(high * 0x100 + world, 0x100, high, world);
    DivUnique(rank, 0x1_0000, (high * 0x100 + world) * 0x100 + worker, low);
    DivUnique((high * 0x100 + world) * 0x100 + worker, 0x100, high * 0x100 + world, worker);
  }

  lemma FormatFields(model: string, world: nat, worker: nat, hash: string, dtype: string, salt: string)
    requires '@' !in model && '@' !in hash && '@' !in dtype && '@' !in salt
    ensures Split(Format(model, world, worker, hash, dtype, salt), '@')
            == [model, Decimal(world), Decimal(worker), hash, dtype]
               + (if salt == "" then [] else ["cache_salt%" + salt])
  {
    var tagged := "cache_salt%" + salt;
    assert Split(model, '@') == [model] by {
      SplitFree(model, '@');
    }
    assert Split(tagged, '@') == [tagged] by {
      assert '@' !in tagged;
      SplitFree(tagged, '@');
    }
    FormatParts(model, world, worker, hash, dtype, salt);
  }

  /** The fields of the printed key: model, world, worker, the low 64 bits of the hash, dtype and the tagged salt. */
  lemma PrintedFields(model: string, high: nat, world: nat, worker: nat, low: nat, chunkHash: bytes, salt: string,
                      dtype: string)
    requires world < 0x100 && worker < 0x100 && low < 0x1_0000
    requires '@' !in model && '@' !in salt && '@' !in dtype
    ensures var rank := high * 0x1_0000_0000 + world * 0x100_0000 + worker * 0x1_0000 + low;
            Split(PythonKey(model, rank, chunkHash, salt, dtype), '@')
            == [model, Decimal(if world == 0 then 1 else world), Decimal(worker), Hex(FromBytes(chunkHash) % U64),
                dtype]
               + (if salt == "" then [] else ["cache_salt%" + salt])
  {
    var hash := Hex(FromBytes(chunkHash) % U64);
    RankLayout(high, world, worker, low);
    assert '@' !in hash by {
      HexFacts(FromBytes(chunkHash) % U64);
      NoAt(hash);
    }
    FormatFields(model, if world == 0 then 1 else world, worker, hash, dtype, salt);
  }

  /** Hashes are read and printed from the most significant byte on. */
  lemma HashOrder()
    ensures FromBytes([1, 2]) == 0x102 && BytesHex([1, 0xab]) == "01ab"
  {
    var a: bytes, b: bytes := [1, 2], [1, 0xab];
    assert a[..1] == [1] && b[..1] == [1] && [1 as byte][..0] == [];
    assert BytesHex([1]) == BytesHex([]) + "01" && BytesHex(b) == BytesHex([1]) + "ab";
  }

  /** The translation fails exactly for a wrong number of fields or a rank that is not hexadecimal. */
  lemma NativeFailsExactly(key: string, dtype: string)
    ensures Native(Split(key, '@'), dtype).None?
            <==> |Split(key, '@')| !in {3, 4} || !AllHex(Split(key, '@')[1])
  {
  }

  /** Both sides address the same records exactly when neither the model name nor the salt contains the
      field separator. (A dtype name contains neither '@' nor '%'.) */
  lemma KeysAgreeExactly(model: string, kvRank: nat, chunkHash: bytes, salt: string, dtype: string)
    requires '@' !in dtype && '%' !in dtype
    ensures Native(Split(ObjectKeyText(model, Hex(kvRank), BytesHex(chunkHash), salt), '@'), dtype)
            == Some(PythonKey(model, kvRank, chunkHash, salt, dtype))
            <==> '@' !in model && '@' !in salt
  {
    var rank, hash := Hex(kvRank), BytesHex(chunkHash);
    HexFacts(kvRank);
    BytesHexValue(chunkHash);
    NoAt(rank);
    NoAt(hash);
    TextParts(model, rank, hash, salt);
    SplitFree(model, '@');
    SplitFree(salt, '@');
    if '@' !in model && '@' !in salt {
      TrimIsModulo(hash);
      RankFields(kvRank);
    } else {
      SeparatorBreaksTheKey(model, kvRank, chunkHash, salt, dtype);
    }
  }

  lemma SeparatorBreaksTheKey(model: string, kvRank: nat, chunkHash: bytes, salt: string, dtype: string)
    requires '@' !in dtype && '%' !in dtype
    requires '@' in model || '@' in salt
    ensures Native(Split(ObjectKeyText(model, Hex(kvRank), BytesHex(chunkHash), salt), '@'), dtype)
            != Some(PythonKey(model, kvRank, chunkHash, salt, dtype))
  {
    var rank, hash := Hex(kvRank), BytesHex(chunkHash);
    HexFacts(kvRank);
    BytesHexValue(chunkHash);
    NoAt(rank);
    NoAt(hash);
    TextParts(model, rank, hash, salt);
    SplitFree(model, '@');
    SplitFree(salt, '@');
    var parts := Split(ObjectKeyText(model, rank, hash, salt), '@');
    if |parts| == 4 && AllHex(parts[1]) {
      // one separator in the model name, no salt: the rank is taken for the hash, the hash for the salt
      assert salt == "" && parts == Split(model, '@') + [rank, hash];
      HexFacts(FromBytes(chunkHash) % U64);
      TrimIsModulo(rank);
      HexFacts(HexValue(rank) % U64);
      NoAt(Hex(FromBytes(chunkHash) % U64));
      NoAt(TrimLow64Hex(rank));
      FirstPartIsFree(model, '@');
      var v := HexValue(parts[1]) % U64;
      FormatsDiffer(model, WorldSize(kvRank), WorkerId(kvRank), Hex(FromBytes(chunkHash) % U64), dtype,
                    parts[0], WorldSize(v), WorkerId(v), TrimLow64Hex(rank), hash);
    }
  }

  lemma FormatsDiffer(model: string, w: nat, x: nat, h: string, dtype: string,
                      model': string, w': nat, x': nat, h': string, salt': string)
    requires '@' !in dtype && '%' !in dtype && '@' !in h && '@' !in h' && '@' !in salt'
    requires |Split(model, '@')| == 2 && '@' !in model'
    ensures Format(model, w, x, h, dtype, "") != Format(model', w', x', h', dtype, salt')
  {
    FormatParts(model, w, x, h, dtype, "");
    FormatParts(model', w', x', h', dtype, salt');
    SplitFree(model', '@');
    var expected := Split(Format(model, w, x, h, dtype, ""), '@');
    var actual := Split(Format(model', w', x', h', dtype, salt'), '@');
    assert |expected| == 6 && expected[5] == dtype;
    if salt' != "" {
      var tagged := "cache_salt%" + salt';
      assert '@' !in tagged && tagged[10] == '%';
      SplitFree(tagged, '@');
      assert actual[5] == tagged && tagged[10] in tagged;
    }
  }

  lemma {:induction false} FirstPartIsFree(s: string, sep: char)
    ensures sep !in Split(s, sep)[0]
  {
    if s != "" {
      FirstPartIsFree(s[1..], sep);
    }
  }
}
