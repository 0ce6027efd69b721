/** Shared value types: bytes, optional values, results, Python-style slicing. */
module Common {
  newtype byte = x: int | 0 <= x < 256

  type bytes = seq<byte>

  /** A size that configuration parsing has checked to be positive. */
  type pos = x: int | 0 < x witness 1

  datatype Option<+T> = None | Some(value: T)

  datatype Result<+T, +E> = Ok(value: T) | Err(error: E)

  function Min(a: int, b: int): int {
    if a <= b then a else b
  }

  /** Python's `v[lo:hi]` for non-negative bounds: both bounds are clamped to the length. */
  function PySlice<T>(v: seq<T>, lo: nat, hi: nat): seq<T> {
    if Min(hi, |v|) <= lo then [] else v[lo..Min(hi, |v|)]
  }

  function Sum(xs: seq<int>): int {
    if xs == [] then 0 else Sum(xs[..|xs| - 1]) + xs[|xs| - 1]
  }

  function Range(lo: nat, hi: nat): (r: set<nat>)
    ensures forall i :: i in r <==> lo <= i < hi
    decreases hi
  {
    if hi <= lo then {} else Range(lo, hi - 1) + {hi - 1}
  }
}
