/** Shared vocabulary: optional values, results and the machine integers of the source. */
module Common {

  datatype Option<+T> = None | Some(value: T)

  datatype Result<+T, +E> = Ok(value: T) | Err(error: E)

  const TWO_63: int := 0x8000_0000_0000_0000
  const TWO_64: int := 0x1_0000_0000_0000_0000

  /** A Rust `u64`. */
  type u64 = x: int | 0 <= x < 0x1_0000_0000_0000_0000

  /** A Rust `i64`, which is also the PostgreSQL type INT8. */
  type i64 = x: int | -0x8000_0000_0000_0000 <= x < 0x8000_0000_0000_0000

  /** The cast `r as i64`: two's complement. */
  function AsI64(r: u64): i64 {
    if r < TWO_63 then r else r - TWO_64
  }

  /** The cast `i as u64`: two's complement. */
  function AsU64(i: i64): u64 {
    if i < 0 then i + TWO_64 else i
  }

  /** `x + 1` on `u64`, wrapping as a release build does. */
  function Increment(x: u64): u64 {
    if x + 1 == TWO_64 then 0 else x + 1
  }

  predicate StartsWith(s: string, prefix: string) {
    |prefix| <= |s| && s[..|prefix|] == prefix
  }

  function Elements<T>(s: seq<T>): set<T> {
    set x | x in s
  }

  predicate Distinct<T(==)>(s: seq<T>) {
    forall i, j :: 0 <= i < j < |s| ==> s[i] != s[j]
  }

  /** `s` lists the elements of `xs`, each exactly once, in some order. */
  predicate Enumerates<T(==)>(s: seq<T>, xs: set<T>) {
    && Distinct(s)
    && (forall x :: x in s ==> x in xs)
    && (forall x :: x in xs ==> x in s)
  }

  lemma {:induction false} EnumerationSize<T>(s: seq<T>, xs: set<T>)
    requires Enumerates(s, xs)
    ensures |s| == |xs|
  {
    if s == [] {
      assert xs == {};
    } else {
      var n := |s| - 1;
      forall x | x in xs - {s[n]} ensures x in s[..n] {
        assert x in s;
      }
      EnumerationSize(s[..n], xs - {s[n]});
    }
  }
}
