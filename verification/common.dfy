/** Machine integers and small datatypes shared by the modules below. */
module Common {

  /** The largest value of the program's unsigned 64-bit clocks and counters. */
  const U64_MAX: nat := 0xFFFF_FFFF_FFFF_FFFF

  type U64 = n: nat | n <= 0xFFFF_FFFF_FFFF_FFFF

  datatype Option<+T> = None | Some(value: T)

  datatype Result<+T, +E> = Ok(value: T) | Err(error: E)

  /** `saturating_add`. */
  function SatAdd(a: U64, b: U64): U64 {
    if a + b > U64_MAX then U64_MAX else a + b
  }

  /** `saturating_sub`. */
  function SatSub(a: U64, b: U64): U64 {
    if a < b then 0 else a - b
  }

  function Max(a: U64, b: U64): U64 {
    if a < b then b else a
  }

  function Min(a: U64, b: U64): U64 {
    if a < b then a else b
  }

  /** A set inside another is no larger. */
  lemma SubsetCardinality<T>(a: set<T>, b: set<T>)
    requires a <= b
    ensures |a| <= |b|
  {
    assert b == a + (b - a);
  }

  lemma StrictSubsetCardinality<T>(a: set<T>, b: set<T>)
    requires a < b
    ensures |a| < |b|
  {
    assert b == a + (b - a);
    assert b - a != {};
  }

  /** A set inside another of the same size is that set. */
  lemma SameSizeSameSet<T>(a: set<T>, b: set<T>)
    requires a <= b && |a| == |b|
    ensures a == b
  {
    assert b == a + (b - a);
    assert |b| == |a| + |b - a|;
  }
}
