/** Failure-compatible wrappers: Java's `null` and thrown exceptions become values. */
module Wrappers {

  /** A possibly-null reference: `None` stands for Java's `null`. */
  datatype Option<+T> = None | Some(value: T)

  /** The result of a call that either returns a value or throws. */
  datatype Result<+T, +E> = Success(value: T) | Failure(error: E)

  /** The result of a void call that may throw. */
  datatype Outcome<+E> = Pass | Fail(error: E)
}

/** Java's fixed-width integers, as subset types of `int`. */
module Primitives {

  const INT_MIN: int := -0x8000_0000
  const INT_MAX: int := 0x7fff_ffff

  /** A Java `int`. */
  type int32 = x: int | INT_MIN <= x <= INT_MAX

  /** One raw byte of a page image, as an unsigned value. */
  type byte = x: int | 0 <= x < 0x100

  /** Euclidean division undoes `q * m + r` for a remainder below `m`. */
  lemma DivMod(q: int, r: int, m: int)
    requires 0 <= r < m
    ensures (q * m + r) / m == q && (q * m + r) % m == r
  {
    var x := q * m + r;
    var d := x / m;
    var e := x % m;
    assert x == d * m + e && 0 <= e < m;
    assert (q - d) * m == e - r;
    if q - d >= 1 {
      assert false;
    } else if q - d <= -1 {
      assert false;
    }
  }
}
