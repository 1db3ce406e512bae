/** What several components need and the language does not bring. */
module Basics {
  type Byte = b: int | 0 <= b < 256

  /** A part is no larger than the whole, and smaller if it leaves something out. */
  lemma SubsetSize<T>(a: set<T>, b: set<T>)
    requires a <= b
    ensures |a| <= |b| && (a != b ==> |a| < |b|)
  {
    assert b == a + (b - a);
  }
}
