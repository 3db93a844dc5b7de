/** What several components share: optional values and the size of a subset. */
module Common {

  datatype Option<T> = None | Some(value: T)

  lemma SubsetSize<T>(a: set<T>, b: set<T>)
    requires a <= b
    ensures |a| <= |b|
  {
    if a != b { assert b == a + (b - a); }
  }

  /** One more element, or none. */
  lemma GrowsBy<T>(before: set<T>, now: set<T>, x: T, hit: bool)
    requires x !in before && now == before + (if hit then {x} else {})
    ensures |now| == |before| + (if hit then 1 else 0)
  {}
}
