/** Small shared vocabulary: optional values, results, and facts about finite sets. */
module Prelude {
  datatype Option<+T> = None | Some(value: T)

  datatype Result<+T, +E> = Success(value: T) | Failure(error: E)

  function Min(a: real, b: real): real {
    if a <= b then a else b
  }

  /** A subset is no larger than the whole. */
  lemma SubsetSize<T>(small: set<T>, big: set<T>)
    requires small <= big
    ensures |small| <= |big|
  {
    assert big == small + (big - small);
  }

  /** Counting is enough to tell a subset from the whole. */
  lemma SubsetSizeExact<T>(small: set<T>, big: set<T>)
    requires small <= big
    ensures |small| == |big| <==> small == big
  {
    assert big == small + (big - small);
    if |small| == |big| {
      assert big - small == {};
    }
  }

  function Last<T>(s: seq<T>): T
    requires s != []
  {
    s[|s| - 1]
  }

  function Front<T>(s: seq<T>): seq<T>
    requires s != []
  {
    s[..|s| - 1]
  }
}
