/** The ends of sequences: what a window that drops its oldest elements keeps. */
module Suffixes {

  /** `part` is the end of `whole`. */
  ghost predicate Suffix<T>(part: seq<T>, whole: seq<T>) {
    |part| <= |whole| && part == whole[|whole| - |part|..]
  }

  lemma SuffixAt<T>(part: seq<T>, whole: seq<T>, i: nat)
    requires Suffix(part, whole) && |whole| - |part| <= i < |whole|
    ensures part[i - (|whole| - |part|)] == whole[i]
  {
  }

  lemma SuffixSnoc<T>(part: seq<T>, whole: seq<T>, x: T)
    requires Suffix(part, whole)
    ensures Suffix(part + [x], whole + [x])
  {
    assert (whole + [x])[|whole| - |part|..] == part + [x];
  }

  lemma EmptySuffix<T>(whole: seq<T>)
    ensures Suffix([], whole)
  {
    assert whole[|whole|..] == [];
  }

  /** The last `n` elements. */
  function Last<T>(s: seq<T>, n: nat): seq<T> {
    if |s| <= n then s else s[|s| - n..]
  }

  lemma LastIsSuffix<T>(part: seq<T>, whole: seq<T>, n: nat)
    requires Suffix(part, whole)
    ensures Suffix(Last(part, n), whole)
  {
    if |part| > n {
      assert part[|part| - n..] == whole[|whole| - n..];
    }
  }

  lemma LastKeepsNewest<T>(s: seq<T>, n: nat)
    requires s != [] && n > 0
    ensures Last(s, n) != [] && Last(s, n)[|Last(s, n)| - 1] == s[|s| - 1]
    ensures s[|s| - 1] in Last(s, n)
  {
  }
}
