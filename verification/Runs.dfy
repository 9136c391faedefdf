/** Sequences with consecutive repeats removed. */
module Runs {

  /** `s` without the elements that equal their predecessor. */
  function Squash<T(==)>(s: seq<T>): seq<T> {
    if |s| <= 1 then s
    else
      var init, last := s[..|s| - 1], s[|s| - 1];
      if s[|s| - 2] == last then Squash(init) else Squash(init) + [last]
  }

  predicate NoRepeats<T(==)>(s: seq<T>) {
    forall i | 0 < i < |s| :: s[i - 1] != s[i]
  }

  lemma SquashAppend<T>(s: seq<T>, x: T)
    ensures Squash(s + [x]) == if s != [] && s[|s| - 1] == x then Squash(s) else Squash(s) + [x]
  {
    assert (s + [x])[..|s|] == s;
  }

  /** The result never repeats, ends like its argument, and has the same elements. */
  lemma {:induction false} SquashMeaning<T>(s: seq<T>)
    ensures NoRepeats(Squash(s))
    ensures s != [] ==> Squash(s) != [] && Squash(s)[|Squash(s)| - 1] == s[|s| - 1] && Squash(s)[0] == s[0]
    ensures forall x :: x in Squash(s) <==> x in s
  {
    if |s| > 1 {
      var init := s[..|s| - 1];
      SquashMeaning(init);
      assert s == init + [s[|s| - 1]];
    }
  }
}
