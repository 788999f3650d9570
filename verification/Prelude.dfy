/** Small shared vocabulary: optional values, results, and the sequence functions the models fold with. */
module Prelude {

  datatype Option<+T> = None | Some(value: T)

  datatype Result<+T, +E> = Ok(value: T) | Err(error: E)

  /** Keeps what `f` keeps of every element, in order. Defined from the back, so appending is one unfolding. */
  function Project<A, B>(f: A -> Option<B>, s: seq<A>): seq<B> {
    if |s| == 0 then [] else
      Project(f, s[..|s| - 1]) + match f(s[|s| - 1]) case None => [] case Some(b) => [b]
  }

  lemma {:induction false} ProjectConcat<A, B>(f: A -> Option<B>, s: seq<A>, t: seq<A>)
    ensures Project(f, s + t) == Project(f, s) + Project(f, t)
    decreases |t|
  {
    if t == [] {
      assert s + t == s;
    } else {
      var n := |t| - 1;
      assert (s + t)[..|s + t| - 1] == s + t[..n];
      ProjectConcat(f, s, t[..n]);
    }
  }

  lemma {:induction false} ProjectNone<A, B>(f: A -> Option<B>, s: seq<A>)
    requires |s| == 0
    ensures Project(f, s) == []
  {
  }

  lemma {:induction false} ProjectSnoc<A, B>(f: A -> Option<B>, s: seq<A>, a: A)
    ensures Project(f, s + [a]) == Project(f, s) + match f(a) case None => [] case Some(b) => [b]
  {
    assert (s + [a])[..|s|] == s;
  }

  lemma {:induction false} ProjectOne<A, B>(f: A -> Option<B>, a: A)
    ensures Project(f, [a]) == match f(a) case None => [] case Some(b) => [b]
  {
    assert [a][..0] == [];
  }

  /** As int() does: towards zero. */
  function Truncate(x: real): int {
    if x >= 0.0 then x.Floor else -(-x).Floor
  }

  /** `s` is what is left of `t` after deleting some of its elements. */
  ghost predicate Subsequence<T>(s: seq<T>, t: seq<T>)
    decreases |t|
  {
    |s| == 0 ||
    (|t| > 0 && (
       (s[|s| - 1] == t[|t| - 1] && Subsequence(s[..|s| - 1], t[..|t| - 1]))
       || Subsequence(s, t[..|t| - 1])))
  }

  lemma {:induction false} SubsequenceKeep<T>(s: seq<T>, t: seq<T>, x: T)
    requires Subsequence(s, t)
    ensures Subsequence(s + [x], t + [x])
  {
    assert (s + [x])[..|s|] == s && (t + [x])[..|t|] == t;
  }

  lemma {:induction false} SubsequenceSkip<T>(s: seq<T>, t: seq<T>, x: T)
    requires Subsequence(s, t)
    ensures Subsequence(s, t + [x])
  {
    assert (t + [x])[..|t|] == t;
  }

  lemma {:induction false} AllButLast<T>(s: seq<T>)
    requires |s| > 0
    ensures s[..|s| - 1] + [s[|s| - 1]] == s
  {
  }

  /** Some element, for loops over a set. */
  method AnyOf<T(==)>(s: set<T>) returns (x: T)
    requires s != {}
    ensures x in s
  {
    x :| x in s;
  }
}
