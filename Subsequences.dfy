/** Order-preserving subsequences of a list. */
module Subsequences {

  /** `t` is `s` with some elements left out and the rest kept in order. */
  predicate IsSubsequence<T(==)>(t: seq<T>, s: seq<T>)
    decreases |s|
  {
    if t == [] then true
    else if s == [] then false
    else if t[0] == s[0] then IsSubsequence(t[1..], s[1..])
    else IsSubsequence(t, s[1..])
  }

  /** Putting an element in front keeps a subsequence a subsequence. */
  lemma {:induction false} IsSubsequenceOfCons<T>(t: seq<T>, x: T, s: seq<T>)
    requires IsSubsequence(t, s)
    ensures IsSubsequence(t, [x] + s)
    decreases |s|, 1
  {
    assert ([x] + s)[1..] == s;
    if t != [] && t[0] == x {
      IsSubsequenceDropHead(t, s);
    }
  }

  /** If `t` is a subsequence of `s`, so is `t` without its first element. */
  lemma {:induction false} IsSubsequenceDropHead<T>(t: seq<T>, s: seq<T>)
    requires t != [] && IsSubsequence(t, s)
    ensures IsSubsequence(t[1..], s)
    decreases |s|, 0
  {
    if t[0] == s[0] {
      IsSubsequenceOfCons(t[1..], s[0], s[1..]);
    } else {
      IsSubsequenceDropHead(t, s[1..]);
      IsSubsequenceOfCons(t[1..], s[0], s[1..]);
    }
    assert [s[0]] + s[1..] == s;
  }
}
