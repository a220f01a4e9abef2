/** Regrouping steps for sequence concatenation that the solver does not find by itself cheaply. */
module Seqs {

  lemma Regroup<T>(a: seq<T>, b: seq<T>, c: seq<T>, d: seq<T>)
    ensures a + b + c + d == a + (b + c + d)
  {
  }

  lemma AppendSix<T>(a: seq<T>, xs: seq<T>)
    requires |xs| == 6
    ensures a + [xs[0]] + [xs[1]] + [xs[2]] + [xs[3]] + [xs[4]] + [xs[5]] == a + xs
  {
  }

  /** A prefix one longer is the prefix with the next element appended. */
  lemma PrefixStep<T>(s: seq<T>, i: nat)
    requires i < |s|
    ensures s[..i + 1] == s[..i] + [s[i]]
  {
  }

  /** Some element satisfies `p` exactly when the first does or some later one does. */
  lemma ExistsCons<T>(s: seq<T>, p: T -> bool)
    requires s != []
    ensures (exists k :: 0 <= k < |s| && p(s[k])) <==> p(s[0]) || exists k :: 0 <= k < |s[1..]| && p(s[1..][k])
  {
    var tail := s[1..];
    if exists k :: 0 <= k < |s| && p(s[k]) {
      var k :| 0 <= k < |s| && p(s[k]);
      if k > 0 { assert tail[k - 1] == s[k]; }
    }
    if exists k :: 0 <= k < |tail| && p(tail[k]) {
      var k :| 0 <= k < |tail| && p(tail[k]);
      assert s[k + 1] == tail[k];
    }
  }
}
