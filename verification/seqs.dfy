/** Order-preserving selections over sequences, shared by every index-flagging check. */
module Seqs {

  /** Every element is smaller than the one after it. */
  predicate StrictlyIncreasing(s: seq<nat>) {
    forall i, j :: 0 <= i < j < |s| ==> s[i] < s[j]
  }

  /** No element occurs twice. */
  predicate NoDuplicates<T(==)>(s: seq<T>) {
    forall i, j :: 0 <= i < j < |s| ==> s[i] != s[j]
  }

  lemma IncreasingHasNoDuplicates(s: seq<nat>)
    requires StrictlyIncreasing(s)
    ensures NoDuplicates(s)
  {
  }

  /** The positions of `s` whose element satisfies `p`, in ascending order: a Python
      comprehension `[i for i, x in enumerate(s) if p(x)]`. */
  function Positions<T>(s: seq<T>, p: T -> bool): (r: seq<nat>)
    ensures forall i: nat :: i in r <==> i < |s| && p(s[i])
    ensures forall k :: 0 <= k < |r| ==> r[k] < |s|
    ensures StrictlyIncreasing(r)
    decreases |s|
  {
    if |s| == 0 then []
    else
      var front := Positions(s[..|s| - 1], p);
      if p(s[|s| - 1]) then front + [|s| - 1] else front
  }

  /** The elements of `xs` that satisfy `p`, in the order of `xs`, repetitions kept:
      the list a check builds by appending the candidates it flags. */
  function Keep(xs: seq<nat>, p: nat -> bool): (r: seq<nat>)
    ensures forall x :: x in r <==> x in xs && p(x)
    ensures |r| <= |xs|
    ensures StrictlyIncreasing(xs) ==> StrictlyIncreasing(r)
  {
    if |xs| == 0 then []
    else
      var rest := Keep(xs[1..], p);
      assert StrictlyIncreasing(xs) ==> forall k :: 0 <= k < |rest| ==> xs[0] < rest[k] by {
        if StrictlyIncreasing(xs) {
          forall k | 0 <= k < |rest| ensures xs[0] < rest[k] {
            assert rest[k] in xs[1..];
          }
        }
      }
      if p(xs[0]) then [xs[0]] + rest else rest
  }

  /** Filtering a concatenation filters each part in turn: flagged candidates keep the
      order of the candidate lists they came from. */
  lemma {:induction false} KeepAppend(a: seq<nat>, b: seq<nat>, p: nat -> bool)
    ensures Keep(a + b, p) == Keep(a, p) + Keep(b, p)
    decreases |a|
  {
    if |a| == 0 {
      assert a + b == b;
    } else {
      assert (a + b)[1..] == a[1..] + b;
      KeepAppend(a[1..], b, p);
    }
  }

  /** Filtering keeps a candidate list whose elements all pass unchanged. */
  lemma {:induction false} KeepAll(xs: seq<nat>, p: nat -> bool)
    requires forall k :: 0 <= k < |xs| ==> p(xs[k])
    ensures Keep(xs, p) == xs
    decreases |xs|
  {
    if |xs| > 0 {
      KeepAll(xs[1..], p);
    }
  }

  /** Number of elements of `s` satisfying `p`. */
  function Count<T>(s: seq<T>, p: T -> bool): (n: nat)
    ensures n <= |s|
    ensures n == 0 <==> forall k :: 0 <= k < |s| ==> !p(s[k])
  {
    if |s| == 0 then 0
    else Count(s[1..], p) + (if p(s[0]) then 1 else 0)
  }
}
