/** What several parts of the model share. */
module Basics {
  datatype Option<+T> = None | Some(value: T)

  function Power(n: nat): nat {
    if n == 0 then 1 else 2 * Power(n - 1)
  }

  /** s[i], as a name for quantifiers to fire on. */
  function At(s: seq<nat>, i: nat): nat
    requires i < |s|
  {
    s[i]
  }

  predicate Distinct(s: seq<nat>) {
    forall i: nat, j: nat :: i < j < |s| ==> s[i] != s[j]
  }

  /** Distinct, in a form that fires only on named elements. */
  predicate DistinctAt(s: seq<nat>) {
    forall j: nat, k: nat {:trigger At(s, j), At(s, k)} :: j < k < |s| ==> At(s, j) != At(s, k)
  }

  lemma DistinctForms(s: seq<nat>)
    ensures DistinctAt(s) <==> Distinct(s)
  {
    if DistinctAt(s) {
      forall j: nat, k: nat | j < k < |s| ensures s[j] != s[k] {
        assert At(s, j) != At(s, k);
      }
    }
  }

  /** A list of distinct members of a set is no longer than the set is large. */
  lemma {:induction false} DistinctFits(q: seq<nat>, all: set<nat>)
    requires Distinct(q) && forall i: nat :: i < |q| ==> q[i] in all
    ensures |q| <= |all|
    decreases |q|
  {
    if q == [] {
    } else {
      DistinctFits(q[1..], all - {q[0]});
    }
  }
}
