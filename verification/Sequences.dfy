/** Sequences without repetition. */
module Sequences {
  ghost predicate Distinct(s: seq<nat>) { forall i, j :: 0 <= i < j < |s| ==> Differ(s, i, j) }

  predicate Differ(s: seq<nat>, i: nat, j: nat)
    requires i < |s| && j < |s|
  {
    s[i] != s[j]
  }
}
