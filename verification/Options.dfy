/** The conventional optional value, shared by the other modules. */
module Options {
  datatype Option<+T> = None | Some(value: T)
}

/** Facts about sequences that several modules need. */
module Sequences {
  lemma ConcatAssoc<T>(a: seq<T>, b: seq<T>, c: seq<T>)
    ensures a + (b + c) == (a + b) + c
  {
  }

  /** A sequence around one of its elements. */
  lemma SplitAround<T>(s: seq<T>, k: nat)
    requires k < |s|
    ensures [s[k]] + s[k + 1..] == s[k..] && s[..k] + s[k..] == s
  {
  }

  /** Lists of row ids: in order without repetition, and below a row count. */
  predicate Ascending(ids: seq<nat>) { forall i, j :: 0 <= i < j < |ids| ==> ids[i] < ids[j] }

  predicate IdsBelow(ids: seq<nat>, n: nat) { forall i :: 0 <= i < |ids| ==> ids[i] < n }
}
