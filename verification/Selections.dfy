/** What a filter keeps, stated by positions: which, how often and in what order. */
module Selections {
  ghost predicate Increasing(at: seq<nat>) {
    forall k, m | 0 <= k < m < |at| :: at[k] < at[m]
  }

  /** at lists exactly the positions in s, each once, in increasing order. */
  ghost predicate Lists(at: seq<nat>, s: set<nat>) {
    Increasing(at) && forall i: nat :: i in at <==> i in s
  }

  /** A filter's next element: kept, its position comes last; left out, nothing changes. */
  lemma ListsNext(at: seq<nat>, before: set<nat>, n: nat, keep: bool, now: set<nat>)
    requires Lists(at, before) && forall i | i in before :: i < n
    requires forall i: nat :: i in now <==> i in before || (keep && i == n)
    ensures Lists(if keep then at + [n] else at, now)
  {
    assert forall k | 0 <= k < |at| :: at[k] in at;
  }

  /** out holds what s holds at the listed positions. */
  ghost predicate Selects<T>(out: seq<T>, s: seq<T>, at: seq<nat>) {
    |out| == |at| && forall k | 0 <= k < |at| :: at[k] < |s| && out[k] == s[at[k]]
  }

  lemma SelectsNext<T>(out: seq<T>, s: seq<T>, at: seq<nat>, x: T, keep: bool)
    requires Selects(out, s, at)
    ensures Selects(if keep then out + [x] else out, s + [x], if keep then at + [|s|] else at)
  {
  }
}
