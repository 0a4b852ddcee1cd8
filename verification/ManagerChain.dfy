/** Walking up from a user along manager links, on any graph. */
module ManagerChain {
  import opened Options

  type UserId = nat

  /** Each stored user's manager; a link may name a user that is not stored. */
  type Staff = map<UserId, Option<UserId>>

  /** The manager column of a user: none also when the row is missing. */
  function ManagerOf(staff: Staff, u: UserId): Option<UserId> {
    if u in staff then staff[u] else None
  }

  function At(start: UserId, chain: seq<UserId>, i: nat): UserId
    requires i <= |chain|
  {
    if i == 0 then start else chain[i - 1]
  }

  /** Each entry is the stored manager of the one before. */
  ghost predicate Climbs(staff: Staff, start: UserId, chain: seq<UserId>) {
    forall i | 0 <= i < |chain| :: ManagerOf(staff, At(start, chain, i)) == Some(chain[i]) && chain[i] in staff
  }

  /** Nobody twice, and never the user asked about. */
  ghost predicate NoRepeat(start: UserId, chain: seq<UserId>) {
    && start !in chain
    && forall i, j | 0 <= i < j < |chain| :: chain[i] != chain[j]
  }

  /** Nowhere to go: no manager, an unknown one, or one already met. */
  predicate Stops(staff: Staff, start: UserId, chain: seq<UserId>) {
    var m := ManagerOf(staff, At(start, chain, |chain|));
    m.None? || m.value !in staff || m.value == start || m.value in chain
  }

  ghost predicate IsChain(staff: Staff, start: UserId, chain: seq<UserId>) {
    Climbs(staff, start, chain) && NoRepeat(start, chain) && Stops(staff, start, chain)
  }

  method GetManagerChain(staff: Staff, start: UserId) returns (chain: seq<UserId>)
    ensures IsChain(staff, start, chain)
    ensures |chain| <= |staff|
  {
    chain := [];
    var visited, current := {start}, start;
    while true
      invariant Climbs(staff, start, chain) && NoRepeat(start, chain)
      invariant current == At(start, chain, |chain|)
      invariant visited == {start} + set m | m in chain
      decreases staff.Keys - visited
    {
      var manager := ManagerOf(staff, current);
      if manager.None? || manager.value in visited {
        break;
      }
      if manager.value !in staff {
        break;
      }
      visited := visited + {manager.value};
      OneStepUp(staff, start, chain, manager.value);
      chain := chain + [manager.value];
      current := manager.value;
    }
    ChainIsBounded(staff, start, chain);
  }

  lemma ChainIsBounded(staff: Staff, start: UserId, chain: seq<UserId>)
    requires Climbs(staff, start, chain) && NoRepeat(start, chain)
    ensures |chain| <= |staff|
  {
    DistinctSize(chain, staff.Keys);
    assert |staff| == |staff.Keys|;
  }

  lemma {:induction false} DistinctSize(s: seq<UserId>, all: set<UserId>)
    requires forall i, j | 0 <= i < j < |s| :: s[i] != s[j]
    requires forall i | 0 <= i < |s| :: s[i] in all
    ensures |s| <= |all|
  {
    if s == [] {
    } else {
      DistinctSize(s[..|s| - 1], all - {s[|s| - 1]});
    }
  }

  lemma {:induction false} AgreeAt(staff: Staff, start: UserId, a: seq<UserId>, b: seq<UserId>, i: nat)
    requires Climbs(staff, start, a) && Climbs(staff, start, b) && i < |a| && i < |b|
    ensures a[i] == b[i]
  {
    if i == 0 {
      assert At(start, a, 0) == At(start, b, 0);
    } else {
      AgreeAt(staff, start, a, b, i - 1);
      assert At(start, a, i) == At(start, b, i);
    }
    assert ManagerOf(staff, At(start, a, i)) == Some(a[i]);
    assert ManagerOf(staff, At(start, b, i)) == Some(b[i]);
  }

  lemma ChainsAgree(staff: Staff, start: UserId, a: seq<UserId>, b: seq<UserId>, n: nat)
    requires Climbs(staff, start, a) && Climbs(staff, start, b) && n <= |a| && n <= |b|
    ensures a[..n] == b[..n]
  {
    forall i | 0 <= i < n ensures a[i] == b[i] {
      AgreeAt(staff, start, a, b, i);
    }
  }

  /** In plain terms, at any place of the chain: the entry is the stored manager of the one before, or of the user asked
      about, is stored and not that user; and after the last there is no manager, an unknown one, or one already met. */
  lemma ChainExactly(staff: Staff, start: UserId, chain: seq<UserId>, i: nat)
    requires IsChain(staff, start, chain) && i <= |chain|
    ensures var u := if i == 0 then start else chain[i - 1];
            if i < |chain| then
              u in staff && staff[u] == Some(chain[i]) && chain[i] in staff && chain[i] != start
            else
              u in staff && staff[u].Some? ==>
                staff[u].value !in staff || staff[u].value == start || staff[u].value in chain
    ensures forall j | 0 <= j < i && i < |chain| :: chain[j] != chain[i]
  {
    if i < |chain| {
      assert ManagerOf(staff, At(start, chain, i)) == Some(chain[i]);
      assert chain[i] in chain;
    }
  }

  /** The specification leaves no choice. */
  lemma ChainIsUnique(staff: Staff, start: UserId, a: seq<UserId>, b: seq<UserId>)
    requires IsChain(staff, start, a) && IsChain(staff, start, b)
    ensures a == b
  {
    if |a| < |b| {
      NotLonger(staff, start, a, b);
    } else if |b| < |a| {
      NotLonger(staff, start, b, a);
    } else {
      ChainsAgree(staff, start, a, b, |a|);
      assert a[..|a|] == a && b[..|b|] == b;
    }
  }

  /** A chain that climbs on without repeating had no reason to stop earlier. */
  lemma NoEarlierStop(staff: Staff, start: UserId, chain: seq<UserId>, n: nat)
    requires Climbs(staff, start, chain) && NoRepeat(start, chain) && n < |chain|
    ensures !Stops(staff, start, chain[..n])
  {
    assert At(start, chain[..n], n) == At(start, chain, n);
    assert ManagerOf(staff, At(start, chain, n)) == Some(chain[n]);
    assert chain[n] in chain && chain[n] !in chain[..n];
  }

  lemma NotLonger(staff: Staff, start: UserId, a: seq<UserId>, b: seq<UserId>)
    requires IsChain(staff, start, a) && IsChain(staff, start, b)
    ensures |b| <= |a|
  {
    if |a| < |b| {
      ChainsAgree(staff, start, a, b, |a|);
      assert b[..|a|] == a;
      NoEarlierStop(staff, start, b, |a|);
    }
  }

  lemma OneStepUp(staff: Staff, start: UserId, chain: seq<UserId>, m: UserId)
    requires Climbs(staff, start, chain) && NoRepeat(start, chain)
    requires ManagerOf(staff, At(start, chain, |chain|)) == Some(m) && m in staff && m != start && m !in chain
    ensures Climbs(staff, start, chain + [m]) && NoRepeat(start, chain + [m])
  {
    forall i | 0 <= i < |chain + [m]|
      ensures ManagerOf(staff, At(start, chain + [m], i)) == Some((chain + [m])[i]) && (chain + [m])[i] in staff
    {
      assert At(start, chain + [m], i) == At(start, chain, i);
    }
  }
}
