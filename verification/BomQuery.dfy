/** The recursive bill-of-materials query: anchors chosen with SQL's NOT IN, then one join per level
    under a depth cap. The parts table is a parent-pointer graph and may be cyclic; a part may be
    declared by several item rows. */
module BomQuery {
  import opened Options

  type PartId = nat

  /** `parents` is the parts table, `items` the part column of one version's item rows. */
  datatype Catalog = Catalog(parents: map<PartId, Option<PartId>>, items: seq<PartId>)

  datatype Row = Row(part: PartId, parent: Option<PartId>, depth: nat)

  const MAX_DEPTH: nat := 5

  predicate Declared(c: Catalog, p: PartId) {
    p in c.parents && p in c.items
  }

  /** Membership in the anchor's subquery: declared, with a non-null parent. */
  predicate Inner(c: Catalog, p: PartId) {
    Declared(c, p) && c.parents[p].Some?
  }

  function Subquery(c: Catalog): set<PartId> {
    set p | p in c.items && Inner(c, p)
  }

  /** SQL's `x NOT IN (s)` as a filter: a null x passes only when s has no rows at all. */
  predicate NotIn(x: Option<PartId>, s: set<PartId>) {
    s == {} || (x.Some? && x.value !in s)
  }

  predicate Anchor(c: Catalog, p: PartId) {
    Declared(c, p) && NotIn(c.parents[p], Subquery(c))
  }

  function RowOf(c: Catalog, p: PartId, d: nat): Row
    requires p in c.parents
  {
    Row(p, c.parents[p], d)
  }

  /** How many rows the query yields for part p at depth d, before the depth cap. */
  function RowCount(c: Catalog, p: PartId, d: nat): nat
    decreases d
  {
    if p !in c.parents then 0
    else if d == 0 then (if Anchor(c, p) then multiset(c.items)[p] else 0)
    else match c.parents[p]
      case None => 0
      case Some(q) => multiset(c.items)[p] * RowCount(c, q, d - 1)
  }

  predicate WellFormed(c: Catalog, rows: seq<Row>) {
    forall r | r in rows :: r.part in c.parents && r == RowOf(c, r.part, r.depth)
  }

  /** rows is the query's answer, in whatever order the database returned it. */
  ghost predicate Fetched(c: Catalog, rows: seq<Row>) {
    && WellFormed(c, rows)
    && (forall r | r in rows :: r.depth <= MAX_DEPTH)
    && (forall p, d: nat | p in c.parents && d <= MAX_DEPTH :: multiset(rows)[RowOf(c, p, d)] == RowCount(c, p, d))
  }

  /** The working table after level d: exactly the rows of that level. */
  ghost predicate AtLevel(c: Catalog, work: seq<Row>, d: nat) {
    && WellFormed(c, work)
    && (forall r | r in work :: r.depth == d)
    && (MAX_DEPTH < d ==> work == [])
    && (forall p | p in c.parents ::
          multiset(work)[RowOf(c, p, d)] == if d <= MAX_DEPTH then RowCount(c, p, d) else 0)
  }

  lemma CopiesCount<T>(s: seq<T>, x: T)
    requires forall y | y in s :: y == x
    ensures multiset(s)[x] == |s|
    ensures forall y | y != x :: multiset(s)[y] == 0
  {
    if s == [] {
    } else {
      var front := s[..|s| - 1];
      assert s == front + [s[|s| - 1]];
      assert forall y | y in front :: y in s;
      assert s[|s| - 1] in s;
      CopiesCount(front, x);
    }
  }

  lemma PrefixCount<T>(s: seq<T>, i: nat)
    requires i < |s|
    ensures multiset(s[..i + 1]) == multiset(s[..i]) + multiset{s[i]}
  {
    assert s[..i + 1] == s[..i] + [s[i]];
  }

  method Anchors(c: Catalog) returns (rows: seq<Row>)
    ensures AtLevel(c, rows, 0)
  {
    rows := [];
    var inner := Subquery(c);
    for i := 0 to |c.items|
      invariant WellFormed(c, rows)
      invariant forall r | r in rows :: r.depth == 0
      invariant forall p | p in c.parents ::
          multiset(rows)[RowOf(c, p, 0)] == if Anchor(c, p) then multiset(c.items[..i])[p] else 0
    {
      var p := c.items[i];
      PrefixCount(c.items, i);
      if p in c.parents && NotIn(c.parents[p], inner) {
        rows := rows + [RowOf(c, p, 0)];
      }
    }
    assert c.items[..|c.items|] == c.items;
  }

  /** How many rows of level d one item row of part p joins with. */
  ghost function Matches(c: Catalog, p: PartId, work: seq<Row>, d: nat): nat
    requires p in c.parents
  {
    match c.parents[p]
    case None => 0
    case Some(q) => if d < MAX_DEPTH && q in c.parents then multiset(work)[RowOf(c, q, d)] else 0
  }

  method JoinItem(c: Catalog, p: PartId, work: seq<Row>, ghost d: nat) returns (out: seq<Row>)
    requires p in c.parents && AtLevel(c, work, d)
    ensures forall r | r in out :: r == RowOf(c, p, d + 1)
    ensures |out| == Matches(c, p, work, d)
  {
    out := [];
    for j := 0 to |work|
      invariant forall r | r in out :: r == RowOf(c, p, d + 1)
      invariant |out| == Matches(c, p, work[..j], d)
    {
      PrefixCount(work, j);
      assert work[j] in work;
      if c.parents[p] == Some(work[j].part) && work[j].depth < MAX_DEPTH {
        out := out + [Row(p, c.parents[p], work[j].depth + 1)];
      }
    }
    assert work[..|work|] == work;
  }

  /** next holds the joins of the first i item rows with level d. */
  ghost predicate Joined(c: Catalog, next: seq<Row>, i: nat, work: seq<Row>, d: nat)
    requires i <= |c.items|
  {
    && WellFormed(c, next)
    && (forall r | r in next :: r.depth == d + 1)
    && (d == MAX_DEPTH ==> next == [])
    && (forall p | p in c.parents ::
          multiset(next)[RowOf(c, p, d + 1)] == multiset(c.items[..i])[p] * Matches(c, p, work, d))
  }

  /** out is what item row i adds to the next level. */
  ghost predicate ItemRows(c: Catalog, i: nat, work: seq<Row>, d: nat, out: seq<Row>)
    requires i < |c.items|
  {
    var x := c.items[i];
    if x in c.parents then
      (forall r | r in out :: r == RowOf(c, x, d + 1)) && |out| == Matches(c, x, work, d)
    else
      out == []
  }

  lemma JoinStepAt(c: Catalog, i: nat, work: seq<Row>, d: nat, out: seq<Row>, p: PartId, before: nat)
    requires i < |c.items| && p in c.parents && ItemRows(c, i, work, d, out)
    requires before == multiset(c.items[..i])[p] * Matches(c, p, work, d)
    ensures before + multiset(out)[RowOf(c, p, d + 1)] == multiset(c.items[..i + 1])[p] * Matches(c, p, work, d)
  {
    PrefixCount(c.items, i);
    var x := c.items[i];
    if x == p {
      CopiesCount(out, RowOf(c, p, d + 1));
      OneMore(multiset(c.items[..i])[p], Matches(c, p, work, d));
    } else if x in c.parents {
      CopiesCount(out, RowOf(c, x, d + 1));
    }
  }

  lemma OneMore(n: nat, k: nat)
    ensures (n + 1) * k == n * k + k
  {
  }

  lemma JoinStep(c: Catalog, next: seq<Row>, i: nat, work: seq<Row>, d: nat, out: seq<Row>)
    requires i < |c.items| && Joined(c, next, i, work, d) && ItemRows(c, i, work, d, out)
    ensures Joined(c, next + out, i + 1, work, d)
  {
    assert multiset(next + out) == multiset(next) + multiset(out);
    forall p | p in c.parents
      ensures multiset(next + out)[RowOf(c, p, d + 1)] == multiset(c.items[..i + 1])[p] * Matches(c, p, work, d)
    {
      JoinStepAt(c, i, work, d, out, p, multiset(next)[RowOf(c, p, d + 1)]);
    }
  }

  method NextLevel(c: Catalog, work: seq<Row>, ghost d: nat) returns (next: seq<Row>)
    requires d <= MAX_DEPTH && AtLevel(c, work, d)
    ensures AtLevel(c, next, d + 1)
  {
    next := [];
    for i := 0 to |c.items|
      invariant Joined(c, next, i, work, d)
    {
      var p := c.items[i];
      var out := [];
      if p in c.parents {
        out := JoinItem(c, p, work, d);
      }
      JoinStep(c, next, i, work, d, out);
      next := next + out;
    }
    assert c.items[..|c.items|] == c.items;
    forall p | p in c.parents
      ensures multiset(next)[RowOf(c, p, d + 1)] == if d + 1 <= MAX_DEPTH then RowCount(c, p, d + 1) else 0
    {
      LevelCount(c, p, work, d);
    }
  }

  lemma LevelCount(c: Catalog, p: PartId, work: seq<Row>, d: nat)
    requires p in c.parents && d <= MAX_DEPTH
    requires forall q | q in c.parents :: multiset(work)[RowOf(c, q, d)] == RowCount(c, q, d)
    ensures multiset(c.items)[p] * Matches(c, p, work, d) == if d < MAX_DEPTH then RowCount(c, p, d + 1) else 0
  {
    var m := multiset(c.items)[p];
    if d == MAX_DEPTH || c.parents[p].None? {
      assert Matches(c, p, work, d) == 0;
    } else {
      var q := c.parents[p].value;
      assert Matches(c, p, work, d) == RowCount(c, q, d);
      assert RowCount(c, p, d + 1) == m * RowCount(c, q, d);
    }
  }

  /** rows holds the levels 0..d of the answer. */
  ghost predicate Collected(c: Catalog, rows: seq<Row>, d: nat) {
    && WellFormed(c, rows)
    && (forall r | r in rows :: r.depth <= d && r.depth <= MAX_DEPTH)
    && (forall p, e: nat | p in c.parents && e <= d && e <= MAX_DEPTH ::
          multiset(rows)[RowOf(c, p, e)] == RowCount(c, p, e))
  }

  lemma CollectNext(c: Catalog, rows: seq<Row>, next: seq<Row>, d: nat)
    requires d <= MAX_DEPTH && Collected(c, rows, d) && AtLevel(c, next, d + 1)
    ensures Collected(c, rows + next, d + 1)
  {
    if d == MAX_DEPTH {
      assert rows + next == rows;
    }
    forall p, e: nat | p in c.parents && e <= d + 1 && e <= MAX_DEPTH
      ensures multiset(rows + next)[RowOf(c, p, e)] == RowCount(c, p, e)
    {
      if e <= d {
        assert RowOf(c, p, e) !in next;
      } else {
        assert RowOf(c, p, e) !in rows;
      }
    }
  }

  /** The whole query. It stops on every parent graph, because a level past the cap joins with nothing. */
  method FetchRows(c: Catalog) returns (rows: seq<Row>)
    ensures Fetched(c, rows)
  {
    var work := Anchors(c);
    rows := work;
    ghost var d: nat := 0;
    while work != []
      invariant d <= MAX_DEPTH + 1 && AtLevel(c, work, d) && Collected(c, rows, d)
      decreases MAX_DEPTH + 1 - d
    {
      var next := NextLevel(c, work, d);
      CollectNext(c, rows, next, d);
      work, rows, d := next, rows + next, d + 1;
    }
    LevelsAfterAnEmptyOne(c, rows, d);
  }

  lemma LevelsAfterAnEmptyOne(c: Catalog, rows: seq<Row>, d: nat)
    requires AtLevel(c, [], d) && Collected(c, rows, d)
    ensures Fetched(c, rows)
  {
    forall p, e: nat | p in c.parents && d < e <= MAX_DEPTH
      ensures multiset(rows)[RowOf(c, p, e)] == RowCount(c, p, e)
    {
      forall q | q in c.parents ensures RowCount(c, q, d) == 0 {
        assert multiset([])[RowOf(c, q, d)] == 0;
      }
      EmptyLevelsStayEmpty(c, p, d, e);
      assert RowOf(c, p, e) !in rows;
    }
  }

  lemma EmptyLevelsStayEmpty(c: Catalog, p: PartId, d: nat, e: nat)
    requires forall q | q in c.parents :: RowCount(c, q, d) == 0
    requires d <= e
    ensures RowCount(c, p, e) == 0
    decreases e
  {
    if d == e || p !in c.parents || c.parents[p].None? {
    } else {
      EmptyLevelsStayEmpty(c, c.parents[p].value, d, e - 1);
    }
  }

  // ---------------------------------------------------------------------
  // What the rows mean, in terms of walking up the parts table.
  // ---------------------------------------------------------------------

  /** The k-th ancestor of p, if the parts table has one. */
  function Ancestor(c: Catalog, p: PartId, k: nat): Option<PartId>
    decreases k
  {
    if k == 0 then Some(p)
    else if p !in c.parents || c.parents[p].None? then None
    else Ancestor(c, c.parents[p].value, k - 1)
  }

  predicate InnerAncestor(c: Catalog, p: PartId, k: nat) {
    Ancestor(c, p, k).Some? && Inner(c, Ancestor(c, p, k).value)
  }

  /** p is Inner, and so are its first d ancestors, and its (d+1)-th is not. */
  ghost predicate LeavesAfter(c: Catalog, p: PartId, d: nat) {
    (forall k: nat | k <= d :: InnerAncestor(c, p, k)) && !InnerAncestor(c, p, d + 1)
  }

  lemma AncestorShift(c: Catalog, p: PartId, k: nat)
    requires p in c.parents && c.parents[p].Some?
    ensures Ancestor(c, p, k + 1) == Ancestor(c, c.parents[p].value, k)
  {
  }

  lemma AncestorStep(c: Catalog, p: PartId, k: nat)
    ensures Ancestor(c, p, k + 1) ==
            match Ancestor(c, p, k)
            case None => None
            case Some(q) => if q in c.parents then c.parents[q] else None
    decreases k
  {
    if k == 0 || p !in c.parents || c.parents[p].None? {
    } else {
      AncestorStep(c, c.parents[p].value, k - 1);
    }
  }

  /** When some declared part has a parent, depth counts exactly the run of declared, parented ancestors. */
  lemma {:induction false} DepthIsAncestorRun(c: Catalog, p: PartId, d: nat)
    requires Subquery(c) != {}
    ensures RowCount(c, p, d) > 0 <==> LeavesAfter(c, p, d)
    decreases d
  {
    assert Ancestor(c, p, 0) == Some(p);
    AncestorStep(c, p, 0);
    if Inner(c, p) {
      var q := c.parents[p].value;
      if d == 0 {
        assert Inner(c, q) <==> q in Subquery(c);
        assert Ancestor(c, p, 1) == Some(q);
      } else {
        DepthIsAncestorRun(c, q, d - 1);
        RunShift(c, p, q, d);
      }
    } else {
      assert !InnerAncestor(c, p, 0);
    }
  }

  lemma RunShift(c: Catalog, p: PartId, q: PartId, d: nat)
    requires Inner(c, p) && c.parents[p] == Some(q) && 0 < d
    ensures LeavesAfter(c, p, d) <==> LeavesAfter(c, q, d - 1)
  {
    forall k: nat ensures InnerAncestor(c, p, k + 1) <==> InnerAncestor(c, q, k) {
      AncestorShift(c, p, k);
    }
    if LeavesAfter(c, q, d - 1) {
      forall k: nat | k <= d ensures InnerAncestor(c, p, k) {
        if 0 < k { assert InnerAncestor(c, q, k - 1); }
      }
    }
    if LeavesAfter(c, p, d) {
      forall k: nat | k <= d - 1 ensures InnerAncestor(c, q, k) {
        assert InnerAncestor(c, p, k + 1);
      }
    }
  }

  /** How often p and its first d ancestors are declared, multiplied up from p. */
  function Ways(c: Catalog, p: PartId, d: nat): nat {
    var m := if Ancestor(c, p, d).Some? then multiset(c.items)[Ancestor(c, p, d).value] else 0;
    if d == 0 then m else Ways(c, p, d - 1) * m
  }

  lemma {:induction false} WaysShift(c: Catalog, p: PartId, d: nat)
    requires p in c.parents && c.parents[p].Some?
    ensures Ways(c, p, d + 1) == multiset(c.items)[p] * Ways(c, c.parents[p].value, d)
  {
    var q := c.parents[p].value;
    AncestorShift(c, p, d);
    if d == 0 {
      assert Ways(c, p, 0) == multiset(c.items)[p];
    } else {
      WaysShift(c, p, d - 1);
      var a, b, m := multiset(c.items)[p], Ways(c, q, d - 1),
                     if Ancestor(c, q, d).Some? then multiset(c.items)[Ancestor(c, q, d).value] else 0;
      Regroup(a, b, m, Ways(c, p, d), Ways(c, q, d));
    }
  }

  lemma Regroup(a: nat, b: nat, m: nat, x: nat, y: nat)
    requires x == a * b && y == b * m
    ensures x * m == a * y
  {
  }

  /** A returned part comes once for every way of choosing an item row for it and for each ancestor it climbs past. */
  lemma {:induction false} RowsMultiply(c: Catalog, p: PartId, d: nat)
    requires RowCount(c, p, d) > 0
    ensures RowCount(c, p, d) == Ways(c, p, d)
    decreases d
  {
    if d == 0 {
    } else {
      var q := c.parents[p].value;
      assert RowCount(c, p, d) == multiset(c.items)[p] * RowCount(c, q, d - 1);
      assert RowCount(c, q, d - 1) > 0;
      RowsMultiply(c, q, d - 1);
      WaysShift(c, p, d - 1);
    }
  }

  /** So the answer holds a part this often, at the one depth at which it holds it at all. */
  lemma ReturnedWays(c: Catalog, rows: seq<Row>, r: Row)
    requires Fetched(c, rows) && r in rows
    ensures multiset(rows)[r] == Ways(c, r.part, r.depth)
  {
    assert multiset(rows)[RowOf(c, r.part, r.depth)] > 0;
    RowsMultiply(c, r.part, r.depth);
  }

  lemma OnlyAnchorsWithoutInnerParts(c: Catalog, p: PartId, d: nat)
    requires Subquery(c) == {}
    ensures RowCount(c, p, d) > 0 <==> d == 0 && Declared(c, p)
    decreases d
  {
    assert Inner(c, p) ==> p in Subquery(c);
  }

  /** No part has rows at two depths, declared twice or not. */
  lemma OneDepth(c: Catalog, p: PartId, d: nat, e: nat)
    requires RowCount(c, p, d) > 0 && RowCount(c, p, e) > 0
    ensures d == e
  {
    if Subquery(c) == {} {
      OnlyAnchorsWithoutInnerParts(c, p, d);
      OnlyAnchorsWithoutInnerParts(c, p, e);
    } else {
      DepthIsAncestorRun(c, p, d);
      DepthIsAncestorRun(c, p, e);
    }
  }

  predicate HasRow(rows: seq<Row>, p: PartId) {
    exists r | r in rows :: r.part == p
  }

  /** Exactly which parts the query returns. Without any declared child part: every declared part.
      Otherwise: the declared parts with a parent, one of whose first six ancestors is not such a part. */
  lemma RowsExactly(c: Catalog, rows: seq<Row>, p: PartId)
    requires Fetched(c, rows)
    ensures HasRow(rows, p) <==>
            if Subquery(c) == {} then Declared(c, p)
            else Inner(c, p) && exists k: nat | 1 <= k <= 6 :: !InnerAncestor(c, p, k)
  {
    if HasRow(rows, p) {
      var r :| r in rows && r.part == p;
      assert multiset(rows)[RowOf(c, p, r.depth)] > 0;
      if Subquery(c) == {} {
        OnlyAnchorsWithoutInnerParts(c, p, r.depth);
      } else {
        DepthIsAncestorRun(c, p, r.depth);
        assert InnerAncestor(c, p, 0) && !InnerAncestor(c, p, r.depth + 1);
      }
    }
    if Subquery(c) == {} {
      if Declared(c, p) {
        OnlyAnchorsWithoutInnerParts(c, p, 0);
        assert RowOf(c, p, 0) in multiset(rows);
      }
    } else if Inner(c, p) {
      if k: nat :| 1 <= k <= 6 && !InnerAncestor(c, p, k) {
        var d := FirstExit(c, p, k);
        DepthIsAncestorRun(c, p, d);
        assert RowOf(c, p, d) in multiset(rows);
      }
    }
  }

  lemma FirstExit(c: Catalog, p: PartId, k: nat) returns (d: nat)
    requires 1 <= k && Inner(c, p) && !InnerAncestor(c, p, k)
    ensures d < k && LeavesAfter(c, p, d)
  {
    d := 0;
    while InnerAncestor(c, p, d + 1)
      invariant d < k && forall j: nat | j <= d :: InnerAncestor(c, p, j)
      decreases k - d
    {
      d := d + 1;
    }
  }

  /** With one item row per part, every returned part is returned once. */
  lemma OneRowPerPart(c: Catalog, rows: seq<Row>, i: nat, j: nat)
    requires Fetched(c, rows) && (forall p :: multiset(c.items)[p] <= 1)
    requires i < |rows| && j < |rows| && rows[i].part == rows[j].part
    ensures i == j
  {
    var p, d, e := rows[i].part, rows[i].depth, rows[j].depth;
    assert rows[i] in rows && rows[j] in rows;
    assert rows[i] in multiset(rows) && rows[j] in multiset(rows);
    OneDepth(c, p, d, e);
    AtMostOne(c, p, d);
    if i != j {
      TwiceCounted(rows, i, j);
      assert false;
    }
  }

  lemma AtMostOne(c: Catalog, p: PartId, d: nat)
    requires forall q :: multiset(c.items)[q] <= 1
    ensures RowCount(c, p, d) <= 1
    decreases d
  {
    if d == 0 || p !in c.parents || c.parents[p].None? {
    } else {
      AtMostOne(c, c.parents[p].value, d - 1);
      var m, n := multiset(c.items)[p], RowCount(c, c.parents[p].value, d - 1);
      assert m == 0 || m == 1;
      assert n == 0 || n == 1;
    }
  }

  lemma TwiceCounted<T>(s: seq<T>, i: nat, j: nat)
    requires i < |s| && j < |s| && i != j && s[i] == s[j]
    ensures multiset(s)[s[i]] >= 2
  {
    var a, b := if i < j then i else j, if i < j then j else i;
    assert s == s[..b] + s[b..];
    assert s[..b][a] == s[i] && s[b..][0] == s[i];
    assert s[i] in s[..b] && s[i] in s[b..];
  }

  /** A part on, or below, a cycle of declared parts never appears. */
  lemma CyclesNeverAppear(c: Catalog, rows: seq<Row>, p: PartId, i: nat, j: nat)
    requires Fetched(c, rows) && i < j
    requires Ancestor(c, p, i) == Ancestor(c, p, j) && forall k: nat | k < j :: InnerAncestor(c, p, k)
    ensures !HasRow(rows, p)
  {
    assert InnerAncestor(c, p, 0);
    assert p in Subquery(c);
    forall k: nat ensures InnerAncestor(c, p, k) {
      AroundTheCycle(c, p, i, j, k);
    }
    RowsExactly(c, rows, p);
  }

  lemma AroundTheCycle(c: Catalog, p: PartId, i: nat, j: nat, k: nat)
    requires i < j && Ancestor(c, p, i) == Ancestor(c, p, j)
    requires forall m: nat | m < j :: InnerAncestor(c, p, m)
    ensures InnerAncestor(c, p, k)
    decreases k
  {
    if k < j {
    } else {
      AroundTheCycle(c, p, i, j, k - (j - i));
      SameAncestors(c, p, i, j, k - j);
    }
  }

  lemma SameAncestors(c: Catalog, p: PartId, i: nat, j: nat, n: nat)
    requires Ancestor(c, p, i) == Ancestor(c, p, j)
    ensures Ancestor(c, p, i + n) == Ancestor(c, p, j + n)
  {
    if n == 0 {
    } else {
      SameAncestors(c, p, i, j, n - 1);
      AncestorStep(c, p, i + n - 1);
      AncestorStep(c, p, j + n - 1);
    }
  }

  /** The query's comment calls its anchors the parts without a parent. That fails as soon as one declared
      part has a parent: a declared top part is returned iff no declared part has a parent. */
  lemma TopPartsReturnedOnlyAlone(c: Catalog, rows: seq<Row>, p: PartId)
    requires Fetched(c, rows) && Declared(c, p) && c.parents[p].None?
    ensures HasRow(rows, p) <==> Subquery(c) == {}
  {
    RowsExactly(c, rows, p);
  }

  /** The smallest such catalog: a pack and its module, both declared. Only the module comes back. */
  lemma PackIsDropped(rows: seq<Row>)
    requires Fetched(Catalog(map[1 := None, 2 := Some(1)], [1, 2]), rows)
    ensures HasRow(rows, 2) && !HasRow(rows, 1)
  {
    var c := Catalog(map[1 := None, 2 := Some(1)], [1, 2]);
    assert 2 in Subquery(c);
    RowsExactly(c, rows, 1);
    RowsExactly(c, rows, 2);
    assert Ancestor(c, 2, 1) == Some(1);
    assert !InnerAncestor(c, 2, 1);
  }
}
