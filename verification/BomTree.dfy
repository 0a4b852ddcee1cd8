/** In-place assembly of the bill-of-materials tree: a node per part, child lists appended by a second pass,
    the depth-0 nodes as roots, and a synthetic product node when there is more than one root. */
module BomTree {
  import opened Options
  import opened BomQuery

  // ---------------------------------------------------------------------
  // The finite trees the linked nodes are meant to spell out.
  // ---------------------------------------------------------------------

  datatype Tree = Tree(part: PartId, kids: seq<Tree>)

  /** The fetched parts in first-appearance order, each with its parent and depth columns. */
  datatype Layout = Layout(ids: seq<PartId>, parent: map<PartId, Option<PartId>>, depth: map<PartId, nat>)

  ghost predicate Distinct<T>(s: seq<T>) {
    forall i, j | 0 <= i < j < |s| :: s[i] != s[j]
  }

  predicate ParentIs(l: Layout, x: PartId, p: PartId) {
    x in l.parent && l.parent[x] == Some(p)
  }

  /** Depth 0 means the parent was not fetched; a deeper part's parent was fetched one level up. */
  ghost predicate Leveled(l: Layout) {
    && Distinct(l.ids)
    && (forall x | x in l.ids :: x in l.parent && x in l.depth && l.depth[x] <= MAX_DEPTH)
    && (forall x | x in l.ids && l.depth[x] == 0 :: l.parent[x].None? || l.parent[x].value !in l.ids)
    && (forall x | x in l.ids && l.depth[x] > 0 ::
          l.parent[x].Some? && l.parent[x].value in l.ids && l.depth[l.parent[x].value] + 1 == l.depth[x])
  }

  /** Those of s whose parent is p, in order. */
  function Kids(l: Layout, s: seq<PartId>, p: PartId): seq<PartId> {
    if s == [] then []
    else Kids(l, s[..|s| - 1], p) + if ParentIs(l, s[|s| - 1], p) then [s[|s| - 1]] else []
  }

  /** Those of s at depth 0, in order. */
  function Roots(l: Layout, s: seq<PartId>): seq<PartId> {
    if s == [] then []
    else
      var x := s[|s| - 1];
      Roots(l, s[..|s| - 1]) + if x in l.depth && l.depth[x] == 0 then [x] else []
  }

  ghost predicate LevelOf(l: Layout, ks: seq<PartId>, d: nat) {
    forall k | k in ks :: k in l.ids && k in l.depth && l.depth[k] == d
  }

  lemma KidsMembers(l: Layout, s: seq<PartId>, p: PartId, k: PartId)
    ensures k in Kids(l, s, p) <==> k in s && ParentIs(l, k, p)
  {
    if s == [] {
    } else {
      KidsMembers(l, s[..|s| - 1], p, k);
      assert s == s[..|s| - 1] + [s[|s| - 1]];
    }
  }

  lemma RootsMembers(l: Layout, s: seq<PartId>, k: PartId)
    ensures k in Roots(l, s) <==> k in s && k in l.depth && l.depth[k] == 0
  {
    if s == [] {
    } else {
      RootsMembers(l, s[..|s| - 1], k);
      assert s == s[..|s| - 1] + [s[|s| - 1]];
    }
  }

  lemma KidsAreOneLevelDown(l: Layout, p: PartId)
    requires Leveled(l) && p in l.ids
    ensures LevelOf(l, Kids(l, l.ids, p), l.depth[p] + 1)
  {
    forall k | k in Kids(l, l.ids, p) ensures k in l.ids && l.depth[k] == l.depth[p] + 1 {
      KidsMembers(l, l.ids, p, k);
    }
  }

  lemma RootsAreAtTheTop(l: Layout)
    requires Leveled(l)
    ensures LevelOf(l, Roots(l, l.ids), 0)
  {
    forall k | k in Roots(l, l.ids) ensures k in l.ids && k in l.depth && l.depth[k] == 0 {
      RootsMembers(l, l.ids, k);
    }
  }

  ghost function TreeOf(l: Layout, x: PartId): Tree
    requires Leveled(l) && x in l.ids
    decreases MAX_DEPTH + 1 - l.depth[x], 0
  {
    KidsAreOneLevelDown(l, x);
    Tree(x, TreesOf(l, Kids(l, l.ids, x), l.depth[x] + 1))
  }

  ghost function TreesOf(l: Layout, ks: seq<PartId>, d: nat): (ts: seq<Tree>)
    requires Leveled(l) && LevelOf(l, ks, d) && d <= MAX_DEPTH + 1
    ensures |ts| == |ks|
    decreases MAX_DEPTH + 1 - d, 1 + |ks|
  {
    if ks == [] then [] else
      assert ks[0] in ks && forall k | k in ks[1..] :: k in ks;
      [TreeOf(l, ks[0])] + TreesOf(l, ks[1..], d)
  }

  lemma TreeKids(l: Layout, x: PartId) returns (ks: seq<PartId>, d: nat)
    requires Leveled(l) && x in l.ids
    ensures ks == Kids(l, l.ids, x) && d == l.depth[x] + 1 <= MAX_DEPTH + 1 && LevelOf(l, ks, d)
    ensures TreeOf(l, x) == Tree(x, TreesOf(l, ks, d))
  {
    ks, d := Kids(l, l.ids, x), l.depth[x] + 1;
    KidsAreOneLevelDown(l, x);
  }

  lemma TreeAt(l: Layout, ks: seq<PartId>, d: nat, i: nat)
    requires Leveled(l) && LevelOf(l, ks, d) && d <= MAX_DEPTH + 1 && i < |ks|
    ensures ks[i] in l.ids && TreesOf(l, ks, d)[i] == TreeOf(l, ks[i])
    decreases |ks|
  {
    assert ks[0] in ks && forall k | k in ks[1..] :: k in ks;
    if i == 0 {
    } else {
      TreeAt(l, ks[1..], d, i - 1);
    }
  }

  /** A walk of the tree: the node, then its children's walks. */
  function Walk(t: Tree): seq<PartId> {
    [t.part] + WalkAll(t.kids)
  }

  function WalkAll(ts: seq<Tree>): seq<PartId> {
    if ts == [] then [] else Walk(ts[0]) + WalkAll(ts[1..])
  }

  // ---------------------------------------------------------------------
  // Conservation: how often a walk visits a part.
  // ---------------------------------------------------------------------

  function One(b: bool): nat { if b then 1 else 0 }

  /** Visits of x's parent by the walk s, or 0 when x has no fetched parent. */
  function ParentVisits(l: Layout, s: seq<PartId>, x: PartId): nat {
    if x in l.parent && l.parent[x].Some? && l.parent[x].value in l.ids then multiset(s)[l.parent[x].value] else 0
  }

  lemma KidsCount(l: Layout, s: seq<PartId>, p: PartId, x: PartId)
    ensures multiset(Kids(l, s, p))[x] == if ParentIs(l, x, p) then multiset(s)[x] else 0
  {
    if s == [] {
    } else {
      var front := s[..|s| - 1];
      assert s == front + [s[|s| - 1]];
      KidsCount(l, front, p, x);
    }
  }

  lemma RootsCount(l: Layout, s: seq<PartId>, x: PartId)
    ensures multiset(Roots(l, s))[x] == if x in l.depth && l.depth[x] == 0 then multiset(s)[x] else 0
  {
    if s == [] {
    } else {
      var front := s[..|s| - 1];
      assert s == front + [s[|s| - 1]];
      RootsCount(l, front, x);
    }
  }

  lemma DistinctCount<T>(s: seq<T>, x: T)
    requires Distinct(s)
    ensures multiset(s)[x] == One(x in s)
  {
    if s == [] {
    } else {
      var front, y := s[..|s| - 1], s[|s| - 1];
      assert s == front + [y];
      DistinctCount(front, x);
      assert y !in front;
    }
  }

  lemma KidsVisits(l: Layout, r: PartId, x: PartId)
    requires Leveled(l) && r in l.ids && x in l.ids
    ensures multiset(Kids(l, l.ids, r))[x] == ParentVisits(l, [r], x)
  {
    KidsCount(l, l.ids, r, x);
    DistinctCount(l.ids, x);
  }

  lemma ParentVisitsAdd(l: Layout, s: seq<PartId>, t: seq<PartId>, x: PartId)
    ensures ParentVisits(l, s + t, x) == ParentVisits(l, s, x) + ParentVisits(l, t, x)
  {
  }

  /** A walk from r visits x once for r itself plus as often as it visits x's parent. */
  lemma {:induction false} TreeVisits(l: Layout, r: PartId, x: PartId)
    requires Leveled(l) && r in l.ids && x in l.ids
    ensures multiset(Walk(TreeOf(l, r)))[x] == One(x == r) + ParentVisits(l, Walk(TreeOf(l, r)), x)
    decreases MAX_DEPTH + 1 - l.depth[r], 0
  {
    var ks, d := TreeKids(l, r);
    KidsVisits(l, r, x);
    ForestVisits(l, ks, d, x);
    ParentVisitsAdd(l, [r], WalkAll(TreesOf(l, ks, d)), x);
  }

  lemma {:induction false} ForestVisits(l: Layout, ks: seq<PartId>, d: nat, x: PartId)
    requires Leveled(l) && LevelOf(l, ks, d) && d <= MAX_DEPTH + 1 && x in l.ids
    ensures var s := WalkAll(TreesOf(l, ks, d));
            multiset(s)[x] == multiset(ks)[x] + ParentVisits(l, s, x)
    decreases MAX_DEPTH + 1 - d, 1 + |ks|
  {
    if ks == [] {
    } else {
      assert ks[0] in ks && forall k | k in ks[1..] :: k in ks;
      assert ks == [ks[0]] + ks[1..];
      TreeVisits(l, ks[0], x);
      ForestVisits(l, ks[1..], d, x);
      var first, rest := TreeOf(l, ks[0]), TreesOf(l, ks[1..], d);
      assert TreesOf(l, ks, d) == [first] + rest;
      assert WalkAll([first] + rest) == Walk(first) + WalkAll(rest);
      ParentVisitsAdd(l, Walk(first), WalkAll(rest), x);
    }
  }

  ghost function Forest(l: Layout): seq<Tree>
    requires Leveled(l)
  {
    RootsAreAtTheTop(l);
    TreesOf(l, Roots(l, l.ids), 0)
  }

  lemma {:induction false} VisitedOnce(l: Layout, x: PartId)
    requires Leveled(l) && x in l.ids
    ensures multiset(WalkAll(Forest(l)))[x] == 1
    decreases l.depth[x]
  {
    RootsAreAtTheTop(l);
    ForestVisits(l, Roots(l, l.ids), 0, x);
    RootsCount(l, l.ids, x);
    DistinctCount(l.ids, x);
    if l.depth[x] == 0 {
    } else {
      VisitedOnce(l, l.parent[x].value);
    }
  }

  lemma {:induction false} WalkStaysInside(l: Layout, ks: seq<PartId>, d: nat, y: PartId)
    requires Leveled(l) && LevelOf(l, ks, d) && d <= MAX_DEPTH + 1
    requires y in WalkAll(TreesOf(l, ks, d))
    ensures y in l.ids
    decreases MAX_DEPTH + 1 - d, |ks|
  {
    assert ks[0] in ks && forall k | k in ks[1..] :: k in ks;
    var first, rest := TreeOf(l, ks[0]), TreesOf(l, ks[1..], d);
    assert TreesOf(l, ks, d) == [first] + rest;
    assert WalkAll([first] + rest) == Walk(first) + WalkAll(rest);
    if y in WalkAll(rest) {
      WalkStaysInside(l, ks[1..], d, y);
    } else if y != ks[0] {
      var kids, d' := TreeKids(l, ks[0]);
      WalkStaysInside(l, kids, d', y);
    }
  }

  /** Walking the assembled forest visits every fetched part exactly once, and nothing else. */
  lemma ForestConservesParts(l: Layout)
    requires Leveled(l)
    ensures multiset(WalkAll(Forest(l))) == multiset(l.ids)
  {
    RootsAreAtTheTop(l);
    var s := WalkAll(Forest(l));
    forall x ensures multiset(s)[x] == multiset(l.ids)[x] {
      DistinctCount(l.ids, x);
      if x in l.ids {
        VisitedOnce(l, x);
      } else if x in s {
        WalkStaysInside(l, Roots(l, l.ids), 0, x);
        assert false;
      }
    }
  }

  /** Climbing from any fetched part ends at a root: a non-empty row set is never rootless. */
  lemma RootExists(l: Layout, x: PartId)
    requires Leveled(l) && x in l.ids
    ensures Roots(l, l.ids) != []
    decreases l.depth[x]
  {
    if l.depth[x] == 0 {
      RootsMembers(l, l.ids, x);
    } else {
      RootExists(l, l.parent[x].value);
    }
  }

  // ---------------------------------------------------------------------
  // The query's rows form such a layout.
  // ---------------------------------------------------------------------

  /** l records exactly the parts of rows, with their columns. */
  ghost predicate Records(l: Layout, rows: seq<Row>) {
    && Distinct(l.ids)
    && (forall x | x in l.ids :: HasRow(rows, x) && x in l.parent && x in l.depth)
    && (forall r | r in rows :: r.part in l.ids && l.parent[r.part] == r.parent && l.depth[r.part] == r.depth)
  }

  /** Part p has a row above every row of part q. */
  ghost predicate FirstBefore(rows: seq<Row>, p: PartId, q: PartId) {
    exists i: nat :: RowAbove(rows, i, p, q)
  }

  ghost predicate RowAbove(rows: seq<Row>, i: nat, p: PartId, q: PartId) {
    i < |rows| && rows[i].part == p && forall j: nat | j <= i :: rows[j].part != q
  }

  /** The parts come in the order of their first rows. */
  ghost predicate InRowOrder(rows: seq<Row>, ps: seq<PartId>) {
    forall a, b | 0 <= a < b < |ps| :: FirstBefore(rows, ps[a], ps[b])
  }

  lemma FirstBeforeGrows(rows: seq<Row>, r: Row, p: PartId, q: PartId)
    requires FirstBefore(rows, p, q)
    ensures FirstBefore(rows + [r], p, q)
  {
    var i: nat :| RowAbove(rows, i, p, q);
    assert RowAbove(rows + [r], i, p, q);
  }

  lemma NewPartComesLast(rows: seq<Row>, r: Row, p: PartId)
    requires HasRow(rows, p) && !HasRow(rows, r.part)
    ensures FirstBefore(rows + [r], p, r.part)
  {
    var s :| s in rows && s.part == p;
    var i: nat :| i < |rows| && rows[i] == s;
    forall j: nat | j <= i ensures (rows + [r])[j].part != r.part {
      assert rows[j] in rows;
    }
    assert RowAbove(rows + [r], i, p, r.part);
  }

  lemma RowOrderStep(l: Layout, rows: seq<Row>, i: nat)
    requires i < |rows| && Records(l, rows[..i]) && InRowOrder(rows[..i], l.ids)
    ensures InRowOrder(rows[..i + 1], Add(l, rows[i]).ids)
  {
    var r, ids := rows[i], Add(l, rows[i]).ids;
    assert rows[..i + 1] == rows[..i] + [r];
    forall a, b | 0 <= a < b < |ids| ensures FirstBefore(rows[..i + 1], ids[a], ids[b]) {
      if b < |l.ids| {
        FirstBeforeGrows(rows[..i], r, ids[a], ids[b]);
      } else {
        assert ids[a] == l.ids[a] && l.ids[a] in l.ids;
        NewPartComesLast(rows[..i], r, ids[a]);
      }
    }
  }

  lemma {:induction false} KidsInRowOrder(l: Layout, rows: seq<Row>, s: seq<PartId>, p: PartId)
    requires InRowOrder(rows, s)
    ensures InRowOrder(rows, Kids(l, s, p))
  {
    if s == [] {
    } else {
      var front, last := s[..|s| - 1], s[|s| - 1];
      var kids, all := Kids(l, front, p), Kids(l, s, p);
      KidsInRowOrder(l, rows, front, p);
      forall a, b | 0 <= a < b < |all| ensures FirstBefore(rows, all[a], all[b]) {
        if b == |kids| {
          KidsMembers(l, front, p, kids[a]);
          var i :| 0 <= i < |front| && front[i] == kids[a];
          assert s[i] == kids[a] && s[|s| - 1] == last;
        }
      }
    }
  }

  lemma {:induction false} RootsInRowOrder(l: Layout, rows: seq<Row>, s: seq<PartId>)
    requires InRowOrder(rows, s)
    ensures InRowOrder(rows, Roots(l, s))
  {
    if s == [] {
    } else {
      var front, last := s[..|s| - 1], s[|s| - 1];
      var roots, all := Roots(l, front), Roots(l, s);
      RootsInRowOrder(l, rows, front);
      forall a, b | 0 <= a < b < |all| ensures FirstBefore(rows, all[a], all[b]) {
        if b == |roots| {
          RootsMembers(l, front, roots[a]);
          var i :| 0 <= i < |front| && front[i] == roots[a];
          assert s[i] == roots[a] && s[|s| - 1] == last;
        }
      }
    }
  }

  lemma RowFacts(c: Catalog, rows: seq<Row>, r: Row)
    requires Fetched(c, rows) && r in rows
    ensures RowCount(c, r.part, r.depth) > 0
    ensures r.depth == 0 ==> r.parent.None? || !HasRow(rows, r.parent.value)
    ensures r.depth > 0 ==> r.parent.Some? && r.parent.value in c.parents
                            && RowOf(c, r.parent.value, r.depth - 1) in rows
  {
    assert multiset(rows)[RowOf(c, r.part, r.depth)] > 0;
    if r.depth == 0 {
      if r.parent.Some? {
        assert Inner(c, r.part);
        assert r.part in Subquery(c);
        RowsExactly(c, rows, r.parent.value);
      }
    } else {
      var q := r.parent.value;
      assert RowCount(c, r.part, r.depth) == multiset(c.items)[r.part] * RowCount(c, q, r.depth - 1);
      assert RowCount(c, q, r.depth - 1) > 0;
      assert RowOf(c, q, r.depth - 1) in multiset(rows);
    }
  }

  lemma SamePartSameRow(c: Catalog, rows: seq<Row>, r: Row, s: Row)
    requires Fetched(c, rows) && r in rows && s in rows && r.part == s.part
    ensures r == s
  {
    RowFacts(c, rows, r);
    RowFacts(c, rows, s);
    OneDepth(c, r.part, r.depth, s.depth);
  }

  lemma RowsAgree(c: Catalog, rows: seq<Row>)
    requires Fetched(c, rows)
    ensures forall i, j | 0 <= i < j < |rows| && rows[i].part == rows[j].part :: rows[i] == rows[j]
  {
    forall i, j | 0 <= i < j < |rows| && rows[i].part == rows[j].part ensures rows[i] == rows[j] {
      SamePartSameRow(c, rows, rows[i], rows[j]);
    }
  }

  lemma FetchedRowsAreLeveled(c: Catalog, rows: seq<Row>, l: Layout)
    requires Fetched(c, rows) && Records(l, rows)
    ensures Leveled(l)
  {
    forall x | x in l.ids
      ensures l.depth[x] <= MAX_DEPTH
      ensures l.depth[x] == 0 ==> l.parent[x].None? || l.parent[x].value !in l.ids
      ensures l.depth[x] > 0 ==> l.parent[x].Some? && l.parent[x].value in l.ids
                                 && l.depth[l.parent[x].value] + 1 == l.depth[x]
    {
      var r :| r in rows && r.part == x;
      RowFacts(c, rows, r);
    }
  }

  // ---------------------------------------------------------------------
  // The assembly itself, on linked nodes.
  // ---------------------------------------------------------------------

  class Node {
    const part: PartId
    const parent: Option<PartId>
    const depth: nat
    var children: seq<Node>

    constructor (part: PartId, parent: Option<PartId>, depth: nat)
      ensures this.part == part && this.parent == parent && this.depth == depth && children == []
    {
      this.part, this.parent, this.depth, this.children := part, parent, depth, [];
    }
  }

  /** The pointer structure below n unfolds to the finite tree t, so it is acyclic. That nothing is shared either is
      what EveryPartVisitedOnce adds. */
  ghost predicate Unfolds(n: Node, t: Tree, nodes: set<Node>)
    reads nodes
    decreases t
  {
    && n in nodes && n.part == t.part && |n.children| == |t.kids|
    && forall i | 0 <= i < |t.kids| :: Unfolds(n.children[i], t.kids[i], nodes)
  }

  /** The node map of l: one node per part, carrying that part's columns. */
  ghost predicate Keyed(l: Layout, m: map<PartId, Node>) {
    && m.Keys == (set x | x in l.ids) && l.parent.Keys >= m.Keys && l.depth.Keys >= m.Keys
    && forall x | x in m :: m[x].part == x && m[x].parent == l.parent[x] && m[x].depth == l.depth[x]
  }

  /** ns are the nodes of the parts ks, in the same order. */
  ghost predicate Names(m: map<PartId, Node>, ns: seq<Node>, ks: seq<PartId>) {
    |ns| == |ks| && forall i | 0 <= i < |ks| :: ks[i] in m && ns[i] == m[ks[i]]
  }

  /** After the first i nodes were visited, every node lists those of them that name it as parent. */
  ghost predicate LinkedUpTo(l: Layout, m: map<PartId, Node>, i: nat)
    requires i <= |l.ids| && Keyed(l, m)
    reads m.Values
  {
    forall x {:trigger m[x].children} | x in m :: Names(m, m[x].children, Kids(l, l.ids[..i], x))
  }

  ghost predicate Linked(l: Layout, m: map<PartId, Node>)
    reads m.Values
  {
    forall x {:trigger m[x].children} | x in m :: Names(m, m[x].children, Kids(l, l.ids, x))
  }

  lemma {:induction false} LinkedNodesUnfold(l: Layout, m: map<PartId, Node>, x: PartId)
    requires Leveled(l) && Keyed(l, m) && Linked(l, m) && x in l.ids
    ensures Unfolds(m[x], TreeOf(l, x), m.Values)
    decreases MAX_DEPTH + 1 - l.depth[x]
  {
    var ks, d := TreeKids(l, x);
    assert Names(m, m[x].children, ks);
    forall i | 0 <= i < |ks| ensures Unfolds(m[x].children[i], TreesOf(l, ks, d)[i], m.Values) {
      assert ks[i] in ks;
      TreeAt(l, ks, d, i);
      LinkedNodesUnfold(l, m, ks[i]);
    }
  }

  /** l after one more row: a new part goes to the end, a known part keeps its place. */
  function Add(l: Layout, r: Row): Layout {
    Layout(if r.part in l.ids then l.ids else l.ids + [r.part],
           l.parent[r.part := r.parent], l.depth[r.part := r.depth])
  }

  lemma RecordStep(l: Layout, rows: seq<Row>, r: Row)
    requires Records(l, rows)
    requires forall s | s in rows && s.part == r.part :: s == r
    ensures Records(Add(l, r), rows + [r])
  {
    var rs := rows + [r];
    assert forall s | s in rows :: s in rs;
    assert r in rs;
    forall x | x in l.ids ensures HasRow(rs, x) {
      var s :| s in rows && s.part == x;
      assert s in rs;
    }
  }

  lemma NextRowRecorded(l: Layout, rows: seq<Row>, i: nat)
    requires i < |rows| && Records(l, rows[..i])
    requires forall i, j | 0 <= i < j < |rows| && rows[i].part == rows[j].part :: rows[i] == rows[j]
    ensures Records(Add(l, rows[i]), rows[..i + 1])
  {
    assert rows[..i + 1] == rows[..i] + [rows[i]];
    RecordStep(l, rows[..i], rows[i]);
  }

  lemma KeyedStep(l: Layout, m: map<PartId, Node>, r: Row, node: Node)
    requires Keyed(l, m) && node.part == r.part && node.parent == r.parent && node.depth == r.depth
    ensures Keyed(Add(l, r), m[r.part := node])
  {
  }

  method IndexNodes(rows: seq<Row>) returns (order: seq<PartId>, m: map<PartId, Node>, ghost l: Layout)
    requires forall i, j | 0 <= i < j < |rows| && rows[i].part == rows[j].part :: rows[i] == rows[j]
    ensures Records(l, rows) && InRowOrder(rows, order) && order == l.ids && Keyed(l, m)
    ensures forall x | x in m :: fresh(m[x]) && m[x].children == []
  {
    order, m, l := [], map[], Layout([], map[], map[]);
    for i := 0 to |rows|
      invariant Records(l, rows[..i]) && InRowOrder(rows[..i], order) && order == l.ids && Keyed(l, m)
      invariant forall x | x in m :: fresh(m[x]) && m[x].children == []
    {
      var r := rows[i];
      var node := new Node(r.part, r.parent, r.depth);
      NextRowRecorded(l, rows, i);
      RowOrderStep(l, rows, i);
      KeyedStep(l, m, r, node);
      if r.part !in m {
        order := order + [r.part];
      }
      m := m[r.part := node];
      l := Add(l, r);
    }
    assert rows[..|rows|] == rows;
  }

  lemma NamesNext(l: Layout, m: map<PartId, Node>, i: nat, y: PartId, ns: seq<Node>)
    requires i < |l.ids| && l.ids[i] in m && Names(m, ns, Kids(l, l.ids[..i], y))
    ensures Names(m, if ParentIs(l, l.ids[i], y) then ns + [m[l.ids[i]]] else ns, Kids(l, l.ids[..i + 1], y))
  {
    assert l.ids[..i + 1][..i] == l.ids[..i];
  }

  /** Appends a node to its parent's children, when the parent was fetched; touches nothing else. */
  method LinkNode(m: map<PartId, Node>, node: Node)
    requires forall x | x in m :: m[x].part == x
    modifies m.Values
    ensures forall x | x in m :: m[x].children == old(m[x].children) + if node.parent == Some(x) then [node] else []
  {
    if node.parent.Some? && node.parent.value in m {
      var above := m[node.parent.value];
      above.children := above.children + [node];
    }
  }

  method LinkChildren(ghost l: Layout, order: seq<PartId>, m: map<PartId, Node>)
    requires Keyed(l, m) && order == l.ids && LinkedUpTo(l, m, 0)
    modifies m.Values
    ensures Linked(l, m)
  {
    for i := 0 to |order|
      invariant LinkedUpTo(l, m, i)
    {
      assert order[i] in l.ids;
      ghost var before := map x | x in m :: m[x].children;
      LinkNode(m, m[order[i]]);
      forall y | y in m ensures Names(m, m[y].children, Kids(l, l.ids[..i + 1], y)) {
        assert m[y].children == if ParentIs(l, order[i], y) then before[y] + [m[order[i]]] else before[y];
        NamesNext(l, m, i, y, before[y]);
      }
    }
    assert l.ids[..|l.ids|] == l.ids;
  }

  lemma RootsNext(l: Layout, i: nat)
    requires i < |l.ids| && l.ids[i] in l.depth
    ensures Roots(l, l.ids[..i + 1]) == Roots(l, l.ids[..i]) + if l.depth[l.ids[i]] == 0 then [l.ids[i]] else []
  {
    assert l.ids[..i + 1][..i] == l.ids[..i];
  }

  method CollectRoots(ghost l: Layout, order: seq<PartId>, m: map<PartId, Node>) returns (roots: seq<Node>)
    requires Keyed(l, m) && order == l.ids
    ensures Names(m, roots, Roots(l, l.ids))
  {
    roots := [];
    for i := 0 to |order|
      invariant Names(m, roots, Roots(l, l.ids[..i]))
    {
      assert order[i] in l.ids;
      RootsNext(l, i);
      if m[order[i]].depth == 0 {
        roots := roots + [m[order[i]]];
      }
    }
    assert l.ids[..|l.ids|] == l.ids;
  }

  /** What the assembled structure satisfies: the linked nodes unfold to the forest of l, and the returned
      root is the only depth-0 node or a product node above all of them. */
  ghost predicate Assembled(l: Layout, m: map<PartId, Node>, root: Node)
    reads m.Values, root
  {
    && Leveled(l) && Keyed(l, m)
    && (forall x | x in l.ids :: Unfolds(m[x], TreeOf(l, x), m.Values))
    && (var roots := Roots(l, l.ids);
        if |roots| == 1 then roots[0] in m && root == m[roots[0]]
        else root !in m.Values && Names(m, root.children, roots))
  }

  /** Siblings stand in the order in which the rows first name them. */
  ghost predicate SiblingsInRowOrder(rows: seq<Row>, ns: seq<Node>) {
    forall a, b | 0 <= a < b < |ns| :: FirstBefore(rows, ns[a].part, ns[b].part)
  }

  /** That holds below every node of a part and below the returned root. */
  ghost predicate TreeInRowOrder(rows: seq<Row>, m: map<PartId, Node>, root: Node)
    reads m.Values, root
  {
    (forall x | x in m :: SiblingsInRowOrder(rows, m[x].children)) && SiblingsInRowOrder(rows, root.children)
  }

  lemma NamedInRowOrder(l: Layout, m: map<PartId, Node>, rows: seq<Row>, ns: seq<Node>, ks: seq<PartId>)
    requires Keyed(l, m) && Names(m, ns, ks) && InRowOrder(rows, ks)
    ensures SiblingsInRowOrder(rows, ns)
  {
    forall a, b | 0 <= a < b < |ns| ensures FirstBefore(rows, ns[a].part, ns[b].part) {
      assert ks[a] in m && ns[a] == m[ks[a]] && ns[b] == m[ks[b]];
      assert FirstBefore(rows, ks[a], ks[b]);
    }
  }

  lemma LinkedInRowOrder(l: Layout, m: map<PartId, Node>, rows: seq<Row>, roots: seq<Node>)
    requires Keyed(l, m) && Linked(l, m) && Names(m, roots, Roots(l, l.ids)) && InRowOrder(rows, l.ids)
    ensures forall x | x in m :: SiblingsInRowOrder(rows, m[x].children)
    ensures SiblingsInRowOrder(rows, roots)
  {
    forall x | x in m ensures SiblingsInRowOrder(rows, m[x].children) {
      KidsInRowOrder(l, rows, l.ids, x);
      NamedInRowOrder(l, m, rows, m[x].children, Kids(l, l.ids, x));
    }
    RootsInRowOrder(l, rows, l.ids);
    NamedInRowOrder(l, m, rows, roots, Roots(l, l.ids));
  }

  /** Above several roots stands the product itself: no part of the rows, without a parent, at depth 0. */
  ghost predicate ProductOnTop(l: Layout, root: Node, product: PartId) {
    |Roots(l, l.ids)| != 1 ==> root.part == product && root.parent.None? && root.depth == 0
  }

  /** One root stands for itself; several are put under a product node. */
  method ChooseRoot(ghost l: Layout, ghost m: map<PartId, Node>, roots: seq<Node>, product: PartId) returns (root: Node)
    requires Leveled(l) && Keyed(l, m) && Linked(l, m)
    requires Names(m, roots, Roots(l, l.ids)) && roots != []
    ensures Assembled(l, m, root) && ProductOnTop(l, root, product)
    ensures if |roots| == 1 then root == roots[0] else fresh(root) && root.children == roots
  {
    if |roots| == 1 {
      root := roots[0];
    } else {
      root := new Node(product, None, 0);
      root.children := roots;
    }
    forall x | x in l.ids ensures Unfolds(m[x], TreeOf(l, x), m.Values) {
      LinkedNodesUnfold(l, m, x);
    }
  }

  lemma RootsOfRows(l: Layout, rows: seq<Row>)
    requires Leveled(l) && Records(l, rows)
    ensures Roots(l, l.ids) == [] <==> rows == []
  {
    if rows != [] {
      assert rows[0] in rows;
      RootExists(l, rows[0].part);
    }
    var roots := Roots(l, l.ids);
    if roots != [] {
      assert roots[0] in roots;
      RootsMembers(l, l.ids, roots[0]);
      assert HasRow(rows, roots[0]);
    }
  }

  /** rows may come in any order, so ORDER BY plays no part in what is proved. */
  method BuildTree(c: Catalog, rows: seq<Row>, product: PartId)
      returns (root: Node?, ghost l: Layout, ghost m: map<PartId, Node>)
    requires Fetched(c, rows)
    ensures Records(l, rows)
    ensures root == null <==> rows == []
    ensures root != null ==> Assembled(l, m, root) && ProductOnTop(l, root, product) && TreeInRowOrder(rows, m, root)
  {
    RowsAgree(c, rows);
    var order, nodes;
    order, nodes, l := IndexNodes(rows);
    m := nodes;
    FetchedRowsAreLeveled(c, rows, l);
    assert l.ids[..0] == [];
    LinkChildren(l, order, nodes);
    var roots := CollectRoots(l, order, nodes);
    RootsOfRows(l, rows);
    if roots == [] {
      root := null;
    } else {
      LinkedInRowOrder(l, m, rows, roots);
      root := ChooseRoot(l, m, roots, product);
    }
  }

  /** The tree query end to end, for every parts table and every list of item rows. */
  method GetBomTree(c: Catalog, product: PartId)
      returns (root: Node?, ghost rows: seq<Row>, ghost l: Layout, ghost m: map<PartId, Node>)
    ensures Fetched(c, rows) && Records(l, rows)
    ensures root == null <==> rows == []
    ensures root != null ==> Assembled(l, m, root) && ProductOnTop(l, root, product) && TreeInRowOrder(rows, m, root)
  {
    var fetched := FetchRows(c);
    rows := fetched;
    root, l, m := BuildTree(c, fetched, product);
  }

  /** On the assembled nodes: every child sits under its own parent, one level down, and no root is a child. */
  lemma ChildrenSitUnderTheirParent(l: Layout, m: map<PartId, Node>, root: Node, x: PartId, i: nat)
    requires Assembled(l, m, root) && x in l.ids && i < |m[x].children|
    ensures m[x].children[i].parent == Some(x) && m[x].children[i].depth == m[x].depth + 1
    ensures m[x].children[i].part in l.ids
  {
    var ks, d := TreeKids(l, x);
    assert Unfolds(m[x].children[i], TreesOf(l, ks, d)[i], m.Values);
    assert ks[i] in ks;
    KidsMembers(l, l.ids, x, ks[i]);
    TreeAt(l, ks, d, i);
  }

  /** Conservation on the linked nodes. Walking the returned root, or the product node's children in turn,
      visits every fetched part exactly once and no other part. */
  lemma EveryPartVisitedOnce(l: Layout, rows: seq<Row>, m: map<PartId, Node>, root: Node)
    requires Records(l, rows) && Assembled(l, m, root)
    ensures forall p :: multiset(WalkAll(Forest(l)))[p] == One(HasRow(rows, p))
    ensures |Forest(l)| == 1 ==> Unfolds(root, Forest(l)[0], m.Values) && Walk(Forest(l)[0]) == WalkAll(Forest(l))
    ensures |Forest(l)| != 1 ==> |root.children| == |Forest(l)|
                                 && forall i | 0 <= i < |Forest(l)| :: Unfolds(root.children[i], Forest(l)[i], m.Values)
  {
    forall p ensures multiset(WalkAll(Forest(l)))[p] == One(HasRow(rows, p)) {
      ForestConservesParts(l);
      DistinctCount(l.ids, p);
    }
    RootsUnfold(l, m, root);
    if |Forest(l)| == 1 {
      assert WalkAll(Forest(l)) == Walk(Forest(l)[0]) + WalkAll(Forest(l)[1..]);
    }
  }

  lemma RootsUnfold(l: Layout, m: map<PartId, Node>, root: Node)
    requires Assembled(l, m, root)
    ensures var roots := Roots(l, l.ids);
            forall i | 0 <= i < |roots| :: roots[i] in m && Unfolds(m[roots[i]], Forest(l)[i], m.Values)
  {
    var roots := Roots(l, l.ids);
    RootsAreAtTheTop(l);
    forall i | 0 <= i < |roots| ensures roots[i] in m && Unfolds(m[roots[i]], Forest(l)[i], m.Values) {
      assert roots[i] in roots;
      TreeAt(l, roots, 0, i);
    }
  }
}
