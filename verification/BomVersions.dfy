/** BOM versions: draft, active, deprecated, with one active version per product. */
module BomVersions {
  import opened Options

  type VersionId = nat
  type ProductId = nat

  datatype Status = Draft | Active | Deprecated

  function Allowed(s: Status): set<Status> {
    match s
    case Draft => {Active, Deprecated}
    case Active => {Deprecated}
    case Deprecated => {}
  }

  datatype Version = Version(product: Option<ProductId>, status: Status)

  type Table = map<VersionId, Version>

  datatype Answer = Done | NotFound | Refused

  /** Versions an activation of v takes out of service. */
  predicate Rival(t: Table, v: VersionId, x: VersionId) {
    v in t && x in t && x != v && t[x].product == t[v].product && t[x].status == Active
  }

  function Activated(t: Table, v: VersionId): Table
    requires v in t
  {
    map x | x in t ::
      if x == v then t[x].(status := Active) else if Rival(t, v, x) then t[x].(status := Deprecated) else t[x]
  }

  function Retired(t: Table, v: VersionId): Table
    requires v in t
  {
    t[v := t[v].(status := Deprecated)]
  }

  function ActiveOf(t: Table, product: ProductId): set<VersionId> {
    set x | x in t && t[x].product == Some(product) && t[x].status == Active
  }

  ghost predicate OneActive(t: Table) {
    forall x, y | x in t && y in t && t[x].product == t[y].product && t[x].status == t[y].status == Active :: x == y
  }

  datatype Op = Activate(v: VersionId) | Deprecate(v: VersionId)

  function Target(op: Op): Status { if op.Activate? then Active else Deprecated }

  function AnswerTo(t: Table, op: Op): Answer {
    if op.v !in t then NotFound else if Target(op) !in Allowed(t[op.v].status) then Refused else Done
  }

  function Apply(t: Table, op: Op): Table {
    if AnswerTo(t, op) != Done then t else if op.Activate? then Activated(t, op.v) else Retired(t, op.v)
  }

  /** Who is refused: an activation needs a draft, a deprecation anything that is not deprecated yet. */
  lemma AnswersExactly(t: Table, op: Op)
    ensures AnswerTo(t, op) == NotFound <==> op.v !in t
    ensures AnswerTo(t, op) == Done <==>
              op.v in t && if op.Activate? then t[op.v].status == Draft else t[op.v].status != Deprecated
  {
  }

  /** What a success changes: the version itself, and on an activation the product's active versions; never a product,
      and nothing else. */
  lemma SuccessChangesExactly(t: Table, op: Op, x: VersionId)
    requires AnswerTo(t, op) == Done && x in t
    ensures Apply(t, op).Keys == t.Keys && Apply(t, op)[x].product == t[x].product
    ensures x == op.v ==> Apply(t, op)[x].status == if op.Activate? then Active else Deprecated
    ensures x != op.v ==>
              var retired := op.Activate? && t[x].product == t[op.v].product && t[x].status == Active;
              Apply(t, op)[x].status == if retired then Deprecated else t[x].status
  {
  }

  class Registry {
    var table: Table

    /** The rivals are retired before the version goes active. */
    method ActivateBomVersion(v: VersionId) returns (answer: Answer)
      modifies this
      ensures answer == AnswerTo(old(table), Activate(v))
      ensures table == Apply(old(table), Activate(v))
      ensures answer == Done ==> v in table && forall x | x in table && table[x].product == table[v].product ::
                                   table[x].status == Active <==> x == v
    {
      if v !in table {
        return NotFound;
      }
      if Active !in Allowed(table[v].status) {
        return Refused;
      }
      var product := table[v].product;
      table := map x | x in table ::
        if table[x].product == product && table[x].status == Active && x != v
        then table[x].(status := Deprecated) else table[x];
      table := table[v := table[v].(status := Active)];
      answer := Done;
    }

    method DeprecateBomVersion(v: VersionId) returns (answer: Answer)
      modifies this
      ensures answer == AnswerTo(old(table), Deprecate(v))
      ensures table == Apply(old(table), Deprecate(v))
    {
      if v !in table {
        return NotFound;
      }
      if Deprecated !in Allowed(table[v].status) {
        return Refused;
      }
      table := table[v := table[v].(status := Deprecated)];
      answer := Done;
    }

    /** The product's active version, or none when there is none or more than one. */
    method GetActiveBomVersionId(product: ProductId) returns (result: Option<VersionId>)
      ensures result.Some? ==> ActiveOf(table, product) == {result.value}
      ensures result.None? ==> |ActiveOf(table, product)| != 1
    {
      var rows := ActiveOf(table, product);
      if |rows| == 1 {
        var v :| v in rows;
        Singleton(rows, v);
        return Some(v);
      }
      result := None;
    }
  }

  lemma Singleton(s: set<VersionId>, v: VersionId)
    requires v in s && |s| == 1
    ensures s == {v}
  {
    assert |s - {v}| == 0;
  }

  // ---------------------------------------------------------------------
  // Serial runs.
  // ---------------------------------------------------------------------

  function Run(t: Table, ops: seq<Op>): Table {
    if ops == [] then t else Apply(Run(t, ops[..|ops| - 1]), ops[|ops| - 1])
  }

  function Successes(t: Table, ops: seq<Op>): nat {
    if ops == [] then 0
    else
      var front := ops[..|ops| - 1];
      Successes(t, front) + if AnswerTo(Run(t, front), ops[|ops| - 1]) == Done then 1 else 0
  }

  /** How often v was switched to active. */
  function Activations(t: Table, ops: seq<Op>, v: VersionId): nat {
    if ops == [] then 0
    else
      var front, op := ops[..|ops| - 1], ops[|ops| - 1];
      Activations(t, front, v) + if op == Activate(v) && AnswerTo(Run(t, front), op) == Done then 1 else 0
  }

  lemma ApplyKeepsOneActive(t: Table, op: Op)
    requires OneActive(t)
    ensures OneActive(Apply(t, op)) && Apply(t, op).Keys == t.Keys
    ensures forall x | x in t :: Apply(t, op)[x].product == t[x].product
  {
  }

  lemma {:induction false} RunKeepsOneActive(t: Table, ops: seq<Op>)
    requires OneActive(t)
    ensures OneActive(Run(t, ops)) && Run(t, ops).Keys == t.Keys
    ensures forall x | x in t :: Run(t, ops)[x].product == t[x].product
  {
    if ops == [] {
    } else {
      RunKeepsOneActive(t, ops[..|ops| - 1]);
      ApplyKeepsOneActive(Run(t, ops[..|ops| - 1]), ops[|ops| - 1]);
    }
  }

  /** From such a state the lookup fails only when the product has no active version at all. */
  lemma LookupFailsOnlyWithoutOne(t: Table, product: ProductId)
    requires OneActive(t) && ActiveOf(t, product) != {}
    ensures |ActiveOf(t, product)| == 1
  {
    var v :| v in ActiveOf(t, product);
    assert ActiveOf(t, product) == {v};
  }

  lemma {:induction false} DeprecatedIsFinal(t: Table, ops: seq<Op>, v: VersionId)
    requires v in t && t[v].status == Deprecated
    ensures v in Run(t, ops) && Run(t, ops)[v] == t[v]
  {
    if ops == [] {
    } else {
      DeprecatedIsFinal(t, ops[..|ops| - 1], v);
    }
  }

  /** No version becomes active twice, and only a draft ever does. */
  lemma {:induction false} ActiveAtMostOnce(t: Table, ops: seq<Op>, v: VersionId)
    ensures v in t ==> v in Run(t, ops)
    ensures Activations(t, ops, v) <= if v in t && t[v].status == Draft then 1 else 0
    ensures v in t && t[v].status == Draft && Run(t, ops)[v].status == Active ==> Activations(t, ops, v) == 1
    ensures v in t && Run(t, ops)[v].status == Draft ==> t[v].status == Draft && Activations(t, ops, v) == 0
    ensures v !in t ==> v !in Run(t, ops)
  {
    if ops == [] {
    } else {
      ActiveAtMostOnce(t, ops[..|ops| - 1], v);
    }
  }

  /** A draft can live its whole life, whatever else is in the table: active, then out of service. */
  lemma WholeLife(t: Table, v: VersionId)
    requires v in t && t[v].status == Draft
    ensures var ops := [Activate(v), Deprecate(v)];
            Successes(t, ops) == 2 && v in Run(t, ops) && Run(t, ops)[v] == t[v].(status := Deprecated)
  {
    var one, two := [Activate(v)], [Activate(v), Deprecate(v)];
    assert two[..1] == one && one[..0] == [];
    assert Run(t, one) == Activated(t, v);
    assert Successes(t, one) == 1;
  }

  // ---------------------------------------------------------------------
  // Every success moves some version forward for good.
  // ---------------------------------------------------------------------

  function Started(t: Table): set<VersionId> { set x | x in t && t[x].status != Draft }

  function Finished(t: Table): set<VersionId> { set x | x in t && t[x].status == Deprecated }

  /** The sum of the ranks draft 0, active 1, deprecated 2. */
  function RankSum(t: Table): nat { |Started(t)| + |Finished(t)| }

  lemma SubsetSize<T>(a: set<T>, b: set<T>)
    requires a <= b
    ensures |a| <= |b|
    ensures a != b ==> |a| < |b|
  {
    assert b == a + (b - a);
    if a != b {
      var x :| x in b - a;
    }
  }

  lemma SuccessRaisesRank(t: Table, op: Op)
    requires AnswerTo(t, op) == Done
    ensures RankSum(Apply(t, op)) > RankSum(t)
  {
    var t' := Apply(t, op);
    SubsetSize(Started(t), Started(t'));
    SubsetSize(Finished(t), Finished(t'));
    if op.Activate? || t[op.v].status == Draft {
      assert op.v in Started(t') && op.v !in Started(t);
    } else {
      assert op.v in Finished(t') && op.v !in Finished(t);
    }
  }

  /** So on n versions at most 2n calls ever succeed. */
  lemma {:induction false} SuccessesAreBounded(t: Table, ops: seq<Op>)
    ensures Successes(t, ops) + RankSum(t) <= RankSum(Run(t, ops)) <= 2 * |t|
  {
    if ops == [] {
      SubsetSize(Started(t), t.Keys);
      SubsetSize(Finished(t), t.Keys);
    } else {
      var front, op := ops[..|ops| - 1], ops[|ops| - 1];
      SuccessesAreBounded(t, front);
      if AnswerTo(Run(t, front), op) == Done {
        SuccessRaisesRank(Run(t, front), op);
      }
      RunKeepsKeys(t, ops);
      SubsetSize(Started(Run(t, ops)), Run(t, ops).Keys);
      SubsetSize(Finished(Run(t, ops)), Run(t, ops).Keys);
    }
  }

  lemma {:induction false} RunKeepsKeys(t: Table, ops: seq<Op>)
    ensures Run(t, ops).Keys == t.Keys && |Run(t, ops)| == |t|
  {
    if ops == [] {
    } else {
      RunKeepsKeys(t, ops[..|ops| - 1]);
    }
    assert |Run(t, ops)| == |Run(t, ops).Keys| && |t| == |t.Keys|;
  }

  // ---------------------------------------------------------------------
  // Overlapping transactions: nothing locks the product.
  // ---------------------------------------------------------------------

  type Client = nat

  /** A checked transaction knows its version's transition was allowed. A demoting one has run its bulk update on the
      table committed at that moment. */
  datatype Txn = Checked(op: Op) | Demoting(v: VersionId, read: Table)

  datatype State = State(table: Table, open: map<Client, Txn>)

  datatype Step = Check(x: Client, op: Op) | Demote(x: Client) | Commit(x: Client) | Abort(x: Client)

  /** What a commit of v's activation writes, computed from the table its bulk update read. */
  function Writes(read: Table, v: VersionId): map<VersionId, Status> {
    (map x | x in read && Rival(read, v, x) :: Deprecated)[v := Active]
  }

  function Written(t: Table, writes: map<VersionId, Status>): Table {
    map x | x in t :: if x in writes then t[x].(status := writes[x]) else t[x]
  }

  ghost predicate Next(s: State, a: Step, s': State) {
    match a
    case Check(x, op) =>
      x !in s.open && AnswerTo(s.table, op) == Done && s' == s.(open := s.open[x := Checked(op)])
    case Demote(x) =>
      && x in s.open && s.open[x].Checked? && s.open[x].op.Activate?
      && s' == s.(open := s.open[x := Demoting(s.open[x].op.v, s.table)])
    case Commit(x) =>
      && x in s.open && (s.open[x].Demoting? || s.open[x].op.Deprecate?)
      && s'.open == s.open - {x}
      && s'.table == (match s.open[x]
                      case Demoting(v, read) => Written(s.table, Writes(read, v))
                      case Checked(op) => Written(s.table, map[op.v := Deprecated]))
    case Abort(x) => x in s.open && s' == s.(open := s.open - {x})
  }

  ghost predicate Overlapping(ss: seq<State>, acts: seq<Step>) {
    && |ss| == |acts| + 1 && ss[0].open == map[]
    && forall i | 0 <= i < |acts| :: Next(ss[i], acts[i], ss[i + 1])
  }

  /** A transaction may be given up at any point before its commit, without a trace. */
  lemma TransactionsMayAbort(s: State, x: Client)
    requires x in s.open
    ensures Next(s, Abort(x), State(s.table, s.open - {x}))
  {
  }

  predicate SameVersions(t: Table, u: Table) {
    t.Keys == u.Keys && forall x | x in t :: t[x].product == u[x].product
  }

  ghost predicate Inv(s: State) {
    && (forall x | x in s.open && s.open[x].Checked? :: s.open[x].op.v in s.table)
    && (forall x | x in s.open && s.open[x].Demoting? ::
          s.open[x].v in s.table && SameVersions(s.open[x].read, s.table))
  }

  lemma StepKeepsInv(s: State, a: Step, s': State)
    requires Inv(s) && Next(s, a, s')
    ensures Inv(s') && SameVersions(s'.table, s.table)
  {
  }

  lemma {:induction false} OverlappingKeepsInv(ss: seq<State>, acts: seq<Step>, n: nat)
    requires Overlapping(ss, acts) && n <= |acts|
    ensures Inv(ss[n])
  {
    if n == 0 {
      assert Inv(ss[0]);
    } else {
      OverlappingKeepsInv(ss, acts, n - 1);
      StepKeepsInv(ss[n - 1], acts[n - 1], ss[n]);
    }
  }

  /** A commit of an activation is stale when a version it would have had to retire went active after its bulk
      update. */
  ghost predicate Stale(s: State, a: Step) {
    && a.Commit? && a.x in s.open && s.open[a.x].Demoting?
    && exists y :: Rival(s.table, s.open[a.x].v, y) && !Rival(s.open[a.x].read, s.open[a.x].v, y)
  }

  lemma CommitKeepsOneActiveIff(t: Table, read: Table, v: VersionId)
    requires OneActive(t) && v in t && SameVersions(read, t)
    ensures OneActive(Written(t, Writes(read, v))) <==> forall y | Rival(t, v, y) :: Rival(read, v, y)
  {
    var t' := Written(t, Writes(read, v));
    if y: VersionId :| Rival(t, v, y) && !Rival(read, v, y) {
      assert t'[y].status == Active && t'[v].status == Active && t'[y].product == t'[v].product;
    }
  }

  /** At each step, the rule survives exactly when the step is not a stale commit. */
  lemma StepKeepsOneActiveIff(s: State, a: Step, s': State)
    requires Inv(s) && OneActive(s.table) && Next(s, a, s')
    ensures OneActive(s'.table) <==> !Stale(s, a)
  {
    if a.Commit? && s.open[a.x].Demoting? {
      CommitKeepsOneActiveIff(s.table, s.open[a.x].read, s.open[a.x].v);
    }
  }

  /** Over every interleaving of any number of transactions: the rule holds throughout exactly when no commit was
      stale. */
  lemma {:induction false} OneActiveThroughoutIff(ss: seq<State>, acts: seq<Step>, n: nat)
    requires Overlapping(ss, acts) && OneActive(ss[0].table) && n <= |acts|
    ensures (forall i | 0 <= i <= n :: OneActive(ss[i].table)) <==> (forall i | 0 <= i < n :: !Stale(ss[i], acts[i]))
  {
    if n == 0 {
      assert OneActive(ss[0].table);
    } else {
      OneActiveThroughoutIff(ss, acts, n - 1);
      OverlappingKeepsInv(ss, acts, n - 1);
      if OneActive(ss[n - 1].table) {
        assert Next(ss[n - 1], acts[n - 1], ss[n]);
        StepKeepsOneActiveIff(ss[n - 1], acts[n - 1], ss[n]);
      }
    }
  }

  /** The step commits an activation of y. */
  predicate ActivatesAt(s: State, a: Step, y: VersionId) {
    a.Commit? && a.x in s.open && s.open[a.x].Demoting? && s.open[a.x].v == y
  }

  lemma StepRevivesIff(s: State, a: Step, s': State, y: VersionId)
    requires Inv(s) && Next(s, a, s') && y in s.table && s.table[y].status == Deprecated
    ensures y in s'.table && (s'.table[y].status != Deprecated <==> ActivatesAt(s, a, y))
  {
  }

  /** Deprecated is not final when transactions overlap: over every interleaving, a deprecated version stays so from
      step i to step n exactly when no step in between commits an activation of it. */
  lemma {:induction false} DeprecatedThroughoutIff(ss: seq<State>, acts: seq<Step>, y: VersionId, i: nat, n: nat)
    requires Overlapping(ss, acts) && i <= n <= |acts| && y in ss[i].table && ss[i].table[y].status == Deprecated
    ensures y in ss[n].table
    ensures (forall k | i <= k <= n :: y in ss[k].table && ss[k].table[y].status == Deprecated)
            <==> (forall k | i <= k < n :: !ActivatesAt(ss[k], acts[k], y))
  {
    if i == n {
      assert ss[i].table[y].status == Deprecated;
    } else {
      DeprecatedThroughoutIff(ss, acts, y, i, n - 1);
      OverlappingKeepsInv(ss, acts, n - 1);
      assert Next(ss[n - 1], acts[n - 1], ss[n]);
      StepKeepsInv(ss[n - 1], acts[n - 1], ss[n]);
      if ss[n - 1].table[y].status == Deprecated {
        StepRevivesIff(ss[n - 1], acts[n - 1], ss[n], y);
      }
    }
  }

  /** Which version client x is to activate, in an open transaction. */
  predicate IsActivating(s: State, x: Client, v: VersionId) {
    x in s.open && (s.open[x] == Checked(Activate(v)) || (s.open[x].Demoting? && s.open[x].v == v))
  }

  /** Every such transaction began with a check that found the version a draft. */
  lemma {:induction false} ActivationWasChecked(ss: seq<State>, acts: seq<Step>, n: nat, x: Client, v: VersionId)
      returns (j: nat)
    requires Overlapping(ss, acts) && n <= |acts| && IsActivating(ss[n], x, v)
    ensures j < n && acts[j] == Check(x, Activate(v)) && v in ss[j].table && ss[j].table[v].status == Draft
    ensures forall k | j < k <= n :: IsActivating(ss[k], x, v)
  {
    assert n > 0;
    assert Next(ss[n - 1], acts[n - 1], ss[n]);
    if IsActivating(ss[n - 1], x, v) {
      j := ActivationWasChecked(ss, acts, n - 1, x, v);
    } else {
      j := n - 1;
    }
  }

  /** So a commit that brings a version back belongs to a transaction that had checked it as a draft: it was
      deprecated after that check. */
  lemma RevivedAfterItsCheck(ss: seq<State>, acts: seq<Step>, n: nat, y: VersionId) returns (j: nat)
    requires Overlapping(ss, acts) && n < |acts| && y in ss[n].table && ss[n].table[y].status == Deprecated
    requires y in ss[n + 1].table && ss[n + 1].table[y].status != Deprecated
    ensures j < n && acts[j] == Check(acts[n].x, Activate(y)) && y in ss[j].table && ss[j].table[y].status == Draft
  {
    OverlappingKeepsInv(ss, acts, n);
    assert Next(ss[n], acts[n], ss[n + 1]);
    StepRevivesIff(ss[n], acts[n], ss[n + 1], y);
    j := ActivationWasChecked(ss, acts, n, acts[n].x, y);
  }

  /** It happens to any draft: checked for activation, deprecated by another transaction, activated all the same. */
  lemma DeprecatedComesBack(t: Table, v: VersionId) returns (ss: seq<State>, acts: seq<Step>)
    requires v in t && t[v].status == Draft
    ensures acts == [Check(0, Activate(v)), Check(1, Deprecate(v)), Commit(1), Demote(0), Commit(0)]
    ensures Overlapping(ss, acts) && ss[0].table == t
    ensures v in ss[3].table && ss[3].table[v].status == Deprecated
    ensures v in ss[5].table && ss[5].table[v].status == Active
  {
    acts := [Check(0, Activate(v)), Check(1, Deprecate(v)), Commit(1), Demote(0), Commit(0)];
    var s0 := State(t, map[]);
    var s1 := s0.(open := s0.open[0 := Checked(Activate(v))]);
    var s2 := s1.(open := s1.open[1 := Checked(Deprecate(v))]);
    var s3 := State(Written(t, map[v := Deprecated]), s2.open - {1});
    var s4 := s3.(open := s3.open[0 := Demoting(v, s3.table)]);
    var s5 := State(Written(s4.table, Writes(s3.table, v)), s4.open - {0});
    ss := [s0, s1, s2, s3, s4, s5];
    assert Next(s0, acts[0], s1) && Next(s1, acts[1], s2) && Next(s2, acts[2], s3);
    assert Next(s3, acts[3], s4) && Next(s4, acts[4], s5);
  }

  /** Run without interruption, a transaction is the serial operation, and its commit is not stale. */
  lemma UninterruptedIsSerial(s: State, x: Client, op: Op, s1: State, s2: State, s3: State)
    requires Next(s, Check(x, op), s1)
    requires if op.Activate? then Next(s1, Demote(x), s2) else s2 == s1
    requires Next(s2, Commit(x), s3)
    ensures s3 == s.(table := Apply(s.table, op)) && !Stale(s2, Commit(x))
  {
    assert s3.open == s.open;
    if op.Activate? {
      assert s2.open[x] == Demoting(op.v, s.table);
      assert s3.table == Activated(s.table, op.v);
    } else {
      assert s2.open[x] == Checked(op);
      assert s3.table == Retired(s.table, op.v);
    }
  }

  lemma TwoUpdatesThenTwoCommits(t: Table, v: VersionId, w: VersionId) returns (ss: seq<State>, acts: seq<Step>)
    requires v in t && w in t && t[v].status == t[w].status == Draft
    ensures Overlapping(ss, acts) && |acts| == 6 && ss[0].table == t
    ensures ss[6].table == Written(Written(t, Writes(t, v)), Writes(t, w))
  {
    var s0 := State(t, map[]);
    var s1 := s0.(open := s0.open[0 := Checked(Activate(v))]);
    var s2 := s1.(open := s1.open[1 := Checked(Activate(w))]);
    var s3 := s2.(open := s2.open[0 := Demoting(v, t)]);
    var s4 := s3.(open := s3.open[1 := Demoting(w, t)]);
    var s5 := State(Written(t, Writes(t, v)), s4.open - {0});
    var s6 := State(Written(s5.table, Writes(t, w)), s5.open - {1});
    acts := [Check(0, Activate(v)), Check(1, Activate(w)), Demote(0), Demote(1), Commit(0), Commit(1)];
    ss := [s0, s1, s2, s3, s4, s5, s6];
    assert Next(s0, acts[0], s1) && Next(s1, acts[1], s2) && Next(s2, acts[2], s3);
    assert Next(s3, acts[3], s4) && Next(s4, acts[4], s5) && Next(s5, acts[5], s6);
  }

  /** It happens for any two drafts of one product: both end up active, and the lookup then answers none. */
  lemma OverlapLeavesTwoActive(t: Table, v: VersionId, w: VersionId, product: ProductId)
      returns (ss: seq<State>, acts: seq<Step>)
    requires OneActive(t) && v in t && w in t && v != w && t[v] == t[w] == Version(Some(product), Draft)
    ensures Overlapping(ss, acts) && ss[0].table == t && ActiveOf(ss[|acts|].table, product) == {v, w}
  {
    ss, acts := TwoUpdatesThenTwoCommits(t, v, w);
    BothActive(t, v, w, product);
  }

  lemma BothActive(t: Table, v: VersionId, w: VersionId, product: ProductId)
    requires v in t && w in t && v != w && t[v] == t[w] == Version(Some(product), Draft)
    ensures ActiveOf(Written(Written(t, Writes(t, v)), Writes(t, w)), product) == {v, w}
  {
    var both := Written(Written(t, Writes(t, v)), Writes(t, w));
    forall x ensures x in ActiveOf(both, product) <==> x == v || x == w {
      assert x in ActiveOf(t, product) ==> Rival(t, v, x);
    }
  }
}
