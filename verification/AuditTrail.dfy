/** The hash-linked audit trail of one batch: writers that read the tail and then insert, with no lock between
    the two, and the checker that walks the stored rows in step order. Hashes are opaque. */
module AuditTrail {
  import opened Options
  import opened Selections

  type Hash = string
  type Writer = nat

  // ---------------------------------------------------------------------
  // The checker.
  // ---------------------------------------------------------------------

  /** A stored row, as far as the checker reads it. Every column is nullable in the schema. */
  datatype Row = Row(step: Option<int>, output: Option<Hash>, prev: Option<Hash>)

  datatype BreakReason = FirstPrevNotNull | PrevMismatch
  datatype ChainBreak = ChainBreak(step: Option<int>, expected: Option<Hash>, actual: Option<Hash>, reason: BreakReason)

  datatype WarningReason = Duplicate | Gap
  datatype ChainWarning = ChainWarning(step: int, reason: WarningReason)

  datatype Verification =
    Verification(total: nat, chainValid: bool, breaks: seq<ChainBreak>, warnings: seq<ChainWarning>)

  function ExpectedPrev(rows: seq<Row>, i: nat): Option<Hash>
    requires i < |rows|
  {
    if i == 0 then None else rows[i - 1].output
  }

  predicate LinkFails(rows: seq<Row>, i: nat) {
    i < |rows| && rows[i].prev != ExpectedPrev(rows, i)
  }

  /** The first n positions at which the link fails, in order. */
  function BrokenLinks(rows: seq<Row>, n: nat): seq<nat>
    requires n <= |rows|
  {
    if n == 0 then []
    else if LinkFails(rows, n - 1) then BrokenLinks(rows, n - 1) + [n - 1]
    else BrokenLinks(rows, n - 1)
  }

  function BreakAt(rows: seq<Row>, i: nat): ChainBreak
    requires i < |rows|
  {
    ChainBreak(rows[i].step, ExpectedPrev(rows, i), rows[i].prev, if i == 0 then FirstPrevNotNull else PrevMismatch)
  }

  /** bs reports the rows at, one for one. */
  ghost predicate Reports(rows: seq<Row>, bs: seq<ChainBreak>, at: seq<nat>) {
    |bs| == |at| && forall k | 0 <= k < |at| :: at[k] < |rows| && bs[k] == BreakAt(rows, at[k])
  }

  lemma ReportsNext(rows: seq<Row>, bs: seq<ChainBreak>, at: seq<nat>, n: nat)
    requires Reports(rows, bs, at) && n < |rows|
    ensures Reports(rows, bs + [BreakAt(rows, n)], at + [n])
  {
  }

  /** The step number of the last row before i that has one. */
  function LastStep(rows: seq<Row>, i: nat): Option<int>
    requires i <= |rows|
  {
    if i == 0 then None else if rows[i - 1].step.Some? then rows[i - 1].step else LastStep(rows, i - 1)
  }

  predicate IsDuplicate(rows: seq<Row>, i: nat) {
    i < |rows| && rows[i].step.Some? && exists j | 0 <= j < i :: rows[j].step == rows[i].step
  }

  predicate IsGap(rows: seq<Row>, i: nat) {
    && i < |rows| && rows[i].step.Some?
    && LastStep(rows, i).Some? && rows[i].step.value != LastStep(rows, i).value + 1
  }

  function WarningsAt(rows: seq<Row>, i: nat): seq<ChainWarning>
    requires i < |rows|
  {
    (if IsDuplicate(rows, i) then [ChainWarning(rows[i].step.value, Duplicate)] else [])
    + if IsGap(rows, i) then [ChainWarning(rows[i].step.value, Gap)] else []
  }

  function Warnings(rows: seq<Row>, n: nat): seq<ChainWarning>
    requires n <= |rows|
  {
    if n == 0 then [] else Warnings(rows, n - 1) + WarningsAt(rows, n - 1)
  }

  /** The breaks are one for one the failing links, in row order; the verdict is their absence. */
  ghost predicate IsVerdict(rows: seq<Row>, v: Verification) {
    var at := BrokenLinks(rows, |rows|);
    && v.total == |rows|
    && Reports(rows, v.breaks, at)
    && v.chainValid == (v.breaks == [])
    && v.warnings == Warnings(rows, |rows|)
  }

  /** The step numbers of the first n rows. */
  function StepsSeen(rows: seq<Row>, n: nat): set<int>
    requires n <= |rows|
  {
    if n == 0 then {} else StepsSeen(rows, n - 1) + if rows[n - 1].step.Some? then {rows[n - 1].step.value} else {}
  }

  lemma {:induction false} SeenBefore(rows: seq<Row>, n: nat, s: int)
    requires n <= |rows|
    ensures s in StepsSeen(rows, n) <==> exists j | 0 <= j < n :: rows[j].step == Some(s)
  {
    if n == 0 {
    } else {
      SeenBefore(rows, n - 1, s);
      assert rows[n - 1].step == Some(s) ==> exists j | 0 <= j < n :: rows[j].step == Some(s);
    }
  }

  /** What the checker expects next: one more than the last step number it saw. */
  function ExpectedStep(rows: seq<Row>, n: nat): Option<int>
    requires n <= |rows|
  {
    match LastStep(rows, n) case None => None case Some(s) => Some(s + 1)
  }

  lemma RowWarnings(rows: seq<Row>, i: nat)
    requires i < |rows| && rows[i].step.Some?
    ensures var s, expected := rows[i].step.value, ExpectedStep(rows, i);
            WarningsAt(rows, i)
            == (if s in StepsSeen(rows, i) then [ChainWarning(s, Duplicate)] else [])
               + (if expected.Some? && s != expected.value then [ChainWarning(s, Gap)] else [])
  {
    SeenBefore(rows, i, rows[i].step.value);
  }

  method VerifyChain(rows: seq<Row>) returns (v: Verification)
    ensures IsVerdict(rows, v)
  {
    var breaks: seq<ChainBreak>, warnings: seq<ChainWarning> := [], [];
    var prevOutput: Option<Hash>, expectedStep: Option<int> := None, None;
    var seen: set<int> := {};
    for i := 0 to |rows|
      invariant Reports(rows, breaks, BrokenLinks(rows, i))
      invariant warnings == Warnings(rows, i)
      invariant 0 < i ==> prevOutput == rows[i - 1].output
      invariant expectedStep == ExpectedStep(rows, i) && seen == StepsSeen(rows, i)
    {
      var row := rows[i];
      ReportsNext(rows, breaks, BrokenLinks(rows, i), i);
      if i == 0 {
        if row.prev != None {
          breaks := breaks + [ChainBreak(row.step, None, row.prev, FirstPrevNotNull)];
        }
      } else if row.prev != prevOutput {
        breaks := breaks + [ChainBreak(row.step, prevOutput, row.prev, PrevMismatch)];
      }
      assert Reports(rows, breaks, BrokenLinks(rows, i + 1));
      prevOutput := row.output;
      if row.step.Some? {
        RowWarnings(rows, i);
        var s := row.step.value;
        if s in seen {
          warnings := warnings + [ChainWarning(s, Duplicate)];
        }
        seen := seen + {s};
        if expectedStep.Some? && s != expectedStep.value {
          warnings := warnings + [ChainWarning(s, Gap)];
        }
        expectedStep := Some(s + 1);
      }
      assert warnings == Warnings(rows, i) + WarningsAt(rows, i);
    }
    v := Verification(|rows|, |breaks| == 0, breaks, warnings);
  }

  lemma {:induction false} BrokenLinksExactly(rows: seq<Row>, n: nat)
    requires n <= |rows|
    ensures forall i: nat :: i in BrokenLinks(rows, n) <==> i < n && LinkFails(rows, i)
    ensures forall k, m | 0 <= k < m < |BrokenLinks(rows, n)| :: BrokenLinks(rows, n)[k] < BrokenLinks(rows, n)[m]
  {
    if n == 0 {
    } else {
      BrokenLinksExactly(rows, n - 1);
      var before := BrokenLinks(rows, n - 1);
      assert forall k | 0 <= k < |before| :: before[k] in before;
    }
  }

  lemma {:induction false} NoWarningsExactly(rows: seq<Row>, n: nat)
    requires n <= |rows|
    ensures Warnings(rows, n) == [] <==> forall i: nat | i < n :: !IsDuplicate(rows, i) && !IsGap(rows, i)
  {
    if n == 0 {
    } else {
      NoWarningsExactly(rows, n - 1);
    }
  }

  predicate Warned(rows: seq<Row>, i: nat, reason: WarningReason) {
    match reason
    case Duplicate => IsDuplicate(rows, i)
    case Gap => IsGap(rows, i)
  }

  function WarnedAt(rows: seq<Row>, i: nat): seq<(nat, WarningReason)> {
    (if IsDuplicate(rows, i) then [(i, Duplicate)] else []) + if IsGap(rows, i) then [(i, Gap)] else []
  }

  /** The warned rows among the first n, each with its reason. */
  function WarnedRows(rows: seq<Row>, n: nat): seq<(nat, WarningReason)>
    requires n <= |rows|
  {
    if n == 0 then [] else WarnedRows(rows, n - 1) + WarnedAt(rows, n - 1)
  }

  lemma WarnedAtExactly(rows: seq<Row>, i: nat, x: (nat, WarningReason))
    ensures x in WarnedAt(rows, i) <==> x.0 == i && Warned(rows, i, x.1)
  {
  }

  lemma {:induction false} WarnedRowsMembers(rows: seq<Row>, n: nat, x: (nat, WarningReason))
    requires n <= |rows|
    ensures x in WarnedRows(rows, n) <==> x.0 < n && x in WarnedAt(rows, x.0)
  {
    if n == 0 {
    } else {
      WarnedRowsMembers(rows, n - 1, x);
      WarnedAtRow(rows, n - 1, x);
      InEither(WarnedRows(rows, n - 1), WarnedAt(rows, n - 1), x);
    }
  }

  lemma WarnedAtRow(rows: seq<Row>, i: nat, x: (nat, WarningReason))
    ensures x in WarnedAt(rows, i) ==> x.0 == i
  {
  }

  lemma InEither<T>(a: seq<T>, b: seq<T>, x: T)
    ensures x in a + b <==> x in a || x in b
  {
  }

  lemma WarnedRowsExactly(rows: seq<Row>, n: nat, x: (nat, WarningReason))
    requires n <= |rows|
    ensures x in WarnedRows(rows, n) <==> x.0 < n && Warned(rows, x.0, x.1)
  {
    WarnedRowsMembers(rows, n, x);
    WarnedAtExactly(rows, x.0, x);
  }

  predicate ComesBefore(x: (nat, WarningReason), y: (nat, WarningReason)) {
    x.0 < y.0 || (x.0 == y.0 && x.1 == Duplicate && y.1 == Gap)
  }

  ghost predicate InOrder(xs: seq<(nat, WarningReason)>) {
    forall k, m | 0 <= k < m < |xs| :: ComesBefore(xs[k], xs[m])
  }

  lemma InOrderBoth(a: seq<(nat, WarningReason)>, b: seq<(nat, WarningReason)>, n: nat)
    requires InOrder(a) && InOrder(b)
    requires (forall k | 0 <= k < |a| :: a[k].0 < n) && (forall k | 0 <= k < |b| :: b[k].0 == n)
    ensures InOrder(a + b)
  {
  }

  lemma {:induction false} WarnedRowsInOrder(rows: seq<Row>, n: nat)
    requires n <= |rows|
    ensures InOrder(WarnedRows(rows, n)) && forall k | 0 <= k < |WarnedRows(rows, n)| :: WarnedRows(rows, n)[k].0 < n
  {
    if n == 0 {
    } else {
      WarnedRowsInOrder(rows, n - 1);
      WarnedAtInOrder(rows, n - 1);
      InOrderBoth(WarnedRows(rows, n - 1), WarnedAt(rows, n - 1), n - 1);
    }
  }

  lemma WarnedAtInOrder(rows: seq<Row>, i: nat)
    ensures InOrder(WarnedAt(rows, i)) && forall k | 0 <= k < |WarnedAt(rows, i)| :: WarnedAt(rows, i)[k].0 == i
  {
  }

  function WarningOf(rows: seq<Row>, x: (nat, WarningReason)): ChainWarning
    requires x.0 < |rows| && rows[x.0].step.Some?
  {
    ChainWarning(rows[x.0].step.value, x.1)
  }

  /** ws warns of the rows xs, one for one. */
  ghost predicate WarnsOf(rows: seq<Row>, ws: seq<ChainWarning>, xs: seq<(nat, WarningReason)>) {
    |ws| == |xs| && forall k | 0 <= k < |xs| ::
      xs[k].0 < |rows| && rows[xs[k].0].step.Some? && ws[k] == WarningOf(rows, xs[k])
  }

  lemma WarnsOfBoth(rows: seq<Row>, ws: seq<ChainWarning>, xs: seq<(nat, WarningReason)>, vs: seq<ChainWarning>,
                    ys: seq<(nat, WarningReason)>)
    requires WarnsOf(rows, ws, xs) && WarnsOf(rows, vs, ys)
    ensures WarnsOf(rows, ws + vs, xs + ys)
  {
  }

  lemma {:induction false} WarningsOfRows(rows: seq<Row>, n: nat)
    requires n <= |rows|
    ensures WarnsOf(rows, Warnings(rows, n), WarnedRows(rows, n))
  {
    if n == 0 {
    } else {
      WarningsOfRows(rows, n - 1);
      assert WarnsOf(rows, WarningsAt(rows, n - 1), WarnedAt(rows, n - 1));
      WarnsOfBoth(rows, Warnings(rows, n - 1), WarnedRows(rows, n - 1), WarningsAt(rows, n - 1), WarnedAt(rows, n - 1));
    }
  }

  /** The warnings, whatever the rows: one for each row and reason, in row order, duplicate before gap. */
  lemma WarningsExactly(rows: seq<Row>, v: Verification) returns (at: seq<(nat, WarningReason)>)
    requires IsVerdict(rows, v)
    ensures |v.warnings| == |at| && forall k | 0 <= k < |at| ::
              && at[k].0 < |rows| && v.warnings[k].reason == at[k].1
              && rows[at[k].0].step == Some(v.warnings[k].step)
    ensures forall i: nat, reason :: (i, reason) in at <==> i < |rows| && Warned(rows, i, reason)
    ensures forall k, m | 0 <= k < m < |at| :: ComesBefore(at[k], at[m])
  {
    at := WarnedRows(rows, |rows|);
    WarningsOfRows(rows, |rows|);
    forall i: nat, reason ensures (i, reason) in at <==> i < |rows| && Warned(rows, i, reason) {
      WarnedRowsExactly(rows, |rows|, (i, reason));
    }
    WarnedRowsInOrder(rows, |rows|);
  }

  /** Row j is the nearest numbered row above row i. */
  ghost predicate NearestNumbered(rows: seq<Row>, i: nat, j: nat) {
    j < i <= |rows| && rows[j].step.Some? && forall m | j < m < i :: rows[m].step.None?
  }

  lemma {:induction false} LastStepExactly(rows: seq<Row>, i: nat)
    requires i <= |rows|
    ensures LastStep(rows, i).Some? ==>
              exists j: nat :: NearestNumbered(rows, i, j) && rows[j].step == LastStep(rows, i)
    ensures LastStep(rows, i).None? ==> forall j | 0 <= j < i :: rows[j].step.None?
  {
    if i == 0 {
    } else {
      LastStepExactly(rows, i - 1);
      if rows[i - 1].step.Some? {
        assert NearestNumbered(rows, i, i - 1);
      } else if LastStep(rows, i).Some? {
        var j: nat :| NearestNumbered(rows, i - 1, j) && rows[j].step == LastStep(rows, i);
        assert NearestNumbered(rows, i, j);
      }
    }
  }

  /** A gap, in terms of the rows alone: the nearest numbered row above is not one lower. */
  lemma GapExactly(rows: seq<Row>, i: nat)
    requires i < |rows|
    ensures IsGap(rows, i) <==>
            && rows[i].step.Some?
            && exists j: nat :: NearestNumbered(rows, i, j) && rows[i].step.value != rows[j].step.value + 1
  {
    LastStepExactly(rows, i);
    if LastStep(rows, i).Some? {
      var j: nat :| NearestNumbered(rows, i, j) && rows[j].step == LastStep(rows, i);
      forall l: nat | NearestNumbered(rows, i, l) ensures l == j {
      }
    }
  }

  /** The breaks, whatever the rows: one for each row that does not carry the output above it, in row order. */
  lemma BreaksExactly(rows: seq<Row>, v: Verification) returns (at: seq<nat>)
    requires IsVerdict(rows, v)
    ensures Lists(at, set i: nat | i < |rows| && rows[i].prev != if i == 0 then None else rows[i - 1].output)
    ensures |v.breaks| == |at| && forall k | 0 <= k < |at| ::
              && at[k] < |rows| && v.breaks[k].step == rows[at[k]].step && v.breaks[k].actual == rows[at[k]].prev
              && (if at[k] == 0 then v.breaks[k].reason == FirstPrevNotNull && v.breaks[k].expected == None
                  else v.breaks[k].reason == PrevMismatch && v.breaks[k].expected == rows[at[k] - 1].output)
  {
    at := BrokenLinks(rows, |rows|);
    BrokenLinksExactly(rows, |rows|);
  }

  /** The verdict, whatever the rows: valid iff every link holds. */
  lemma ValidExactly(rows: seq<Row>, v: Verification)
    requires IsVerdict(rows, v)
    ensures v.chainValid <==> forall i: nat | i < |rows| :: !LinkFails(rows, i)
  {
    BrokenLinksExactly(rows, |rows|);
    var at := BrokenLinks(rows, |rows|);
    if at != [] {
      assert at[0] in at;
    }
  }

  /** Two valid trails with the same prev column agree on every output but the last. */
  lemma PrevColumnFixesOutputs(a: seq<Row>, b: seq<Row>, va: Verification, vb: Verification, i: nat)
    requires IsVerdict(a, va) && IsVerdict(b, vb) && va.chainValid && vb.chainValid
    requires |a| == |b| && forall k | 0 <= k < |a| :: a[k].prev == b[k].prev
    requires i + 1 < |a|
    ensures a[i].output == b[i].output
  {
    ValidExactly(a, va);
    ValidExactly(b, vb);
    assert !LinkFails(a, i + 1) && !LinkFails(b, i + 1);
  }

  // ---------------------------------------------------------------------
  // The writers.
  // ---------------------------------------------------------------------

  /** A row as the writers insert it. */
  datatype Entry = Entry(step: nat, output: Hash, prev: Option<Hash>)

  /** What a writer has read and not yet used: the link and the number of its coming row. */
  datatype Snapshot = Snapshot(prev: Option<Hash>, step: nat)

  datatype State = State(trail: seq<Entry>, pending: map<Writer, Snapshot>)

  datatype Action = Read(w: Writer, tail: nat) | Insert(w: Writer, output: Hash) | Abandon(w: Writer)

  /** Any row with the greatest step: ORDER BY step DESC LIMIT 1 does not say which. */
  ghost predicate IsTail(trail: seq<Entry>, i: nat) {
    i < |trail| && forall j | 0 <= j < |trail| :: trail[j].step <= trail[i].step
  }

  ghost predicate Reads(trail: seq<Entry>, tail: nat, snap: Snapshot) {
    if trail == [] then snap == Snapshot(None, 1)
    else IsTail(trail, tail) && snap == Snapshot(Some(trail[tail].output), trail[tail].step + 1)
  }

  ghost predicate Next(s: State, a: Action, s': State) {
    match a
    case Read(w, tail) =>
      && w !in s.pending && s'.trail == s.trail && w in s'.pending
      && Reads(s.trail, tail, s'.pending[w]) && s'.pending == s.pending[w := s'.pending[w]]
    case Insert(w, output) =>
      && w in s.pending && s'.pending == s.pending - {w}
      && s'.trail == s.trail + [Entry(s.pending[w].step, output, s.pending[w].prev)]
    case Abandon(w) =>
      w in s.pending && s' == s.(pending := s.pending - {w})
  }

  /** A run: any interleaving of any number of writers, from the empty trail. */
  ghost predicate Run(ss: seq<State>, acts: seq<Action>) {
    && |ss| == |acts| + 1 && ss[0] == State([], map[])
    && forall i | 0 <= i < |acts| :: Next(ss[i], acts[i], ss[i + 1])
  }

  /** A writer may give up between its read and its insert; its number is then free again. */
  lemma WritersMayAbandon(s: State, w: Writer)
    requires w in s.pending
    ensures Next(s, Abandon(w), State(s.trail, s.pending - {w}))
  {
  }

  /** prev is null for step 1 and otherwise the output of some row of the trail one step lower. */
  ghost predicate LinksBack(trail: seq<Entry>, prev: Option<Hash>, step: nat) {
    if step == 1 then prev == None
    else exists j | 0 <= j < |trail| :: trail[j].step + 1 == step && prev == Some(trail[j].output)
  }

  ghost predicate EntryLinked(trail: seq<Entry>, e: Entry) {
    e.step >= 1 && LinksBack(trail, e.prev, e.step)
  }

  ghost predicate Linked(trail: seq<Entry>) {
    forall e | e in trail :: EntryLinked(trail, e)
  }

  ghost predicate Inv(s: State) {
    && Linked(s.trail)
    && forall w | w in s.pending ::
         s.pending[w].step >= 1 && LinksBack(s.trail, s.pending[w].prev, s.pending[w].step)
  }

  lemma LinksBackGrows(trail: seq<Entry>, more: seq<Entry>, prev: Option<Hash>, step: nat)
    requires LinksBack(trail, prev, step)
    ensures LinksBack(trail + more, prev, step)
  {
    if step != 1 {
      var j :| 0 <= j < |trail| && trail[j].step + 1 == step && prev == Some(trail[j].output);
      assert (trail + more)[j] == trail[j];
    }
  }

  lemma NextKeepsInv(s: State, a: Action, s': State)
    requires Inv(s) && Next(s, a, s')
    ensures Inv(s')
  {
    match a
    case Read(w, tail) =>
      if s.trail != [] {
        assert s.trail[tail] in s.trail && EntryLinked(s.trail, s.trail[tail]);
        assert s.trail[tail].step + 1 == s'.pending[w].step;
      }
    case Abandon(w) =>
    case Insert(w, output) =>
      var e := Entry(s.pending[w].step, output, s.pending[w].prev);
      LinksBackGrows(s.trail, [e], e.prev, e.step);
      forall x | x in s.trail ensures EntryLinked(s'.trail, x) {
        assert EntryLinked(s.trail, x);
        LinksBackGrows(s.trail, [e], x.prev, x.step);
      }
      forall x | x in s'.pending ensures LinksBack(s'.trail, s'.pending[x].prev, s'.pending[x].step) {
        LinksBackGrows(s.trail, [e], s.pending[x].prev, s.pending[x].step);
      }
  }

  lemma {:induction false} RunKeepsInv(ss: seq<State>, acts: seq<Action>, i: nat)
    requires Run(ss, acts) && i < |ss|
    ensures Inv(ss[i])
  {
    if i == 0 {
    } else {
      RunKeepsInv(ss, acts, i - 1);
      NextKeepsInv(ss[i - 1], acts[i - 1], ss[i]);
    }
  }

  ghost predicate HasStep(trail: seq<Entry>, n: nat) {
    exists j | 0 <= j < |trail| :: trail[j].step == n
  }

  /** Step numbers have no hole: below every step in use, each number from 1 up is in use. */
  lemma {:induction false} NoHoles(trail: seq<Entry>, n: nat, m: nat)
    requires Linked(trail) && HasStep(trail, n) && 1 <= m <= n
    ensures HasStep(trail, m)
    decreases n - m
  {
    if m == n {
    } else {
      NoHoles(trail, n, m + 1);
      var j :| 0 <= j < |trail| && trail[j].step == m + 1;
      assert trail[j] in trail && EntryLinked(trail, trail[j]);
    }
  }

  // ---------------------------------------------------------------------
  // What the checker says about a trail the writers produced.
  // ---------------------------------------------------------------------

  /** ls is the trail in step order; rows of one step may come in any order. */
  ghost predicate Listing(ls: seq<Entry>, trail: seq<Entry>) {
    multiset(ls) == multiset(trail) && forall i, j | 0 <= i < j < |ls| :: ls[i].step <= ls[j].step
  }

  function Stored(ls: seq<Entry>): (rows: seq<Row>)
    ensures |rows| == |ls|
  {
    seq(|ls|, i requires 0 <= i < |ls| => Row(Some(ls[i].step), Some(ls[i].output), ls[i].prev))
  }

  ghost predicate StepsDistinct(trail: seq<Entry>) {
    forall i, j | 0 <= i < j < |trail| :: trail[i].step != trail[j].step
  }

  lemma IndexOf(ls: seq<Entry>, trail: seq<Entry>, j: nat) returns (k: nat)
    requires multiset(ls) == multiset(trail) && j < |trail|
    ensures k < |ls| && ls[k] == trail[j]
  {
    assert trail[j] in multiset(trail);
    k :| k < |ls| && ls[k] == trail[j];
  }

  lemma ListedIsLinked(ls: seq<Entry>, trail: seq<Entry>, i: nat)
    requires Linked(trail) && multiset(ls) == multiset(trail) && i < |ls|
    ensures EntryLinked(trail, ls[i])
  {
    assert ls[i] in multiset(ls);
    assert ls[i] in trail;
  }

  /** Above step 1, an earlier row of the listing is one step lower and carries this row's link. */
  lemma LowerRow(ls: seq<Entry>, trail: seq<Entry>, i: nat) returns (k: nat)
    requires Linked(trail) && Listing(ls, trail) && i < |ls| && ls[i].step != 1
    ensures k < i && ls[k].step + 1 == ls[i].step && ls[i].prev == Some(ls[k].output)
  {
    var e := ls[i];
    ListedIsLinked(ls, trail, i);
    var j :| 0 <= j < |trail| && trail[j].step + 1 == e.step && e.prev == Some(trail[j].output);
    k := IndexOf(ls, trail, j);
  }

  /** In a listing each row either repeats the step before it or is one higher, starting from 1. */
  lemma ListingClimbs(ls: seq<Entry>, trail: seq<Entry>, i: nat)
    requires Linked(trail) && Listing(ls, trail) && i < |ls|
    ensures ls[i].step >= 1 && (ls[i].step == 1 ==> ls[i].prev == None)
    ensures if i == 0 then ls[i].step == 1 else ls[i].step == ls[i - 1].step || ls[i].step == ls[i - 1].step + 1
  {
    ListedIsLinked(ls, trail, i);
    if 0 < i {
      ListedIsLinked(ls, trail, i - 1);
    }
    if ls[i].step != 1 {
      var k := LowerRow(ls, trail, i);
      assert ls[k].step <= ls[i - 1].step;
    }
  }

  lemma StoredLastStep(ls: seq<Entry>, i: nat)
    requires 0 < i <= |ls|
    ensures LastStep(Stored(ls), i) == Some(ls[i - 1].step)
  {
  }

  /** On a written trail the gap warnings are exactly the duplicate warnings, row by row. */
  lemma GapsAreDuplicates(ls: seq<Entry>, trail: seq<Entry>, i: nat)
    requires Linked(trail) && Listing(ls, trail) && i < |ls|
    ensures IsGap(Stored(ls), i) <==> IsDuplicate(Stored(ls), i)
    ensures IsDuplicate(Stored(ls), i) <==> 0 < i && ls[i].step == ls[i - 1].step
  {
    var rows := Stored(ls);
    ListingClimbs(ls, trail, i);
    if 0 < i {
      StoredLastStep(ls, i);
      assert rows[i - 1].step == Some(ls[i - 1].step);
    }
  }

  lemma DistinctListing(ls: seq<Entry>, trail: seq<Entry>)
    requires Linked(trail) && Listing(ls, trail)
    ensures Warnings(Stored(ls), |ls|) == [] <==> StepsDistinct(ls)
  {
    var rows := Stored(ls);
    NoWarningsExactly(rows, |ls|);
    forall i: nat | i < |ls|
      ensures IsDuplicate(rows, i) ==> !StepsDistinct(ls)
      ensures IsGap(rows, i) <==> IsDuplicate(rows, i)
    {
      GapsAreDuplicates(ls, trail, i);
    }
    if i, j :| 0 <= i < j < |ls| && ls[i].step == ls[j].step {
      assert rows[i].step == rows[j].step;
      assert IsDuplicate(rows, j);
    }
  }

  lemma LinkHolds(ls: seq<Entry>, trail: seq<Entry>, i: nat)
    requires Linked(trail) && Listing(ls, trail) && StepsDistinct(ls) && i < |ls|
    ensures !LinkFails(Stored(ls), i)
  {
    ListingClimbs(ls, trail, i);
    if 0 < i {
      ListingClimbs(ls, trail, i - 1);
      var k := LowerRow(ls, trail, i);
      assert ls[k].step == ls[i - 1].step;
      assert k == i - 1;
    }
  }

  /** Without a repeated step number the checker accepts a written trail, gaps and breaks alike. */
  lemma NoDuplicateMeansValid(ls: seq<Entry>, trail: seq<Entry>, v: Verification)
    requires Linked(trail) && Listing(ls, trail) && IsVerdict(Stored(ls), v)
    requires StepsDistinct(ls)
    ensures v.chainValid && v.warnings == []
  {
    var rows := Stored(ls);
    ValidExactly(rows, v);
    DistinctListing(ls, trail);
    forall i: nat | i < |rows| ensures !LinkFails(rows, i) {
      LinkHolds(ls, trail, i);
    }
  }

  /** A row repeats a step, and the row before it has the same output as some row one step lower. */
  ghost predicate EchoAt(ls: seq<Entry>, i: nat) {
    && 0 < i < |ls| && ls[i].step == ls[i - 1].step
    && exists k | 0 <= k < i :: ls[k].step + 1 == ls[i].step && ls[k].output == ls[i - 1].output
  }

  /** Unless there is such an echo, the checker accepts a written trail exactly when no step is repeated, so a break
      also reports two writers racing, not only a changed row. In any case, what it accepts has distinct steps or an
      echo at every repeated one. */
  lemma ValidIffNoDuplicate(ls: seq<Entry>, trail: seq<Entry>, v: Verification)
    requires Linked(trail) && Listing(ls, trail) && IsVerdict(Stored(ls), v)
    ensures v.warnings == [] <==> StepsDistinct(ls)
    ensures StepsDistinct(ls) ==> v.chainValid
    ensures v.chainValid ==> forall i: nat | 0 < i < |ls| && ls[i].step == ls[i - 1].step :: EchoAt(ls, i)
    ensures (forall i: nat :: !EchoAt(ls, i)) ==> (v.chainValid <==> StepsDistinct(ls))
  {
    var rows := Stored(ls);
    ValidExactly(rows, v);
    DistinctListing(ls, trail);
    if StepsDistinct(ls) {
      NoDuplicateMeansValid(ls, trail, v);
    } else {
      NoWarningsExactly(rows, |ls|);
      var i: nat :| i < |ls| && (IsDuplicate(rows, i) || IsGap(rows, i));
      GapsAreDuplicates(ls, trail, i);
      DuplicateBreaks(ls, trail, i);
    }
    if v.chainValid {
      forall i: nat | 0 < i < |ls| && ls[i].step == ls[i - 1].step ensures EchoAt(ls, i) {
        DuplicateBreaks(ls, trail, i);
      }
    }
  }

  /** A repeated step goes unnoticed by the links only as an echo. */
  lemma DuplicateBreaks(ls: seq<Entry>, trail: seq<Entry>, i: nat)
    requires Linked(trail) && Listing(ls, trail)
    requires 0 < i < |ls| && ls[i].step == ls[i - 1].step
    ensures LinkFails(Stored(ls), i) || EchoAt(ls, i)
  {
    ListingClimbs(ls, trail, i);
    if ls[i].step != 1 {
      var k := LowerRow(ls, trail, i);
      if !LinkFails(Stored(ls), i) {
        assert ls[k].output == ls[i - 1].output;
      }
    }
  }

  lemma EchoRun(x: Hash) returns (ss: seq<State>, acts: seq<Action>)
    ensures acts == [Read(0, 0), Insert(0, x), Read(1, 0), Read(2, 0), Insert(1, x), Insert(2, x)]
    ensures Run(ss, acts) && ss[6].trail == [Entry(1, x, None)] + [Entry(2, x, Some(x))] + [Entry(2, x, Some(x))]
  {
    var one, two, snap := Entry(1, x, None), Entry(2, x, Some(x)), Snapshot(Some(x), 2);
    var s0 := State([], map[]);
    var s1 := State([], s0.pending[0 := Snapshot(None, 1)]);
    var s2 := State([one], s1.pending - {0});
    var s3 := State([one], s2.pending[1 := snap]);
    var s4 := State([one], s3.pending[2 := snap]);
    var s5 := State([one] + [two], s4.pending - {1});
    var s6 := State([one] + [two] + [two], s5.pending - {2});
    assert Next(s0, Read(0, 0), s1);
    assert Next(s1, Insert(0, x), s2) by {
      assert s1.trail + [one] == [one];
    }
    assert Reads([one], 0, snap);
    assert Next(s2, Read(1, 0), s3) && Next(s3, Read(2, 0), s4);
    assert Next(s4, Insert(1, x), s5) && Next(s5, Insert(2, x), s6);
    acts := [Read(0, 0), Insert(0, x), Read(1, 0), Read(2, 0), Insert(1, x), Insert(2, x)];
    ss := [s0, s1, s2, s3, s4, s5, s6];
  }

  /** It does go unnoticed: the same result three times, the last two by writers that read the same tail. */
  lemma EchoIsAccepted(x: Hash, v: Verification) returns (ss: seq<State>, acts: seq<Action>)
    requires IsVerdict(Stored([Entry(1, x, None)] + [Entry(2, x, Some(x))] + [Entry(2, x, Some(x))]), v)
    ensures Run(ss, acts) && |acts| == 6
    ensures ss[6].trail == [Entry(1, x, None)] + [Entry(2, x, Some(x))] + [Entry(2, x, Some(x))]
    ensures Listing(ss[6].trail, ss[6].trail) && !StepsDistinct(ss[6].trail) && v.chainValid
  {
    ss, acts := EchoRun(x);
    EchoHolds(ss[6].trail, x, v);
  }

  lemma EchoHolds(trail: seq<Entry>, x: Hash, v: Verification)
    requires trail == [Entry(1, x, None)] + [Entry(2, x, Some(x))] + [Entry(2, x, Some(x))]
    requires IsVerdict(Stored(trail), v)
    ensures Listing(trail, trail) && !StepsDistinct(trail) && v.chainValid
  {
    ValidExactly(Stored(trail), v);
    assert trail[1].step == trail[2].step;
  }

  /** An insert is stale when its number has been used since its writer read the tail. */
  ghost predicate Stale(s: State, a: Action) {
    a.Insert? && a.w in s.pending && HasStep(s.trail, s.pending[a.w].step)
  }

  /** Step numbers repeat exactly in the runs with a stale insert. */
  lemma {:induction false} DuplicatesAreRaces(ss: seq<State>, acts: seq<Action>, n: nat)
    requires Run(ss, acts) && n <= |acts|
    ensures StepsDistinct(ss[n].trail) <==> forall i | 0 <= i < n :: !Stale(ss[i], acts[i])
  {
    if n == 0 {
    } else {
      DuplicatesAreRaces(ss, acts, n - 1);
      var s, a, s' := ss[n - 1], acts[n - 1], ss[n];
      assert Next(s, a, s');
      if a.Insert? {
        assert s'.trail[..|s.trail|] == s.trail;
        if Stale(s, a) {
          var j :| 0 <= j < |s.trail| && s.trail[j].step == s.pending[a.w].step;
          assert s'.trail[j].step == s'.trail[|s.trail|].step;
        }
        if StepsDistinct(s'.trail) {
          forall i, j | 0 <= i < j < |s.trail| ensures s.trail[i].step != s.trail[j].step {
            assert s'.trail[i] == s.trail[i] && s'.trail[j] == s.trail[j];
          }
        }
      }
    }
  }

  /** Whole runs: no stale insert, no break and no warning. */
  lemma RunWithoutRacesVerifies(ss: seq<State>, acts: seq<Action>, ls: seq<Entry>, v: Verification)
    requires Run(ss, acts) && (forall i | 0 <= i < |acts| :: !Stale(ss[i], acts[i]))
    requires Listing(ls, ss[|acts|].trail) && IsVerdict(Stored(ls), v)
    ensures v.chainValid && v.warnings == []
  {
    var trail := ss[|acts|].trail;
    RunKeepsInv(ss, acts, |acts|);
    DuplicatesAreRaces(ss, acts, |acts|);
    SameStepsDistinct(ls, trail);
    NoDuplicateMeansValid(ls, trail, v);
  }

  lemma SameStepsDistinct(ls: seq<Entry>, trail: seq<Entry>)
    requires Listing(ls, trail) && StepsDistinct(trail)
    ensures StepsDistinct(ls)
  {
    forall i, j | 0 <= i < j < |ls| ensures ls[i].step != ls[j].step {
      var x := IndexOf(trail, ls, i);
      var y := IndexOf(trail, ls, j);
      if x == y {
        Twice(ls, i, j);
        Once(trail, x);
        assert false;
      }
    }
  }

  lemma Twice(ls: seq<Entry>, i: nat, j: nat)
    requires i < j < |ls| && ls[i] == ls[j]
    ensures multiset(ls)[ls[i]] >= 2
  {
    assert ls == ls[..j] + ls[j..];
    assert ls[..j][i] == ls[i] && ls[j..][0] == ls[i];
    assert ls[i] in ls[..j] && ls[i] in ls[j..];
  }

  lemma Once(trail: seq<Entry>, x: nat)
    requires StepsDistinct(trail) && x < |trail|
    ensures multiset(trail)[trail[x]] == 1
  {
    var a, b := trail[..x], trail[x + 1..];
    assert trail == a + [trail[x]] + b;
    assert trail[x] !in a && trail[x] !in b;
  }

  /** Two writers that both read the empty trail: nothing was altered, and the checker reports a break. */
  lemma RaceReadsAsTampering(x: Hash, y: Hash, v: Verification)
    requires IsVerdict(Stored([Entry(1, x, None), Entry(1, y, None)]), v)
    ensures var ss := [State([], map[]),
                       State([], map[0 := Snapshot(None, 1)]),
                       State([], map[0 := Snapshot(None, 1), 1 := Snapshot(None, 1)]),
                       State([Entry(1, x, None)], map[1 := Snapshot(None, 1)]),
                       State([Entry(1, x, None), Entry(1, y, None)], map[])];
            Run(ss, [Read(0, 0), Read(1, 0), Insert(0, x), Insert(1, y)])
            && Listing([Entry(1, x, None), Entry(1, y, None)], ss[4].trail) && !v.chainValid
  {
    var rows := Stored([Entry(1, x, None), Entry(1, y, None)]);
    ValidExactly(rows, v);
    assert LinkFails(rows, 1);
    var m := map[0 := Snapshot(None, 1), 1 := Snapshot(None, 1)];
    assert m - {0} == map[1 := Snapshot(None, 1)] && m - {0} - {1} == map[];
  }

  // ---------------------------------------------------------------------
  // One writer at a time, and rows removed afterwards.
  // ---------------------------------------------------------------------

  /** A serially written trail: steps 1, 2, 3, ..., each linked to the row before it. */
  ghost predicate Serial(trail: seq<Entry>) {
    forall i: nat | i < |trail| :: InPlace(trail, i)
  }

  predicate InPlace(trail: seq<Entry>, i: nat)
    requires i < |trail|
  {
    trail[i].step == i + 1 && trail[i].prev == if i == 0 then None else Some(trail[i - 1].output)
  }

  /** What serial writers leave behind passes the checker without a break or a warning. */
  lemma SerialVerifies(trail: seq<Entry>, v: Verification)
    requires Serial(trail) && IsVerdict(Stored(trail), v)
    ensures v.chainValid && v.warnings == []
  {
    var rows := Stored(trail);
    ValidExactly(rows, v);
    NoWarningsExactly(rows, |rows|);
    forall i: nat | i < |rows| ensures !LinkFails(rows, i) && !IsDuplicate(rows, i) && !IsGap(rows, i) {
      assert InPlace(trail, i);
      forall j: nat | j < i ensures rows[j].step == Some(j + 1) {
        assert InPlace(trail, j);
      }
      if 0 < i {
        StoredLastStep(trail, i);
      }
    }
  }

  /** A read and an insert of one writer with nothing in between keep a serial trail serial. */
  lemma UninterruptedWriteIsSerial(trail: seq<Entry>, w: Writer, tail: nat, output: Hash, s1: State, s2: State)
    requires Serial(trail)
    requires Next(State(trail, map[]), Read(w, tail), s1) && Next(s1, Insert(w, output), s2)
    ensures Serial(s2.trail) && s2.pending == map[]
    ensures |s2.trail| == |trail| + 1 && s2.trail[..|trail|] == trail && s2.trail[|trail|].output == output
  {
    if trail != [] {
      assert InPlace(trail, tail) && InPlace(trail, |trail| - 1);
      assert trail[|trail| - 1].step <= trail[tail].step;
    }
    forall i: nat | i < |trail| ensures InPlace(s2.trail, i) {
      assert InPlace(trail, i);
    }
    assert InPlace(s2.trail, |trail|);
  }

  class AuditTable {
    var trail: seq<Entry>

    constructor ()
      ensures trail == []
    {
      trail := [];
    }

    /** One whole write with nothing in between. Without a batch id there is no chain and nothing is written. */
    method WriteAudit(hasBatch: bool, output: Hash)
      requires Serial(trail)
      modifies this
      ensures Serial(trail)
      ensures if hasBatch then |trail| == |old(trail)| + 1 && trail[..|old(trail)|] == old(trail)
                               && trail[|old(trail)|].output == output
              else trail == old(trail)
    {
      if !hasBatch {
        return;
      }
      var prev, step := None, 1;
      if trail != [] {
        forall j: nat | j < |trail| ensures trail[j].step == j + 1 {
          assert InPlace(trail, j);
        }
        assert trail[|trail| - 1].step == |trail|;
        var tail :| 0 <= tail < |trail| && forall j | 0 <= j < |trail| :: trail[j].step <= trail[tail].step;
        assert trail[|trail| - 1].step <= trail[tail].step;
        prev, step := Some(trail[tail].output), trail[tail].step + 1;
      }
      ghost var before := trail;
      trail := trail + [Entry(step, output, prev)];
      forall i: nat | i < |before| ensures InPlace(trail, i) {
        assert InPlace(before, i);
      }
    }
  }

  /** The rows left when only the listed positions are kept. */
  function Kept(trail: seq<Entry>, at: seq<nat>): seq<Entry>
    requires forall k | 0 <= k < |at| :: at[k] < |trail|
  {
    seq(|at|, k requires 0 <= k < |at| => trail[at[k]])
  }

  /** Deleting rows from a serially written trail goes unnoticed exactly when what is left is a prefix. */
  lemma DeletionNoticedUnlessSuffix(trail: seq<Entry>, at: seq<nat>, v: Verification)
    requires Serial(trail)
    requires forall k | 0 <= k < |at| :: at[k] < |trail|
    requires forall k, m | 0 <= k < m < |at| :: at[k] < at[m]
    requires IsVerdict(Stored(Kept(trail, at)), v)
    ensures v.chainValid && v.warnings == [] <==> forall k | 0 <= k < |at| :: at[k] == k
  {
    var ls := Kept(trail, at);
    var rows := Stored(ls);
    ValidExactly(rows, v);
    NoWarningsExactly(rows, |rows|);
    if v.chainValid && v.warnings == [] {
      forall k | 0 <= k < |at| ensures at[k] == k {
        KeptInPlace(trail, at, k);
      }
    }
    if forall k | 0 <= k < |at| :: at[k] == k {
      forall k: nat | k < |ls| ensures InPlace(ls, k) {
        assert InPlace(trail, k) && at[k] == k && (0 < k ==> at[k - 1] == k - 1);
      }
      SerialVerifies(ls, v);
    }
  }

  lemma KeptInPlace(trail: seq<Entry>, at: seq<nat>, k: nat)
    requires Serial(trail) && k < |at|
    requires forall i | 0 <= i < |at| :: at[i] < |trail|
    requires var rows := Stored(Kept(trail, at));
             forall i: nat | i < |rows| :: !LinkFails(rows, i) && !IsGap(rows, i)
    ensures at[k] == k
  {
    var ls := Kept(trail, at);
    var rows := Stored(ls);
    assert !LinkFails(rows, k) && !IsGap(rows, k);
    assert InPlace(trail, at[k]) && ls[k] == trail[at[k]];
    assert rows[k].step == Some(at[k] + 1) && rows[k].prev == ls[k].prev;
    if k == 0 {
    } else {
      KeptInPlace(trail, at, k - 1);
      assert InPlace(trail, at[k - 1]) && ls[k - 1] == trail[at[k - 1]];
      StoredLastStep(ls, k);
    }
  }

  /** In particular, removing one row is noticed unless it is the last. */
  lemma RemovingOneRow(trail: seq<Entry>, d: nat, v: Verification)
    requires Serial(trail) && d < |trail|
    requires IsVerdict(Stored(trail[..d] + trail[d + 1..]), v)
    ensures v.chainValid && v.warnings == [] <==> d == |trail| - 1
  {
    var at := seq(|trail| - 1, k requires 0 <= k < |trail| - 1 => if k < d then k else k + 1);
    assert Kept(trail, at) == trail[..d] + trail[d + 1..];
    DeletionNoticedUnlessSuffix(trail, at, v);
    if d < |trail| - 1 {
      assert at[d] == d + 1;
    }
  }
}
