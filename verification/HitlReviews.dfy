/** Human review of an interrupted batch: opening a review unless one is open, and deciding it. */
module HitlReviews {
  import opened Options

  type BatchId = nat
  type UserId = nat

  /** Rows in creation order; a review's id is its position. */
  type ReviewId = nat

  datatype Status = Pending | InReview | Resolved

  datatype Key = Key(batch: BatchId, reason: string, stage: string)

  datatype Review =
    Review(key: Key, status: Status, resolution: Option<string>, text: Option<string>, decider: Option<UserId>)

  datatype BatchStatus = HitlWait | Rejected | OtherStatus

  datatype Signal = RejectRequested(batch: BatchId, reason: string)

  datatype Decision = Decision(resolution: string, text: string, user: Option<UserId>)

  datatype Answer = Resolution(id: ReviewId) | NotFound | AlreadyResolved | InvalidResolution

  predicate Open(r: Review) { r.status != Resolved }

  predicate OpenAt(rs: seq<Review>, k: Key, i: nat) { i < |rs| && rs[i].key == k && Open(rs[i]) }

  predicate HasOpen(rs: seq<Review>, k: Key) { exists i :: 0 <= i < |rs| && OpenAt(rs, k, i) }

  function NewReview(k: Key): Review { Review(k, Pending, None, None, None) }

  function Decided(r: Review, d: Decision): Review {
    r.(status := Resolved, resolution := Some(d.resolution), text := Some(d.text), decider := d.user)
  }

  function Created(rs: seq<Review>, k: Key): seq<Review> {
    if HasOpen(rs, k) then rs else rs + [NewReview(k)]
  }

  function AnswerTo(rs: seq<Review>, i: ReviewId, d: Decision): Answer {
    if i >= |rs| then NotFound
    else if rs[i].status == Resolved then AlreadyResolved
    else if d.resolution !in {"approve", "reject"} then InvalidResolution
    else Resolution(i)
  }

  function ResolvedOne(rs: seq<Review>, i: ReviewId, d: Decision): seq<Review> {
    if AnswerTo(rs, i, d) == Resolution(i) then rs[i := Decided(rs[i], d)] else rs
  }

  /** What an unordered lookup by batch may return. */
  predicate FirstRow(rs: seq<Review>, batch: BatchId, row: Option<ReviewId>) {
    match row
    case Some(i) => i < |rs| && rs[i].key.batch == batch
    case None => forall i | 0 <= i < |rs| :: rs[i].key.batch != batch
  }

  /** Who is refused, and what a decision writes: the outcome, its text and its author, on that review alone. */
  lemma DecisionExactly(rs: seq<Review>, i: ReviewId, d: Decision, j: ReviewId)
    requires j < |rs|
    ensures AnswerTo(rs, i, d) == NotFound <==> i >= |rs|
    ensures AnswerTo(rs, i, d) == AlreadyResolved <==> i < |rs| && rs[i].status == Resolved
    ensures AnswerTo(rs, i, d).Resolution? <==>
              i < |rs| && rs[i].status != Resolved && (d.resolution == "approve" || d.resolution == "reject")
    ensures |ResolvedOne(rs, i, d)| == |rs|
    ensures ResolvedOne(rs, i, d)[j]
            == if i == j && AnswerTo(rs, i, d).Resolution?
               then Review(rs[j].key, Resolved, Some(d.resolution), Some(d.text), d.user) else rs[j]
  {
  }

  class Queue {
    var reviews: seq<Review>
    var batches: map<BatchId, BatchStatus>
    var signals: seq<Signal>

    /** The newest open review of the key, or a new one. */
    method CreatePending(k: Key) returns (id: ReviewId, created: bool)
      modifies this`reviews
      ensures reviews == Created(old(reviews), k)
      ensures reviews == if created then old(reviews) + [Review(k, Pending, None, None, None)] else old(reviews)
      ensures created <==> forall j | 0 <= j < |old(reviews)| && old(reviews)[j].key == k ::
                             old(reviews)[j].status != Pending && old(reviews)[j].status != InReview
      ensures OpenAt(reviews, k, id) && forall j | id < j < |reviews| :: !OpenAt(reviews, k, j)
    {
      var i := |reviews|;
      while i > 0
        invariant 0 <= i <= |reviews|
        invariant forall j | i <= j < |reviews| :: !OpenAt(reviews, k, j)
      {
        i := i - 1;
        if reviews[i].key == k && Open(reviews[i]) {
          assert OpenAt(reviews, k, i);
          return i, false;
        }
      }
      assert forall j | 0 <= j < |reviews| && reviews[j].key == k :: !OpenAt(reviews, k, j);
      id, created := |reviews|, true;
      reviews := reviews + [NewReview(k)];
    }

    /** Assigns the review's fields, after the guards. */
    method ResolveReview(i: ReviewId, d: Decision) returns (answer: Answer)
      requires i < |reviews|
      modifies this`reviews
      ensures answer == AnswerTo(old(reviews), i, d)
      ensures reviews == ResolvedOne(old(reviews), i, d)
    {
      if reviews[i].status == Resolved {
        return AlreadyResolved;
      }
      if d.resolution !in {"approve", "reject"} {
        return InvalidResolution;
      }
      var r := reviews[i];
      r := r.(status := Resolved);
      r := r.(resolution := Some(d.resolution), text := Some(d.text));
      r := r.(decider := d.user);
      reviews := reviews[i := r];
      answer := Resolution(i);
    }

    /** Resolves whichever of the batch's reviews the lookup returns first. */
    method ResolveBatch(batch: BatchId, row: Option<ReviewId>, d: Decision) returns (answer: Answer)
      requires FirstRow(reviews, batch, row)
      modifies this
      ensures answer == if row.None? then NotFound else AnswerTo(old(reviews), row.value, d)
      ensures reviews == if row.None? then old(reviews) else ResolvedOne(old(reviews), row.value, d)
      ensures answer.Resolution? && d.resolution == "reject" ==>
                signals == old(signals) + [RejectRequested(batch, d.text)]
                && batches == if batch in old(batches) && old(batches)[batch] == HitlWait
                              then old(batches)[batch := Rejected] else old(batches)
      ensures !(answer.Resolution? && d.resolution == "reject") ==> signals == old(signals) && batches == old(batches)
    {
      if row.None? {
        return NotFound;
      }
      answer := ResolveReview(row.value, d);
      if !answer.Resolution? {
        return;
      }
      if d.resolution == "reject" {
        if batch in batches && batches[batch] == HitlWait {
          batches := batches[batch := Rejected];
        }
        signals := signals + [RejectRequested(batch, d.text)];
      }
    }

    /** The endpoint that names a review: it only takes the batch from it. */
    method DecideReview(id: ReviewId, row: Option<ReviewId>, d: Decision) returns (answer: Answer)
      requires id < |reviews| ==> FirstRow(reviews, reviews[id].key.batch, row)
      modifies this
      ensures answer == DecisionAnswer(old(reviews), id, row, d)
      ensures id >= |old(reviews)| || row.None? ==> answer == NotFound && reviews == old(reviews)
      ensures reviews == DecisionEffect(old(reviews), id, row, d)
    {
      if id >= |reviews| {
        return NotFound;
      }
      answer := ResolveBatch(reviews[id].key.batch, row, d);
    }
  }

  function DecisionAnswer(rs: seq<Review>, id: ReviewId, row: Option<ReviewId>, d: Decision): Answer {
    if id >= |rs| || row.None? then NotFound else AnswerTo(rs, row.value, d)
  }

  function DecisionEffect(rs: seq<Review>, id: ReviewId, row: Option<ReviewId>, d: Decision): seq<Review> {
    if id >= |rs| || row.None? then rs else ResolvedOne(rs, row.value, d)
  }

  // ---------------------------------------------------------------------
  // Which review a decision reaches.
  // ---------------------------------------------------------------------

  /** A decision on an open review is sure to decide that review exactly when the batch has no other. */
  lemma DecisionHitsItsReviewIff(rs: seq<Review>, id: ReviewId, d: Decision)
    requires id < |rs| && Open(rs[id]) && d.resolution in {"approve", "reject"}
    ensures (forall row | FirstRow(rs, rs[id].key.batch, row) ::
               && DecisionAnswer(rs, id, row, d) == Resolution(id)
               && DecisionEffect(rs, id, row, d) == rs[id := Decided(rs[id], d)])
            <==> (forall i | 0 <= i < |rs| && rs[i].key.batch == rs[id].key.batch :: i == id)
  {
    var batch := rs[id].key.batch;
    assert rs[id].key.batch == batch; // so that None is not a first row
    if j: nat :| j < |rs| && rs[j].key.batch == batch && j != id {
      assert FirstRow(rs, batch, Some(j));
      assert DecisionAnswer(rs, id, Some(j), d) != Resolution(id);
    } else {
      assert forall row | FirstRow(rs, batch, row) :: row == Some(id);
    }
  }

  /** Once an earlier review of the batch is resolved, the lookup may keep returning it; a decision on the open one
      is then refused. */
  lemma OpenReviewBehindAResolvedOne(rs: seq<Review>, id: ReviewId, earlier: ReviewId, d: Decision)
    requires id < |rs| && earlier < |rs| && rs[id].key.batch == rs[earlier].key.batch && rs[earlier].status == Resolved
    ensures FirstRow(rs, rs[id].key.batch, Some(earlier))
    ensures DecisionAnswer(rs, id, Some(earlier), d) == AlreadyResolved
    ensures DecisionEffect(rs, id, Some(earlier), d) == rs
  {
  }

  // ---------------------------------------------------------------------
  // Serial runs.
  // ---------------------------------------------------------------------

  datatype Op = Create(k: Key) | Resolve(i: ReviewId, d: Decision)

  function Apply(rs: seq<Review>, op: Op): seq<Review> {
    match op
    case Create(k) => Created(rs, k)
    case Resolve(i, d) => ResolvedOne(rs, i, d)
  }

  function Run(ops: seq<Op>): seq<Review> {
    if ops == [] then [] else Apply(Run(ops[..|ops| - 1]), ops[|ops| - 1])
  }

  /** How often creation answered created = true for the key. */
  function CreatedCount(ops: seq<Op>, k: Key): nat {
    if ops == [] then 0
    else
      var front := ops[..|ops| - 1];
      CreatedCount(front, k) + if ops[|ops| - 1] == Create(k) && !HasOpen(Run(front), k) then 1 else 0
  }

  function Tally(rs: seq<Review>, k: Key, open: bool): nat {
    if rs == [] then 0
    else Tally(rs[..|rs| - 1], k, open) + if rs[|rs| - 1].key == k && Open(rs[|rs| - 1]) == open then 1 else 0
  }

  ghost predicate OneOpen(rs: seq<Review>) {
    forall i, j, k | 0 <= i < |rs| && 0 <= j < |rs| && OpenAt(rs, k, i) && OpenAt(rs, k, j) :: i == j
  }

  lemma {:induction false} AtMostOneOpenReview(ops: seq<Op>)
    ensures OneOpen(Run(ops))
  {
    if ops == [] {
    } else {
      var front, op := ops[..|ops| - 1], ops[|ops| - 1];
      AtMostOneOpenReview(front);
      var rs, rs' := Run(front), Run(ops);
      forall i, j, k | 0 <= i < |rs'| && 0 <= j < |rs'| && OpenAt(rs', k, i) && OpenAt(rs', k, j) ensures i == j {
        assert i < |rs| ==> OpenAt(rs, k, i);
        assert j < |rs| ==> OpenAt(rs, k, j);
      }
    }
  }

  lemma {:induction false} TallyAfterDecision(rs: seq<Review>, i: ReviewId, d: Decision, k: Key)
    requires i < |rs| && Open(rs[i])
    ensures var rs' := rs[i := Decided(rs[i], d)];
            Tally(rs', k, true) + Tally(rs', k, false) == Tally(rs, k, true) + Tally(rs, k, false)
            && Tally(rs', k, true) + (if rs[i].key == k then 1 else 0) == Tally(rs, k, true)
  {
    var n, rs' := |rs| - 1, rs[i := Decided(rs[i], d)];
    if i == n {
      assert rs'[..n] == rs[..n];
    } else {
      assert rs'[..n] == rs[..n][i := Decided(rs[i], d)];
      TallyAfterDecision(rs[..n], i, d, k);
    }
  }

  /** Every review that was created is still there: resolved or open. */
  lemma {:induction false} CreatedEqualsResolvedPlusOpen(ops: seq<Op>, k: Key)
    ensures CreatedCount(ops, k) == Tally(Run(ops), k, false) + Tally(Run(ops), k, true)
    ensures Tally(Run(ops), k, true) == if HasOpen(Run(ops), k) then 1 else 0
  {
    if ops == [] {
    } else {
      var front, op := ops[..|ops| - 1], ops[|ops| - 1];
      CreatedEqualsResolvedPlusOpen(front, k);
      var rs := Run(front);
      match op {
        case Create(k') =>
          if !HasOpen(rs, k') {
            assert (rs + [NewReview(k')])[..|rs|] == rs;
          }
        case Resolve(i, d) =>
          if AnswerTo(rs, i, d) == Resolution(i) {
            TallyAfterDecision(rs, i, d, k);
          }
      }
      AtMostOneOpenReview(ops);
    }
    OpenTally(Run(ops), k);
  }

  lemma {:induction false} OpenTally(rs: seq<Review>, k: Key)
    ensures Tally(rs, k, true) > 0 <==> HasOpen(rs, k)
    ensures OneOpen(rs) ==> Tally(rs, k, true) <= 1
  {
    if rs == [] {
    } else {
      var n := |rs| - 1;
      OpenTally(rs[..n], k);
      forall i | 0 <= i < n ensures OpenAt(rs[..n], k, i) <==> OpenAt(rs, k, i) {
      }
      assert HasOpen(rs, k) <==> HasOpen(rs[..n], k) || OpenAt(rs, k, n);
      if OneOpen(rs) {
        forall i, j, k' | 0 <= i < n && 0 <= j < n && OpenAt(rs[..n], k', i) && OpenAt(rs[..n], k', j) ensures i == j {
          assert OpenAt(rs, k', i) && OpenAt(rs, k', j);
        }
        if OpenAt(rs, k, n) {
          assert forall i | 0 <= i < n :: !OpenAt(rs, k, i);
          assert !HasOpen(rs[..n], k);
        }
      }
    }
  }

  /** A resolved review keeps its resolution, its text and its decider through every later operation. */
  lemma {:induction false} ResolvedIsImmutable(ops: seq<Op>, more: seq<Op>, i: ReviewId)
    requires i < |Run(ops)| && Run(ops)[i].status == Resolved
    ensures i < |Run(ops + more)| && Run(ops + more)[i] == Run(ops)[i]
  {
    if more == [] {
      assert ops + more == ops;
    } else {
      assert (ops + more)[..|ops + more| - 1] == ops + more[..|more| - 1];
      ResolvedIsImmutable(ops, more[..|more| - 1], i);
    }
  }

  // ---------------------------------------------------------------------
  // The creation statement replayed: an interrupted node runs again from its start when it is resumed.
  // ---------------------------------------------------------------------

  predicate Decides(op: Op, i: ReviewId) { op.Resolve? && op.i == i && op.d.resolution in {"approve", "reject"} }

  lemma {:induction false} ResolvedByOpsExactly(ops: seq<Op>, between: seq<Op>, i: ReviewId)
    requires i < |Run(ops)| && Open(Run(ops)[i])
    ensures i < |Run(ops + between)| && Run(ops + between)[i].key == Run(ops)[i].key
    ensures Open(Run(ops + between)[i]) <==> forall op | op in between :: !Decides(op, i)
  {
    if between == [] {
      assert ops + between == ops;
    } else {
      var front, last := between[..|between| - 1], between[|between| - 1];
      assert (ops + between)[..|ops + between| - 1] == ops + front;
      assert between == front + [last];
      ResolvedByOpsExactly(ops, front, i);
      var rs := Run(ops + front);
      assert Run(ops + between) == Apply(rs, last);
      assert Open(Apply(rs, last)[i]) <==> Open(rs[i]) && !Decides(last, i);
      assert last in between && forall op | op in front :: op in between;
      assert forall op | op in between :: op in front || op == last;
    }
  }

  lemma {:induction false} NoCreationNoOtherOpen(ops: seq<Op>, between: seq<Op>, k: Key, i: ReviewId)
    requires OpenAt(Run(ops), k, i) && Create(k) !in between
    ensures forall j: nat | OpenAt(Run(ops + between), k, j) :: j == i
  {
    if between == [] {
      assert ops + between == ops;
      AtMostOneOpenReview(ops);
    } else {
      var front, last := between[..|between| - 1], between[|between| - 1];
      assert (ops + between)[..|ops + between| - 1] == ops + front;
      assert last in between && forall op | op in front :: op in between;
      NoCreationNoOtherOpen(ops, front, k, i);
      forall j: nat | OpenAt(Run(ops + between), k, j) ensures j == i {
        assert OpenAt(Run(ops + front), k, j);
      }
    }
  }

  /** The look-up is said to keep a replay from inserting a duplicate. A replay of the creation that left review i
      open inserts another row exactly when review i was decided in between. */
  lemma ReplayInsertsIffDecided(ops: seq<Op>, between: seq<Op>, k: Key, i: ReviewId)
    requires OpenAt(Run(ops), k, i) && Create(k) !in between
    ensures !HasOpen(Run(ops + between), k) <==> exists op :: op in between && Decides(op, i)
    ensures Run(ops + between + [Create(k)])
            == if exists op :: op in between && Decides(op, i) then Run(ops + between) + [NewReview(k)]
               else Run(ops + between)
  {
    var rs := Run(ops + between);
    ResolvedByOpsExactly(ops, between, i);
    NoCreationNoOtherOpen(ops, between, k, i);
    assert OpenAt(rs, k, i) <==> Open(rs[i]);
    assert HasOpen(rs, k) <==> OpenAt(rs, k, i);
    assert (ops + between + [Create(k)])[..|ops + between|] == ops + between;
  }

  /** Since a graph is resumed only after an approval, this is what happens: create, approve, create again. */
  lemma ResumedInterruptLeavesASecondReview(k: Key, d: Decision)
    requires d.resolution == "approve"
    ensures var ops := [Create(k)];
            Run(ops + [Resolve(0, d)] + [Create(k)]) == [Decided(NewReview(k), d), NewReview(k)]
  {
    var ops := [Create(k)];
    assert ops[..0] == [];
    assert Run(ops) == [NewReview(k)] && OpenAt(Run(ops), k, 0);
    assert (ops + [Resolve(0, d)])[..1] == ops;
    assert [Resolve(0, d)][0] == Resolve(0, d);
    ReplayInsertsIffDecided(ops, [Resolve(0, d)], k, 0);
    assert Decides(Resolve(0, d), 0) && Resolve(0, d) in [Resolve(0, d)];
  }

  // ---------------------------------------------------------------------
  // Overlapping calls: nothing locks a key or a review, so another call may commit between the look and the insert,
  // or between the load and the assignment.
  // ---------------------------------------------------------------------

  type Caller = nat

  datatype Copy = Copy(id: ReviewId, seen: Review)

  /** `absent` holds the calls that saw no open review and have not inserted yet, with their keys; `loaded` the
      decisions that have loaded a review and not assigned it yet, with their copies. */
  datatype Table = Table(reviews: seq<Review>, absent: map<Caller, Key>, loaded: map<Caller, Copy>)

  datatype Step =
    | Look(w: Caller, k: Key)
    | Insert(w: Caller)
    | Abandon(w: Caller)
    | Load(w: Caller, i: ReviewId)
    | Assign(w: Caller, d: Decision)

  /** An object's update sends only the columns that differ from what was loaded. */
  function Sent<T(==)>(stored: T, seen: T, now: T): T { if now == seen then stored else now }

  function Assigned(stored: Review, seen: Review, d: Decision): Review {
    var now := Decided(seen, d);
    stored.(status := Sent(stored.status, seen.status, now.status),
            resolution := Sent(stored.resolution, seen.resolution, now.resolution),
            text := Sent(stored.text, seen.text, now.text),
            decider := Sent(stored.decider, seen.decider, now.decider))
  }

  /** The guards look at the copy. */
  predicate Accepts(c: Copy, d: Decision) { Open(c.seen) && d.resolution in {"approve", "reject"} }

  function AfterAssign(rs: seq<Review>, c: Copy, d: Decision): seq<Review> {
    if c.id < |rs| && Accepts(c, d) then rs[c.id := Assigned(rs[c.id], c.seen, d)] else rs
  }

  ghost predicate Next(s: Table, a: Step, s': Table) {
    match a
    case Look(w, k) =>
      w !in s.absent && s' == if HasOpen(s.reviews, k) then s else s.(absent := s.absent[w := k])
    case Insert(w) =>
      w in s.absent && s' == s.(reviews := s.reviews + [NewReview(s.absent[w])], absent := s.absent - {w})
    case Abandon(w) => s' == s.(absent := s.absent - {w}, loaded := s.loaded - {w})
    case Load(w, i) =>
      w !in s.loaded && i < |s.reviews| && s' == s.(loaded := s.loaded[w := Copy(i, s.reviews[i])])
    case Assign(w, d) =>
      && w in s.loaded
      && s' == s.(reviews := AfterAssign(s.reviews, s.loaded[w], d), loaded := s.loaded - {w})
  }

  ghost predicate Overlapping(ss: seq<Table>, acts: seq<Step>) {
    && |ss| == |acts| + 1 && ss[0] == Table([], map[], map[])
    && forall i | 0 <= i < |acts| :: Next(ss[i], acts[i], ss[i + 1])
  }

  /** An insert is stale when a review of its key was opened since its call looked. */
  ghost predicate Stale(s: Table, a: Step) {
    a.Insert? && a.w in s.absent && HasOpen(s.reviews, s.absent[a.w])
  }

  /** At each step, the rule survives exactly when the step is not a stale insert. */
  lemma StepKeepsOneOpenIff(s: Table, a: Step, s': Table)
    requires OneOpen(s.reviews) && Next(s, a, s')
    ensures OneOpen(s'.reviews) <==> !Stale(s, a)
  {
    var rs, rs' := s.reviews, s'.reviews;
    if Stale(s, a) {
      var k := s.absent[a.w];
      var i :| 0 <= i < |rs| && OpenAt(rs, k, i);
      assert OpenAt(rs', k, i) && OpenAt(rs', k, |rs|);
    } else {
      forall i, j, k | 0 <= i < |rs'| && 0 <= j < |rs'| && OpenAt(rs', k, i) && OpenAt(rs', k, j) ensures i == j {
        assert i < |rs| ==> OpenAt(rs, k, i);
        assert j < |rs| ==> OpenAt(rs, k, j);
      }
    }
  }

  /** Over every interleaving: the rule holds throughout exactly when no insert was stale. */
  lemma {:induction false} OneOpenThroughoutIff(ss: seq<Table>, acts: seq<Step>, n: nat)
    requires Overlapping(ss, acts) && n <= |acts|
    ensures (forall i | 0 <= i <= n :: OneOpen(ss[i].reviews)) <==> (forall i | 0 <= i < n :: !Stale(ss[i], acts[i]))
  {
    if n == 0 {
      assert OneOpen(ss[0].reviews);
    } else {
      OneOpenThroughoutIff(ss, acts, n - 1);
      if OneOpen(ss[n - 1].reviews) {
        assert Next(ss[n - 1], acts[n - 1], ss[n]);
        StepKeepsOneOpenIff(ss[n - 1], acts[n - 1], ss[n]);
      }
    }
  }

  /** With nothing in between, look and insert are the serial creation, and never stale. */
  lemma UninterruptedCreationIsSerial(s: Table, w: Caller, k: Key, s1: Table, s2: Table)
    requires w !in s.absent && Next(s, Look(w, k), s1)
    requires if w in s1.absent then Next(s1, Insert(w), s2) else s2 == s1
    ensures s2 == s.(reviews := Created(s.reviews, k)) && !Stale(s1, Insert(w))
  {
    assert s1.absent - {w} == s.absent;
  }

  /** An assignment is stale for review i when the review was resolved since it was loaded. */
  predicate Overwrites(s: Table, a: Step, i: ReviewId) {
    && a.Assign? && a.w in s.loaded && s.loaded[a.w].id == i && Accepts(s.loaded[a.w], a.d)
    && i < |s.reviews| && s.reviews[i].status == Resolved
  }

  /** A decision that says something else than the review holds; one without a user leaves the decider alone. */
  predicate Differs(r: Review, d: Decision) {
    r.resolution != Some(d.resolution) || r.text != Some(d.text) || (d.user.Some? && r.decider != d.user)
  }

  /** Nobody has decided anything about an open review. */
  predicate Undecided(r: Review) {
    Open(r) ==> r.resolution.None? && r.text.None? && r.decider.None?
  }

  ghost predicate Inv(s: Table) {
    && (forall i | 0 <= i < |s.reviews| :: Undecided(s.reviews[i]))
    && (forall w | w in s.loaded :: Undecided(s.loaded[w].seen))
  }

  lemma StepKeepsInv(s: Table, a: Step, s': Table)
    requires Inv(s) && Next(s, a, s')
    ensures Inv(s')
  {
  }

  lemma {:induction false} OverlappingKeepsInv(ss: seq<Table>, acts: seq<Step>, n: nat)
    requires Overlapping(ss, acts) && n <= |acts|
    ensures Inv(ss[n])
  {
    if n == 0 {
      assert Inv(ss[0]);
    } else {
      OverlappingKeepsInv(ss, acts, n - 1);
      StepKeepsInv(ss[n - 1], acts[n - 1], ss[n]);
    }
  }

  /** At each step, a resolved review changes exactly when a decision that loaded it before says something else. */
  lemma ResolvedChangesIff(s: Table, a: Step, s': Table, i: ReviewId)
    requires Inv(s) && Next(s, a, s') && i < |s.reviews| && s.reviews[i].status == Resolved
    ensures i < |s'.reviews| && s'.reviews[i].status == Resolved
    ensures s'.reviews[i] != s.reviews[i] <==> Overwrites(s, a, i) && Differs(s.reviews[i], a.d)
  {
    if Overwrites(s, a, i) {
      assert Undecided(s.loaded[a.w].seen);
    }
  }

  /** Over every interleaving, from step m to step n: a resolved review keeps its resolution, text and decider
      throughout exactly when no decision that loaded it before says something else. */
  lemma {:induction false} ResolvedThroughoutIff(ss: seq<Table>, acts: seq<Step>, i: ReviewId, m: nat, n: nat)
    requires Overlapping(ss, acts) && m <= n <= |acts| && i < |ss[m].reviews| && ss[m].reviews[i].status == Resolved
    ensures i < |ss[n].reviews| && ss[n].reviews[i].status == Resolved
    ensures (forall k | m <= k <= n :: i < |ss[k].reviews| && ss[k].reviews[i] == ss[m].reviews[i])
            <==> forall k | m <= k < n :: !(Overwrites(ss[k], acts[k], i) && Differs(ss[m].reviews[i], acts[k].d))
  {
    if m == n {
      assert ss[m].reviews[i] == ss[m].reviews[i];
    } else {
      ResolvedThroughoutIff(ss, acts, i, m, n - 1);
      OverlappingKeepsInv(ss, acts, n - 1);
      assert Next(ss[n - 1], acts[n - 1], ss[n]);
      ResolvedChangesIff(ss[n - 1], acts[n - 1], ss[n], i);
    }
  }

  /** With nothing in between, load and assignment are the serial decision. */
  lemma UninterruptedDecisionIsSerial(s: Table, w: Caller, i: ReviewId, d: Decision, s1: Table, s2: Table)
    requires Next(s, Load(w, i), s1) && Next(s1, Assign(w, d), s2)
    ensures s2 == s.(reviews := ResolvedOne(s.reviews, i, d)) && !Overwrites(s1, Assign(w, d), i)
  {
    assert s1.loaded - {w} == s.loaded;
    assert s1.loaded[w] == Copy(i, s.reviews[i]);
  }

  /** Two people load an open review; the second to assign overwrites the first one's decision. */
  lemma BothAssign(s: Table, i: ReviewId, first: Decision, second: Decision) returns (ts: seq<Table>)
    requires i < |s.reviews| && Open(s.reviews[i]) && s.reviews[i].resolution.None?
    requires 1 !in s.loaded && 2 !in s.loaded
    requires first.resolution == "approve" && second.resolution == "reject"
    ensures |ts| == 5 && ts[0] == s
    ensures Next(s, Load(1, i), ts[1]) && Next(ts[1], Load(2, i), ts[2])
    ensures Next(ts[2], Assign(1, first), ts[3]) && Next(ts[3], Assign(2, second), ts[4])
    ensures |ts[3].reviews| == |ts[4].reviews| == |s.reviews|
    ensures ts[3].reviews[i].resolution == Some("approve") && ts[4].reviews[i].resolution == Some("reject")
  {
    var c := Copy(i, s.reviews[i]);
    var s1 := s.(loaded := s.loaded[1 := c]);
    var s2 := s1.(loaded := s1.loaded[2 := c]);
    var s3 := s2.(reviews := AfterAssign(s2.reviews, c, first), loaded := s2.loaded - {1});
    var s4 := s3.(reviews := AfterAssign(s3.reviews, c, second), loaded := s3.loaded - {2});
    ts := [s, s1, s2, s3, s4];
  }

  lemma SecondDecisionOverwrites(k: Key, first: Decision, second: Decision) returns (ss: seq<Table>, acts: seq<Step>)
    requires first.resolution == "approve" && second.resolution == "reject"
    ensures acts == [Look(0, k), Insert(0), Load(1, 0), Load(2, 0), Assign(1, first), Assign(2, second)]
    ensures Overlapping(ss, acts) && |ss[5].reviews| == |ss[6].reviews| == 1
    ensures ss[5].reviews[0].resolution == Some("approve") && ss[6].reviews[0].resolution == Some("reject")
  {
    acts := [Look(0, k), Insert(0), Load(1, 0), Load(2, 0), Assign(1, first), Assign(2, second)];
    var s0 := Table([], map[], map[]);
    var s1 := s0.(absent := s0.absent[0 := k]);
    var s2 := s1.(reviews := s1.reviews + [NewReview(k)], absent := s1.absent - {0});
    assert Next(s0, Look(0, k), s1) && Next(s1, Insert(0), s2);
    var ts := BothAssign(s2, 0, first, second);
    ss := [s0, s1, s2, ts[1], ts[2], ts[3], ts[4]];
  }

  /** Two calls that both look before either inserts leave two open reviews of one key. */
  lemma OverlappingCreationsOpenTwo(k: Key) returns (ss: seq<Table>, acts: seq<Step>)
    ensures Overlapping(ss, acts) && acts == [Look(0, k), Look(1, k), Insert(0), Insert(1)]
    ensures OpenAt(ss[4].reviews, k, 0) && OpenAt(ss[4].reviews, k, 1)
  {
    acts := [Look(0, k), Look(1, k), Insert(0), Insert(1)];
    var s0 := Table([], map[], map[]);
    var s1 := s0.(absent := s0.absent[0 := k]);
    var s2 := s1.(absent := s1.absent[1 := k]);
    var s3 := s2.(reviews := s2.reviews + [NewReview(s2.absent[0])], absent := s2.absent - {0});
    var s4 := s3.(reviews := s3.reviews + [NewReview(s3.absent[1])], absent := s3.absent - {1});
    ss := [s0, s1, s2, s3, s4];
    assert Next(s0, acts[0], s1) && Next(s1, acts[1], s2) && Next(s2, acts[2], s3) && Next(s3, acts[3], s4);
  }
}
