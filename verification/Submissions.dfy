/** A data request: its status machine, the history that replays it, the events announced after commit, and the
    guard that tells at most one approval of it to enqueue the pipeline. */
module Submissions {
  import opened Options

  type RequestId = nat
  type BatchId = nat
  type UserId = nat
  type SupplierId = nat

  datatype Status = Requested | InProgress | Submitted | Review | Approved | Rework | Rejected

  function Allowed(s: Status): set<Status> {
    match s
    case Requested => {InProgress}
    case InProgress => {Submitted}
    case Submitted => {Review}
    case Review => {Approved, Rework, Rejected}
    case Rework => {InProgress}
    case Approved => {}
    case Rejected => {}
  }

  datatype Entry = Entry(before: Option<Status>, after: Status, actor: UserId, reason: Option<string>)

  datatype Request = Request(supplier: Option<SupplierId>, status: Status, batch: Option<BatchId>, history: seq<Entry>)

  datatype Event =
    | RequestAnnounced(id: RequestId, supplier: SupplierId)
    | StatusChanged(id: RequestId, before: Option<Status>, after: Status)
    | SubmissionStarted(id: RequestId)
    | SubmissionCompleted(id: RequestId, batch: BatchId, mode: string)
    | SubmissionApproved(id: RequestId, batchGiven: Option<BatchId>)
    | SubmissionRejected(id: RequestId, reason: Option<string>)

  /** An update call; `known` says whether the actor's row exists, `gaps` what the required-field check answers. */
  datatype Command = Command(to: Status, actor: UserId, known: bool, reason: Option<string>, batch: Option<BatchId>,
                             files: seq<string>, fields: map<string, string>, gaps: bool)

  datatype Refusal =
    NoBatch | NothingToSubmit | BlockingGaps | NotFound | InvalidTransition | NoReason | UnknownReference

  function Blank(s: Option<string>): bool { s.None? || s.value == "" }

  /** The first check that refuses the command, if any. */
  function Refused(q: Option<Request>, c: Command): Option<Refusal> {
    if c.to == Submitted && c.batch.None? then Some(NoBatch)
    else if c.to == Submitted && c.files == [] && c.fields == map[] then Some(NothingToSubmit)
    else if c.to == Submitted && q.Some? && q.value.supplier.Some? && c.gaps then Some(BlockingGaps)
    else if q.None? then Some(NotFound)
    else if c.to !in Allowed(q.value.status) then Some(InvalidTransition)
    else if c.to == Rejected && Blank(c.reason) then Some(NoReason)
    else if !c.known then Some(UnknownReference)
    else None
  }

  function Created(supplier: SupplierId, actor: UserId, note: string): Request {
    Request(Some(supplier), Requested, None, [Entry(None, Requested, actor, Some(note))])
  }

  /** A session that loaded the row before works on its own copy: locking the row does not refresh it. */
  function Seen(stored: Option<Request>, loaded: Option<Request>): Option<Request> {
    if stored.Some? && loaded.Some? then loaded else stored
  }

  /** The row after an update by a session that sees `seen`: only what it assigns changes, its history entry starts
      from the status it sees. */
  function Recorded(stored: Request, seen: Request, c: Command): Request {
    stored.(status := c.to,
            batch := if c.to == Submitted then c.batch else stored.batch,
            history := stored.history + [Entry(Some(seen.status), c.to, c.actor, c.reason)])
  }

  /** The same with a fresh read. */
  function Moved(q: Request, c: Command): Request { Recorded(q, q, c) }

  function Announced(id: RequestId, q: Request, c: Command): seq<Event>
    requires Refused(Some(q), c).None?
  {
    [StatusChanged(id, Some(q.status), c.to)]
    + match c.to
      case InProgress => [SubmissionStarted(id)]
      case Submitted => [SubmissionCompleted(id, c.batch.value, if c.files != [] then "file" else "form")]
      case Approved => [SubmissionApproved(id, c.batch)]
      case Rejected => [SubmissionRejected(id, c.reason)]
      case _ => []
  }

  class Desk {
    var requests: map<RequestId, Request>
    var published: seq<Event>

    constructor ()
      ensures requests == map[] && published == []
    {
      requests, published := map[], [];
    }

    function Find(id: RequestId): (q: Option<Request>)
      reads this
      ensures if id in requests then q == Some(requests[id]) else q == None
    {
      if id in requests then Some(requests[id]) else None
    }

    /** The row and its first history entry go in together or not at all. */
    method CreateAndRequest(id: RequestId, supplier: SupplierId, actor: UserId, note: string, known: bool)
      returns (refusal: Option<Refusal>)
      requires id !in requests
      modifies this
      ensures refusal == if known then None else Some(UnknownReference)
      ensures refusal.None? ==> requests == old(requests)[id := Request(Some(supplier), Requested, None,
                                                                        [Entry(None, Requested, actor, Some(note))])]
      ensures refusal.None? ==> published == old(published)
                                + [RequestAnnounced(id, supplier), StatusChanged(id, None, Requested)]
      ensures refusal.Some? ==> unchanged(this)
    {
      var saved := requests;
      requests := requests[id := Request(Some(supplier), Requested, None, [])];
      requests := requests[id := requests[id].(history := [Entry(None, Requested, actor, Some(note))])];
      if !known {
        requests := saved;
        return Some(UnknownReference);
      }
      published := published + [RequestAnnounced(id, supplier), StatusChanged(id, None, Requested)];
      refusal := None;
    }

    /** Assigns the row before the history insert can fail; a failure rolls both back and announces nothing. `loaded`
        is the session's copy of the row, if it read it earlier. */
    method UpdateSubmissionStatus(id: RequestId, loaded: Option<Request>, c: Command) returns (refusal: Option<Refusal>)
      modifies this
      ensures refusal == Refused(Seen(old(Find(id)), loaded), c)
      ensures refusal.None? ==> id in old(requests)
      ensures refusal.None? ==>
                requests == old(requests)[id := Recorded(old(requests)[id], Seen(old(Find(id)), loaded).value, c)]
      ensures refusal.None? ==> published == old(published) + Announced(id, Seen(old(Find(id)), loaded).value, c)
      ensures refusal.Some? ==> unchanged(this)
    {
      if c.to == Submitted {
        if c.batch.None? {
          return Some(NoBatch);
        }
        if c.files == [] && c.fields == map[] {
          return Some(NothingToSubmit);
        }
        var before := Seen(Find(id), loaded);
        if before.Some? && before.value.supplier.Some? && c.gaps {
          return Some(BlockingGaps);
        }
      }
      if id !in requests {
        return Some(NotFound);
      }
      var saved, current := requests, (if loaded.Some? then loaded.value else requests[id]).status;
      if c.to !in Allowed(current) {
        return Some(InvalidTransition);
      }
      if c.to == Rejected && Blank(c.reason) {
        return Some(NoReason);
      }
      requests := requests[id := requests[id].(status := c.to)];
      if c.to == Submitted && c.batch.Some? {
        requests := requests[id := requests[id].(batch := c.batch)];
      }
      var entry := Entry(Some(current), c.to, c.actor, c.reason);
      requests := requests[id := requests[id].(history := requests[id].history + [entry])];
      if !c.known {
        requests := saved;
        return Some(UnknownReference);
      }
      assert requests == saved[id := Recorded(saved[id], Seen(old(Find(id)), loaded).value, c)];
      published := published + [StatusChanged(id, Some(current), c.to)];
      if c.to == InProgress {
        published := published + [SubmissionStarted(id)];
      } else if c.to == Submitted {
        published := published + [SubmissionCompleted(id, c.batch.value, if c.files != [] then "file" else "form")];
      } else if c.to == Approved {
        published := published + [SubmissionApproved(id, c.batch)];
      } else if c.to == Rejected {
        published := published + [SubmissionRejected(id, c.reason)];
      }
      refusal := None;
    }
  }

  // ---------------------------------------------------------------------
  // Whole lives of one request.
  // ---------------------------------------------------------------------

  function Apply(q: Request, c: Command): Request {
    if Refused(Some(q), c).None? then Moved(q, c) else q
  }

  function Run(q: Request, cs: seq<Command>): Request {
    if cs == [] then q else Apply(Run(q, cs[..|cs| - 1]), cs[|cs| - 1])
  }

  /** What was announced along the way. */
  function Log(id: RequestId, q: Request, cs: seq<Command>): seq<Event> {
    if cs == [] then []
    else
      var before, c := Run(q, cs[..|cs| - 1]), cs[|cs| - 1];
      Log(id, q, cs[..|cs| - 1]) + if Refused(Some(before), c).None? then Announced(id, before, c) else []
  }

  /** Following the history from nothing: each entry starts where the last ended and the table allows it. */
  function Replay(history: seq<Entry>): Option<Status> {
    if history == [] then None
    else
      var e := history[|history| - 1];
      var before := Replay(history[..|history| - 1]);
      if |history| == 1 then (if e.before.None? && e.after == Requested then Some(Requested) else None)
      else if before.Some? && e.before == before && e.after in Allowed(before.value) then Some(e.after)
      else None
  }

  lemma ReplayAppend(history: seq<Entry>, e: Entry)
    requires history != []
    ensures Replay(history + [e])
            == if Replay(history).Some? && e.before == Replay(history) && e.after in Allowed(Replay(history).value)
               then Some(e.after) else None
  {
    assert (history + [e])[..|history|] == history;
  }

  // ---------------------------------------------------------------------
  // What one update asks for, changes and announces.
  // ---------------------------------------------------------------------

  /** The moves a request may make. */
  predicate MayMove(a: Status, b: Status) {
    || (a == Requested && b == InProgress) || (a == InProgress && b == Submitted) || (a == Submitted && b == Review)
    || (a == Review && (b == Approved || b == Rework || b == Rejected)) || (a == Rework && b == InProgress)
  }

  /** A submission must bring a batch and content, and no blocking gaps if a supplier is responsible. */
  predicate Submittable(q: Request, c: Command) {
    c.batch.Some? && (c.files != [] || c.fields != map[]) && !(q.supplier.Some? && c.gaps)
  }

  /** An update goes through exactly when the table allows the move, a rejection is grounded, a submission is complete
      and the actor is known. */
  lemma AcceptedIff(q: Request, c: Command)
    ensures Refused(Some(q), c).None? <==>
            && MayMove(q.status, c.to) && c.known
            && (c.to == Rejected ==> c.reason.Some? && c.reason.value != "")
            && (c.to == Submitted ==> Submittable(q, c))
    ensures Refused(None, c).Some?
  {
  }

  /** And what a refusal says is so. */
  lemma RefusalsAreTrue(q: Option<Request>, c: Command)
    ensures match Refused(q, c)
            case None => true
            case Some(NoBatch) => c.to == Submitted && c.batch.None?
            case Some(NothingToSubmit) => c.to == Submitted && c.files == [] && c.fields == map[]
            case Some(BlockingGaps) => c.to == Submitted && q.Some? && q.value.supplier.Some? && c.gaps
            case Some(NotFound) => q.None?
            case Some(InvalidTransition) => q.Some? && !MayMove(q.value.status, c.to)
            case Some(NoReason) => c.to == Rejected && (c.reason.None? || c.reason.value == "")
            case Some(UnknownReference) => !c.known
  {
  }

  /** An accepted update moves the status, adds one entry that says who moved it from where to where and why, replaces
      the batch if it submits one, and keeps the supplier. */
  lemma MovedExactly(q: Request, c: Command)
    requires Refused(Some(q), c).None?
    ensures var q' := Moved(q, c);
            && q'.status == c.to && q'.supplier == q.supplier && q'.history[..|q.history|] == q.history
            && |q'.history| == |q.history| + 1
            && q'.history[|q.history|] == Entry(Some(q.status), c.to, c.actor, c.reason)
            && q'.batch == if c.to == Submitted then c.batch else q.batch
  {
  }

  /** What is announced of one move: the move itself, and what it means to others, if anything. */
  ghost predicate TellsOf(told: seq<Event>, id: RequestId, e: Entry) {
    && told != [] && told[0] == StatusChanged(id, e.before, e.after)
    && match e.after
       case InProgress => |told| == 2 && told[1] == SubmissionStarted(id)
       case Submitted => |told| == 2 && told[1].SubmissionCompleted? && told[1].id == id
       case Approved => |told| == 2 && told[1].SubmissionApproved? && told[1].id == id
       case Rejected => |told| == 2 && told[1] == SubmissionRejected(id, e.reason)
       case _ => |told| == 1
  }

  function Joined(parts: seq<seq<Event>>): seq<Event> {
    if parts == [] then [] else Joined(parts[..|parts| - 1]) + parts[|parts| - 1]
  }

  /** What a run announces is its history told move by move, in order, and nothing else. */
  lemma {:induction false} LogFollowsHistory(id: RequestId, supplier: SupplierId, actor: UserId, note: string,
                                             cs: seq<Command>) returns (parts: seq<seq<Event>>)
    ensures var q0 := Created(supplier, actor, note);
            && Log(id, q0, cs) == Joined(parts) && |parts| + 1 == |Run(q0, cs).history|
            && forall k | 0 <= k < |parts| :: TellsOf(parts[k], id, Run(q0, cs).history[k + 1])
  {
    var q0 := Created(supplier, actor, note);
    if cs == [] {
      parts := [];
    } else {
      var front, c := cs[..|cs| - 1], cs[|cs| - 1];
      parts := LogFollowsHistory(id, supplier, actor, note, front);
      var q := Run(q0, front);
      if Refused(Some(q), c).None? {
        var told := Announced(id, q, c);
        TellsOfMove(id, q, c);
        assert (parts + [told])[..|parts|] == parts;
        parts := parts + [told];
      } else {
        assert Log(id, q0, front) + [] == Log(id, q0, front);
      }
    }
  }

  lemma TellsOfMove(id: RequestId, q: Request, c: Command)
    requires Refused(Some(q), c).None?
    ensures TellsOf(Announced(id, q, c), id, Moved(q, c).history[|q.history|])
  {
  }

  /** An approval announces the batch its command named, a submission the batch and the mode it came in. */
  lemma PayloadsExactly(id: RequestId, q: Request, c: Command)
    requires Refused(Some(q), c).None?
    ensures c.to == Approved ==> SubmissionApproved(id, c.batch) in Announced(id, q, c)
    ensures c.to == Submitted && c.files != [] ==> SubmissionCompleted(id, c.batch.value, "file") in Announced(id, q, c)
    ensures c.to == Submitted && c.files == [] ==> SubmissionCompleted(id, c.batch.value, "form") in Announced(id, q, c)
  {
    var all := Announced(id, q, c);
    assert c.to in {Approved, Submitted} ==> all[1] in all;
  }

  lemma {:induction false} HistoryReplays(supplier: SupplierId, actor: UserId, note: string, cs: seq<Command>)
    ensures var q := Run(Created(supplier, actor, note), cs); q.history != [] && Replay(q.history) == Some(q.status)
  {
    if cs == [] {
    } else {
      HistoryReplays(supplier, actor, note, cs[..|cs| - 1]);
      var q, c := Run(Created(supplier, actor, note), cs[..|cs| - 1]), cs[|cs| - 1];
      ReplayAppend(q.history, Entry(Some(q.status), c.to, c.actor, c.reason));
    }
  }

  function Count(history: seq<Entry>, s: Status): nat {
    if history == [] then 0
    else Count(history[..|history| - 1], s) + if history[|history| - 1].after == s then 1 else 0
  }

  /** Moves since the request was made or last sent back. */
  function Offset(s: Status): nat {
    match s
    case Requested => 0
    case Rework => 0
    case InProgress => 1
    case Submitted => 2
    case Review => 3
    case Approved => 4
    case Rejected => 4
  }

  /** Any history that replays at all has exactly this shape. */
  lemma {:induction false} HistoryShape(history: seq<Entry>)
    requires Replay(history).Some?
    ensures |history| == 1 + 4 * Count(history, Rework) + Offset(Replay(history).value)
    ensures Count(history, Submitted)
            == Count(history, Rework) + if Offset(Replay(history).value) >= 2 then 1 else 0
    ensures Count(history, InProgress)
            == Count(history, Rework) + if Offset(Replay(history).value) >= 1 then 1 else 0
    ensures Count(history, Approved) + Count(history, Rejected)
            == if Offset(Replay(history).value) == 4 then 1 else 0
  {
    if |history| == 1 {
      assert history[..0] == [];
    } else {
      HistoryShape(history[..|history| - 1]);
    }
  }

  /** Submissions exceed reworks by one exactly in submitted, review, approved and rejected. */
  lemma SubmittedMinusRework(supplier: SupplierId, actor: UserId, note: string, cs: seq<Command>)
    ensures var q := Run(Created(supplier, actor, note), cs);
            Count(q.history, Submitted) - Count(q.history, Rework)
            == if q.status in {Submitted, Review, Approved, Rejected} then 1 else 0
  {
    HistoryReplays(supplier, actor, note, cs);
    HistoryShape(Run(Created(supplier, actor, note), cs).history);
  }

  /** The batch of the last completed submission that was announced. */
  function LastCompleted(log: seq<Event>): Option<BatchId> {
    if log == [] then None
    else if log[|log| - 1].SubmissionCompleted? then Some(log[|log| - 1].batch)
    else LastCompleted(log[..|log| - 1])
  }

  lemma LastCompletedAppend(log: seq<Event>, more: seq<Event>)
    requires 1 <= |more| <= 2 && more[0].StatusChanged?
    ensures LastCompleted(log + more)
            == if |more| == 2 && more[1].SubmissionCompleted? then Some(more[1].batch) else LastCompleted(log)
  {
    if |more| == 2 {
      assert (log + more)[..|log + more| - 1] == log + more[..1];
    }
    assert (log + more[..1])[..|log|] == log;
    assert |more| == 1 ==> log + more == log + more[..1];
  }

  /** The stored batch is the latest submitted one, and there is one as soon as anything was submitted. */
  lemma {:induction false} BatchIsTheLatestSubmitted(id: RequestId, supplier: SupplierId, actor: UserId, note: string,
                                                     cs: seq<Command>)
    ensures var q := Run(Created(supplier, actor, note), cs);
            q.batch == LastCompleted(Log(id, Created(supplier, actor, note), cs))
            && (q.batch.Some? <==> Count(q.history, Submitted) > 0)
  {
    var q0 := Created(supplier, actor, note);
    if cs == [] {
      assert q0.history[..0] == [];
    } else {
      var front, c := cs[..|cs| - 1], cs[|cs| - 1];
      BatchIsTheLatestSubmitted(id, supplier, actor, note, front);
      var q := Run(q0, front);
      if Refused(Some(q), c).None? {
        LastCompletedAppend(Log(id, q0, front), Announced(id, q, c));
        assert Moved(q, c).history[..|q.history|] == q.history;
      } else {
        assert Log(id, q0, front) + [] == Log(id, q0, front);
      }
    }
  }

  lemma {:induction false} RunConcat(q: Request, a: seq<Command>, b: seq<Command>)
    ensures Run(q, a + b) == Run(Run(q, a), b)
  {
    if b == [] {
      assert a + b == a;
    } else {
      assert (a + b)[..|a + b| - 1] == a + b[..|b| - 1];
      RunConcat(q, a, b[..|b| - 1]);
    }
  }

  /** An approved or rejected request never changes again. */
  lemma {:induction false} DecidedIsFinal(q: Request, cs: seq<Command>)
    requires q.status in {Approved, Rejected}
    ensures Run(q, cs) == q
  {
    if cs == [] {
    } else {
      DecidedIsFinal(q, cs[..|cs| - 1]);
    }
  }

  /** Every rejection carries its grounds. */
  lemma {:induction false} RejectionsAreGrounded(q: Request, cs: seq<Command>)
    requires forall e | e in q.history && e.after == Rejected :: !Blank(e.reason)
    ensures forall e | e in Run(q, cs).history && e.after == Rejected :: !Blank(e.reason)
  {
    if cs == [] {
    } else {
      RejectionsAreGrounded(q, cs[..|cs| - 1]);
    }
  }

  /** Approving reads the batch first and acts on it after the transition. Submissions each bring a fresh batch, so
      the two agree exactly when nothing was submitted in between. */
  lemma {:induction false} ApprovalActsOnTheStoredBatchIff(read: Request, between: seq<Command>)
    requires forall c | c in between :: c.batch.Some? ==> c.batch != read.batch
    ensures Run(read, between).batch == read.batch
            <==> Count(Run(read, between).history, Submitted) == Count(read.history, Submitted)
    ensures Count(Run(read, between).history, Submitted) >= Count(read.history, Submitted)
  {
    if between == [] {
    } else {
      var front, c := between[..|between| - 1], between[|between| - 1];
      assert between == front + [c];
      ApprovalActsOnTheStoredBatchIff(read, front);
      var q := Run(read, front);
      assert Moved(q, c).history[..|q.history|] == q.history;
      assert c in between;
    }
  }

  function Step(to: Status, batch: Option<BatchId>): Command {
    Command(to, 1, true, None, batch, ["form.pdf"], map[], false)
  }

  /** It can happen: an approver reads batch 1, the supplier resubmits as batch 2, and the approval still goes
      through. */
  lemma ApprovalCanActOnAnOldBatch() returns (opening: seq<Command>, between: seq<Command>, approval: Command)
    ensures approval.to == Approved && approval.batch == Run(Created(7, 1, "new"), opening).batch == Some(1)
    ensures var q := Run(Run(Created(7, 1, "new"), opening), between);
            q.batch == Some(2) && Refused(Some(q), approval).None?
  {
    opening := [Step(InProgress, None), Step(Submitted, Some(1)), Step(Review, None)];
    var resubmit := [Step(InProgress, None), Step(Submitted, Some(2)), Step(Review, None)];
    var sentBack := [Step(Rework, None)];
    between := sentBack + resubmit;
    approval := Step(Approved, Some(1));
    var read := Run(Created(7, 1, "new"), opening);
    RunThree(Created(7, 1, "new"), opening[0], opening[1], opening[2]);
    assert sentBack[..0] == [];
    assert Run(read, sentBack) == Moved(read, sentBack[0]);
    RunConcat(read, sentBack, resubmit);
    RunThree(Run(read, sentBack), resubmit[0], resubmit[1], resubmit[2]);
  }

  lemma RunThree(q: Request, a: Command, b: Command, c: Command)
    ensures Run(q, [a, b, c]) == Apply(Apply(Apply(q, a), b), c)
  {
    assert [a, b, c][..2] == [a, b] && [a, b][..1] == [a] && [a][..0] == [];
    assert Run(q, [a]) == Apply(q, a);
    assert Run(q, [a, b]) == Apply(Apply(q, a), b);
  }

  // ---------------------------------------------------------------------
  // Overlapping sessions on one request: each may have loaded the row before it updates it.
  // ---------------------------------------------------------------------

  type Session = nat

  datatype Shared = Shared(stored: Request, copies: map<Session, Request>)

  datatype Access = Load(x: Session) | Update(x: Session, c: Command)

  /** What session x acts on: its copy if it has one. */
  function View(s: Shared, x: Session): Request { if x in s.copies then s.copies[x] else s.stored }

  predicate Writes(s: Shared, a: Access) { a.Update? && Refused(Some(View(s, a.x)), a.c).None? }

  /** A later load returns the copy already held; an update ends the session. */
  function Accessed(s: Shared, a: Access): Shared {
    match a
    case Load(x) => s.(copies := s.copies[x := View(s, x)])
    case Update(x, c) =>
      Shared(if Writes(s, a) then Recorded(s.stored, View(s, x), c) else s.stored, s.copies - {x})
  }

  /** The desk's update is such a step: its session sees its own copy if it loaded one, and the stored row otherwise. */
  lemma UpdateIsAnAccess(s: Shared, x: Session, c: Command)
    ensures var loaded := if x in s.copies then Some(s.copies[x]) else None;
            var seen := Seen(Some(s.stored), loaded);
            && seen == Some(if x in s.copies then s.copies[x] else s.stored)
            && Accessed(s, Update(x, c)).stored
               == if Refused(seen, c).None? then Recorded(s.stored, seen.value, c) else s.stored
    ensures forall loaded :: Seen(None, loaded) == None
  {
  }

  function Accesses(s: Shared, accs: seq<Access>): Shared {
    if accs == [] then s else Accessed(Accesses(s, accs[..|accs| - 1]), accs[|accs| - 1])
  }

  /** A write is stale when the stored status is no longer the one its session sees. */
  predicate StaleWrite(s: Shared, a: Access) { Writes(s, a) && View(s, a.x).status != s.stored.status }

  ghost predicate Faithful(q: Request) { q.history != [] && Replay(q.history) == Some(q.status) }

  /** At each step, the history goes on replaying to the status exactly when the step is not a stale write. */
  lemma AccessKeepsFaithfulIff(s: Shared, a: Access)
    requires Faithful(s.stored)
    ensures Faithful(Accessed(s, a).stored) <==> !StaleWrite(s, a)
    ensures StaleWrite(s, a) ==> Replay(Accessed(s, a).stored.history).None?
  {
    if Writes(s, a) {
      ReplayAppend(s.stored.history, Entry(Some(View(s, a.x).status), a.c.to, a.c.actor, a.c.reason));
    }
  }

  lemma BrokenStaysBroken(s: Shared, a: Access)
    requires s.stored.history != [] && Replay(s.stored.history).None?
    ensures Accessed(s, a).stored.history != [] && Replay(Accessed(s, a).stored.history).None?
  {
    if Writes(s, a) {
      ReplayAppend(s.stored.history, Entry(Some(View(s, a.x).status), a.c.to, a.c.actor, a.c.reason));
    }
  }

  predicate StaleAt(s: Shared, accs: seq<Access>, i: nat) {
    i < |accs| && StaleWrite(Accesses(s, accs[..i]), accs[i])
  }

  lemma StaleAtPrefix(s: Shared, accs: seq<Access>, n: nat, i: nat)
    requires i < n <= |accs|
    ensures StaleAt(s, accs[..n], i) <==> StaleAt(s, accs, i)
  {
    assert accs[..n][..i] == accs[..i];
  }

  /** Over every interleaving of sessions: the history replays to the stored status exactly when no write was stale. */
  lemma {:induction false} HistoryReplaysIffNoStaleWrite(s: Shared, accs: seq<Access>)
    requires Faithful(s.stored)
    ensures Faithful(Accesses(s, accs).stored) <==> forall i: nat :: !StaleAt(s, accs, i)
    ensures var h := Accesses(s, accs).stored.history;
            h != [] && (Replay(h).None? || Faithful(Accesses(s, accs).stored))
  {
    if accs == [] {
      assert Accesses(s, accs) == s;
    } else {
      var n, front := |accs| - 1, accs[..|accs| - 1];
      var u, a := Accesses(s, front), accs[n];
      HistoryReplaysIffNoStaleWrite(s, front);
      forall i: nat | i < n ensures StaleAt(s, front, i) <==> StaleAt(s, accs, i) {
        StaleAtPrefix(s, accs, n, i);
      }
      assert StaleAt(s, accs, n) <==> StaleWrite(u, a);
      if Faithful(u.stored) {
        AccessKeepsFaithfulIff(u, a);
      } else {
        BrokenStaysBroken(u, a);
        var i: nat :| StaleAt(s, front, i);
        assert StaleAt(s, accs, i);
      }
    }
  }

  /** A decided request does change after all when a stale write reaches it, and only then. */
  lemma DecidedChangesIff(s: Shared, a: Access)
    requires s.stored.status in {Approved, Rejected}
    ensures Accessed(s, a).stored != s.stored <==> StaleWrite(s, a)
  {
    if Writes(s, a) {
      assert |Recorded(s.stored, View(s, a.x), a.c).history| == |s.stored.history| + 1;
    }
  }

  /** Two sessions load a request in review; one rejects it, then the other approves it. */
  lemma ApprovalOverARejection(q: Request)
    requires q.status == Review
    ensures var reject := Step(Rejected, None).(reason := Some("incomplete"));
            var accs := [Load(0), Load(1)] + [Update(0, reject)] + [Update(1, Step(Approved, q.batch))];
            Accesses(Shared(q, map[]), accs[..3]).stored.status == Rejected
            && Accesses(Shared(q, map[]), accs).stored.status == Approved
  {
    var reject := Step(Rejected, None).(reason := Some("incomplete"));
    var loads := [Load(0), Load(1)];
    var s0 := Shared(q, map[]);
    assert loads[..1] == [Load(0)] && [Load(0)][..0] == [];
    assert Accesses(s0, [Load(0)]) == Accessed(s0, Load(0));
    assert Accesses(s0, loads) == Shared(q, map[0 := q, 1 := q]);
    var three := loads + [Update(0, reject)];
    assert three[..2] == loads;
    var accs := three + [Update(1, Step(Approved, q.batch))];
    assert accs[..3] == three;
  }

  // ---------------------------------------------------------------------
  // Starting the pipeline once: any number of processes ask for the same key.
  // ---------------------------------------------------------------------

  type Process = nat

  /** Where a call stands. Writing holds the key's unique index until commit. */
  datatype Stage = Ready | SawNothing | Writing | Told(run: bool) | Dead

  datatype Trigger = Trigger(request: RequestId, stage: Stage)

  /** The calls, and the keys committed to the job table. */
  datatype World = World(calls: map<Process, Trigger>, keys: set<RequestId>)

  datatype Move =
    | Look(p: Process)
    | Insert(p: Process)
    | Commit(p: Process)
    | CommitUnseen(p: Process)
    | Crash(p: Process)

  function At(w: World, p: Process, s: Stage): World
    requires p in w.calls
  {
    w.(calls := w.calls[p := w.calls[p].(stage := s)])
  }

  predicate Held(w: World, r: RequestId) {
    exists p :: p in w.calls && w.calls[p] == Trigger(r, Writing)
  }

  /** A move that is not possible changes nothing. An insert waits for a holder, then fails on a committed key. */
  function NextWorld(w: World, m: Move): World {
    if m.p !in w.calls then w
    else
      var r, s := w.calls[m.p].request, w.calls[m.p].stage;
      match m
      case Look(p) => if s == Ready then At(w, p, if r in w.keys then Told(false) else SawNothing) else w
      case Insert(p) =>
        if s != SawNothing || Held(w, r) then w
        else if r in w.keys then At(w, p, Dead) else At(w, p, Writing)
      case Commit(p) => if s == Writing then At(w, p, Told(true)).(keys := w.keys + {r}) else w
      case CommitUnseen(p) => if s == Writing then At(w, p, Dead).(keys := w.keys + {r}) else w
      case Crash(p) => if s.Told? then w else At(w, p, Dead)
  }

  function RunWorld(w: World, ms: seq<Move>): World {
    if ms == [] then w else NextWorld(RunWorld(w, ms[..|ms| - 1]), ms[|ms| - 1])
  }

  predicate Asked(w: World) {
    w.keys == {} && forall p | p in w.calls :: w.calls[p].stage == Ready
  }

  /** One holder per key and only while the key is not committed; one yes per key and only after. */
  ghost predicate Guarded(w: World) {
    && (forall p | p in w.calls && w.calls[p].stage == Writing :: w.calls[p].request !in w.keys)
    && (forall p | p in w.calls && w.calls[p].stage.Told? :: w.calls[p].request in w.keys)
    && (forall p, q | p in w.calls && q in w.calls && w.calls[p] == w.calls[q] :: 
          w.calls[p].stage in {Writing, Told(true)} ==> p == q)
  }

  lemma GuardStep(w: World, m: Move)
    requires Guarded(w)
    ensures Guarded(NextWorld(w, m)) && NextWorld(w, m).calls.Keys == w.calls.Keys && w.keys <= NextWorld(w, m).keys
    ensures forall p | p in w.calls :: NextWorld(w, m).calls[p].request == w.calls[p].request
  {
    var w' := NextWorld(w, m);
    if w' != w {
      assert w'.calls == w.calls[m.p := w'.calls[m.p]];
      if w'.calls[m.p].stage == Writing {
        assert !Held(w, w.calls[m.p].request);
      }
    }
  }

  lemma {:induction false} GuardHolds(w: World, ms: seq<Move>)
    requires Guarded(w)
    ensures Guarded(RunWorld(w, ms)) && RunWorld(w, ms).calls.Keys == w.calls.Keys && w.keys <= RunWorld(w, ms).keys
    ensures forall p | p in w.calls :: RunWorld(w, ms).calls[p].request == w.calls[p].request
  {
    if ms == [] {
    } else {
      GuardHolds(w, ms[..|ms| - 1]);
      GuardStep(RunWorld(w, ms[..|ms| - 1]), ms[|ms| - 1]);
    }
  }

  predicate ToldToRun(w: World, p: Process) { p in w.calls && w.calls[p].stage == Told(true) }

  /** Whatever the interleaving, at most one call per request is told to run the pipeline. */
  lemma PipelineTriggersAtMostOnce(w: World, ms: seq<Move>, p: Process, q: Process)
    requires Asked(w) && p in w.calls && q in w.calls && w.calls[p].request == w.calls[q].request
    requires ToldToRun(RunWorld(w, ms), p) && ToldToRun(RunWorld(w, ms), q)
    ensures p == q
  {
    GuardHolds(w, ms);
  }

  /** Move i is the one that committed r's key: its process was writing it. */
  predicate CommitsKey(w: World, ms: seq<Move>, i: nat, r: RequestId) {
    && i < |ms| && (ms[i].Commit? || ms[i].CommitUnseen?)
    && ms[i].p in RunWorld(w, ms[..i]).calls && RunWorld(w, ms[..i]).calls[ms[i].p] == Trigger(r, Writing)
  }

  lemma CommitsKeyPrefix(w: World, ms: seq<Move>, i: nat, n: nat, r: RequestId)
    requires i < n <= |ms|
    ensures CommitsKey(w, ms[..n], i, r) <==> CommitsKey(w, ms, i, r)
  {
    assert ms[..n][..i] == ms[..i];
  }

  /** A key is there exactly when one move of the run committed it, and only one did. */
  lemma {:induction false} OneMoveCommitsEachKey(w: World, ms: seq<Move>, r: RequestId)
    requires Asked(w)
    ensures r in RunWorld(w, ms).keys <==> exists i: nat :: CommitsKey(w, ms, i, r)
    ensures forall i: nat, j: nat | CommitsKey(w, ms, i, r) && CommitsKey(w, ms, j, r) :: i == j
  {
    if ms == [] {
      assert RunWorld(w, ms).keys == {};
    } else {
      var n, front := |ms| - 1, ms[..|ms| - 1];
      var u := RunWorld(w, front);
      OneMoveCommitsEachKey(w, front, r);
      GuardHolds(w, front);
      forall i: nat | i < n ensures CommitsKey(w, front, i, r) <==> CommitsKey(w, ms, i, r) {
        CommitsKeyPrefix(w, ms, i, n, r);
      }
      if CommitsKey(w, ms, n, r) {
        assert r !in u.keys && r in RunWorld(w, ms).keys;
        assert forall i: nat | i < n :: !CommitsKey(w, ms, i, r);
      } else {
        assert r in RunWorld(w, ms).keys <==> r in u.keys;
      }
    }
  }

  lemma {:induction false} ToldByTheCommit(w: World, ms: seq<Move>, p: Process)
    requires Asked(w) && p in w.calls
    ensures ToldToRun(RunWorld(w, ms), p)
            <==> exists i: nat :: CommitsKey(w, ms, i, w.calls[p].request) && ms[i] == Commit(p)
  {
    var r := w.calls[p].request;
    if ms == [] {
      assert !ToldToRun(w, p);
    } else {
      var n, front := |ms| - 1, ms[..|ms| - 1];
      var u := RunWorld(w, front);
      ToldByTheCommit(w, front, p);
      GuardHolds(w, front);
      forall i: nat | i < n ensures CommitsKey(w, front, i, r) <==> CommitsKey(w, ms, i, r) {
        CommitsKeyPrefix(w, ms, i, n, r);
      }
      assert ToldToRun(u, p) ==> ToldToRun(RunWorld(w, ms), p);
      assert ToldToRun(RunWorld(w, ms), p) && !ToldToRun(u, p) <==> CommitsKey(w, ms, n, r) && ms[n] == Commit(p);
    }
  }

  /** Exactly when: for a committed key some call is told to run if and only if the move that committed it was one
      whose process lived to answer. That call is then the one that committed. */
  lemma ToldIffTheCommitAnswered(w: World, ms: seq<Move>, r: RequestId, i: nat)
    requires Asked(w) && CommitsKey(w, ms, i, r)
    ensures (exists p :: p in w.calls && w.calls[p].request == r && ToldToRun(RunWorld(w, ms), p)) <==> ms[i].Commit?
    ensures ms[i].Commit? ==> ToldToRun(RunWorld(w, ms), ms[i].p)
  {
    OneMoveCommitsEachKey(w, ms, r);
    GuardHolds(w, ms);
    GuardHolds(w, ms[..i]);
    if p :| p in w.calls && w.calls[p].request == r && ToldToRun(RunWorld(w, ms), p) {
      ToldByTheCommit(w, ms, p);
      var j: nat :| CommitsKey(w, ms, j, r) && ms[j] == Commit(p);
      assert j == i;
    }
    if ms[i].Commit? {
      ToldByTheCommit(w, ms, ms[i].p);
      assert ms[i] == Commit(ms[i].p);
    }
  }

  /** At most, not exactly: once the key is committed and nobody was told, nobody ever will be. */
  lemma {:induction false} LostTriggerStaysLost(w: World, ms: seq<Move>, p: Process)
    requires Guarded(w) && p in w.calls && w.calls[p].request in w.keys && !ToldToRun(w, p)
    ensures !ToldToRun(RunWorld(w, ms), p)
  {
    if ms == [] {
    } else {
      var front := ms[..|ms| - 1];
      LostTriggerStaysLost(w, front, p);
      GuardHolds(w, front);
    }
  }

  /** A call that loses the insert, or whose process dies before it answers, ends without an answer. */
  lemma CallsThatEnd(w: World, p: Process)
    requires p in w.calls && !w.calls[p].stage.Told?
    ensures NextWorld(w, Crash(p)).calls[p].stage == Dead && NextWorld(w, Crash(p)).keys == w.keys
    ensures var r := w.calls[p].request;
            w.calls[p].stage == SawNothing && r in w.keys && !Held(w, r) ==> NextWorld(w, Insert(p)) == At(w, p, Dead)
  {
  }

  lemma CommitUnseenRun(w: World, p: Process, r: RequestId)
    requires w.keys == {} && p in w.calls && w.calls[p] == Trigger(r, Ready) && !Held(w, r)
    ensures RunWorld(w, [Look(p), Insert(p), CommitUnseen(p)]) == At(w, p, Dead).(keys := {r})
  {
    var ms := [Look(p), Insert(p), CommitUnseen(p)];
    assert ms[..2][..1] == ms[..1] && ms[..1][..0] == [];
    assert RunWorld(w, ms[..1]) == NextWorld(w, Look(p));
    assert RunWorld(w, ms[..2]) == NextWorld(RunWorld(w, ms[..1]), Insert(p));
  }

  /** That happens when the process dies between the commit and its answer. */
  lemma TriggerCanBeLost(p: Process, q: Process, r: RequestId, ms: seq<Move>)
    requires p != q
    ensures var w := World(map[p := Trigger(r, Ready), q := Trigger(r, Ready)], {});
            var lost := RunWorld(w, [Look(p), Insert(p), CommitUnseen(p)]);
            Asked(w) && r in lost.keys && !ToldToRun(RunWorld(lost, ms), p) && !ToldToRun(RunWorld(lost, ms), q)
  {
    var w := World(map[p := Trigger(r, Ready), q := Trigger(r, Ready)], {});
    var all := [Look(p), Insert(p), CommitUnseen(p)];
    CommitUnseenRun(w, p, r);
    GuardHolds(w, all);
    LostTriggerStaysLost(RunWorld(w, all), ms, p);
    LostTriggerStaysLost(RunWorld(w, all), ms, q);
  }
}
