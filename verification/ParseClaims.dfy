/** The document-parse protocol: at-least-once delivery, a primary-key claim taken inside the worker's
    transaction, a commit in the middle of the work, crashes at any point, and a re-enqueuing sweeper. */
module ParseClaims {
  import opened Options

  type Doc = nat
  type Exec = nat

  datatype JobStatus = Processing | Done | JobFailed

  /** A committed claim. `owner` is the execution whose insert it was. */
  datatype Job = Job(status: JobStatus, owner: Exec)

  /** One extraction result row, with the execution that wrote it. */
  datatype Row = Row(doc: Doc, writer: Exec)

  /** The committed tables. */
  datatype Tables = Tables(jobs: map<Doc, Job>, rows: seq<Row>)

  // ---------------------------------------------------------------------
  // What each commit of a worker makes visible.
  // ---------------------------------------------------------------------

  /** The commit inside parsing: the claim, still in processing, and the first row. */
  function CommitMidway(t: Tables, d: Doc, e: Exec): Tables {
    Tables(t.jobs[d := Job(Processing, e)], t.rows + [Row(d, e)])
  }

  /** The worker's own commit on success: one more row and the claim done. */
  function CommitDone(t: Tables, d: Doc, e: Exec): Tables {
    Tables(t.jobs[d := Job(Done, e)], t.rows + [Row(d, e)])
  }

  /** The worker's own commit on a document or request it cannot resolve. */
  function CommitFailed(t: Tables, d: Doc, e: Exec): Tables {
    t.(jobs := t.jobs[d := Job(JobFailed, e)])
  }

  // ---------------------------------------------------------------------
  // The protocol as interleaved steps.
  // ---------------------------------------------------------------------

  /** Claiming and Returned hold an uncommitted claim; Midway's claim is committed. */
  datatype Phase = Started | Claiming | Returned(found: bool) | Midway | Finished

  datatype Execution = Execution(doc: Doc, hasRequest: bool, phase: Phase)

  datatype Message = Message(doc: Doc, hasRequest: bool)

  datatype State = State(
    t: Tables,
    execs: map<Exec, Execution>,
    documents: set<Doc>,
    queue: set<Message>,
    swept: set<Message>)

  datatype Step =
    | Upload(doc: Doc)
    | Enqueue(msg: Message)
    | Deliver(e: Exec, msg: Message)
    | TryClaim(e: Exec)
    | ParseWithoutCommit(e: Exec, found: bool)
    | ParseAndCommit(e: Exec)
    | Finish(e: Exec)
    | Crash(e: Exec)
    | SweepSelect(msg: Message)
    | SweepEnqueue(msg: Message)

  predicate HoldsClaim(x: Execution) { x.phase == Claiming || x.phase.Returned? }

  ghost predicate Blocked(s: State, d: Doc) {
    exists e | e in s.execs :: s.execs[e].doc == d && HoldsClaim(s.execs[e])
  }

  function Moved(s: State, e: Exec, phase: Phase): map<Exec, Execution>
    requires e in s.execs
  {
    s.execs[e := s.execs[e].(phase := phase)]
  }

  ghost predicate Next(s: State, a: Step, s': State) {
    match a
    case Upload(d) => s' == s.(documents := s.documents + {d})
    case Enqueue(m) => m.doc in s.documents && s' == s.(queue := s.queue + {m})
    // A message may be delivered any number of times: nothing is removed from the queue.
    case Deliver(e, m) =>
      m in s.queue && e !in s.execs && s' == s.(execs := s.execs[e := Execution(m.doc, m.hasRequest, Started)])
    // A second insert of the key waits for the first transaction, then fails iff that one committed.
    case TryClaim(e) =>
      && e in s.execs && s.execs[e].phase == Started && !Blocked(s, s.execs[e].doc)
      && s' == s.(execs := Moved(s, e, if s.execs[e].doc in s.t.jobs then Finished else Claiming))
    case ParseWithoutCommit(e, found) =>
      e in s.execs && s.execs[e].phase == Claiming && s' == s.(execs := Moved(s, e, Returned(found)))
    case ParseAndCommit(e) =>
      && e in s.execs && s.execs[e].phase == Claiming
      && s' == s.(execs := Moved(s, e, Midway), t := CommitMidway(s.t, s.execs[e].doc, e))
    case Finish(e) =>
      && e in s.execs && (s.execs[e].phase == Midway || s.execs[e].phase.Returned?)
      && (var x := s.execs[e];
          var ok := x.hasRequest && (x.phase.Returned? ==> x.phase.found);
          s' == s.(execs := Moved(s, e, Finished),
                   t := if ok then CommitDone(s.t, x.doc, e) else CommitFailed(s.t, x.doc, e)))
    // Whatever is uncommitted is rolled back, a claim included.
    case Crash(e) =>
      e in s.execs && s.execs[e].phase != Finished && s' == s.(execs := Moved(s, e, Finished))
    case SweepSelect(m) =>
      m.doc in s.documents && m.doc !in s.t.jobs && s' == s.(swept := s.swept + {m})
    case SweepEnqueue(m) =>
      m in s.swept && s' == s.(swept := s.swept - {m}, queue := s.queue + {m})
  }

  ghost predicate Init(s: State) {
    s == State(Tables(map[], []), map[], {}, {}, {})
  }

  ghost predicate Run(ss: seq<State>, acts: seq<Step>) {
    && |ss| == |acts| + 1 && Init(ss[0])
    && forall i | 0 <= i < |acts| :: Next(ss[i], acts[i], ss[i + 1])
  }

  // ---------------------------------------------------------------------
  // The invariant.
  // ---------------------------------------------------------------------

  function RowsOf(t: Tables, d: Doc): nat
    requires d in t.jobs
  {
    multiset(t.rows)[Row(d, t.jobs[d].owner)]
  }

  ghost predicate RowsOwned(t: Tables) {
    && (forall r | r in t.rows :: r.doc in t.jobs && t.jobs[r.doc].owner == r.writer)
    && (forall d | d in t.jobs ::
          match t.jobs[d].status
          case Processing => RowsOf(t, d) == 1
          case Done => 1 <= RowsOf(t, d) <= 2
          case JobFailed => RowsOf(t, d) <= 1)
  }

  ghost predicate ExecOk(s: State, e: Exec)
    requires e in s.execs
  {
    var x := s.execs[e];
    && (HoldsClaim(x) ==> x.doc !in s.t.jobs)
    && (x.phase == Midway ==> x.doc in s.t.jobs && s.t.jobs[x.doc] == Job(Processing, e))
    && (forall f | f in s.execs && f != e && HoldsClaim(x) && HoldsClaim(s.execs[f]) :: s.execs[f].doc != x.doc)
  }

  ghost predicate OwnerOk(s: State, d: Doc)
    requires d in s.t.jobs
  {
    var e := s.t.jobs[d].owner;
    && e in s.execs && s.execs[e].doc == d && (s.execs[e].phase == Midway || s.execs[e].phase == Finished)
    && (s.t.jobs[d].status != Processing ==> s.execs[e].phase == Finished)
  }

  ghost predicate Inv(s: State) {
    RowsOwned(s.t) && (forall e | e in s.execs :: ExecOk(s, e)) && (forall d | d in s.t.jobs :: OwnerOk(s, d))
  }

  lemma MidwayKeepsRows(t: Tables, d: Doc, e: Exec)
    requires RowsOwned(t) && d !in t.jobs
    ensures RowsOwned(CommitMidway(t, d, e))
  {
    assert Row(d, e) !in t.rows;
  }

  lemma DoneKeepsRows(t: Tables, d: Doc, e: Exec)
    requires RowsOwned(t) && (d in t.jobs ==> t.jobs[d] == Job(Processing, e))
    ensures RowsOwned(CommitDone(t, d, e))
  {
    var t' := CommitDone(t, d, e);
    assert d !in t.jobs ==> Row(d, e) !in t.rows;
    assert RowsOf(t', d) == multiset(t.rows)[Row(d, e)] + 1;
    forall x | x in t.jobs && x != d ensures RowsOf(t', x) == RowsOf(t, x) {
    }
  }

  lemma FailedKeepsRows(t: Tables, d: Doc, e: Exec)
    requires RowsOwned(t) && (d in t.jobs ==> t.jobs[d] == Job(Processing, e))
    ensures RowsOwned(CommitFailed(t, d, e))
  {
    assert d !in t.jobs ==> Row(d, e) !in t.rows;
  }

  lemma NextKeepsRows(s: State, a: Step, s': State)
    requires Inv(s) && Next(s, a, s')
    ensures RowsOwned(s'.t)
  {
    if a.ParseAndCommit? || a.Finish? {
      assert ExecOk(s, a.e);
      var d := s.execs[a.e].doc;
      if a.ParseAndCommit? {
        MidwayKeepsRows(s.t, d, a.e);
      } else {
        DoneKeepsRows(s.t, d, a.e);
        FailedKeepsRows(s.t, d, a.e);
      }
    }
  }

  lemma NextKeepsExec(s: State, a: Step, s': State, e: Exec)
    requires Inv(s) && Next(s, a, s') && e in s'.execs
    ensures ExecOk(s', e)
  {
    assert e in s.execs ==> ExecOk(s, e);
    if a.ParseAndCommit? || a.Finish? {
      assert ExecOk(s, a.e);
    }
  }

  lemma NextKeepsOwner(s: State, a: Step, s': State, d: Doc)
    requires Inv(s) && Next(s, a, s') && d in s'.t.jobs
    ensures OwnerOk(s', d)
  {
    assert d in s.t.jobs ==> OwnerOk(s, d);
    if a.ParseAndCommit? || a.Finish? {
      assert ExecOk(s, a.e);
    }
  }

  lemma NextKeepsInv(s: State, a: Step, s': State)
    requires Inv(s) && Next(s, a, s')
    ensures Inv(s')
  {
    NextKeepsRows(s, a, s');
    forall e | e in s'.execs ensures ExecOk(s', e) {
      NextKeepsExec(s, a, s', e);
    }
    forall d | d in s'.t.jobs ensures OwnerOk(s', d) {
      NextKeepsOwner(s, a, s', d);
    }
  }

  lemma {:induction false} RunKeepsInv(ss: seq<State>, acts: seq<Step>, i: nat)
    requires Run(ss, acts) && i < |ss|
    ensures Inv(ss[i])
  {
    if i == 0 {
    } else {
      RunKeepsInv(ss, acts, i - 1);
      NextKeepsInv(ss[i - 1], acts[i - 1], ss[i]);
    }
  }

  // ---------------------------------------------------------------------
  // Main results, for every run.
  // ---------------------------------------------------------------------

  /** All committed rows of a document come from one execution, the owner of its claim, and there are at most two. */
  lemma OneExecutionPerDocument(ss: seq<State>, acts: seq<Step>, i: nat, d: Doc)
    requires Run(ss, acts) && i < |ss|
    ensures forall r, q | r in ss[i].t.rows && q in ss[i].t.rows && r.doc == q.doc :: r.writer == q.writer
    ensures d in ss[i].t.jobs ==> RowsOf(ss[i].t, d) <= 2
    ensures (exists r :: r in ss[i].t.rows && r.doc == d) ==> d in ss[i].t.jobs
  {
    RunKeepsInv(ss, acts, i);
  }

  lemma NextKeepsClaims(ss: seq<State>, acts: seq<Step>, i: nat, d: Doc)
    requires Run(ss, acts) && i < |acts| && d in ss[i].t.jobs
    ensures d in ss[i + 1].t.jobs && ss[i + 1].t.jobs[d].owner == ss[i].t.jobs[d].owner
    ensures ss[i + 1].t.jobs[d].status == ss[i].t.jobs[d].status || ss[i].t.jobs[d].status == Processing
  {
    RunKeepsInv(ss, acts, i);
    var s, a := ss[i], acts[i];
    assert Next(s, a, ss[i + 1]);
    if a.ParseAndCommit? || a.Finish? {
      assert ExecOk(s, a.e);
    }
  }

  /** A committed claim never disappears or changes owner, and done and failed are final. */
  lemma {:induction false} ClaimsAreForever(ss: seq<State>, acts: seq<Step>, i: nat, j: nat, d: Doc)
    requires Run(ss, acts) && i <= j < |ss| && d in ss[i].t.jobs
    ensures d in ss[j].t.jobs && ss[j].t.jobs[d].owner == ss[i].t.jobs[d].owner
    ensures ss[j].t.jobs[d].status == ss[i].t.jobs[d].status || ss[i].t.jobs[d].status == Processing
  {
    if i == j {
    } else {
      ClaimsAreForever(ss, acts, i, j - 1, d);
      NextKeepsClaims(ss, acts, j - 1, d);
    }
  }

  /** The sweeper never selects a document whose claim has been committed at any earlier point. */
  lemma SweeperSkipsClaimedDocuments(ss: seq<State>, acts: seq<Step>, i: nat, j: nat)
    requires Run(ss, acts) && i <= j < |acts| && acts[j].SweepSelect?
    ensures acts[j].msg.doc !in ss[i].t.jobs
  {
    assert Next(ss[j], acts[j], ss[j + 1]);
    if acts[j].msg.doc in ss[i].t.jobs {
      ClaimsAreForever(ss, acts, i, j, acts[j].msg.doc);
      assert false;
    }
  }

  /** A document without a committed claim can be swept at any time, and then its message is in the queue again. */
  lemma SweeperRequeues(s: State, m: Message) returns (s1: State, s2: State)
    requires m.doc in s.documents && m.doc !in s.t.jobs
    ensures Next(s, SweepSelect(m), s1) && Next(s1, SweepEnqueue(m), s2)
    ensures m in s2.queue && s.queue <= s2.queue && s2.t == s.t && s2.execs == s.execs
  {
    s1 := s.(swept := s.swept + {m});
    s2 := s1.(swept := s1.swept - {m}, queue := s1.queue + {m});
  }

  /** A crash gives the claim back, so that a retry can take it, exactly when it strikes before the commit
      inside parsing. */
  lemma CrashIsRetryableIff(ss: seq<State>, acts: seq<Step>, i: nat)
    requires Run(ss, acts) && i < |acts| && acts[i].Crash?
    requires acts[i].e in ss[i].execs && ss[i].execs[acts[i].e].phase != Started
    ensures ss[i].execs[acts[i].e].doc !in ss[i + 1].t.jobs <==> ss[i].execs[acts[i].e].phase != Midway
  {
    RunKeepsInv(ss, acts, i);
    assert Next(ss[i], acts[i], ss[i + 1]);
    assert ExecOk(ss[i], acts[i].e);
  }

  /** d's claim is committed as processing, and the execution that owns it is over. */
  predicate Stranded(s: State, d: Doc) {
    && d in s.t.jobs && s.t.jobs[d].status == Processing
    && s.t.jobs[d].owner in s.execs && s.execs[s.t.jobs[d].owner].phase == Finished
  }

  lemma StrandedStep(ss: seq<State>, acts: seq<Step>, i: nat, d: Doc)
    requires Run(ss, acts) && i < |acts| && Stranded(ss[i], d)
    ensures Stranded(ss[i + 1], d) && RowsOf(ss[i + 1].t, d) == RowsOf(ss[i].t, d)
  {
    RunKeepsInv(ss, acts, i);
    var s, a := ss[i], acts[i];
    assert Next(s, a, ss[i + 1]);
    if a.ParseAndCommit? || a.Finish? {
      assert ExecOk(s, a.e);
    }
  }

  /** A stranded document stays so: no delivery, retry or sweep ever finishes it. */
  lemma {:induction false} StrandedForever(ss: seq<State>, acts: seq<Step>, i: nat, j: nat, d: Doc)
    requires Run(ss, acts) && i <= j < |ss| && Stranded(ss[i], d)
    ensures Stranded(ss[j], d) && RowsOf(ss[j].t, d) == RowsOf(ss[i].t, d)
    ensures ss[j].t.jobs[d].status == Processing
  {
    if i == j {
    } else {
      StrandedForever(ss, acts, i, j - 1, d);
      StrandedStep(ss, acts, j - 1, d);
    }
  }

  /** A crash strands its document exactly when it strikes midway. */
  lemma CrashStrandsIff(ss: seq<State>, acts: seq<Step>, i: nat)
    requires Run(ss, acts) && i < |acts| && acts[i].Crash? && acts[i].e in ss[i].execs
    ensures var x := ss[i].execs[acts[i].e];
            x.phase == Midway <==> Stranded(ss[i + 1], x.doc) && !Stranded(ss[i], x.doc)
  {
    RunKeepsInv(ss, acts, i);
    assert Next(ss[i], acts[i], ss[i + 1]);
    assert ExecOk(ss[i], acts[i].e);
    var d := ss[i].execs[acts[i].e].doc;
    assert d in ss[i].t.jobs ==> OwnerOk(ss[i], d);
  }

  /** Stranding does happen: one upload, one delivery, one crash between the two commits. */
  lemma StrandingHappens(d: Doc, e: Exec) returns (ss: seq<State>, acts: seq<Step>)
    ensures Run(ss, acts) && Stranded(ss[|acts|], d)
  {
    var m := Message(d, true);
    var s0 := State(Tables(map[], []), map[], {}, {}, {});
    var s1 := s0.(documents := s0.documents + {d});
    var s2 := s1.(queue := s1.queue + {m});
    var s3 := s2.(execs := s2.execs[e := Execution(d, true, Started)]);
    var s4 := s3.(execs := Moved(s3, e, Claiming));
    var s5 := s4.(execs := Moved(s4, e, Midway), t := CommitMidway(s4.t, d, e));
    var s6 := s5.(execs := Moved(s5, e, Finished));
    ss := [s0, s1, s2, s3, s4, s5, s6];
    acts := [Upload(d), Enqueue(m), Deliver(e, m), TryClaim(e), ParseAndCommit(e), Crash(e)];
    assert Next(s0, acts[0], s1) && Next(s1, acts[1], s2) && Next(s2, acts[2], s3);
    assert Next(s3, acts[3], s4) && Next(s4, acts[4], s5) && Next(s5, acts[5], s6);
  }

  // ---------------------------------------------------------------------
  // One worker by itself.
  // ---------------------------------------------------------------------

  /** What parsing came to: it may raise, find no document, return early, or commit its own row. */
  datatype Parse = Raised | NotFound | Diagnosed | Extracted

  /** What the job body answers and leaves committed. An answer of None passes the exception on to the queue. */
  ghost predicate Worked(t: Tables, t': Tables, r: Option<bool>, e: Exec, d: Doc, hasRequest: bool, parse: Parse,
                         late: bool)
  {
    if d in t.jobs then r == Some(true) && t' == t
    else match parse
      case Raised => r == None && t' == t
      case NotFound => r == Some(false) && t' == CommitFailed(t, d, e)
      case Diagnosed =>
        if !hasRequest then r == Some(false) && t' == CommitFailed(t, d, e)
        else if late then r == None && t' == t
        else r == Some(true) && t' == CommitDone(t, d, e)
      case Extracted =>
        var mid := CommitMidway(t, d, e);
        if !hasRequest then r == Some(false) && t' == CommitFailed(mid, d, e)
        else if late then r == None && t' == mid
        else r == Some(true) && t' == CommitDone(mid, d, e)
  }

  class Database {
    var committed: Tables

    constructor ()
      ensures committed == Tables(map[], [])
    {
      committed := Tables(map[], []);
    }

    /** The worker's job body with nobody else around. `lateFailure` is an exception after the parse returned. */
    method ProcessDocument(e: Exec, d: Doc, hasRequest: bool, parse: Parse, lateFailure: bool) returns (r: Option<bool>)
      modifies this
      ensures Worked(old(committed), committed, r, e, d, hasRequest, parse, lateFailure)
    {
      var working := committed;
      if d in working.jobs {
        return Some(true);
      }
      working := working.(jobs := working.jobs[d := Job(Processing, e)]);
      if parse == Raised {
        return None;
      }
      if parse == Extracted {
        working := working.(rows := working.rows + [Row(d, e)]);
        committed := working;
      }
      if parse == NotFound || !hasRequest {
        working := working.(jobs := working.jobs[d := Job(JobFailed, e)]);
        committed := working;
        return Some(false);
      }
      working := working.(rows := working.rows + [Row(d, e)]);
      if lateFailure {
        return None;
      }
      working := working.(jobs := working.jobs[d := Job(Done, e)]);
      committed := working;
      return Some(true);
    }
  }

  /** ss is a path of the protocol with the steps acts. */
  ghost predicate Path(ss: seq<State>, acts: seq<Step>) {
    |ss| == |acts| + 1 && forall i | 0 <= i < |acts| :: Next(ss[i], acts[i], ss[i + 1])
  }

  lemma OneMore(ss: seq<State>, acts: seq<Step>, a: Step, s': State)
    requires Path(ss, acts) && Next(ss[|acts|], a, s')
    ensures Path(ss + [s'], acts + [a])
  {
    forall i | 0 <= i < |acts + [a]| ensures Next((ss + [s'])[i], (acts + [a])[i], (ss + [s'])[i + 1]) {
      if i < |acts| {
        assert Next(ss[i], acts[i], ss[i + 1]);
      }
    }
  }

  /** Where parsing leaves the execution. */
  function PhaseAfter(parse: Parse): Phase {
    match parse
    case Raised => Claiming
    case NotFound => Returned(false)
    case Diagnosed => Returned(true)
    case Extracted => Midway
  }

  lemma ParseIsAStep(s: State, e: Exec, parse: Parse) returns (a: Step, s': State)
    requires e in s.execs && s.execs[e].phase == Claiming && parse != Raised
    ensures Next(s, a, s') && s'.execs == Moved(s, e, PhaseAfter(parse))
    ensures s'.t == if parse == Extracted then CommitMidway(s.t, s.execs[e].doc, e) else s.t
  {
    s' := s.(execs := Moved(s, e, PhaseAfter(parse)));
    if parse == Extracted {
      a := ParseAndCommit(e);
      s' := s'.(t := CommitMidway(s.t, s.execs[e].doc, e));
    } else {
      a := ParseWithoutCommit(e, parse == Diagnosed);
    }
  }

  lemma EndIsAStep(s: State, e: Exec, t0: Tables, t': Tables, r: Option<bool>, parse: Parse, late: bool)
      returns (a: Step, s': State)
    requires e in s.execs && s.execs[e].phase == PhaseAfter(parse) && s.execs[e].doc !in t0.jobs
    requires s.t == if parse == Extracted then CommitMidway(t0, s.execs[e].doc, e) else t0
    requires Worked(t0, t', r, e, s.execs[e].doc, s.execs[e].hasRequest, parse, late)
    ensures Next(s, a, s') && s'.t == t' && s'.execs == Moved(s, e, Finished)
  {
    s' := s.(execs := Moved(s, e, Finished), t := t');
    a := if parse == Raised || (parse != NotFound && s.execs[e].hasRequest && late) then Crash(e) else Finish(e);
  }

  /** The job body is a run of the protocol: from any state in which its claim is not blocked, steps of the protocol
      lead to the tables it leaves behind. */
  lemma WorkerFollowsTheProtocol(s: State, e: Exec, t': Tables, r: Option<bool>, parse: Parse, late: bool)
      returns (ss: seq<State>, acts: seq<Step>)
    requires e in s.execs && s.execs[e].phase == Started && !Blocked(s, s.execs[e].doc)
    requires Worked(s.t, t', r, e, s.execs[e].doc, s.execs[e].hasRequest, parse, late)
    ensures Path(ss, acts) && ss[0] == s && ss[|acts|].t == t' && e in ss[|acts|].execs
    ensures ss[|acts|].execs[e] == s.execs[e].(phase := Finished)
  {
    var known := s.execs[e].doc in s.t.jobs;
    var s' := s.(execs := Moved(s, e, if known then Finished else Claiming));
    ss, acts := [s], [];
    OneMore(ss, acts, TryClaim(e), s');
    ss, acts := ss + [s'], acts + [TryClaim(e)];
    if !known {
      var a;
      if parse != Raised {
        a, s' := ParseIsAStep(s', e, parse);
        OneMore(ss, acts, a, s');
        ss, acts := ss + [s'], acts + [a];
      }
      a, s' := EndIsAStep(s', e, s.t, t', r, parse, late);
      OneMore(ss, acts, a, s');
      ss, acts := ss + [s'], acts + [a];
    }
  }

  /** e committed in the middle of its work at some point up to n. */
  ghost predicate WentMidway(ss: seq<State>, n: nat, e: Exec) {
    exists i | 0 <= i <= n && i < |ss| :: e in ss[i].execs && ss[i].execs[e].phase == Midway
  }

  /** An execution that was midway is midway or finished ever after. */
  lemma {:induction false} MidwayIsBehind(ss: seq<State>, acts: seq<Step>, i: nat, n: nat, e: Exec)
    requires Run(ss, acts) && i <= n < |ss| && e in ss[i].execs && ss[i].execs[e].phase == Midway
    ensures e in ss[n].execs && (ss[n].execs[e].phase == Midway || ss[n].execs[e].phase == Finished)
  {
    if i == n {
    } else {
      MidwayIsBehind(ss, acts, i, n - 1, e);
      assert Next(ss[n - 1], acts[n - 1], ss[n]);
    }
  }

  lemma WentMidwayStep(ss: seq<State>, acts: seq<Step>, n: nat, e: Exec)
    requires Run(ss, acts) && 0 < n < |ss|
    ensures WentMidway(ss, n, e) <==> WentMidway(ss, n - 1, e) || (e in ss[n].execs && ss[n].execs[e].phase == Midway)
  {
    if WentMidway(ss, n - 1, e) {
      var i :| 0 <= i <= n - 1 && i < |ss| && e in ss[i].execs && ss[i].execs[e].phase == Midway;
      assert 0 <= i <= n;
    }
  }

  function One(b: bool): nat { if b then 1 else 0 }

  lemma NewClaimRows(s: State, a: Step, s': State, d: Doc)
    requires Inv(s) && Next(s, a, s') && d !in s.t.jobs && d in s'.t.jobs
    ensures var e := s'.t.jobs[d].owner;
            && (a == ParseAndCommit(e) || a == Finish(e)) && e in s.execs && s.execs[e].doc == d
            && s.execs[e].phase == (if a.ParseAndCommit? then Claiming else s.execs[e].phase)
            && (a.Finish? ==> s.execs[e].phase.Returned?)
            && RowsOf(s'.t, d) == One(a.ParseAndCommit?) + One(s'.t.jobs[d].status == Done)
  {
    var e := s'.t.jobs[d].owner;
    assert Row(d, e) !in s.t.rows;
    assert ExecOk(s, e);
  }

  lemma OldClaimRows(s: State, a: Step, s': State, d: Doc)
    requires Inv(s) && Next(s, a, s') && d in s.t.jobs
    ensures d in s'.t.jobs && s'.t.jobs[d].owner == s.t.jobs[d].owner
    ensures RowsOf(s'.t, d) - RowsOf(s.t, d) == One(s'.t.jobs[d].status == Done) - One(s.t.jobs[d].status == Done)
    ensures s.t.jobs[d].owner in s.execs && s'.execs[s.t.jobs[d].owner].phase == Midway ==>
              s.execs[s.t.jobs[d].owner].phase == Midway
  {
    assert OwnerOk(s, d);
    if a.ParseAndCommit? || a.Finish? {
      assert ExecOk(s, a.e);
    }
  }

  /** The rows of every claimed document, over every run: one if its execution committed midway, one if it is done. */
  lemma {:induction false} RowsByHistory(ss: seq<State>, acts: seq<Step>, n: nat, d: Doc)
    requires Run(ss, acts) && n < |ss| && d in ss[n].t.jobs
    ensures RowsOf(ss[n].t, d) == One(WentMidway(ss, n, ss[n].t.jobs[d].owner)) + One(ss[n].t.jobs[d].status == Done)
  {
    assert n > 0;
    var s, a, s' := ss[n - 1], acts[n - 1], ss[n];
    var e := s'.t.jobs[d].owner;
    RunKeepsInv(ss, acts, n - 1);
    assert Next(s, a, s');
    WentMidwayStep(ss, acts, n, e);
    if d in s.t.jobs {
      RowsByHistory(ss, acts, n - 1, d);
      OldClaimRows(s, a, s', d);
      assert OwnerOk(s, d);
      assert s'.execs[e].phase == Midway ==> WentMidway(ss, n - 1, e);
    } else {
      NewClaimRows(s, a, s', d);
      if WentMidway(ss, n - 1, e) {
        var i :| 0 <= i <= n - 1 && i < |ss| && e in ss[i].execs && ss[i].execs[e].phase == Midway;
        MidwayIsBehind(ss, acts, i, n - 1, e);
      }
    }
  }

  /** A document that is done has two rows exactly when its execution committed midway, and one otherwise. */
  lemma DoneHasTwoRowsIff(ss: seq<State>, acts: seq<Step>, n: nat, d: Doc)
    requires Run(ss, acts) && n < |ss| && d in ss[n].t.jobs && ss[n].t.jobs[d].status == Done
    ensures RowsOf(ss[n].t, d) == 2 <==> WentMidway(ss, n, ss[n].t.jobs[d].owner)
    ensures RowsOf(ss[n].t, d) in {1, 2}
  {
    RowsByHistory(ss, acts, n, d);
  }

  /** A document parsed without trouble ends with two rows, both its own execution's. */
  lemma SuccessWritesTwoRows(t: Tables, d: Doc, e: Exec)
    requires RowsOwned(t) && d !in t.jobs
    ensures RowsOf(CommitDone(CommitMidway(t, d, e), d, e), d) == 2
  {
    assert Row(d, e) !in t.rows;
  }
}
