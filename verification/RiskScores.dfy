/** A supplier's risk profile and its append-only change history, under the two services that write it:
    additive scoring from violations, and an absolute upsert. */
module RiskScores {
  import opened Options
  import opened Selections

  datatype Level = Low | Medium | High | Critical

  function LevelOf(score: int): Level {
    if score >= 70 then Critical else if score >= 50 then High else if score >= 30 then Medium else Low
  }

  predicate HighRisk(level: Level) { level == High || level == Critical }

  function Clamp(score: int): int {
    if score < 0 then 0 else if score > 100 then 100 else score
  }

  datatype Kind = ComplianceViolation | ComplianceReject | GeoRiskDetected | ComplianceWarning | OtherKind
  datatype Violation = Violation(kind: Kind, reason: string)

  function Weight(kind: Kind): nat {
    match kind
    case ComplianceViolation | ComplianceReject => 50
    case GeoRiskDetected => 30
    case ComplianceWarning => 15
    case OtherKind => 0
  }

  function Points(vs: seq<Violation>): nat {
    if vs == [] then 0 else Points(vs[..|vs| - 1]) + Weight(vs[|vs| - 1].kind)
  }

  function Reasons(vs: seq<Violation>): seq<string> {
    if vs == [] then []
    else Reasons(vs[..|vs| - 1]) + if vs[|vs| - 1].reason != "" then [vs[|vs| - 1].reason] else []
  }

  datatype Profile = Profile(score: int, level: Level, highRiskFlag: bool, reasons: seq<string>)

  const NEW_PROFILE := Profile(0, Low, false, [])

  datatype Change = Change(fromScore: Option<int>, toScore: int, fromLevel: Option<Level>, toLevel: Level)

  datatype Ledger = Ledger(profile: Option<Profile>, history: seq<Change>)

  /** The state transition of a profile: score clamped, everything else derived from it. */
  function Move(score: int, reasons: seq<string>): Profile {
    var s := Clamp(score);
    Profile(s, LevelOf(s), HighRisk(LevelOf(s)), reasons)
  }

  function Scored(l: Ledger, vs: seq<Violation>): Ledger {
    var p := if l.profile.Some? then l.profile.value else NEW_PROFILE;
    var q := Move(p.score + Points(vs), p.reasons + Reasons(vs));
    Ledger(Some(q), l.history + if p.score != q.score || p.level != q.level
                                then [Change(Some(p.score), q.score, Some(p.level), q.level)] else [])
  }

  function Upserted(l: Ledger, score: int): Ledger {
    var s := Clamp(score);
    var q := match l.profile
             case None => Profile(s, LevelOf(s), false, [])
             case Some(p) => p.(score := s, level := LevelOf(s));
    var fromScore := if l.profile.Some? then Some(l.profile.value.score) else None;
    var fromLevel := if l.profile.Some? then Some(l.profile.value.level) else None;
    Ledger(Some(q), l.history + if fromScore != Some(s) || fromLevel != Some(LevelOf(s))
                                then [Change(fromScore, s, fromLevel, LevelOf(s))] else [])
  }

  // ---------------------------------------------------------------------
  // What one write makes of a profile.
  // ---------------------------------------------------------------------

  /** How many of the violations are of this kind. */
  function Found(vs: seq<Violation>, kind: Kind): nat {
    multiset(seq(|vs|, i requires 0 <= i < |vs| => vs[i].kind))[kind]
  }

  lemma FoundNext(vs: seq<Violation>, v: Violation, kind: Kind)
    ensures Found(vs + [v], kind) == Found(vs, kind) + if v.kind == kind then 1 else 0
  {
    var before, now := seq(|vs|, i requires 0 <= i < |vs| => vs[i].kind),
                       seq(|vs + [v]|, i requires 0 <= i < |vs + [v]| => (vs + [v])[i].kind);
    assert now == before + [v.kind];
  }

  lemma {:induction false} PointsExactly(vs: seq<Violation>)
    ensures Points(vs) == 50 * (Found(vs, ComplianceViolation) + Found(vs, ComplianceReject))
                          + 30 * Found(vs, GeoRiskDetected) + 15 * Found(vs, ComplianceWarning)
  {
    if vs == [] {
    } else {
      var front, v := vs[..|vs| - 1], vs[|vs| - 1];
      assert vs == front + [v];
      PointsExactly(front);
      FoundNext(front, v, ComplianceViolation);
      FoundNext(front, v, ComplianceReject);
      FoundNext(front, v, GeoRiskDetected);
      FoundNext(front, v, ComplianceWarning);
    }
  }

  function StatedAt(vs: seq<Violation>): set<nat> { set i: nat | i < |vs| && vs[i].reason != "" }

  lemma StatedAtNext(vs: seq<Violation>, v: Violation)
    ensures forall i: nat :: i in StatedAt(vs + [v]) <==> i in StatedAt(vs) || (v.reason != "" && i == |vs|)
  {
  }

  /** Every stated reason is kept, in order. */
  lemma {:induction false} ReasonsExactly(vs: seq<Violation>) returns (at: seq<nat>)
    ensures Lists(at, StatedAt(vs)) && |Reasons(vs)| == |at|
    ensures forall k | 0 <= k < |at| :: at[k] < |vs| && Reasons(vs)[k] == vs[at[k]].reason
  {
    if vs == [] {
      at := [];
    } else {
      var front, v := vs[..|vs| - 1], vs[|vs| - 1];
      assert vs == front + [v];
      at := ReasonsExactly(front);
      StatedAtNext(front, v);
      ListsNext(at, StatedAt(front), |front|, v.reason != "", StatedAt(vs));
      at := if v.reason != "" then at + [|front|] else at;
    }
  }

  /** The level is the band of the score. */
  predicate InBand(score: int, level: Level) {
    match level
    case Low => 0 <= score < 30
    case Medium => 30 <= score < 50
    case High => 50 <= score < 70
    case Critical => 70 <= score <= 100
  }

  /** Scoring adds what the violations weigh, up to 100, sets level and flag by the result, and appends the reasons. */
  lemma ScoringExactly(l: Ledger, vs: seq<Violation>)
    requires l.profile.Some? ==> 0 <= l.profile.value.score <= 100
    ensures Scored(l, vs).profile.Some?
    ensures var p := if l.profile.Some? then l.profile.value else NEW_PROFILE;
            var q := Scored(l, vs).profile.value;
            && q.score == (if p.score + Points(vs) > 100 then 100 else p.score + Points(vs))
            && InBand(q.score, q.level) && (q.highRiskFlag <==> q.score >= 50) && q.reasons == p.reasons + Reasons(vs)
  {
  }

  /** An absolute update sets score and level alone. */
  lemma UpsertExactly(l: Ledger, score: int)
    ensures Upserted(l, score).profile.Some?
    ensures var q := Upserted(l, score).profile.value;
            && (if score < 0 then q.score == 0 else if score > 100 then q.score == 100 else q.score == score)
            && InBand(q.score, q.level)
            && (if l.profile.Some? then q.highRiskFlag == l.profile.value.highRiskFlag
                                        && q.reasons == l.profile.value.reasons
                else !q.highRiskFlag && q.reasons == [])
  {
  }

  class RiskBook {
    var profile: Option<Profile>
    var history: seq<Change>

    ghost function View(): Ledger
      reads this
    {
      Ledger(profile, history)
    }

    method CalculateRiskScore(violations: seq<Violation>) returns (escalated: bool)
      modifies this
      ensures View() == Scored(old(View()), violations)
      ensures escalated <==> profile.Some? && profile.value.level == Critical
    {
      if profile.None? {
        profile := Some(NEW_PROFILE);
      }
      var current, fromLevel, reasons := profile.value.score, profile.value.level, profile.value.reasons;
      var added := 0;
      for i := 0 to |violations|
        invariant added == Points(violations[..i])
        invariant reasons == profile.value.reasons + Reasons(violations[..i])
      {
        assert violations[..i + 1][..i] == violations[..i];
        var v := violations[i];
        if v.kind == ComplianceViolation || v.kind == ComplianceReject {
          added := added + 50;
        } else if v.kind == GeoRiskDetected {
          added := added + 30;
        } else if v.kind == ComplianceWarning {
          added := added + 15;
        }
        if v.reason != "" {
          reasons := reasons + [v.reason];
        }
      }
      assert violations[..|violations|] == violations;
      profile := Some(Move(current + added, reasons));
      escalated := profile.value.level == Critical;
      if current != profile.value.score || fromLevel != profile.value.level {
        history := history + [Change(Some(current), profile.value.score, Some(fromLevel), profile.value.level)];
      }
    }

    method UpsertRiskScore(score: int)
      modifies this
      ensures View() == Upserted(old(View()), score)
    {
      var s := Clamp(score);
      var level := LevelOf(s);
      var fromScore: Option<int>, fromLevel: Option<Level> := None, None;
      if profile.Some? {
        fromScore, fromLevel := Some(profile.value.score), Some(profile.value.level);
        profile := Some(profile.value.(score := s, level := level));
      } else {
        profile := Some(Profile(s, level, false, []));
      }
      if fromScore != Some(s) || fromLevel != Some(level) {
        history := history + [Change(fromScore, s, fromLevel, level)];
      }
    }
  }

  // ---------------------------------------------------------------------
  // Whole runs of the two writers.
  // ---------------------------------------------------------------------

  datatype Op = Score(violations: seq<Violation>) | Set(score: int)

  function Apply(l: Ledger, op: Op): Ledger {
    match op
    case Score(vs) => Scored(l, vs)
    case Set(s) => Upserted(l, s)
  }

  function Run(l: Ledger, ops: seq<Op>): Ledger {
    if ops == [] then l else Apply(Run(l, ops[..|ops| - 1]), ops[|ops| - 1])
  }

  /** An absent profile counts as score 0, level low. */
  function Standing(p: Option<Profile>): (int, Level) {
    if p.Some? then (p.value.score, p.value.level) else (0, Low)
  }

  function From(c: Change): (int, Level) {
    (if c.fromScore.Some? then c.fromScore.value else 0, if c.fromLevel.Some? then c.fromLevel.value else Low)
  }

  function To(c: Change): (int, Level) { (c.toScore, c.toLevel) }

  /** Replaying the history: every entry starts where the one before ended; the result is where it ends. */
  function Replay(start: (int, Level), history: seq<Change>): Option<(int, Level)> {
    if history == [] then Some(start)
    else
      var before := Replay(start, history[..|history| - 1]);
      if before == Some(From(history[|history| - 1])) then Some(To(history[|history| - 1])) else None
  }

  ghost predicate Consistent(p: Option<Profile>) {
    p.Some? ==> 0 <= p.value.score <= 100 && p.value.level == LevelOf(p.value.score)
  }

  lemma ReplayAppend(start: (int, Level), history: seq<Change>, c: Change)
    ensures Replay(start, history + [c])
            == if Replay(start, history) == Some(From(c)) then Some(To(c)) else None
  {
    assert (history + [c])[..|history|] == history;
  }

  /** Level and score agree, and the history replays from start to the profile. */
  ghost predicate Faithful(start: (int, Level), l: Ledger) {
    Consistent(l.profile) && Replay(start, l.history) == Some(Standing(l.profile))
  }

  /** A recorded update keeps the history faithful exactly when the entry starts from where the profile stood. */
  lemma RecordedIff(start: (int, Level), l: Ledger, q: Profile, c: Change)
    requires Faithful(start, l) && Consistent(Some(q)) && To(c) == (q.score, q.level)
    ensures Faithful(start, Ledger(Some(q), l.history + [c])) <==> From(c) == Standing(l.profile)
  {
    ReplayAppend(start, l.history, c);
  }

  lemma UnrecordedIff(start: (int, Level), l: Ledger, q: Profile)
    requires Faithful(start, l) && Consistent(Some(q))
    ensures Faithful(start, Ledger(Some(q), l.history)) <==> (q.score, q.level) == Standing(l.profile)
  {
  }

  lemma ScoringStaysFaithful(start: (int, Level), l: Ledger, vs: seq<Violation>)
    requires Faithful(start, l)
    ensures Faithful(start, Scored(l, vs))
  {
    var p := if l.profile.Some? then l.profile.value else NEW_PROFILE;
    var q := Move(p.score + Points(vs), p.reasons + Reasons(vs));
    if p.score != q.score || p.level != q.level {
      var c := Change(Some(p.score), q.score, Some(p.level), q.level);
      assert Scored(l, vs) == Ledger(Some(q), l.history + [c]);
      RecordedIff(start, l, q, c);
    } else {
      assert l.history + [] == l.history;
      assert Scored(l, vs) == Ledger(Some(q), l.history);
      UnrecordedIff(start, l, q);
    }
  }

  lemma UpsertStaysFaithful(start: (int, Level), l: Ledger, score: int)
    requires Faithful(start, l)
    ensures Faithful(start, Upserted(l, score))
  {
    var s, q := Clamp(score), Upserted(l, score).profile.value;
    var fromScore := if l.profile.Some? then Some(l.profile.value.score) else None;
    var fromLevel := if l.profile.Some? then Some(l.profile.value.level) else None;
    if fromScore != Some(s) || fromLevel != Some(LevelOf(s)) {
      var c := Change(fromScore, s, fromLevel, LevelOf(s));
      assert Upserted(l, score) == Ledger(Some(q), l.history + [c]);
      RecordedIff(start, l, q, c);
    } else {
      assert l.history + [] == l.history;
      assert Upserted(l, score) == Ledger(Some(q), l.history);
      UnrecordedIff(start, l, q);
    }
  }

  /** Any mix of both writers keeps level and score in step, and the history replays to the profile. */
  lemma {:induction false} RunsReplay(start: Option<Profile>, ops: seq<Op>)
    requires Consistent(start)
    ensures Faithful(Standing(start), Run(Ledger(start, []), ops))
  {
    if ops == [] {
    } else {
      var front, l := ops[..|ops| - 1], Run(Ledger(start, []), ops[..|ops| - 1]);
      RunsReplay(start, front);
      match ops[|ops| - 1]
      case Score(vs) => ScoringStaysFaithful(Standing(start), l, vs);
      case Set(s) => UpsertStaysFaithful(Standing(start), l, s);
    }
  }

  /** The history is append-only: a longer run extends the history of a shorter one. */
  lemma {:induction false} HistoryOnlyGrows(l: Ledger, ops: seq<Op>, n: nat)
    requires n <= |ops|
    ensures Run(l, ops[..n]).history <= Run(l, ops).history
    decreases |ops|
  {
    if n < |ops| {
      HistoryOnlyGrows(l, ops[..|ops| - 1], n);
      assert ops[..|ops| - 1][..n] == ops[..n];
    } else {
      assert ops[..n] == ops;
    }
  }

  function Total(ops: seq<Op>): nat {
    if ops == [] then 0
    else Total(ops[..|ops| - 1]) + match ops[|ops| - 1] case Score(vs) => Points(vs) case Set(_) => 0
  }

  /** Scoring only: the final score is the capped sum of everything added, in any grouping. */
  lemma {:induction false} ScoringSaturates(start: Option<Profile>, ops: seq<Op>)
    requires Consistent(start) && forall op | op in ops :: op.Score?
    ensures Standing(Run(Ledger(start, []), ops).profile).0 == Clamp(Standing(start).0 + Total(ops))
  {
    if ops == [] {
    } else {
      var front := ops[..|ops| - 1];
      assert ops[|ops| - 1] in ops && forall op | op in front :: op in ops;
      ScoringSaturates(start, front);
    }
  }

  lemma RunIsConsistent(start: Option<Profile>, ops: seq<Op>)
    requires Consistent(start)
    ensures Consistent(Run(Ledger(start, []), ops).profile)
  {
    RunsReplay(start, ops);
  }

  lemma CriticalIsUpwardClosed(a: Option<Profile>, b: Option<Profile>)
    requires Consistent(a) && Consistent(b) && Standing(a).0 <= Standing(b).0 && Standing(a).1 == Critical
    ensures Standing(b).1 == Critical
  {
  }

  /** So once a run of scorings has escalated, every later scoring of it escalates too. */
  lemma EscalationSticks(start: Option<Profile>, ops: seq<Op>, n: nat)
    requires Consistent(start) && (forall op | op in ops :: op.Score?) && n <= |ops|
    requires Standing(Run(Ledger(start, []), ops[..n]).profile).1 == Critical
    ensures Standing(Run(Ledger(start, []), ops).profile).1 == Critical
  {
    var before, after := Run(Ledger(start, []), ops[..n]).profile, Run(Ledger(start, []), ops).profile;
    assert Standing(before).0 == Clamp(Standing(start).0 + Total(ops[..n])) by {
      assert forall op | op in ops[..n] :: op in ops;
      ScoringSaturates(start, ops[..n]);
    }
    assert Standing(after).0 == Clamp(Standing(start).0 + Total(ops)) by {
      ScoringSaturates(start, ops);
    }
    RunIsConsistent(start, ops[..n]);
    RunIsConsistent(start, ops);
    TotalGrows(ops, n);
    CriticalIsUpwardClosed(before, after);
  }

  lemma TotalGrows(ops: seq<Op>, n: nat)
    requires n <= |ops|
    ensures Total(ops[..n]) <= Total(ops)
    decreases |ops|
  {
    if n < |ops| {
      TotalGrows(ops[..|ops| - 1], n);
      assert ops[..|ops| - 1][..n] == ops[..n];
    } else {
      assert ops[..n] == ops;
    }
  }

  /** The high-risk flag is not kept in step by the upsert: it agrees afterwards only if it happened to before. */
  lemma FlagAgreesAfterUpsertIff(l: Ledger, score: int)
    ensures var p := Upserted(l, score).profile.value;
            (p.highRiskFlag == HighRisk(p.level))
            <==> (l.profile.Some? && l.profile.value.highRiskFlag) == (Clamp(score) >= 50)
  {
  }

  /** And it can be wrong: a first absolute update to 60 makes a high-risk profile without the flag. */
  lemma FlagCanBeWrong(history: seq<Change>)
    ensures var p := Upserted(Ledger(None, history), 60).profile.value;
            HighRisk(p.level) && !p.highRiskFlag
  {
    FlagAgreesAfterUpsertIff(Ledger(None, history), 60);
  }

  // ---------------------------------------------------------------------
  // Overlapping writers: each reads the profile first and writes later, and nothing locks the row.
  // ---------------------------------------------------------------------

  type Writer = nat

  datatype Desk = Desk(ledger: Ledger, copies: map<Writer, Option<Profile>>)

  datatype Step = Read(w: Writer) | Write(w: Writer, op: Op)

  /** An object's update sends only the columns that differ from what was loaded. */
  function Sent<T(==)>(stored: T, loaded: T, now: T): T { if now == loaded then stored else now }

  /** A scorer that loaded a profile updates it; one that found none inserts, and fails if there is one by now. */
  function ScoredFrom(l: Ledger, copy: Option<Profile>, vs: seq<Violation>): Ledger {
    match copy
    case None => if l.profile.Some? then l else Scored(l, vs)
    case Some(p) =>
      if l.profile.None? then l
      else
        var stored := l.profile.value;
        var q := Move(p.score + Points(vs), p.reasons + Reasons(vs));
        Ledger(Some(Profile(Sent(stored.score, p.score, q.score), Sent(stored.level, p.level, q.level),
                            Sent(stored.highRiskFlag, p.highRiskFlag, q.highRiskFlag),
                            Sent(stored.reasons, p.reasons, q.reasons))),
               l.history + if p.score != q.score || p.level != q.level
                           then [Change(Some(p.score), q.score, Some(p.level), q.level)] else [])
  }

  /** The upsert overwrites score and level whatever they are by now; its history entry starts from the copy. */
  function UpsertedFrom(l: Ledger, copy: Option<Profile>, score: int): Ledger {
    Ledger(Upserted(l, score).profile, l.history + Upserted(Ledger(copy, []), score).history)
  }

  function WrittenFrom(l: Ledger, copy: Option<Profile>, op: Op): Ledger {
    match op
    case Score(vs) => ScoredFrom(l, copy, vs)
    case Set(s) => UpsertedFrom(l, copy, s)
  }

  ghost predicate Next(d: Desk, a: Step, d': Desk) {
    match a
    case Read(w) => d' == d.(copies := d.copies[w := d.ledger.profile])
    case Write(w, op) => w in d.copies && d' == Desk(WrittenFrom(d.ledger, d.copies[w], op), d.copies - {w})
  }

  ghost predicate Overlapping(start: Option<Profile>, ds: seq<Desk>, acts: seq<Step>) {
    && |ds| == |acts| + 1 && ds[0] == Desk(Ledger(start, []), map[])
    && forall i | 0 <= i < |acts| :: Next(ds[i], acts[i], ds[i + 1])
  }

  /** A scoring that moves the score or the level it loaded. */
  predicate Moves(copy: Option<Profile>, vs: seq<Violation>) {
    copy.Some? && (var q := Clamp(copy.value.score + Points(vs));
                   q != copy.value.score || LevelOf(q) != copy.value.level)
  }

  /** A write is stale when the profile no longer stands where its writer saw it, unless it is a scoring that moves
      nothing or that fails. */
  predicate Stale(d: Desk, a: Step) {
    && a.Write? && a.w in d.copies
    && Standing(d.copies[a.w]) != Standing(d.ledger.profile)
    && (a.op.Score? ==> d.ledger.profile.Some? && Moves(d.copies[a.w], a.op.violations))
  }

  lemma ScoringFromKeepsFaithfulIff(start: (int, Level), l: Ledger, copy: Option<Profile>, vs: seq<Violation>)
    requires Faithful(start, l) && (copy.Some? ==> l.profile.Some?)
    ensures Faithful(start, ScoredFrom(l, copy, vs)) <==>
            !(Standing(copy) != Standing(l.profile) && l.profile.Some? && Moves(copy, vs))
  {
    if copy.None? {
      ScoringStaysFaithful(start, l, vs);
    } else {
      var p := copy.value;
      var q := Move(p.score + Points(vs), p.reasons + Reasons(vs));
      if Moves(copy, vs) {
        ReplayAppend(start, l.history, Change(Some(p.score), q.score, Some(p.level), q.level));
      } else {
        assert l.history + [] == l.history;
      }
    }
  }

  lemma UpsertFromKeepsFaithfulIff(start: (int, Level), l: Ledger, copy: Option<Profile>, score: int)
    requires Faithful(start, l)
    ensures Faithful(start, UpsertedFrom(l, copy, score)) <==> Standing(copy) == Standing(l.profile)
  {
    var s, q := Clamp(score), Upserted(l, score).profile.value;
    var fromScore := if copy.Some? then Some(copy.value.score) else None;
    var fromLevel := if copy.Some? then Some(copy.value.level) else None;
    if fromScore != Some(s) || fromLevel != Some(LevelOf(s)) {
      var c := Change(fromScore, s, fromLevel, LevelOf(s));
      assert UpsertedFrom(l, copy, score) == Ledger(Some(q), l.history + [c]);
      RecordedIff(start, l, q, c);
    } else {
      assert UpsertedFrom(l, copy, score) == Ledger(Some(q), l.history) by {
        assert l.history + [] == l.history;
      }
      UnrecordedIff(start, l, q);
    }
  }

  /** At each step, level, score and history stay in agreement exactly when the step is not a stale write. */
  lemma StepKeepsFaithfulIff(start: (int, Level), d: Desk, a: Step, d': Desk)
    requires Faithful(start, d.ledger) && Next(d, a, d') && CopiesArePast(d)
    ensures Faithful(start, d'.ledger) <==> !Stale(d, a)
  {
    if a.Write? {
      match a.op
      case Score(vs) => ScoringFromKeepsFaithfulIff(start, d.ledger, d.copies[a.w], vs);
      case Set(s) => UpsertFromKeepsFaithfulIff(start, d.ledger, d.copies[a.w], s);
    }
  }

  /** Nobody loaded a profile that is not there. */
  ghost predicate CopiesArePast(d: Desk) {
    forall w | w in d.copies :: d.copies[w].Some? ==> d.ledger.profile.Some?
  }

  lemma {:induction false} OverlappingKeepsCopies(start: Option<Profile>, ds: seq<Desk>, acts: seq<Step>, n: nat)
    requires Overlapping(start, ds, acts) && n <= |acts|
    ensures CopiesArePast(ds[n])
  {
    if n == 0 {
      assert CopiesArePast(ds[0]);
    } else {
      OverlappingKeepsCopies(start, ds, acts, n - 1);
      assert Next(ds[n - 1], acts[n - 1], ds[n]);
    }
  }

  /** Over every interleaving: the level is the band of the score and the history replays to the profile throughout,
      exactly when no write was stale. */
  lemma {:induction false} FaithfulThroughoutIff(start: Option<Profile>, ds: seq<Desk>, acts: seq<Step>, n: nat)
    requires Consistent(start) && Overlapping(start, ds, acts) && n <= |acts|
    ensures (forall i | 0 <= i <= n :: Faithful(Standing(start), ds[i].ledger))
            <==> (forall i | 0 <= i < n :: !Stale(ds[i], acts[i]))
  {
    if n == 0 {
      assert Faithful(Standing(start), ds[0].ledger);
    } else {
      FaithfulThroughoutIff(start, ds, acts, n - 1);
      OverlappingKeepsCopies(start, ds, acts, n - 1);
      if Faithful(Standing(start), ds[n - 1].ledger) {
        assert Next(ds[n - 1], acts[n - 1], ds[n]);
        StepKeepsFaithfulIff(Standing(start), ds[n - 1], acts[n - 1], ds[n]);
      }
    }
  }

  /** With nothing in between, read and write are the serial operation. */
  lemma UninterruptedIsSerial(d: Desk, w: Writer, op: Op, d1: Desk, d2: Desk)
    requires w !in d.copies && Next(d, Read(w), d1) && Next(d1, Write(w, op), d2)
    ensures d2 == d.(ledger := Apply(d.ledger, op)) && !Stale(d1, Write(w, op))
  {
    assert d2.copies == d.copies;
    assert d1.copies[w] == d.ledger.profile;
    if op.Set? {
      assert [] + Upserted(Ledger(d.ledger.profile, []), op.score).history
             == Upserted(Ledger(d.ledger.profile, []), op.score).history;
    }
  }

  /** Two scorers load a low profile; the second to write loses the first one's points and leaves the level of one
      score beside the other: 15 points, critical. */
  lemma OverlappingScoringsDisagree() returns (ds: seq<Desk>, acts: seq<Step>)
    ensures Overlapping(Some(NEW_PROFILE), ds, acts) && |acts| == 4
    ensures ds[4].ledger.profile.Some?
    ensures var p := ds[4].ledger.profile.value; p.score == 15 && p.level == Critical
  {
    var two := [Violation(ComplianceReject, ""), Violation(GeoRiskDetected, "")];
    var one := [Violation(ComplianceWarning, "")];
    var l := Ledger(Some(NEW_PROFILE), []);
    var d0 := Desk(l, map[]);
    var d1 := Desk(l, d0.copies[0 := l.profile]);
    var d2 := Desk(l, d1.copies[1 := l.profile]);
    var d3 := Desk(WrittenFrom(l, l.profile, Score(two)), d2.copies - {0});
    var d4 := Desk(WrittenFrom(d3.ledger, l.profile, Score(one)), d3.copies - {1});
    ds, acts := [d0, d1, d2, d3, d4], [Read(0), Read(1), Write(0, Score(two)), Write(1, Score(one))];
    assert two[..1] == [two[0]] && [two[0]][..0] == [] && one[..0] == [];
    assert Points([two[0]]) == 50 && Points(two) == 80 && Points(one) == 15;
    assert Next(d0, acts[0], d1) && Next(d1, acts[1], d2) && Next(d2, acts[2], d3) && Next(d3, acts[3], d4);
  }
}
