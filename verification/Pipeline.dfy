/** The batch pipeline: a deterministic router, five work nodes with environment-chosen outcomes, and a human
    interrupt. A run is any sequence of node visits the graph's edges allow. */
module Pipeline {
  import opened Options
  import DataGateway
  import RiskScores
  import opened Selections

  datatype Stage = Queued | Extraction | Geo | ComplianceStage | Risk | JudgmentStage

  datatype ErrorReason = GeographicalRisk | RiskEscalated | LowConfidence

  /** The routed state. `suppliers` counts the supplier ids of the extraction result, absent meaning 0. */
  datatype BatchState = BatchState(
    hasProduct: bool,
    destination: string,
    stage: Stage,
    error: Option<ErrorReason>,
    confidence: Option<real>,
    hitlRequired: bool,
    regulations: Option<seq<string>>,
    suppliers: nat,
    geoRisk: bool)

  datatype Node =
    Supervisor | DataGatewayNode | GeoAudit | ComplianceNode | RiskScoring | FinalJudgment | HitlInterrupt | Completed

  // ---------------------------------------------------------------------
  // Routing and the effect of each node on the state.
  // ---------------------------------------------------------------------

  function RegulationsFor(destination: string): seq<string> {
    var eu := ["EU_BATTERY_ART7", "EU_BATTERY_ART47", "EUDR", "CSDDD", "CBAM", "CONFLICT_MINERALS", "CRMA"];
    if destination == "EU" then eu
    else if destination == "US" then ["UFLPA", "CONFLICT_MINERALS"]
    else if destination == "BOTH" then eu + ["UFLPA"]
    else []
  }

  /** The router's one write: the regulation list is filled in the first time it is missing. */
  function Prepared(s: BatchState): BatchState {
    if s.regulations.None? then s.(regulations := Some(RegulationsFor(s.destination))) else s
  }

  function Route(s: BatchState): Node {
    if s.error.Some? then HitlInterrupt
    else match s.stage
      case Queued => DataGatewayNode
      case Extraction => GeoAudit
      case Geo => ComplianceNode
      case ComplianceStage => RiskScoring
      case Risk => FinalJudgment
      case JudgmentStage => Completed
  }

  /** `lowest` is the gate's reported confidence; it plays no part when there is nothing to check. */
  ghost function AfterGateway(s: BatchState, records: seq<DataGateway.Record>, req: DataGateway.Requirements,
                              suppliers: nat, lowest: real): BatchState
  {
    var s1 := s.(stage := Extraction);
    if !s.hasProduct then
      s1.(error := Some(LowConfidence), confidence := Some(0.0), suppliers := 0)
    else if records == [] then
      s1.(error := Some(LowConfidence), confidence := Some(0.0), suppliers := suppliers)
    else
      s1.(error := if DataGateway.Passes(records, req) then None else Some(LowConfidence),
          confidence := Some(lowest), suppliers := suppliers)
  }

  function AfterGeo(s: BatchState, detected: bool): BatchState {
    var s1 := s.(stage := Geo, geoRisk := detected);
    if detected then s1.(error := Some(GeographicalRisk), hitlRequired := true) else s1
  }

  datatype Judgment = Judgment(verdict: string, needsHumanReview: bool)

  /** Some applicable regulation that has a judge was referred to a human. */
  predicate AnyHumanReview(applicable: seq<string>, judges: map<string, Judgment>) {
    exists i | 0 <= i < |applicable| :: applicable[i] in judges && judges[applicable[i]].needsHumanReview
  }

  /** One stored result per applicable regulation that has a judge, in their order; a repeated one is judged again. */
  function Results(applicable: seq<string>, judges: map<string, Judgment>): seq<(string, Judgment)> {
    if applicable == [] then []
    else
      var reg := applicable[|applicable| - 1];
      Results(applicable[..|applicable| - 1], judges) + if reg in judges then [(reg, judges[reg])] else []
  }

  function JudgedAt(applicable: seq<string>, judges: map<string, Judgment>): set<nat> {
    set i: nat | i < |applicable| && applicable[i] in judges
  }

  lemma JudgedAtNext(applicable: seq<string>, reg: string, judges: map<string, Judgment>)
    ensures forall i: nat :: i in JudgedAt(applicable + [reg], judges)
                             <==> i in JudgedAt(applicable, judges) || (reg in judges && i == |applicable|)
  {
  }

  lemma {:induction false} ResultsExactly(applicable: seq<string>, judges: map<string, Judgment>) returns (at: seq<nat>)
    ensures Lists(at, JudgedAt(applicable, judges)) && |Results(applicable, judges)| == |at|
    ensures forall k | 0 <= k < |at| ::
              && at[k] < |applicable| && applicable[at[k]] in judges
              && Results(applicable, judges)[k] == (applicable[at[k]], judges[applicable[at[k]]])
  {
    if applicable == [] {
      at := [];
    } else {
      var front, reg := applicable[..|applicable| - 1], applicable[|applicable| - 1];
      assert applicable == front + [reg];
      at := ResultsExactly(front, judges);
      JudgedAtNext(front, reg, judges);
      ListsNext(at, JudgedAt(front, judges), |front|, reg in judges, JudgedAt(applicable, judges));
      at := if reg in judges then at + [|front|] else at;
    }
  }

  method JudgeAll(applicable: seq<string>, judges: map<string, Judgment>)
      returns (verdicts: map<string, string>, anyReview: bool, inserted: seq<(string, Judgment)>)
    ensures inserted == Results(applicable, judges)
    ensures anyReview <==> AnyHumanReview(applicable, judges)
    ensures forall r :: r in verdicts <==> r in applicable && r in judges
    ensures forall r | r in verdicts :: verdicts[r] == judges[r].verdict
  {
    verdicts, anyReview, inserted := map[], false, [];
    for i := 0 to |applicable|
      invariant inserted == Results(applicable[..i], judges)
      invariant anyReview <==> AnyHumanReview(applicable[..i], judges)
      invariant forall r :: r in verdicts <==> r in applicable[..i] && r in judges
      invariant forall r | r in verdicts :: verdicts[r] == judges[r].verdict
    {
      var reg := applicable[i];
      assert applicable[..i + 1] == applicable[..i] + [reg];
      if reg in judges {
        verdicts := verdicts[reg := judges[reg].verdict];
        inserted := inserted + [(reg, judges[reg])];
        if judges[reg].needsHumanReview {
          anyReview := true;
          assert applicable[..i + 1][i] == reg;
        }
      }
      assert AnyHumanReview(applicable[..i], judges) ==> AnyHumanReview(applicable[..i + 1], judges) by {
        if AnyHumanReview(applicable[..i], judges) {
          var j :| 0 <= j < i && applicable[..i][j] in judges && judges[applicable[..i][j]].needsHumanReview;
          assert applicable[..i + 1][j] == applicable[..i][j];
        }
      }
    }
    assert applicable[..|applicable|] == applicable;
  }

  function AfterCompliance(s: BatchState, judges: map<string, Judgment>): BatchState {
    var s1 := s.(stage := ComplianceStage);
    if s.regulations.None? || s.regulations.value == [] then s1
    else
      s1.(error := if AnyHumanReview(s.regulations.value, judges) then Some(LowConfidence) else None,
          confidence := Some(if s.confidence.None? || s.confidence.value == 0.0 then 1.0 else s.confidence.value))
  }

  /** Only a geographic finding ever reaches the scorer: the compliance key it reads is never written. */
  function Violations(s: BatchState): seq<RiskScores.Violation> {
    if s.geoRisk then [RiskScores.Violation(RiskScores.GeoRiskDetected, "geo")] else []
  }

  function AfterRisk(s: BatchState, profile: Option<RiskScores.Profile>): BatchState {
    var scored := RiskScores.Scored(RiskScores.Ledger(profile, []), Violations(s)).profile.value;
    var escalated := scored.level == RiskScores.Critical;
    var s1 := s.(stage := Risk, hitlRequired := s.hitlRequired || escalated);
    if escalated then s1.(error := Some(RiskEscalated)) else s1
  }

  function AfterApproval(s: BatchState): BatchState {
    var c := if s.confidence.Some? then s.confidence.value else 0.0;
    s.(confidence := Some(if c < DataGateway.THRESHOLD then DataGateway.THRESHOLD else c),
       hitlRequired := false, error := None)
  }

  // ---------------------------------------------------------------------
  // Runs.
  // ---------------------------------------------------------------------

  datatype Position = At(node: Node) | Ended | Failed | Rejected

  datatype Config = Config(pos: Position, st: BatchState, visits: seq<Node>)

  /** What the environment decides while one node runs. */
  datatype Event =
    | Hop
    | Gathered(records: seq<DataGateway.Record>, req: DataGateway.Requirements, suppliers: nat, lowest: real)
    | Scanned(detected: bool)
    | Judged(judges: map<string, Judgment>)
    | Scored(profile: Option<RiskScores.Profile>)
    | Concluded
    | Resolved(approve: bool)
    | Crash

  ghost predicate Next(c: Config, e: Event, c': Config) {
    && c.pos.At?
    && c'.visits == c.visits + [c.pos.node]
    && if e.Crash? then c.pos.node !in {Supervisor, Completed} && c'.pos == Failed && c'.st == c.st
       else match c.pos.node
         case Supervisor =>
           e.Hop? && c'.st == Prepared(c.st) && c'.pos == At(Route(c.st))
         case DataGatewayNode =>
           && e.Gathered? && c'.pos == At(Supervisor)
           && (e.suppliers == 0 ==> e.records == [])
           && DataGateway.IsLowest(e.records, e.lowest)
           && c'.st == AfterGateway(c.st, e.records, e.req, e.suppliers, e.lowest)
         case GeoAudit =>
           e.Scanned? && c'.pos == At(Supervisor) && c'.st == AfterGeo(c.st, e.detected)
         case ComplianceNode =>
           e.Judged? && c'.pos == At(Supervisor) && c'.st == AfterCompliance(c.st, e.judges)
         case RiskScoring =>
           e.Scored? && c.st.suppliers > 0 && c'.pos == At(Supervisor) && c'.st == AfterRisk(c.st, e.profile)
         case FinalJudgment =>
           e.Concluded? && c'.pos == At(Supervisor) && c'.st == c.st.(stage := JudgmentStage)
         case HitlInterrupt =>
           && e.Resolved?
           && if e.approve then c'.pos == At(Supervisor) && c'.st == AfterApproval(c.st)
              else c'.pos == Rejected && c'.st == c.st
         case Completed =>
           e.Hop? && c'.pos == Ended && c'.st == c.st
  }

  /** Where an invocation starts. A queued batch is new, or is started again on its own thread: that sets the stage
      and leaves everything else as the earlier run left it. A later stage means a resume without a checkpoint. */
  ghost predicate Init(c: Config) {
    && c.pos == At(Supervisor) && c.visits == []
    && (c.st.hitlRequired ==> c.st.error.Some?)
    && (c.st.stage != Queued ==>
          && c.st.error.None? && c.st.regulations.None? && c.st.suppliers == 0 && !c.st.geoRisk
          && c.st.confidence.Some? && c.st.confidence.value >= DataGateway.THRESHOLD)
  }

  /** A new batch. */
  ghost predicate Fresh(c: Config) {
    && Init(c) && c.st.stage == Queued && c.st.error.None? && c.st.regulations.None? && c.st.suppliers == 0
    && c.st.confidence.None? && !c.st.geoRisk
  }

  ghost predicate Run(cs: seq<Config>, es: seq<Event>) {
    && |cs| == |es| + 1 && Init(cs[0])
    && forall i | 0 <= i < |es| :: Next(cs[i], es[i], cs[i + 1])
  }

  // ---------------------------------------------------------------------
  // The order of the work.
  // ---------------------------------------------------------------------

  const WORK := [DataGatewayNode, GeoAudit, ComplianceNode, RiskScoring, FinalJudgment]

  function Rank(s: Stage): nat
    ensures Rank(s) <= 5
  {
    match s
    case Queued => 0
    case Extraction => 1
    case Geo => 2
    case ComplianceStage => 3
    case Risk => 4
    case JudgmentStage => 5
  }

  predicate IsWork(n: Node) {
    n == DataGatewayNode || n == GeoAudit || n == ComplianceNode || n == RiskScoring || n == FinalJudgment
  }

  function WorkOf(visits: seq<Node>): seq<Node> {
    if visits == [] then []
    else WorkOf(visits[..|visits| - 1]) + if IsWork(visits[|visits| - 1]) then [visits[|visits| - 1]] else []
  }

  function Count(visits: seq<Node>, n: Node): nat {
    multiset(visits)[n]
  }

  lemma WorkOfAppend(visits: seq<Node>, n: Node)
    ensures WorkOf(visits + [n]) == WorkOf(visits) + if IsWork(n) then [n] else []
  {
    assert (visits + [n])[..|visits|] == visits;
  }

  /** Visits still possible from here, at most. */
  function Left(c: Config): nat {
    var r := Rank(c.st.stage);
    var quiet := if r == 5 then 2 else 20 - 4 * r;
    match c.pos
    case At(n) =>
      (match n
       case Supervisor => if c.st.error.Some? then quiet + 2 else quiet
       case HitlInterrupt => quiet + 1
       case Completed => 1
       case _ => quiet - 1)
    case _ => 0
  }

  /** Interrupts still possible from here, at most. */
  function InterruptsLeft(c: Config): nat {
    var r := Rank(c.st.stage);
    var later := if r == 5 then 0 else 4 - r;
    match c.pos
    case At(n) =>
      (if n == HitlInterrupt || (n == Supervisor && c.st.error.Some?) then later + 1
       else if n == Completed then 0
       else later)
    case _ => 0
  }

  /** What holds of the state, for a run that entered at rank `first`. */
  ghost predicate StateOk(s: BatchState, first: nat) {
    var r := Rank(s.stage);
    && first <= r
    && (s.hitlRequired ==> s.error.Some?)
    && (s.error.Some? ==> r <= 4)
    && (r >= 1 && s.error.None? ==> s.confidence.Some? && s.confidence.value >= DataGateway.THRESHOLD)
    && (first <= 3 && r >= 4 ==> s.suppliers > 0)
  }

  /** Where the run may be in that state. */
  ghost predicate PositionOk(p: Position, s: BatchState) {
    var r := Rank(s.stage);
    && (p.At? && p.node == HitlInterrupt ==> s.error.Some?)
    && (p.At? && IsWork(p.node) ==> s.error.None? && r < 5 && p.node == WORK[r])
    && ((p.At? && p.node == Completed) || p == Ended ==> s.error.None? && r == 5)
  }

  /** The work done so far: up to the current rank, and one more when that node crashed. */
  ghost predicate TraceOk(c: Config, first: nat)
    requires first <= Rank(c.st.stage)
  {
    var r, done := Rank(c.st.stage), WorkOf(c.visits);
    if c.pos == Failed then done == WORK[first..r] || (r < 5 && done == WORK[first..r + 1]) else done == WORK[first..r]
  }

  ghost predicate Inv(c: Config, first: nat) {
    StateOk(c.st, first) && PositionOk(c.pos, c.st) && TraceOk(c, first)
  }

  lemma WorkAdvancesState(c: Config, e: Event, c': Config, first: nat)
    requires StateOk(c.st, first) && PositionOk(c.pos, c.st) && Next(c, e, c') && !e.Crash? && IsWork(c.pos.node)
    ensures StateOk(c'.st, first) && Rank(c'.st.stage) == Rank(c.st.stage) + 1 && c'.pos == At(Supervisor)
  {
    if c.pos.node == DataGatewayNode && c.st.hasProduct && e.records != [] && DataGateway.Passes(e.records, e.req) {
      PassingGateIsConfident(e.records, e.req, e.lowest);
    }
  }

  lemma OtherNodesKeepState(c: Config, e: Event, c': Config, first: nat)
    requires StateOk(c.st, first) && PositionOk(c.pos, c.st) && Next(c, e, c') && (e.Crash? || !IsWork(c.pos.node))
    ensures StateOk(c'.st, first) && PositionOk(c'.pos, c'.st) && c'.st.stage == c.st.stage
    ensures IsWork(c.pos.node) ==> c'.pos == Failed
  {
  }

  lemma TraceStep(c: Config, c': Config, first: nat)
    requires first <= Rank(c.st.stage) && TraceOk(c, first) && c.pos.At?
    requires first <= Rank(c'.st.stage) && c'.visits == c.visits + [c.pos.node]
    requires var n, r, r' := c.pos.node, Rank(c.st.stage), Rank(c'.st.stage);
             if IsWork(n) then r < 5 && n == WORK[r] && r' == (if c'.pos == Failed then r else r + 1) else r' == r
    ensures TraceOk(c', first)
  {
    WorkOfAppend(c.visits, c.pos.node);
    if IsWork(c.pos.node) {
      OneMoreWorkNode(first, Rank(c.st.stage));
    }
  }

  lemma OneMoreWorkNode(i: nat, j: nat)
    requires i <= j < |WORK|
    ensures WORK[i..j + 1] == WORK[i..j] + [WORK[j]]
  {
  }

  lemma {:induction false} WorkStepKeepsInv(c: Config, e: Event, c': Config, first: nat)
    requires Inv(c, first) && Next(c, e, c') && !e.Crash? && IsWork(c.pos.node)
    ensures Inv(c', first)
  {
    WorkAdvancesState(c, e, c', first);
    TraceStep(c, c', first);
  }

  lemma OtherStepKeepsInv(c: Config, e: Event, c': Config, first: nat)
    requires Inv(c, first) && Next(c, e, c') && (e.Crash? || !IsWork(c.pos.node))
    ensures Inv(c', first)
  {
    OtherNodesKeepState(c, e, c', first);
    TraceStep(c, c', first);
  }

  lemma NextKeepsInv(c: Config, e: Event, c': Config, first: nat)
    requires Inv(c, first) && Next(c, e, c')
    ensures Inv(c', first)
  {
    if e.Crash? || !IsWork(c.pos.node) {
      OtherStepKeepsInv(c, e, c', first);
    } else {
      WorkStepKeepsInv(c, e, c', first);
    }
  }

  lemma PassingGateIsConfident(records: seq<DataGateway.Record>, req: DataGateway.Requirements, lowest: real)
    requires DataGateway.Passes(records, req) && DataGateway.IsLowest(records, lowest)
    ensures lowest >= DataGateway.THRESHOLD
  {
    if lowest != 1.0 {
      var r, k :| r in records && k in r.confidences && lowest == r.confidences[k];
      assert DataGateway.Confident(r);
    }
  }

  lemma {:induction false} RunKeepsInv(cs: seq<Config>, es: seq<Event>, i: nat)
    requires Run(cs, es) && i < |cs|
    ensures Inv(cs[i], Rank(cs[0].st.stage))
  {
    if i == 0 {
      assert WorkOf([]) == [];
    } else {
      RunKeepsInv(cs, es, i - 1);
      NextKeepsInv(cs[i - 1], es[i - 1], cs[i], Rank(cs[0].st.stage));
    }
  }

  // ---------------------------------------------------------------------
  // What each node makes of what it finds, at any point of any run.
  // ---------------------------------------------------------------------

  /** Which regulations apply where. */
  lemma RegulationsExactly(destination: string, r: string)
    ensures r in RegulationsFor(destination) <==>
            match destination
            case "EU" => IsEuRule(r)
            case "US" => r == "UFLPA" || r == "CONFLICT_MINERALS"
            case "BOTH" => IsEuRule(r) || r == "UFLPA"
            case _ => false
  {
    var eu := ["EU_BATTERY_ART7", "EU_BATTERY_ART47", "EUDR", "CSDDD", "CBAM", "CONFLICT_MINERALS", "CRMA"];
    assert r in eu <==> IsEuRule(r);
  }

  predicate IsEuRule(r: string) {
    || r == "EU_BATTERY_ART7" || r == "EU_BATTERY_ART47" || r == "EUDR" || r == "CSDDD" || r == "CBAM"
    || r == "CONFLICT_MINERALS" || r == "CRMA"
  }

  /** The gateway lets a batch through exactly when it has a product and extraction results, all of them sound. */
  lemma GatewayOutcome(c: Config, e: Event, c': Config)
    requires Next(c, e, c') && c.pos.node == DataGatewayNode && e.Gathered?
    ensures c'.st.error == if c.st.hasProduct && e.records != []
                              && forall r | r in e.records ::
                                   && r.confirmed
                                   && (r.providerType != "" && r.providerType in e.req ==>
                                         forall f | f in e.req[r.providerType] :: f in r.fields)
                                   && forall k | k in r.confidences :: r.confidences[k] >= 0.85
                           then None else Some(LowConfidence)
    ensures c'.st.confidence == Some(if c.st.hasProduct && e.records != [] then e.lowest else 0.0)
    ensures c'.st.suppliers == if c.st.hasProduct then e.suppliers else 0
    ensures c'.st.hitlRequired == c.st.hitlRequired && c'.st.geoRisk == c.st.geoRisk
    ensures c'.st.regulations == c.st.regulations
  {
    forall r | r in e.records
      ensures DataGateway.Confident(r) <==> forall k | k in r.confidences :: r.confidences[k] >= 0.85
    {
    }
  }

  /** A geographic finding refers the batch to a human, and is kept; without one nothing changes. */
  lemma GeoOutcome(c: Config, e: Event, c': Config, first: nat)
    requires Inv(c, first) && Next(c, e, c') && c.pos.node == GeoAudit && e.Scanned?
    ensures c'.st.error == (if e.detected then Some(GeographicalRisk) else None) && c'.st.hitlRequired == e.detected
    ensures c'.st.geoRisk == e.detected && c'.st.confidence == c.st.confidence
    ensures c'.st.suppliers == c.st.suppliers && c'.st.regulations == c.st.regulations
  {
  }

  /** Compliance refers the batch exactly when some applicable regulation has a judge that asked for a human; it never
      changes the confidence. */
  lemma ComplianceOutcome(c: Config, e: Event, c': Config, first: nat)
    requires Inv(c, first) && Next(c, e, c') && c.pos.node == ComplianceNode && e.Judged?
    ensures c'.st.error == if c.st.regulations.Some? && exists r :: r in c.st.regulations.value && r in e.judges
                                                                   && e.judges[r].needsHumanReview
                           then Some(LowConfidence) else None
    ensures c'.st.confidence == c.st.confidence && c'.st.geoRisk == c.st.geoRisk && !c'.st.hitlRequired
    ensures c'.st.suppliers == c.st.suppliers && c'.st.regulations == c.st.regulations
  {
    if c.st.regulations.Some? {
      var rs := c.st.regulations.value;
      if r :| r in rs && r in e.judges && e.judges[r].needsHumanReview {
        var i: nat :| i < |rs| && rs[i] == r;
        assert AnyHumanReview(rs, e.judges);
      }
    }
  }

  /** Risk scoring adds 30 points for a geographic finding and refers the batch exactly when that makes the supplier
      critical. */
  lemma ScoringEscalatesIff(s: BatchState, profile: Option<RiskScores.Profile>)
    requires RiskScores.Consistent(profile)
    ensures var points := RiskScores.Standing(profile).0 + if s.geoRisk then 30 else 0;
            && AfterRisk(s, profile).error == (if points >= 70 then Some(RiskEscalated) else s.error)
            && (AfterRisk(s, profile).hitlRequired <==> s.hitlRequired || points >= 70)
  {
    var vs := Violations(s);
    assert s.geoRisk ==> vs[..0] == [] && RiskScores.Points(vs) == 30;
  }

  lemma ScoringOutcome(c: Config, e: Event, c': Config, first: nat)
    requires Inv(c, first) && Next(c, e, c') && c.pos.node == RiskScoring && e.Scored?
    requires RiskScores.Consistent(e.profile)
    ensures c'.st.error == (if RiskScores.Standing(e.profile).0 + (if c.st.geoRisk then 30 else 0) >= 70
                            then Some(RiskEscalated) else None)
    ensures c'.st.hitlRequired == c'.st.error.Some? && c'.st.confidence == c.st.confidence
    ensures c'.st.geoRisk == c.st.geoRisk && c'.st.suppliers == c.st.suppliers && c'.st.regulations == c.st.regulations
  {
    ScoringEscalatesIff(c.st, e.profile);
  }

  /** An approval clears the error reason and raises the confidence to the threshold, if it is below; it changes nothing
      else. */
  lemma ApprovalOutcome(c: Config, e: Event, c': Config)
    requires Next(c, e, c') && c.pos.node == HitlInterrupt && e == Resolved(true)
    ensures c'.st.error.None? && !c'.st.hitlRequired && c'.st.stage == c.st.stage
    ensures c'.st.confidence.Some?
    ensures var x := c'.st.confidence.value;
            x >= 0.85 && if c.st.confidence.Some? && c.st.confidence.value >= 0.85 then x == c.st.confidence.value
                         else x == 0.85
    ensures c'.st.geoRisk == c.st.geoRisk && c'.st.suppliers == c.st.suppliers && c'.st.regulations == c.st.regulations
  {
  }

  /** What the geographic audit found stays with the batch for the rest of the run. */
  lemma {:induction false} GeoFindingStays(cs: seq<Config>, es: seq<Event>, i: nat, j: nat)
    requires Run(cs, es) && i < j < |cs| && cs[i].pos == At(GeoAudit) && es[i].Scanned?
    ensures cs[j].st.geoRisk == es[i].detected && Rank(cs[j].st.stage) >= 2
    decreases j
  {
    assert Next(cs[j - 1], es[j - 1], cs[j]);
    if j == i + 1 {
    } else {
      GeoFindingStays(cs, es, i, j - 1);
      RunKeepsInv(cs, es, j - 1);
      LaterNodesKeepTheFinding(cs[j - 1], es[j - 1], cs[j], Rank(cs[0].st.stage));
    }
  }

  lemma LaterNodesKeepTheFinding(c: Config, e: Event, c': Config, first: nat)
    requires StateOk(c.st, first) && PositionOk(c.pos, c.st) && Next(c, e, c') && Rank(c.st.stage) >= 2
    ensures c'.st.geoRisk == c.st.geoRisk && Rank(c'.st.stage) >= 2
  {
  }

  /** So in every run the scoring counts it, however much later it comes and whoever approved what in between. */
  lemma ScoringCountsTheFinding(cs: seq<Config>, es: seq<Event>, i: nat, j: nat)
    requires Run(cs, es) && i < j < |es| && cs[i].pos == At(GeoAudit) && es[i].Scanned?
    requires cs[j].pos == At(RiskScoring) && es[j].Scored? && RiskScores.Consistent(es[j].profile)
    ensures cs[j + 1].st.error == (if RiskScores.Standing(es[j].profile).0 + (if es[i].detected then 30 else 0) >= 70
                                   then Some(RiskEscalated) else None)
  {
    GeoFindingStays(cs, es, i, j);
    RunKeepsInv(cs, es, j);
    assert Next(cs[j], es[j], cs[j + 1]);
    ScoringOutcome(cs[j], es[j], cs[j + 1], Rank(cs[0].st.stage));
  }

  /** The regulations are chosen once, by the destination of the start that first chose them. */
  lemma {:induction false} RegulationsStay(cs: seq<Config>, es: seq<Event>, i: nat)
    requires Run(cs, es) && 0 < i < |cs|
    ensures cs[i].st.regulations == if cs[0].st.regulations.Some? then cs[0].st.regulations
                                    else Some(RegulationsFor(cs[0].st.destination))
  {
    assert Next(cs[i - 1], es[i - 1], cs[i]);
    if i == 1 {
    } else {
      RegulationsStay(cs, es, i - 1);
    }
  }

  // ---------------------------------------------------------------------
  // Main results, for every run.
  // ---------------------------------------------------------------------

  /** The work nodes run in the fixed order, each at most once, without gaps from where the batch entered;
      for a new batch that is a prefix of the whole order. */
  lemma WorkRunsInOrder(cs: seq<Config>, es: seq<Event>, i: nat)
    requires Run(cs, es) && i < |cs|
    ensures var first := Rank(cs[0].st.stage);
            exists last | first <= last <= 5 :: WorkOf(cs[i].visits) == WORK[first..last]
    ensures cs[0].st.stage == Queued ==> WorkOf(cs[i].visits) <= WORK
  {
    RunKeepsInv(cs, es, i);
  }

  /** A work node runs only without an error reason, and past the gateway with a confidence of at least the threshold
      and hitl_required false. */
  lemma WorkNeverRunsUnderAnOpenError(cs: seq<Config>, es: seq<Event>, i: nat)
    requires Run(cs, es) && i < |cs| && cs[i].pos.At? && IsWork(cs[i].pos.node)
    ensures cs[i].st.error.None? && !cs[i].st.hitlRequired
    ensures cs[i].pos.node != DataGatewayNode ==>
              cs[i].st.confidence.Some? && cs[i].st.confidence.value >= DataGateway.THRESHOLD
  {
    RunKeepsInv(cs, es, i);
  }

  /** An error reason that was raised is only ever cleared by an approval. */
  lemma {:induction false} RaisedErrorsAreApproved(cs: seq<Config>, es: seq<Event>, i: nat, j: nat)
    requires Run(cs, es) && i < j < |cs| && cs[i].st.error.Some? && cs[j].st.error.None?
    ensures exists k | i <= k < j :: cs[k].pos == At(HitlInterrupt) && es[k] == Resolved(true)
  {
    RunKeepsInv(cs, es, j - 1);
    assert Next(cs[j - 1], es[j - 1], cs[j]);
    if cs[j - 1].st.error.None? {
      RaisedErrorsAreApproved(cs, es, i, j - 1);
    } else {
      assert cs[j - 1].pos == At(HitlInterrupt) && es[j - 1] == Resolved(true);
    }
  }

  /** So between a raised error and any later work node there was an approval. */
  lemma WorkWaitsForApproval(cs: seq<Config>, es: seq<Event>, i: nat, j: nat)
    requires Run(cs, es) && i < j < |cs| && cs[i].st.error.Some? && cs[j].pos.At? && IsWork(cs[j].pos.node)
    ensures exists k | i <= k < j :: cs[k].pos == At(HitlInterrupt) && es[k] == Resolved(true)
  {
    WorkNeverRunsUnderAnOpenError(cs, es, j);
    RaisedErrorsAreApproved(cs, es, i, j);
  }

  lemma HitlRequiredMeansPending(cs: seq<Config>, es: seq<Event>, i: nat)
    requires Run(cs, es) && i < |cs| && cs[i].st.hitlRequired
    ensures cs[i].st.error.Some?
  {
    RunKeepsInv(cs, es, i);
  }

  lemma NextUsesBudget(c: Config, e: Event, c': Config, first: nat)
    requires Inv(c, first) && Next(c, e, c')
    ensures Left(c') < Left(c)
    ensures InterruptsLeft(c') + (if c.pos.node == HitlInterrupt then 1 else 0) <= InterruptsLeft(c)
  {
    if e.Crash? || !IsWork(c.pos.node) {
      OtherNodesKeepState(c, e, c', first);
    } else {
      WorkAdvancesState(c, e, c', first);
    }
  }

  lemma CountAppend(visits: seq<Node>, n: Node, m: Node)
    ensures Count(visits + [n], m) == Count(visits, m) + if n == m then 1 else 0
  {
  }

  ghost predicate WithinBudget(c: Config, visited: nat, visits: nat, interrupts: nat) {
    && |c.visits| == visited && visited + Left(c) <= visits
    && Count(c.visits, HitlInterrupt) + InterruptsLeft(c) <= interrupts
  }

  lemma NextStaysWithinBudget(c: Config, e: Event, c': Config, first: nat, visited: nat, visits: nat, interrupts: nat)
    requires Inv(c, first) && Next(c, e, c') && WithinBudget(c, visited, visits, interrupts)
    ensures WithinBudget(c', visited + 1, visits, interrupts)
  {
    NextUsesBudget(c, e, c', first);
    CountAppend(c.visits, c.pos.node, HitlInterrupt);
  }

  /** Node visits a run may take: two more when it starts with an error reason left over from an earlier run. */
  function MostVisits(s: BatchState): nat { if s.error.Some? then 22 else 20 }

  function MostInterrupts(s: BatchState): nat { if s.error.Some? then 5 else 4 }

  lemma {:induction false} BudgetOverRun(cs: seq<Config>, es: seq<Event>, i: nat)
    requires Run(cs, es) && i < |cs|
    ensures WithinBudget(cs[i], i, MostVisits(cs[0].st), MostInterrupts(cs[0].st))
  {
    if i == 0 {
      assert Count([], HitlInterrupt) == 0;
    } else {
      BudgetOverRun(cs, es, i - 1);
      RunKeepsInv(cs, es, i - 1);
      assert Next(cs[i - 1], es[i - 1], cs[i]);
      NextStaysWithinBudget(cs[i - 1], es[i - 1], cs[i], Rank(cs[0].st.stage), i - 1,
                            MostVisits(cs[0].st), MostInterrupts(cs[0].st));
    }
  }

  /** Every run is finite: at most 20 node visits of which at most 4 are interrupts, or 22 and 5 when it starts with an
      error reason. */
  lemma RunsAreShort(cs: seq<Config>, es: seq<Event>)
    requires Run(cs, es)
    ensures |es| <= if cs[0].st.error.Some? then 22 else 20
    ensures Count(cs[|es|].visits, HitlInterrupt) <= if cs[0].st.error.Some? then 5 else 4
  {
    BudgetOverRun(cs, es, |es|);
  }

  /** A new batch is a start, and so is a resume without a checkpoint, at whatever stage the batch is stored. */
  lemma BatchesStart(destination: string, hasProduct: bool, stage: Stage, confidence: real)
    ensures Fresh(Config(At(Supervisor), BatchState(hasProduct, destination, Queued, None, None, false, None, 0, false),
                         []))
    ensures var s := BatchState(hasProduct, destination, stage, None, Some(confidence), false, None, 0, false);
            confidence >= 0.85 ==> Init(Config(At(Supervisor), s, []))
  {
  }

  /** Any node but the router and the end may fail. */
  lemma NodesMayFail(c: Config)
    requires c.pos.At? && c.pos.node != Supervisor && c.pos.node != Completed
    ensures Next(c, Crash, Config(Failed, c.st, c.visits + [c.pos.node]))
  {
  }

  /** Starting a batch again from any point of any run is such a start, with whatever error reason was pending. */
  lemma RestartIsAStart(cs: seq<Config>, es: seq<Event>, i: nat, destination: string, hasProduct: bool)
    requires Run(cs, es) && i < |cs|
    ensures var s := cs[i].st.(stage := Queued, destination := destination, hasProduct := hasProduct);
            Init(Config(At(Supervisor), s, []))
  {
    RunKeepsInv(cs, es, i);
  }

  /** A run that ends normally has done all its work, with no error reason left and hitl_required false. */
  lemma EndedMeansAllWorkDone(cs: seq<Config>, es: seq<Event>, i: nat)
    requires Run(cs, es) && i < |cs| && cs[i].pos == Ended
    ensures WorkOf(cs[i].visits) == WORK[Rank(cs[0].st.stage)..] && cs[i].st.error.None? && !cs[i].st.hitlRequired
  {
    RunKeepsInv(cs, es, i);
    assert WORK[Rank(cs[0].st.stage)..5] == WORK[Rank(cs[0].st.stage)..];
  }

  /** A human may approve a batch for which the gateway found no supplier, but approval does not make it
      completable: any run that enters before risk scoring and ends has a supplier. So a resume without a
      checkpoint after the gateway, which starts with none, never ends. */
  lemma EndedMeansSuppliersKnown(cs: seq<Config>, es: seq<Event>, i: nat)
    requires Run(cs, es) && i < |cs| && cs[i].pos == Ended && Rank(cs[0].st.stage) <= 3
    ensures cs[i].st.suppliers > 0 && cs[0].st.stage == Queued && cs[0].st.hasProduct
  {
    RunKeepsInv(cs, es, i);
    SuppliersComeFromTheGateway(cs, es, i);
  }

  lemma {:induction false} SuppliersComeFromTheGateway(cs: seq<Config>, es: seq<Event>, i: nat)
    requires Run(cs, es) && i < |cs|
    ensures cs[i].st.hasProduct == cs[0].st.hasProduct
    ensures Rank(cs[i].st.stage) >= 1 && cs[i].st.suppliers > 0 ==> cs[0].st.stage == Queued && cs[0].st.hasProduct
  {
    if i == 0 {
      assert Init(cs[0]);
    } else {
      RunKeepsInv(cs, es, i - 1);
      SuppliersComeFromTheGateway(cs, es, i - 1);
      assert Next(cs[i - 1], es[i - 1], cs[i]);
      SuppliersStep(cs[i - 1], es[i - 1], cs[i], Rank(cs[0].st.stage));
    }
  }

  lemma SuppliersStep(c: Config, e: Event, c': Config, first: nat)
    requires Inv(c, first) && Next(c, e, c')
    ensures c'.st.hasProduct == c.st.hasProduct
    ensures Rank(c'.st.stage) >= 1 && c'.st.suppliers > 0 ==>
              if Rank(c.st.stage) >= 1 then c.st.suppliers > 0 else c.st.hasProduct && first == 0
  {
  }

  /** One step on, with an environment that finds a supplier, approves, and raises nothing. */
  ghost function Onward(c: Config): (Event, Config)
    requires c.pos.At?
  {
    var visits, s := c.visits + [c.pos.node], c.st;
    match c.pos.node
    case Supervisor => (Hop, Config(At(Route(s)), Prepared(s), visits))
    case DataGatewayNode =>
      (Gathered([], map[], 1, 1.0), Config(At(Supervisor), AfterGateway(s, [], map[], 1, 1.0), visits))
    case GeoAudit => (Scanned(false), Config(At(Supervisor), AfterGeo(s, false), visits))
    case ComplianceNode => (Judged(map[]), Config(At(Supervisor), AfterCompliance(s, map[]), visits))
    case RiskScoring => (Scored(None), Config(At(Supervisor), AfterRisk(s, None), visits))
    case FinalJudgment => (Concluded, Config(At(Supervisor), s.(stage := JudgmentStage), visits))
    case HitlInterrupt => (Resolved(true), Config(At(Supervisor), AfterApproval(s), visits))
    case Completed => (Hop, Config(Ended, s, visits))
  }

  lemma OnwardIsAStep(c: Config)
    requires c.pos.At? && !(c.pos.node == RiskScoring && c.st.suppliers == 0)
    ensures Next(c, Onward(c).0, Onward(c).1) && !Onward(c).0.Crash?
  {
  }

  /** The one place where a batch cannot go on without an exception: risk scoring with no supplier. */
  lemma OnlyMissingSuppliersBlock(c: Config)
    requires c.pos.At?
    ensures (exists e: Event, c': Config :: !e.Crash? && Next(c, e, c'))
            <==> !(c.pos.node == RiskScoring && c.st.suppliers == 0)
  {
    if !(c.pos.node == RiskScoring && c.st.suppliers == 0) {
      OnwardIsAStep(c);
    }
  }

  // ---------------------------------------------------------------------
  // Which batches can still be completed.
  // ---------------------------------------------------------------------

  /** A continuation of a run. */
  ghost predicate Path(cs: seq<Config>, es: seq<Event>) {
    |cs| == |es| + 1 && forall i | 0 <= i < |es| :: Next(cs[i], es[i], cs[i + 1])
  }

  ghost predicate CanEnd(c: Config) {
    exists cs: seq<Config>, es: seq<Event> :: Path(cs, es) && cs[0] == c && cs[|es|].pos == Ended
  }

  /** Before the gateway there must be a product, from there to risk scoring there must be a supplier. */
  predicate Completable(c: Config) {
    var r := Rank(c.st.stage);
    c.pos == Ended || (c.pos.At? && (r >= 4 || (if r == 0 then c.st.hasProduct else c.st.suppliers > 0)))
  }

  lemma CompletableBefore(c: Config, e: Event, c': Config, first: nat)
    requires StateOk(c.st, first) && PositionOk(c.pos, c.st) && Next(c, e, c') && Completable(c')
    ensures Completable(c)
  {
    if e.Crash? || !IsWork(c.pos.node) {
      OtherNodesKeepState(c, e, c', first);
    } else {
      WorkAdvancesState(c, e, c', first);
    }
  }

  lemma {:induction false} NeverCompletable(cs: seq<Config>, es: seq<Event>, first: nat)
    requires Path(cs, es) && Inv(cs[0], first) && !Completable(cs[0])
    ensures cs[|es|].pos != Ended
    decreases |es|
  {
    if es == [] {
    } else {
      assert Next(cs[0], es[0], cs[1]);
      NextKeepsInv(cs[0], es[0], cs[1], first);
      if Completable(cs[1]) {
        CompletableBefore(cs[0], es[0], cs[1], first);
      } else {
        assert Path(cs[1..], es[1..]) by {
          forall i | 0 <= i < |es| - 1 ensures Next(cs[1..][i], es[1..][i], cs[1..][i + 1]) {
            assert Next(cs[i + 1], es[i + 1], cs[i + 2]);
          }
        }
        NeverCompletable(cs[1..], es[1..], first);
      }
    }
  }

  lemma OnwardStaysCompletable(c: Config, first: nat)
    requires Inv(c, first) && Completable(c) && c.pos.At?
    ensures Completable(Onward(c).1)
  {
  }

  lemma PathFirst(c: Config, e: Event, cs: seq<Config>, es: seq<Event>)
    requires Path(cs, es) && Next(c, e, cs[0])
    ensures Path([c] + cs, [e] + es)
  {
    forall i | 0 <= i < |[e] + es| ensures Next(([c] + cs)[i], ([e] + es)[i], ([c] + cs)[i + 1]) {
      if i > 0 {
        assert Next(cs[i - 1], es[i - 1], cs[i]);
      }
    }
  }

  lemma {:induction false} CompletableEnds(c: Config, first: nat) returns (cs: seq<Config>, es: seq<Event>)
    requires Inv(c, first) && Completable(c)
    ensures Path(cs, es) && cs[0] == c && cs[|es|].pos == Ended
    decreases Left(c)
  {
    if c.pos == Ended {
      cs, es := [c], [];
    } else {
      var (e, c') := Onward(c);
      OnwardIsAStep(c);
      OnwardStaysCompletable(c, first);
      NextKeepsInv(c, e, c', first);
      NextUsesBudget(c, e, c', first);
      cs, es := CompletableEnds(c', first);
      PathFirst(c, e, cs, es);
      cs, es := [c] + cs, [e] + es;
    }
  }

  /** At any point of any run, the batch can still be brought to its end exactly when it is completable. */
  lemma CanEndIff(cs: seq<Config>, es: seq<Event>, i: nat)
    requires Run(cs, es) && i < |cs|
    ensures CanEnd(cs[i]) <==> Completable(cs[i])
  {
    var first := Rank(cs[0].st.stage);
    RunKeepsInv(cs, es, i);
    if Completable(cs[i]) {
      var ps, qs := CompletableEnds(cs[i], first);
    } else {
      forall ps: seq<Config>, qs: seq<Event> | Path(ps, qs) && ps[0] == cs[i] ensures ps[|qs|].pos != Ended {
        NeverCompletable(ps, qs, first);
      }
    }
  }

  // ---------------------------------------------------------------------
  // Batches that are started again.
  // ---------------------------------------------------------------------

  /** A batch's life: visits, and starts of the whole pipeline over what its thread holds by then. Its product is a
      column of the batch and stays. */
  datatype LifeStep = Visited(e: Event) | Again(destination: string)

  function Restarted(c: Config, destination: string): Config {
    Config(At(Supervisor), c.st.(stage := Queued, destination := destination), [])
  }

  ghost predicate LifeNext(c: Config, a: LifeStep, c': Config) {
    match a
    case Visited(e) => Next(c, e, c')
    case Again(destination) => c' == Restarted(c, destination)
  }

  ghost predicate LifePath(cs: seq<Config>, steps: seq<LifeStep>) {
    |cs| == |steps| + 1 && forall i | 0 <= i < |steps| :: LifeNext(cs[i], steps[i], cs[i + 1])
  }

  ghost predicate Life(cs: seq<Config>, steps: seq<LifeStep>) { LifePath(cs, steps) && Init(cs[0]) }

  /** Some continuation, with or without further starts, ends. */
  ghost predicate CanFinish(c: Config) {
    exists cs: seq<Config>, steps: seq<LifeStep> ::
      LifePath(cs, steps) && cs[0] == c && cs[|steps|].pos == Ended
  }

  lemma RestartedInv(c: Config, destination: string, first: nat)
    requires Inv(c, first)
    ensures Inv(Restarted(c, destination), 0)
    ensures Completable(Restarted(c, destination)) <==> c.st.hasProduct
  {
    assert WorkOf([]) == [];
  }

  lemma {:induction false} LifeKeepsInv(cs: seq<Config>, steps: seq<LifeStep>, i: nat) returns (first: nat)
    requires Life(cs, steps) && i < |cs|
    ensures Inv(cs[i], first)
  {
    if i == 0 {
      first := Rank(cs[0].st.stage);
      assert WorkOf([]) == [];
    } else {
      first := LifeKeepsInv(cs, steps, i - 1);
      assert LifeNext(cs[i - 1], steps[i - 1], cs[i]);
      match steps[i - 1]
      case Visited(e) => NextKeepsInv(cs[i - 1], e, cs[i], first);
      case Again(destination) =>
        RestartedInv(cs[i - 1], destination, first);
        first := 0;
    }
  }

  /** Without a product no later start helps. */
  lemma {:induction false} NeverFinished(cs: seq<Config>, steps: seq<LifeStep>, first: nat, k: nat) returns (later: nat)
    requires LifePath(cs, steps) && Inv(cs[0], first) && !Completable(cs[0]) && !cs[0].st.hasProduct && k < |cs|
    ensures Inv(cs[k], later) && !Completable(cs[k]) && !cs[k].st.hasProduct
  {
    if k == 0 {
      later := first;
    } else {
      later := NeverFinished(cs, steps, first, k - 1);
      assert LifeNext(cs[k - 1], steps[k - 1], cs[k]);
      match steps[k - 1]
      case Visited(e) =>
        NextKeepsInv(cs[k - 1], e, cs[k], later);
        SuppliersStep(cs[k - 1], e, cs[k], later);
        if Completable(cs[k]) {
          CompletableBefore(cs[k - 1], e, cs[k], later);
        }
      case Again(destination) =>
        RestartedInv(cs[k - 1], destination, later);
        later := 0;
    }
  }

  /** One start and its visits, as a life. */
  lemma StartedLife(c: Config, destination: string, cs: seq<Config>, es: seq<Event>)
    requires Path(cs, es) && cs[0] == Restarted(c, destination)
    ensures LifePath([c] + cs, [Again(destination)] + VisitsOnly(es))
  {
    var all, steps := [c] + cs, [Again(destination)] + VisitsOnly(es);
    forall i | 0 <= i < |steps| ensures LifeNext(all[i], steps[i], all[i + 1]) {
      if i > 0 {
        assert Next(cs[i - 1], es[i - 1], cs[i]);
      }
    }
  }

  function VisitsOnly(es: seq<Event>): seq<LifeStep> { seq(|es|, i requires 0 <= i < |es| => Visited(es[i])) }

  lemma CompletableCanFinish(c: Config, first: nat)
    requires Inv(c, first) && Completable(c)
    ensures CanFinish(c)
  {
    var cs, es := CompletableEnds(c, first);
    assert LifePath(cs, VisitsOnly(es)) by {
      forall i | 0 <= i < |es| ensures LifeNext(cs[i], VisitsOnly(es)[i], cs[i + 1]) {
        assert Next(cs[i], es[i], cs[i + 1]);
      }
    }
  }

  lemma ProductCanFinish(c: Config, first: nat)
    requires Inv(c, first) && c.st.hasProduct
    ensures CanFinish(c)
  {
    var again := Restarted(c, c.st.destination);
    RestartedInv(c, c.st.destination, first);
    var cs, es := CompletableEnds(again, 0);
    StartedLife(c, c.st.destination, cs, es);
    assert ([c] + cs)[|es| + 1] == cs[|es|];
  }

  /** At any point of any life the batch can still be finished, now or by a later start, exactly when this run can
      still be completed or the batch has a product. */
  lemma CanFinishIff(cs: seq<Config>, steps: seq<LifeStep>, i: nat)
    requires Life(cs, steps) && i < |cs|
    ensures CanFinish(cs[i]) <==> Completable(cs[i]) || cs[i].st.hasProduct
  {
    var first := LifeKeepsInv(cs, steps, i);
    if Completable(cs[i]) {
      CompletableCanFinish(cs[i], first);
    } else if cs[i].st.hasProduct {
      ProductCanFinish(cs[i], first);
    } else {
      forall ps: seq<Config>, more: seq<LifeStep> | LifePath(ps, more) && ps[0] == cs[i]
        ensures ps[|more|].pos != Ended
      {
        var later := NeverFinished(ps, more, first, |more|);
      }
    }
  }

  // ---------------------------------------------------------------------
  // Runs that show it.
  // ---------------------------------------------------------------------

  /** Where the router sends c. */
  function Arrived(c: Config): Config { Config(At(Route(c.st)), Prepared(c.st), c.visits + [Supervisor]) }

  lemma PathLast(cs: seq<Config>, es: seq<Event>, e: Event, c': Config)
    requires Path(cs, es) && Next(cs[|es|], e, c')
    ensures Path(cs + [c'], es + [e])
  {
    forall i | 0 <= i < |es + [e]| ensures Next((cs + [c'])[i], (es + [e])[i], (cs + [c'])[i + 1]) {
      if i < |es| {
        assert Next(cs[i], es[i], cs[i + 1]);
      }
    }
  }

  /** One hop to a node and back, appended to a path. */
  lemma Visit(cs: seq<Config>, es: seq<Event>, e: Event, s: BatchState) returns (cs': seq<Config>, es': seq<Event>)
    requires Path(cs, es) && cs[|es|].pos == At(Supervisor)
    requires var c := Arrived(cs[|es|]); Next(c, e, Config(At(Supervisor), s, c.visits + [c.pos.node]))
    ensures Path(cs', es') && cs'[0] == cs[0] && |es'| == |es| + 2
    ensures cs'[|es'|].pos == At(Supervisor) && cs'[|es'|].st == s
    ensures Count(cs'[|es'|].visits, HitlInterrupt)
            == Count(cs[|es|].visits, HitlInterrupt) + if Route(cs[|es|].st) == HitlInterrupt then 1 else 0
  {
    var c := Arrived(cs[|es|]);
    var c' := Config(At(Supervisor), s, c.visits + [c.pos.node]);
    PathLast(cs, es, Hop, c);
    PathLast(cs + [c], es + [Hop], e, c');
    cs', es' := cs + [c] + [c'], es + [Hop] + [e];
  }

  /** A node that leaves an error reason, and the approval it then waits for, appended to a path. */
  lemma ReferredVisit(cs: seq<Config>, es: seq<Event>, e: Event, s: BatchState)
      returns (cs': seq<Config>, es': seq<Event>)
    requires Path(cs, es) && cs[|es|].pos == At(Supervisor)
    requires Route(cs[|es|].st) != HitlInterrupt && Route(s) == HitlInterrupt && Prepared(s) == s
    requires var c := Arrived(cs[|es|]); Next(c, e, Config(At(Supervisor), s, c.visits + [c.pos.node]))
    ensures Path(cs', es') && cs'[0] == cs[0] && |es'| == |es| + 4
    ensures cs'[|es'|].pos == At(Supervisor) && cs'[|es'|].st == AfterApproval(s)
    ensures Count(cs'[|es'|].visits, HitlInterrupt) == Count(cs[|es|].visits, HitlInterrupt) + 1
  {
    cs', es' := Visit(cs, es, e, s);
    cs', es' := Visit(cs', es', Resolved(true), AfterApproval(s));
  }

  /** From a finished compliance node without suppliers, a run goes to risk scoring and not to its end. */
  lemma IntoRiskScoring(cs: seq<Config>, es: seq<Event>) returns (cs': seq<Config>, es': seq<Event>)
    requires Run(cs, es) && cs[|es|].pos == At(Supervisor)
    requires cs[|es|].st.error.None? && cs[|es|].st.stage == ComplianceStage && cs[|es|].st.suppliers == 0
    ensures Run(cs', es') && cs'[0] == cs[0] && !CanEnd(cs'[|es'|])
    ensures cs'[|es'|].pos == At(RiskScoring) && cs'[|es'|].st.suppliers == 0
    ensures Count(cs'[|es'|].visits, HitlInterrupt) == Count(cs[|es|].visits, HitlInterrupt)
  {
    var stuck := Arrived(cs[|es|]);
    PathLast(cs, es, Hop, stuck);
    cs', es' := cs + [stuck], es + [Hop];
    CanEndIff(cs', es', |es'|);
  }

  /** The input: nothing extracted and no supplier, approved by a human all the same, no geographic finding, no
      applicable regulation. The run gets to risk scoring and cannot end from there. */
  lemma ApprovedWithoutSuppliersIsStuck(c0: Config) returns (cs: seq<Config>, es: seq<Event>)
    requires Fresh(c0) && c0.st.destination == "KR"
    ensures Run(cs, es) && cs[0] == c0 && Count(cs[|es|].visits, HitlInterrupt) == 1
    ensures cs[|es|].pos == At(RiskScoring) && cs[|es|].st.suppliers == 0 && !CanEnd(cs[|es|])
  {
    var s0 := Prepared(c0.st);
    var s1 := AfterGateway(s0, [], map[], 0, 1.0);
    var s2 := AfterApproval(s1);
    var s3 := AfterGeo(s2, false);
    var s4 := AfterCompliance(s3, map[]);
    assert s0.regulations == Some([]) && s1.error == Some(LowConfidence);
    cs, es := [c0], [];
    cs, es := ReferredVisit(cs, es, Gathered([], map[], 0, 1.0), s1);
    cs, es := Visit(cs, es, Scanned(false), s3);
    cs, es := Visit(cs, es, Judged(map[]), s4);
    cs, es := IntoRiskScoring(cs, es);
  }

  /** The final judgment and the last two hops, from a scored batch. */
  lemma Leave(cs: seq<Config>, es: seq<Event>) returns (cs': seq<Config>, es': seq<Event>)
    requires Path(cs, es) && cs[|es|].pos == At(Supervisor)
    requires cs[|es|].st.error.None? && cs[|es|].st.stage == Risk
    ensures Path(cs', es') && cs'[0] == cs[0] && |es'| == |es| + 4 && cs'[|es'|].pos == Ended
    ensures Count(cs'[|es'|].visits, HitlInterrupt) == Count(cs[|es|].visits, HitlInterrupt)
  {
    cs', es' := Visit(cs, es, Concluded, Prepared(cs[|es|].st).(stage := JudgmentStage));
    var c := Arrived(cs'[|es'|]);
    var c' := Config(Ended, c.st, c.visits + [Completed]);
    PathLast(cs', es', Hop, c);
    PathLast(cs' + [c], es' + [Hop], Hop, c');
    cs', es' := cs' + [c] + [c'], es' + [Hop] + [Hop];
  }

  /** From a queued batch to a finished geographic audit, each of the two nodes referring it to a human. */
  lemma ReferredUpToGeo(cs: seq<Config>, es: seq<Event>) returns (cs': seq<Config>, es': seq<Event>)
    requires Path(cs, es) && cs[|es|].pos == At(Supervisor)
    requires var s := cs[|es|].st;
             s.stage == Queued && s.error.None? && s.hasProduct && "CSDDD" in Prepared(s).regulations.value
    ensures Path(cs', es') && cs'[0] == cs[0] && |es'| == |es| + 8 && cs'[|es'|].pos == At(Supervisor)
    ensures Count(cs'[|es'|].visits, HitlInterrupt) == Count(cs[|es|].visits, HitlInterrupt) + 2
    ensures var s := cs'[|es'|].st;
            && s.stage == Geo && s.error.None? && s.geoRisk && s.suppliers > 0
            && s.regulations.Some? && "CSDDD" in s.regulations.value
  {
    var s1 := AfterGateway(Prepared(cs[|es|].st), [], map[], 1, 1.0);
    var s2 := AfterGeo(AfterApproval(s1), true);
    cs', es' := ReferredVisit(cs, es, Gathered([], map[], 1, 1.0), s1);
    cs', es' := ReferredVisit(cs', es', Scanned(true), s2);
  }

  /** From there to the end, again with a referral after each node that can make one. */
  lemma ReferredToTheEnd(cs: seq<Config>, es: seq<Event>) returns (cs': seq<Config>, es': seq<Event>)
    requires Path(cs, es) && cs[|es|].pos == At(Supervisor)
    requires var s := cs[|es|].st;
             && s.stage == Geo && s.error.None? && s.geoRisk && s.suppliers > 0
             && s.regulations.Some? && "CSDDD" in s.regulations.value
    ensures Path(cs', es') && cs'[0] == cs[0] && |es'| == |es| + 12 && cs'[|es'|].pos == Ended
    ensures Count(cs'[|es'|].visits, HitlInterrupt) == Count(cs[|es|].visits, HitlInterrupt) + 2
  {
    var judges := map["CSDDD" := Judgment("compliance_warning", true)];
    var worst := Some(RiskScores.Profile(100, RiskScores.Critical, true, []));
    assert AnyHumanReview(cs[|es|].st.regulations.value, judges);
    var s1 := AfterCompliance(cs[|es|].st, judges);
    var s2 := AfterRisk(AfterApproval(s1), worst);
    cs', es' := ReferredVisit(cs, es, Judged(judges), s1);
    cs', es' := ReferredVisit(cs', es', Scored(worst), s2);
    cs', es' := Leave(cs', es');
  }

  /** The bounds for a start without an error reason are reached: referred to a human after every node that can do so,
      and approved each time. */
  lemma CleanStartCostsFour(c0: Config) returns (cs: seq<Config>, es: seq<Event>)
    requires Init(c0) && c0.st.stage == Queued && c0.st.error.None? && c0.st.hasProduct
    requires "CSDDD" in Prepared(c0.st).regulations.value
    ensures Run(cs, es) && cs[0] == c0 && cs[|es|].pos == Ended
    ensures |es| == 20 && Count(cs[|es|].visits, HitlInterrupt) == 4
  {
    cs, es := ReferredUpToGeo([c0], []);
    cs, es := ReferredToTheEnd(cs, es);
  }

  /** And so are the bounds for a start with one, which costs an approval before the first node. */
  lemma LeftoverErrorCostsFive(c0: Config) returns (cs: seq<Config>, es: seq<Event>)
    requires Init(c0) && c0.st.stage == Queued && c0.st.error.Some? && c0.st.hasProduct
    requires "CSDDD" in Prepared(c0.st).regulations.value
    ensures Run(cs, es) && cs[0] == c0 && cs[|es|].pos == Ended
    ensures |es| == 22 && Count(cs[|es|].visits, HitlInterrupt) == 5
  {
    cs, es := Visit([c0], [], Resolved(true), AfterApproval(Prepared(c0.st)));
    cs, es := ReferredUpToGeo(cs, es);
    cs, es := ReferredToTheEnd(cs, es);
  }
}
