// Harness evaluation, two-person promotion and rollback, one transaction at a time.

module Harness {
  import opened Ordering

  type Id = nat
  type Time = int

  datatype Outcome = Passed | Failed | Inconclusive
  datatype EvaluationStatus = Running | Completed | Abandoned
  datatype PromotionStatus = Pending | Promoted | Rejected | RolledBack | Refused

  datatype Scenario = Scenario(kind: string, watermark: string)
  datatype Drill = Drill(rollback: bool, passed: bool, at: Time)
  datatype Evaluation = Evaluation(harness: string, version: string, status: EvaluationStatus, selected: seq<Id>,
                                   count: nat, passed: nat, failed: nat, inconclusive: nat, startedAt: Time)
  /** A proposal names its drill; a posture, which asks the same gate, cannot. */
  datatype Request = Request(harness: string, challenger: string, evaluation: Id, drill: Option<Id>)
  datatype Promotion = Promotion(request: Request, incumbent: Option<string>, status: PromotionStatus,
                                 reasons: seq<Reason>, requestedBy: string, decidedBy: Option<string>)
  datatype Champion = Champion(version: string, previous: Option<string>, promotion: Id)

  /** A proposal between its transactions: gated, then with the champion's version read, then inserted. */
  datatype Draft = Draft(request: Request, actor: string, reasons: seq<Reason>, sighted: bool,
                         incumbent: Option<string>)

  datatype Reason =
    | EvaluationHarnessMismatch | EvaluationVersionMismatch | EvaluationNotCompleted | EvaluationIncomplete
    | EvaluationHasFailures | EvaluationHasInconclusiveOutcomes | ScenarioClassNotEvaluated | NoScenariosDerived
    | ChallengerIsChampion | IncumbentCoverageNotMatched | RollbackNotProven | RollbackDrillNotFound
    | RollbackDrillWrongKind | RollbackDrillFailed | RollbackDrillPredatesEvaluation

  /** What was derived, drilled and evaluated. */
  datatype Evidence = Evidence(scenarios: map<Id, Scenario>, drills: map<Id, Drill>, evaluations: map<Id, Evaluation>,
                               results: map<(Id, Id), Outcome>)

  /** The evidence, and what was proposed, decided and installed on it. */
  datatype Tables = Tables(ev: Evidence, drafts: map<Id, Draft>, promotions: map<Id, Promotion>,
                           champions: map<string, Champion>)

  datatype Action =
    | AddScenario(id: Id, derived: Scenario)
    | AddDrill(id: Id, performed: Drill)
    | Start(id: Id, harness: string, version: string, selected: seq<Id>, now: Time)
    | Record(evaluation: Id, scenario: Id, outcome: Outcome)
    | Complete(evaluation: Id, status: EvaluationStatus)
    | Gate(draft: Id, request: Request, actor: string)
    | Sight(draft: Id)
    | Propose(draft: Id, promotion: Id)
    | Decide(promotion: Id, actor: string, promote: bool)
    | RollBack(promotion: Id)

  datatype Error =
    | ScenarioNotFound | WatermarkMixed | InvalidRequest | EvaluationNotFound | EvaluationTerminal | EvaluationComplete
    | ScenarioNotSelected | ScenarioAlreadyEvaluated | Incomplete | DraftUnknown | DrillMissing
    | PromotionNotFound | PromotionDecided | SecondPersonRequired | SameVersion | PromotionNotActive | Superseded

  // ---- Evaluation

  predicate AllDifferent(ids: seq<Id>) {
    forall i, j :: 0 <= i < j < |ids| ==> ids[i] != ids[j]
  }

  function StartError(ev: Evidence, id: Id, selected: seq<Id>): Option<Error> {
    if id in ev.evaluations || selected == [] || !AllDifferent(selected) then Some(InvalidRequest)
    else if exists x :: x in selected && x !in ev.scenarios then Some(ScenarioNotFound)
    else if exists x, y :: x in selected && y in selected && ev.scenarios[x].watermark != ev.scenarios[y].watermark
    then Some(WatermarkMixed)
    else None
  }

  function StartStep(ev: Evidence, id: Id, harness: string, version: string, selected: seq<Id>, now: Time): Evidence {
    if StartError(ev, id, selected).Some? then ev
    else ev.(evaluations := ev.evaluations[id :=
      Evaluation(harness, version, Running, selected, |selected|, 0, 0, 0, now)])
  }

  function Recorded(e: Evaluation): nat {
    e.passed + e.failed + e.inconclusive
  }

  function RecordError(ev: Evidence, id: Id, scenario: Id): Option<Error> {
    if id !in ev.evaluations then Some(EvaluationNotFound)
    else if ev.evaluations[id].status != Running then Some(EvaluationTerminal)
    else if Recorded(ev.evaluations[id]) >= ev.evaluations[id].count then Some(EvaluationComplete)
    else if scenario !in ev.evaluations[id].selected then Some(ScenarioNotSelected)
    else if (id, scenario) in ev.results then Some(ScenarioAlreadyEvaluated)
    else None
  }

  function CountOne(e: Evaluation, outcome: Outcome): Evaluation {
    match outcome
    case Passed => e.(passed := e.passed + 1)
    case Failed => e.(failed := e.failed + 1)
    case Inconclusive => e.(inconclusive := e.inconclusive + 1)
  }

  function RecordStep(ev: Evidence, id: Id, scenario: Id, outcome: Outcome): Evidence {
    if RecordError(ev, id, scenario).Some? then ev
    else ev.(results := ev.results[(id, scenario) := outcome],
             evaluations := ev.evaluations[id := CountOne(ev.evaluations[id], outcome)])
  }

  function CompleteError(ev: Evidence, id: Id, status: EvaluationStatus): Option<Error> {
    if status == Running then Some(InvalidRequest)
    else if id !in ev.evaluations then Some(EvaluationNotFound)
    else if ev.evaluations[id].status != Running then Some(EvaluationTerminal)
    else if status == Completed && Recorded(ev.evaluations[id]) != ev.evaluations[id].count then Some(Incomplete)
    else None
  }

  function CompleteStep(ev: Evidence, id: Id, status: EvaluationStatus): Evidence {
    if CompleteError(ev, id, status).Some? then ev
    else ev.(evaluations := ev.evaluations[id := ev.evaluations[id].(status := status)])
  }

  predicate Gathers(a: Action) {
    a.AddScenario? || a.AddDrill? || a.Start? || a.Record? || a.Complete?
  }

  function EvidenceStep(ev: Evidence, a: Action): Evidence
    requires Gathers(a)
  {
    match a
    case AddScenario(id, derived) => if id in ev.scenarios then ev else ev.(scenarios := ev.scenarios[id := derived])
    case AddDrill(id, performed) => if id in ev.drills then ev else ev.(drills := ev.drills[id := performed])
    case Start(id, harness, version, selected, now) => StartStep(ev, id, harness, version, selected, now)
    case Record(e, scenario, outcome) => RecordStep(ev, e, scenario, outcome)
    case Complete(e, status) => CompleteStep(ev, e, status)
  }

  // ---- The promotion gate

  /** No selected scenario is of this kind. */
  predicate Untried(ev: Evidence, e: Evaluation, kind: string) {
    forall y :: y in e.selected && y in ev.scenarios ==> ev.scenarios[y].kind != kind
  }

  predicate ClassUncovered(ev: Evidence, e: Evaluation) {
    exists x :: x in ev.scenarios && Untried(ev, e, ev.scenarios[x].kind)
  }

  predicate CoverageLost(s: Tables, e: Evaluation, harness: string) {
    && harness in s.champions && s.champions[harness].promotion in s.promotions
    && var incumbent := s.promotions[s.champions[harness].promotion].request.evaluation;
       incumbent in s.ev.evaluations && exists x :: x in s.ev.evaluations[incumbent].selected && x !in e.selected
  }

  predicate ChampionRuns(s: Tables, harness: string, version: string) {
    harness in s.champions && s.champions[harness].version == version
  }

  /** When the gate raises a reason against evaluation `e`. */
  predicate Raises(s: Tables, e: Evaluation, q: Request, reason: Reason) {
    match reason
    case EvaluationHarnessMismatch => e.harness != q.harness
    case EvaluationVersionMismatch => e.version != q.challenger
    case EvaluationNotCompleted => e.status != Completed
    case EvaluationIncomplete => Recorded(e) != e.count
    case EvaluationHasFailures => e.failed != 0
    case EvaluationHasInconclusiveOutcomes => e.inconclusive != 0
    case ScenarioClassNotEvaluated => ClassUncovered(s.ev, e)
    case NoScenariosDerived => s.ev.scenarios == map[]
    case ChallengerIsChampion => ChampionRuns(s, q.harness, q.challenger)
    case IncumbentCoverageNotMatched => CoverageLost(s, e, q.harness)
    case RollbackNotProven => q.drill == None
    case RollbackDrillNotFound => q.drill.Some? && q.drill.value !in s.ev.drills
    case RollbackDrillWrongKind => Cited(s.ev, q) && !s.ev.drills[q.drill.value].rollback
    case RollbackDrillFailed => Cited(s.ev, q) && !s.ev.drills[q.drill.value].passed
    case RollbackDrillPredatesEvaluation => Cited(s.ev, q) && s.ev.drills[q.drill.value].at < e.startedAt
  }

  predicate Cited(ev: Evidence, q: Request) {
    q.drill.Some? && q.drill.value in ev.drills
  }

  const ABOUT_EVALUATION := [
    EvaluationHarnessMismatch, EvaluationVersionMismatch, EvaluationNotCompleted, EvaluationIncomplete,
    EvaluationHasFailures, EvaluationHasInconclusiveOutcomes]
  const ABOUT_COVERAGE := [
    ScenarioClassNotEvaluated, NoScenariosDerived, ChallengerIsChampion, IncumbentCoverageNotMatched]
  const ABOUT_DRILL := [
    RollbackNotProven, RollbackDrillNotFound, RollbackDrillWrongKind, RollbackDrillFailed,
      RollbackDrillPredatesEvaluation]
  const REASONS := ABOUT_EVALUATION + ABOUT_COVERAGE + ABOUT_DRILL

  /** The reasons of a list that are in a set, in the order of the list. */
  function Kept(among: seq<Reason>, raising: set<Reason>): (rs: seq<Reason>)
    ensures forall r :: r in rs <==> r in among && r in raising
  {
    if among == [] then []
    else
      var rest := Kept(among[1..], raising);
      assert among == [among[0]] + among[1..];
      if among[0] in raising then [among[0]] + rest else rest
  }

  function Raising(s: Tables, e: Evaluation, q: Request): set<Reason> {
    set r: Reason | Raises(s, e, q, r)
  }

  function Raised(s: Tables, e: Evaluation, q: Request, among: seq<Reason>): (rs: seq<Reason>)
    ensures forall r :: r in rs <==> r in among && Raises(s, e, q, r)
  {
    Kept(among, Raising(s, e, q))
  }

  function GateError(s: Tables, d: Id, q: Request): Option<Error> {
    if d in s.drafts then Some(InvalidRequest)
    else if q.evaluation !in s.ev.evaluations then Some(EvaluationNotFound)
    else None
  }

  function GateStep(s: Tables, d: Id, q: Request, actor: string): Tables {
    if GateError(s, d, q).Some? then s
    else s.(drafts := s.drafts[d := Draft(q, actor, Raised(s, s.ev.evaluations[q.evaluation], q, REASONS), false,
                                          None)])
  }

  function VersionOf(s: Tables, harness: string): Option<string> {
    if harness in s.champions then Some(s.champions[harness].version) else None
  }

  function SightStep(s: Tables, d: Id): Tables {
    if d !in s.drafts || s.drafts[d].sighted then s
    else s.(drafts := s.drafts[d := s.drafts[d].(sighted := true,
                                                 incumbent := VersionOf(s, s.drafts[d].request.harness))])
  }

  /** The INSERT: its foreign key refuses a drill that does not exist, whatever the gate said. */
  function ProposeError(s: Tables, d: Id, p: Id): Option<Error> {
    if d !in s.drafts || !s.drafts[d].sighted || p in s.promotions then Some(DraftUnknown)
    else if !Cited(s.ev, s.drafts[d].request) then Some(DrillMissing)
    else None
  }

  function ProposeStep(s: Tables, d: Id, p: Id): Tables {
    if ProposeError(s, d, p).Some? then s
    else
      var draft := s.drafts[d];
      s.(drafts := s.drafts - {d},
         promotions := s.promotions[p := Promotion(draft.request, draft.incumbent,
                                                   if draft.reasons == [] then Pending else Refused,
                                                   draft.reasons, draft.actor, None)])
  }

  // ---- Decision and rollback

  /** The row the upsert would leave: an existing champion's version becomes the previous one. */
  function Installed(s: Tables, p: Id): Champion
    requires p in s.promotions
  {
    var pr := s.promotions[p];
    Champion(pr.request.challenger,
             if pr.request.harness in s.champions then Some(s.champions[pr.request.harness].version)
               else pr.incumbent, p)
  }

  /** The table refuses a champion that replaces its own version, in the row offered and in the row upserted. */
  predicate RepeatsVersion(s: Tables, pr: Promotion) {
    pr.incumbent == Some(pr.request.challenger) || ChampionRuns(s, pr.request.harness, pr.request.challenger)
  }

  function DecideError(s: Tables, p: Id, actor: string, promote: bool): Option<Error> {
    if p !in s.promotions then Some(PromotionNotFound)
    else if s.promotions[p].status != Pending then Some(PromotionDecided)
    else if s.promotions[p].requestedBy == actor then Some(SecondPersonRequired)
    else if promote && RepeatsVersion(s, s.promotions[p]) then Some(SameVersion)
    else None
  }

  function DecideStep(s: Tables, p: Id, actor: string, promote: bool): Tables {
    if DecideError(s, p, actor, promote).Some? then s
    else
      var pr := s.promotions[p];
      var decided := s.(promotions := s.promotions[p := pr.(status := if promote then Promoted else Rejected,
                                                            decidedBy := Some(actor))]);
      if promote then decided.(champions := s.champions[pr.request.harness := Installed(s, p)]) else decided
  }

  function RollBackError(s: Tables, p: Id): Option<Error> {
    if p !in s.promotions then Some(PromotionNotFound)
    else if s.promotions[p].status != Promoted then Some(PromotionNotActive)
    else
      var h := s.promotions[p].request.harness;
      if h !in s.champions || s.champions[h].promotion != p then Some(Superseded) else None
  }

  function RollBackStep(s: Tables, p: Id): Tables {
    if RollBackError(s, p).Some? then s
    else
      var pr := s.promotions[p];
      var h := pr.request.harness;
      s.(promotions := s.promotions[p := pr.(status := RolledBack)],
         champions := match pr.incumbent
                      case None => s.champions - {h}
                      case Some(v) => s.champions[h := Champion(v, None, p)])
  }

  function Step(s: Tables, a: Action): Tables {
    match a
    case Gate(d, request, actor) => GateStep(s, d, request, actor)
    case Sight(d) => SightStep(s, d)
    case Propose(d, p) => ProposeStep(s, d, p)
    case Decide(p, actor, promote) => DecideStep(s, p, actor, promote)
    case RollBack(p) => RollBackStep(s, p)
    case _ => s.(ev := EvidenceStep(s.ev, a))
  }

  function Exec(s: Tables, acts: seq<Action>): Tables
    decreases |acts|
  {
    if acts == [] then s else Exec(Step(s, acts[0]), acts[1..])
  }

  const EMPTY := Tables(Evidence(map[], map[], map[], map[]), map[], map[], map[])
}
