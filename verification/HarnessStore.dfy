// The harness service over its stored rows, one transaction a method, refining the steps of module Harness.

module HarnessStore {
  import opened Ordering
  import opened Harness

  lemma {:induction false} KeptJoins(first: seq<Reason>, rest: seq<Reason>, raising: set<Reason>)
    ensures Kept(first + rest, raising) == Kept(first, raising) + Kept(rest, raising)
    decreases |first|
  {
    if first == [] {
      assert first + rest == rest;
    } else {
      assert (first + rest)[1..] == first[1..] + rest;
      KeptJoins(first[1..], rest, raising);
    }
  }

  /** What appending each raised reason in turn builds from a list. */
  function Append(reasons: seq<Reason>, raised: bool, r: Reason): seq<Reason> {
    if raised then reasons + [r] else reasons
  }

  lemma KeptNext(among: seq<Reason>, k: nat, raising: set<Reason>)
    requires k < |among|
    ensures Kept(among[..k + 1], raising) == Append(Kept(among[..k], raising), among[k] in raising, among[k])
  {
    assert among[..k + 1] == among[..k] + [among[k]];
    KeptJoins(among[..k], [among[k]], raising);
  }

  lemma KeptAboutEvaluation(raising: set<Reason>)
    ensures var r0 := Append([], EvaluationHarnessMismatch in raising, EvaluationHarnessMismatch);
            var r1 := Append(r0, EvaluationVersionMismatch in raising, EvaluationVersionMismatch);
            var r2 := Append(r1, EvaluationNotCompleted in raising, EvaluationNotCompleted);
            var r3 := Append(r2, EvaluationIncomplete in raising, EvaluationIncomplete);
            var r4 := Append(r3, EvaluationHasFailures in raising, EvaluationHasFailures);
            Kept(ABOUT_EVALUATION, raising) == Append(r4, EvaluationHasInconclusiveOutcomes in raising,
                                                      EvaluationHasInconclusiveOutcomes)
  {
    KeptNext(ABOUT_EVALUATION, 0, raising);
    KeptNext(ABOUT_EVALUATION, 1, raising);
    KeptNext(ABOUT_EVALUATION, 2, raising);
    KeptNext(ABOUT_EVALUATION, 3, raising);
    KeptNext(ABOUT_EVALUATION, 4, raising);
    KeptNext(ABOUT_EVALUATION, 5, raising);
    assert ABOUT_EVALUATION[..6] == ABOUT_EVALUATION;
  }

  lemma KeptAboutCoverage(raising: set<Reason>)
    ensures var r0 := Append([], ScenarioClassNotEvaluated in raising, ScenarioClassNotEvaluated);
            var r1 := Append(r0, NoScenariosDerived in raising, NoScenariosDerived);
            var r2 := Append(r1, ChallengerIsChampion in raising, ChallengerIsChampion);
            Kept(ABOUT_COVERAGE, raising) == Append(r2, IncumbentCoverageNotMatched in raising,
                                                    IncumbentCoverageNotMatched)
  {
    KeptNext(ABOUT_COVERAGE, 0, raising);
    KeptNext(ABOUT_COVERAGE, 1, raising);
    KeptNext(ABOUT_COVERAGE, 2, raising);
    KeptNext(ABOUT_COVERAGE, 3, raising);
    assert ABOUT_COVERAGE[..4] == ABOUT_COVERAGE;
  }

  lemma KeptAboutDrill(raising: set<Reason>)
    ensures var r0 := Append([], RollbackNotProven in raising, RollbackNotProven);
            var r1 := Append(r0, RollbackDrillNotFound in raising, RollbackDrillNotFound);
            var r2 := Append(r1, RollbackDrillWrongKind in raising, RollbackDrillWrongKind);
            var r3 := Append(r2, RollbackDrillFailed in raising, RollbackDrillFailed);
            Kept(ABOUT_DRILL, raising) == Append(r3, RollbackDrillPredatesEvaluation in raising,
                                                 RollbackDrillPredatesEvaluation)
  {
    KeptNext(ABOUT_DRILL, 0, raising);
    KeptNext(ABOUT_DRILL, 1, raising);
    KeptNext(ABOUT_DRILL, 2, raising);
    KeptNext(ABOUT_DRILL, 3, raising);
    KeptNext(ABOUT_DRILL, 4, raising);
    assert ABOUT_DRILL[..5] == ABOUT_DRILL;
  }

  lemma RaisedAboutEvaluation(s: Tables, e: Evaluation, q: Request)
    ensures var r0 := Append([], e.harness != q.harness, EvaluationHarnessMismatch);
            var r1 := Append(r0, e.version != q.challenger, EvaluationVersionMismatch);
            var r2 := Append(r1, e.status != Completed, EvaluationNotCompleted);
            var r3 := Append(r2, Recorded(e) != e.count, EvaluationIncomplete);
            var r4 := Append(r3, e.failed != 0, EvaluationHasFailures);
            Raised(s, e, q, ABOUT_EVALUATION) == Append(r4, e.inconclusive != 0, EvaluationHasInconclusiveOutcomes)
  {
    var raising := Raising(s, e, q);
    assert EvaluationHarnessMismatch in raising <==> e.harness != q.harness;
    assert EvaluationVersionMismatch in raising <==> e.version != q.challenger;
    assert EvaluationNotCompleted in raising <==> e.status != Completed;
    assert EvaluationIncomplete in raising <==> Recorded(e) != e.count;
    assert EvaluationHasFailures in raising <==> e.failed != 0;
    assert EvaluationHasInconclusiveOutcomes in raising <==> e.inconclusive != 0;
    KeptAboutEvaluation(raising);
  }

  lemma RaisedAboutCoverage(s: Tables, e: Evaluation, q: Request)
    ensures var r0 := Append([], Raises(s, e, q, ScenarioClassNotEvaluated), ScenarioClassNotEvaluated);
            var r1 := Append(r0, Raises(s, e, q, NoScenariosDerived), NoScenariosDerived);
            var r2 := Append(r1, Raises(s, e, q, ChallengerIsChampion), ChallengerIsChampion);
            Raised(s, e, q, ABOUT_COVERAGE) == Append(r2, Raises(s, e, q, IncumbentCoverageNotMatched),
                                                      IncumbentCoverageNotMatched)
  {
    KeptAboutCoverage(Raising(s, e, q));
  }

  lemma RaisedAboutNoDrill(s: Tables, e: Evaluation, q: Request)
    requires !Cited(s.ev, q)
    ensures Raised(s, e, q, ABOUT_DRILL) == [if q.drill == None then RollbackNotProven else RollbackDrillNotFound]
  {
    var raising := Raising(s, e, q);
    assert RollbackNotProven in raising <==> q.drill == None;
    assert RollbackDrillNotFound in raising <==> q.drill.Some?;
    assert RollbackDrillWrongKind !in raising && RollbackDrillFailed !in raising
           && RollbackDrillPredatesEvaluation !in raising;
    KeptAboutDrill(raising);
  }

  lemma RaisedAboutDrill(s: Tables, e: Evaluation, q: Request)
    requires Cited(s.ev, q)
    ensures var drill := s.ev.drills[q.drill.value];
            Raised(s, e, q, ABOUT_DRILL)
            == Append(Append(Append([], !drill.rollback, RollbackDrillWrongKind), !drill.passed, RollbackDrillFailed),
                      drill.at < e.startedAt, RollbackDrillPredatesEvaluation)
  {
    var raising := Raising(s, e, q);
    var drill := s.ev.drills[q.drill.value];
    assert RollbackNotProven !in raising && RollbackDrillNotFound !in raising;
    assert RollbackDrillWrongKind in raising <==> !drill.rollback;
    assert RollbackDrillFailed in raising <==> !drill.passed;
    assert RollbackDrillPredatesEvaluation in raising <==> drill.at < e.startedAt;
    KeptAboutDrill(raising);
  }

  class Service {
    var scenarios: map<Id, Scenario>
    var drills: map<Id, Drill>
    var evaluations: map<Id, Evaluation>
    var results: map<(Id, Id), Outcome>
    var drafts: map<Id, Draft>
    var promotions: map<Id, Promotion>
    var champions: map<string, Champion>

    constructor ()
      ensures State() == EMPTY
    {
      scenarios, drills, evaluations, results := map[], map[], map[], map[];
      drafts, promotions, champions := map[], map[], map[];
    }

    function State(): Tables
      reads this
    {
      Tables(Evidence(scenarios, drills, evaluations, results), drafts, promotions, champions)
    }

    method StartEvaluation(id: Id, harness: string, version: string, selected: seq<Id>, now: Time)
        returns (error: Option<Error>)
      modifies `evaluations
      ensures error == StartError(old(State()).ev, id, selected)
      ensures State() == Step(old(State()), Start(id, harness, version, selected, now))
    {
      error := None;
      if id in evaluations || selected == [] || !AllDifferent(selected) { return Some(InvalidRequest); }
      var i := 0;
      while i < |selected|
        invariant i <= |selected| && forall k :: 0 <= k < i ==> selected[k] in scenarios
        invariant error == None
      {
        if selected[i] !in scenarios { return Some(ScenarioNotFound); }
        i := i + 1;
      }
      var watermark := scenarios[selected[0]].watermark;
      i := 1;
      while i < |selected|
        invariant 1 <= i <= |selected| && forall k :: 0 <= k < i ==> scenarios[selected[k]].watermark == watermark
        invariant error == None
      {
        if scenarios[selected[i]].watermark != watermark {
          assert selected[0] in selected && selected[i] in selected;
          return Some(WatermarkMixed);
        }
        i := i + 1;
      }
      evaluations := evaluations[id := Evaluation(harness, version, Running, selected, |selected|, 0, 0, 0, now)];
    }

    method RecordResult(id: Id, scenario: Id, outcome: Outcome) returns (error: Option<Error>)
      modifies `evaluations, `results
      ensures error == RecordError(old(State()).ev, id, scenario)
      ensures State() == Step(old(State()), Record(id, scenario, outcome))
    {
      if id !in evaluations { return Some(EvaluationNotFound); }
      var e := evaluations[id];
      if e.status != Running { return Some(EvaluationTerminal); }
      if Recorded(e) >= e.count { return Some(EvaluationComplete); }
      if scenario !in e.selected { return Some(ScenarioNotSelected); }
      if (id, scenario) in results { return Some(ScenarioAlreadyEvaluated); }
      results := results[(id, scenario) := outcome];
      match outcome {
        case Passed => evaluations := evaluations[id := e.(passed := e.passed + 1)];
        case Failed => evaluations := evaluations[id := e.(failed := e.failed + 1)];
        case Inconclusive => evaluations := evaluations[id := e.(inconclusive := e.inconclusive + 1)];
      }
      error := None;
    }

    method CompleteEvaluation(id: Id, status: EvaluationStatus) returns (error: Option<Error>)
      modifies `evaluations
      ensures error == CompleteError(old(State()).ev, id, status)
      ensures State() == Step(old(State()), Complete(id, status))
    {
      if status == Running { return Some(InvalidRequest); }
      if id !in evaluations { return Some(EvaluationNotFound); }
      var e := evaluations[id];
      if e.status != Running { return Some(EvaluationTerminal); }
      if status == Completed && e.passed + e.failed + e.inconclusive != e.count { return Some(Incomplete); }
      evaluations := evaluations[id := e.(status := status)];
      error := None;
    }

    // ---- The gate collects every reason rather than stopping at the first

    method AskEvaluation(e: Evaluation, q: Request) returns (reasons: seq<Reason>)
      ensures reasons == Raised(State(), e, q, ABOUT_EVALUATION)
    {
      reasons := [];
      reasons := Append(reasons, e.harness != q.harness, EvaluationHarnessMismatch);
      reasons := Append(reasons, e.version != q.challenger, EvaluationVersionMismatch);
      reasons := Append(reasons, e.status != Completed, EvaluationNotCompleted);
      reasons := Append(reasons, e.passed + e.failed + e.inconclusive != e.count, EvaluationIncomplete);
      reasons := Append(reasons, e.failed > 0, EvaluationHasFailures);
      reasons := Append(reasons, e.inconclusive > 0, EvaluationHasInconclusiveOutcomes);
      RaisedAboutEvaluation(State(), e, q);
    }

    method CoverageMissing(e: Evaluation, q: Request) returns (lost: bool)
      ensures lost == Raises(State(), e, q, IncumbentCoverageNotMatched)
    {
      if q.harness !in champions || champions[q.harness].promotion !in promotions { return false; }
      var incumbent := promotions[champions[q.harness].promotion].request.evaluation;
      if incumbent !in evaluations { return false; }
      var missing := (set x | x in evaluations[incumbent].selected) - (set x | x in e.selected);
      if missing == {} {
        forall x | x in evaluations[incumbent].selected ensures x in e.selected { assert x !in missing; }
      } else {
        var x :| x in missing;
      }
      lost := missing != {};
    }

    method ClassMissing(e: Evaluation, q: Request) returns (uncovered: bool)
      ensures uncovered == Raises(State(), e, q, ScenarioClassNotEvaluated)
    {
      var shown := set y | y in e.selected && y in scenarios :: scenarios[y].kind;
      var derived := set x | x in scenarios :: scenarios[x].kind;
      uncovered := !(derived <= shown);
      if uncovered {
        var kind :| kind in derived && kind !in shown;
        var x :| x in scenarios && scenarios[x].kind == kind;
        forall y | y in e.selected && y in scenarios ensures scenarios[y].kind != scenarios[x].kind {
          assert scenarios[y].kind in shown;
        }
      } else {
        forall x | x in scenarios
          ensures exists y :: y in e.selected && y in scenarios && scenarios[y].kind == scenarios[x].kind
        {
          assert scenarios[x].kind in derived && scenarios[x].kind in shown;
        }
      }
    }

    method ChallengerRuns(e: Evaluation, q: Request) returns (same: bool)
      ensures same == Raises(State(), e, q, ChallengerIsChampion)
    {
      same := q.harness in champions && champions[q.harness].version == q.challenger;
    }

    method NoScenarios(e: Evaluation, q: Request) returns (none: bool)
      ensures none == Raises(State(), e, q, NoScenariosDerived)
    {
      none := |scenarios| == 0;
    }

    method AskCoverage(e: Evaluation, q: Request) returns (reasons: seq<Reason>)
      ensures reasons == Raised(State(), e, q, ABOUT_COVERAGE)
    {
      var uncovered := ClassMissing(e, q);
      var none := NoScenarios(e, q);
      var same := ChallengerRuns(e, q);
      var lost := CoverageMissing(e, q);
      reasons := [];
      reasons := Append(reasons, uncovered, ScenarioClassNotEvaluated);
      reasons := Append(reasons, none, NoScenariosDerived);
      reasons := Append(reasons, same, ChallengerIsChampion);
      reasons := Append(reasons, lost, IncumbentCoverageNotMatched);
      RaisedAboutCoverage(State(), e, q);
    }

    method AskCitedDrill(e: Evaluation, q: Request) returns (reasons: seq<Reason>)
      requires Cited(State().ev, q)
      ensures reasons == Raised(State(), e, q, ABOUT_DRILL)
    {
      var drill := drills[q.drill.value];
      reasons := [];
      reasons := Append(reasons, !drill.rollback, RollbackDrillWrongKind);
      reasons := Append(reasons, !drill.passed, RollbackDrillFailed);
      reasons := Append(reasons, drill.at < e.startedAt, RollbackDrillPredatesEvaluation);
      RaisedAboutDrill(State(), e, q);
    }

    method AskDrill(e: Evaluation, q: Request) returns (reasons: seq<Reason>)
      ensures reasons == Raised(State(), e, q, ABOUT_DRILL)
    {
      if q.drill.Some? && q.drill.value in drills {
        reasons := AskCitedDrill(e, q);
      } else {
        reasons := [if q.drill == None then RollbackNotProven else RollbackDrillNotFound];
        RaisedAboutNoDrill(State(), e, q);
      }
    }

    method EvaluationGate(e: Evaluation, q: Request) returns (reasons: seq<Reason>)
      ensures reasons == Raised(State(), e, q, REASONS)
    {
      var evaluation := AskEvaluation(e, q);
      var coverage := AskCoverage(e, q);
      var drill := AskDrill(e, q);
      ghost var raising := Raising(State(), e, q);
      KeptJoins(ABOUT_EVALUATION + ABOUT_COVERAGE, ABOUT_DRILL, raising);
      KeptJoins(ABOUT_EVALUATION, ABOUT_COVERAGE, raising);
      reasons := evaluation + coverage + drill;
    }

    // ---- Proposing takes three transactions, deciding and rolling back one each

    method Gate(d: Id, q: Request, actor: string) returns (error: Option<Error>)
      modifies `drafts
      ensures error == GateError(old(State()), d, q)
      ensures State() == Step(old(State()), Action.Gate(d, q, actor))
    {
      if d in drafts { return Some(InvalidRequest); }
      if q.evaluation !in evaluations { return Some(EvaluationNotFound); }
      var reasons := EvaluationGate(evaluations[q.evaluation], q);
      drafts := drafts[d := Draft(q, actor, reasons, false, None)];
      error := None;
    }

    method Sight(d: Id)
      requires d in drafts && !drafts[d].sighted
      modifies `drafts
      ensures State() == Step(old(State()), Action.Sight(d))
    {
      var draft := drafts[d];
      var h := draft.request.harness;
      if h in champions {
        drafts := drafts[d := draft.(sighted := true, incumbent := Some(champions[h].version))];
      } else {
        drafts := drafts[d := draft.(sighted := true, incumbent := None)];
      }
    }

    method Propose(d: Id, p: Id) returns (error: Option<Error>)
      requires d in drafts && drafts[d].sighted && p !in promotions
      modifies `drafts, `promotions
      ensures error == ProposeError(old(State()), d, p)
      ensures State() == Step(old(State()), Action.Propose(d, p))
    {
      var draft := drafts[d];
      if draft.request.drill == None || draft.request.drill.value !in drills { return Some(DrillMissing); }
      var status := if draft.reasons == [] then Pending else Refused;
      promotions := promotions[p := Promotion(draft.request, draft.incumbent, status, draft.reasons, draft.actor,
                                              None)];
      drafts := drafts - {d};
      error := None;
    }

    method Decide(p: Id, actor: string, promote: bool) returns (error: Option<Error>)
      modifies `promotions, `champions
      ensures error == DecideError(old(State()), p, actor, promote)
      ensures State() == Step(old(State()), Action.Decide(p, actor, promote))
    {
      if p !in promotions { return Some(PromotionNotFound); }
      var pr := promotions[p];
      if pr.status != Pending { return Some(PromotionDecided); }
      if pr.requestedBy == actor { return Some(SecondPersonRequired); }
      if promote {
        var h := pr.request.harness;
        var previous := if h in champions then Some(champions[h].version) else pr.incumbent;
        if pr.incumbent == Some(pr.request.challenger) || previous == Some(pr.request.challenger) {
          return Some(SameVersion);
        }
        champions := champions[h := Champion(pr.request.challenger, previous, p)];
      }
      promotions := promotions[p := pr.(status := if promote then Promoted else Rejected, decidedBy := Some(actor))];
      error := None;
    }

    method RollBack(p: Id) returns (error: Option<Error>)
      modifies `promotions, `champions
      ensures error == RollBackError(old(State()), p)
      ensures State() == Step(old(State()), Action.RollBack(p))
    {
      if p !in promotions { return Some(PromotionNotFound); }
      var pr := promotions[p];
      if pr.status != Promoted { return Some(PromotionNotActive); }
      var h := pr.request.harness;
      if h !in champions || champions[h].promotion != p { return Some(Superseded); }
      promotions := promotions[p := pr.(status := RolledBack)];
      if pr.incumbent == None {
        champions := champions - {h};
      } else {
        champions := champions[h := Champion(pr.incumbent.value, None, p)];
      }
      error := None;
    }
  }
}
