// Counters, results and the evidence behind a promotion: what recording and completing keep.

module HarnessEvidence {
  import opened Ordering
  import opened Harness

  // ---- Counters are the results

  function Scored(ev: Evidence, e: Id, outcome: Outcome): set<Id>
    requires e in ev.evaluations
  {
    set x | x in ev.evaluations[e].selected && (e, x) in ev.results && ev.results[(e, x)] == outcome
  }

  ghost predicate EvaluationInv(ev: Evidence, e: Id)
    requires e in ev.evaluations
  {
    var row := ev.evaluations[e];
    && row.count == |row.selected| && AllDifferent(row.selected)
    && row.passed == |Scored(ev, e, Passed)| && row.failed == |Scored(ev, e, Failed)|
    && row.inconclusive == |Scored(ev, e, Inconclusive)|
    && (row.status == Completed ==> Recorded(row) == row.count)
  }

  ghost predicate ResultsInv(ev: Evidence) {
    forall e, x :: (e, x) in ev.results ==> e in ev.evaluations && x in ev.evaluations[e].selected
  }

  ghost predicate EvidenceInv(ev: Evidence) {
    ResultsInv(ev) && forall e :: e in ev.evaluations ==> EvaluationInv(ev, e)
  }

  function Ids(selected: seq<Id>): set<Id> {
    set x | x in selected
  }

  lemma {:induction false} DistinctCount(selected: seq<Id>)
    requires AllDifferent(selected)
    ensures |Ids(selected)| == |selected|
    decreases |selected|
  {
    if selected != [] {
      var front, last := selected[..|selected|-1], selected[|selected|-1];
      DistinctCount(front);
      assert selected == front + [last];
      assert Ids(selected) == Ids(front) + {last};
    }
  }

  lemma SubsetOfSameSize<T>(a: set<T>, b: set<T>)
    requires a <= b && |a| == |b|
    ensures a == b
  {
    assert |b - a| == |b| - |a|;
    assert b - a == {};
  }

  /** A clean completed evaluation passed every scenario it selected: nothing was left out, nothing counted twice. */
  lemma CleanEvaluationPassedAll(ev: Evidence, e: Id)
    requires EvidenceInv(ev) && e in ev.evaluations && ev.evaluations[e].status == Completed
    requires ev.evaluations[e].failed == 0 && ev.evaluations[e].inconclusive == 0
    ensures forall x :: x in ev.evaluations[e].selected ==> (e, x) in ev.results && ev.results[(e, x)] == Passed
  {
    assert EvaluationInv(ev, e);
    var selected := ev.evaluations[e].selected;
    DistinctCount(selected);
    SubsetOfSameSize(Scored(ev, e, Passed), Ids(selected));
    forall x | x in selected ensures (e, x) in ev.results && ev.results[(e, x)] == Passed {
      assert x in Ids(selected);
    }
  }

  // ---- Every step keeps the counters honest

  lemma SameScores(ev: Evidence, ev': Evidence, e: Id, o: Outcome)
    requires e in ev.evaluations && e in ev'.evaluations && ev'.evaluations[e].selected == ev.evaluations[e].selected
    requires forall x :: x in ev.evaluations[e].selected ==>
               ((e, x) in ev.results <==> (e, x) in ev'.results)
               && ((e, x) in ev.results ==> ev'.results[(e, x)] == ev.results[(e, x)])
    ensures Scored(ev', e, o) == Scored(ev, e, o)
  {}

  lemma SameCounters(ev: Evidence, ev': Evidence, e: Id)
    requires e in ev.evaluations && EvaluationInv(ev, e)
    requires e in ev'.evaluations && ev'.evaluations[e] == ev.evaluations[e].(status := ev'.evaluations[e].status)
    requires forall x :: (e, x) in ev.results <==> (e, x) in ev'.results
    requires forall x :: (e, x) in ev.results ==> ev'.results[(e, x)] == ev.results[(e, x)]
    requires ev'.evaluations[e].status == Completed ==> Recorded(ev.evaluations[e]) == ev.evaluations[e].count
    ensures EvaluationInv(ev', e)
  {
    SameScores(ev, ev', e, Passed);
    SameScores(ev, ev', e, Failed);
    SameScores(ev, ev', e, Inconclusive);
  }

  lemma Unscored(ev: Evidence, e: Id, o: Outcome)
    requires e in ev.evaluations && forall x :: (e, x) !in ev.results
    ensures Scored(ev, e, o) == {}
  {}

  lemma StartKeepsInv(ev: Evidence, id: Id, harness: string, version: string, selected: seq<Id>, now: Time)
    requires EvidenceInv(ev)
    ensures EvidenceInv(StartStep(ev, id, harness, version, selected, now))
  {
    var ev' := StartStep(ev, id, harness, version, selected, now);
    if ev' != ev {
      forall e | e in ev'.evaluations ensures EvaluationInv(ev', e) {
        if e == id {
          Unscored(ev', e, Passed);
          Unscored(ev', e, Failed);
          Unscored(ev', e, Inconclusive);
        } else {
          SameCounters(ev, ev', e);
        }
      }
    }
  }

  /** A new result joins the scenarios with its outcome and no others. */
  lemma ResultJoins(ev: Evidence, ev': Evidence, e: Id, scenario: Id, outcome: Outcome, o: Outcome)
    requires e in ev.evaluations && e in ev'.evaluations && ev'.evaluations[e].selected == ev.evaluations[e].selected
    requires scenario in ev.evaluations[e].selected && (e, scenario) !in ev.results
    requires ev'.results == ev.results[(e, scenario) := outcome]
    ensures Scored(ev', e, o) == Scored(ev, e, o) + if o == outcome then {scenario} else {}
    ensures scenario !in Scored(ev, e, o)
  {
    var selected := ev.evaluations[e].selected;
    forall x | x in selected
      ensures x in Scored(ev', e, o) <==> x in Scored(ev, e, o) || (o == outcome && x == scenario)
    {
      if x != scenario {
        assert (e, x) != (e, scenario);
      }
    }
  }

  lemma RecordedScores(ev: Evidence, ev': Evidence, e: Id, scenario: Id, outcome: Outcome, o: Outcome)
    requires e in ev.evaluations && e in ev'.evaluations && ev'.evaluations[e].selected == ev.evaluations[e].selected
    requires scenario in ev.evaluations[e].selected && (e, scenario) !in ev.results
    requires ev'.results == ev.results[(e, scenario) := outcome]
    ensures |Scored(ev', e, o)| == |Scored(ev, e, o)| + if o == outcome then 1 else 0
  {
    ResultJoins(ev, ev', e, scenario, outcome, o);
  }

  lemma RecordKeepsInv(ev: Evidence, id: Id, scenario: Id, outcome: Outcome)
    requires EvidenceInv(ev)
    ensures EvidenceInv(RecordStep(ev, id, scenario, outcome))
  {
    var ev' := RecordStep(ev, id, scenario, outcome);
    if ev' != ev {
      forall e | e in ev'.evaluations ensures EvaluationInv(ev', e) {
        assert EvaluationInv(ev, e);
        if e == id {
          RecordedScores(ev, ev', e, scenario, outcome, Passed);
          RecordedScores(ev, ev', e, scenario, outcome, Failed);
          RecordedScores(ev, ev', e, scenario, outcome, Inconclusive);
        } else {
          SameCounters(ev, ev', e);
        }
      }
    }
  }

  lemma CompleteKeepsInv(ev: Evidence, id: Id, status: EvaluationStatus)
    requires EvidenceInv(ev)
    ensures EvidenceInv(CompleteStep(ev, id, status))
  {
    var ev' := CompleteStep(ev, id, status);
    if ev' != ev {
      forall e | e in ev'.evaluations ensures EvaluationInv(ev', e) {
        assert EvaluationInv(ev, e);
        SameCounters(ev, ev', e);
      }
    }
  }

  lemma EvidenceStepKeepsInv(ev: Evidence, a: Action)
    requires EvidenceInv(ev) && Gathers(a)
    ensures EvidenceInv(EvidenceStep(ev, a))
  {
    if a.Start? {
      StartKeepsInv(ev, a.id, a.harness, a.version, a.selected, a.now);
    } else if a.Record? {
      RecordKeepsInv(ev, a.evaluation, a.scenario, a.outcome);
    } else if a.Complete? {
      CompleteKeepsInv(ev, a.evaluation, a.status);
    } else {
      var ev' := EvidenceStep(ev, a);
      forall e | e in ev'.evaluations ensures EvaluationInv(ev', e) {
        assert EvaluationInv(ev, e);
        SameCounters(ev, ev', e);
      }
    }
  }

  // ---- Evidence only accumulates

  /** Finished evaluations, recorded outcomes and drills are there for good. */
  ghost predicate Accumulates(ev: Evidence, ev': Evidence) {
    && (forall e :: e in ev.evaluations && ev.evaluations[e].status != Running ==>
          e in ev'.evaluations && ev'.evaluations[e] == ev.evaluations[e])
    && (forall k :: k in ev.results ==> k in ev'.results && ev'.results[k] == ev.results[k])
    && (forall d :: d in ev.drills ==> d in ev'.drills && ev'.drills[d] == ev.drills[d])
  }

  lemma EvidenceStepAccumulates(ev: Evidence, a: Action)
    requires Gathers(a)
    ensures Accumulates(ev, EvidenceStep(ev, a))
  {
    match a
    case AddScenario(_, _) =>
    case AddDrill(_, _) =>
    case Start(_, _, _, _, _) =>
    case Record(_, _, _) =>
    case Complete(_, _) =>
  }

  // ---- What a clear gate stands on

  /** A finished, fully passed evaluation of exactly this version, and a later passed rollback drill. */
  ghost predicate Backed(ev: Evidence, q: Request) {
    && q.evaluation in ev.evaluations
    && var e := ev.evaluations[q.evaluation];
       && e.harness == q.harness && e.version == q.challenger && e.status == Completed
       && (forall x :: x in e.selected ==> (q.evaluation, x) in ev.results && ev.results[(q.evaluation, x)] == Passed)
       && Cited(ev, q)
       && var d := ev.drills[q.drill.value]; d.rollback && d.passed && e.startedAt <= d.at
  }

  lemma BackedStays(ev: Evidence, ev': Evidence, q: Request)
    requires Accumulates(ev, ev') && Backed(ev, q)
    ensures Backed(ev', q)
  {}

  /** The gate's list of reasons leaves none out. */
  lemma EveryReasonIsAsked(r: Reason)
    ensures r in REASONS
  {
    assert ABOUT_EVALUATION[0] == EvaluationHarnessMismatch && ABOUT_EVALUATION[1] == EvaluationVersionMismatch;
    assert ABOUT_EVALUATION[2] == EvaluationNotCompleted && ABOUT_EVALUATION[3] == EvaluationIncomplete;
    assert ABOUT_EVALUATION[4] == EvaluationHasFailures && ABOUT_EVALUATION[5] == EvaluationHasInconclusiveOutcomes;
    assert ABOUT_COVERAGE[0] == ScenarioClassNotEvaluated && ABOUT_COVERAGE[1] == NoScenariosDerived;
    assert ABOUT_COVERAGE[2] == ChallengerIsChampion && ABOUT_COVERAGE[3] == IncumbentCoverageNotMatched;
    assert ABOUT_DRILL[0] == RollbackNotProven && ABOUT_DRILL[1] == RollbackDrillNotFound;
    assert ABOUT_DRILL[2] == RollbackDrillWrongKind && ABOUT_DRILL[3] == RollbackDrillFailed;
    assert ABOUT_DRILL[4] == RollbackDrillPredatesEvaluation;
  }

  lemma ClearMeansNoReason(s: Tables, e: Evaluation, q: Request)
    ensures Raised(s, e, q, REASONS) == [] <==> forall r :: !Raises(s, e, q, r)
  {
    var found := Raised(s, e, q, REASONS);
    if found == [] {
      forall r ensures !Raises(s, e, q, r) { EveryReasonIsAsked(r); }
    } else {
      assert found[0] in found;
    }
  }

  lemma NoReasonIsBacked(s: Tables, q: Request)
    requires EvidenceInv(s.ev) && q.evaluation in s.ev.evaluations
    requires forall r :: !Raises(s, s.ev.evaluations[q.evaluation], q, r)
    ensures Backed(s.ev, q)
  {
    var e := s.ev.evaluations[q.evaluation];
    assert !Raises(s, e, q, EvaluationHarnessMismatch) && !Raises(s, e, q, EvaluationVersionMismatch);
    assert !Raises(s, e, q, EvaluationNotCompleted);
    assert !Raises(s, e, q, EvaluationHasFailures) && !Raises(s, e, q, EvaluationHasInconclusiveOutcomes);
    assert !Raises(s, e, q, RollbackNotProven) && !Raises(s, e, q, RollbackDrillNotFound);
    assert !Raises(s, e, q, RollbackDrillWrongKind) && !Raises(s, e, q, RollbackDrillFailed);
    assert !Raises(s, e, q, RollbackDrillPredatesEvaluation);
    CleanEvaluationPassedAll(s.ev, q.evaluation);
  }

  /** The gate is clear only on standing evidence. */
  lemma ClearGateIsBacked(s: Tables, q: Request)
    requires EvidenceInv(s.ev) && q.evaluation in s.ev.evaluations
    requires Raised(s, s.ev.evaluations[q.evaluation], q, REASONS) == []
    ensures Backed(s.ev, q)
  {
    ClearMeansNoReason(s, s.ev.evaluations[q.evaluation], q);
    NoReasonIsBacked(s, q);
  }

  // ---- The posture an evaluation shows

  /** An evaluation's posture asks the gate about itself without a drill, and drops that one reason. */
  predicate Eligible(s: Tables, id: Id)
    requires id in s.ev.evaluations
  {
    var e := s.ev.evaluations[id];
    forall r :: r in Raised(s, e, Request(e.harness, e.version, id, None), REASONS) ==> r == RollbackNotProven
  }

  /** What the gate asks about the cited drill, as opposed to the evaluation. */
  predicate AboutDrill(r: Reason) {
    r == RollbackNotProven || r == RollbackDrillNotFound || r == RollbackDrillWrongKind || r == RollbackDrillFailed
    || r == RollbackDrillPredatesEvaluation
  }

  lemma EligibleMeansNoOtherReason(s: Tables, id: Id)
    requires id in s.ev.evaluations
    ensures var e := s.ev.evaluations[id]; var q := Request(e.harness, e.version, id, None);
            Eligible(s, id) <==> forall r :: AboutDrill(r) || !Raises(s, e, q, r)
  {
    var e := s.ev.evaluations[id];
    var q := Request(e.harness, e.version, id, None);
    if Eligible(s, id) {
      forall r | Raises(s, e, q, r) ensures AboutDrill(r) {
        EveryReasonIsAsked(r);
        assert r in Raised(s, e, q, REASONS);
      }
    }
  }

  lemma DrillReasonsOnly(s: Tables, e: Evaluation, id: Id, drill: Id, r: Reason)
    requires !AboutDrill(r)
    ensures Raises(s, e, Request(e.harness, e.version, id, None), r)
            <==> Raises(s, e, Request(e.harness, e.version, id, Some(drill)), r)
  {}

  predicate DrillServes(s: Tables, e: Evaluation, drill: Id) {
    drill in s.ev.drills && s.ev.drills[drill].rollback && s.ev.drills[drill].passed
      && e.startedAt <= s.ev.drills[drill].at
  }

  lemma DrillReasons(s: Tables, e: Evaluation, id: Id, drill: Id)
    ensures DrillServes(s, e, drill)
            <==> forall r :: AboutDrill(r) ==> !Raises(s, e, Request(e.harness, e.version, id, Some(drill)), r)
  {
    var q := Request(e.harness, e.version, id, Some(drill));
    if !DrillServes(s, e, drill) {
      assert Raises(s, e, q, RollbackDrillNotFound) || Raises(s, e, q, RollbackDrillWrongKind)
             || Raises(s, e, q, RollbackDrillFailed) || Raises(s, e, q, RollbackDrillPredatesEvaluation);
    }
  }

  /** What the posture leaves open is all it leaves open: an eligible evaluation needs only a good drill. */
  lemma EligibleNeedsOnlyADrill(s: Tables, id: Id, drill: Id)
    requires id in s.ev.evaluations
    ensures var e := s.ev.evaluations[id];
            Raised(s, e, Request(e.harness, e.version, id, Some(drill)), REASONS) == []
            <==> Eligible(s, id) && DrillServes(s, e, drill)
  {
    var e := s.ev.evaluations[id];
    ClearMeansNoReason(s, e, Request(e.harness, e.version, id, Some(drill)));
    EligibleMeansNoOtherReason(s, id);
    DrillReasons(s, e, id, drill);
    forall r | !AboutDrill(r)
      ensures Raises(s, e, Request(e.harness, e.version, id, None), r)
              <==> Raises(s, e, Request(e.harness, e.version, id, Some(drill)), r)
    {
      DrillReasonsOnly(s, e, id, drill, r);
    }
  }
}
