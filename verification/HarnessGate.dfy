// What a clear promotion gate says, in sets of scenarios, over every run.

module HarnessGate {
  import opened Ordering
  import opened Harness
  import opened HarnessEvidence
  import opened HarnessGovernance

  function Tested(ev: Evidence, e: Id): set<Id>
    requires e in ev.evaluations
  {
    set x | x in ev.evaluations[e].selected
  }

  function Kinds(ev: Evidence, among: set<Id>): set<string> {
    set x | x in among && x in ev.scenarios :: ev.scenarios[x].kind
  }

  /** The evaluation behind the promotion that the champion row names. */
  ghost predicate BehindChampion(s: Tables, harness: string, e: Id) {
    && harness in s.champions && s.champions[harness].promotion in s.promotions && e in s.ev.evaluations
    && s.promotions[s.champions[harness].promotion].request.evaluation == e
  }

  /** The champion, if any, is another version, and the challenger was tested on all of what it was tested on. */
  ghost predicate BeatsChampion(s: Tables, q: Request)
    requires q.evaluation in s.ev.evaluations
  {
    q.harness in s.champions ==>
      && s.champions[q.harness].version != q.challenger
      && exists e :: BehindChampion(s, q.harness, e) && Tested(s.ev, e) <= Tested(s.ev, q.evaluation)
  }

  /** Every kind of scenario there is was tested, there is one, and nothing the champion was tested on was left out. */
  ghost predicate Covers(s: Tables, q: Request)
    requires q.evaluation in s.ev.evaluations
  {
    var tested := Tested(s.ev, q.evaluation);
    && s.ev.scenarios.Keys != {}
    && Kinds(s.ev, s.ev.scenarios.Keys) <= Kinds(s.ev, tested)
    && BeatsChampion(s, q)
  }

  lemma UntriedKind(ev: Evidence, id: Id, kind: string)
    requires id in ev.evaluations
    ensures kind in Kinds(ev, Tested(ev, id)) <==> !Untried(ev, ev.evaluations[id], kind)
  {}

  lemma KindsAreCovered(ev: Evidence, id: Id)
    requires id in ev.evaluations
    ensures Kinds(ev, ev.scenarios.Keys) <= Kinds(ev, Tested(ev, id)) <==> !ClassUncovered(ev, ev.evaluations[id])
  {
    forall kind ensures kind in Kinds(ev, Tested(ev, id)) <==> !Untried(ev, ev.evaluations[id], kind) {
      UntriedKind(ev, id, kind);
    }
  }

  /** A champion's promotion was evaluated: its row, its promotion and that promotion's evaluation are all there. */
  lemma ChampionWasEvaluated(s: Tables, harness: string)
    requires Inv(s) && harness in s.champions
    ensures s.champions[harness].promotion in s.promotions
    ensures BehindChampion(s, harness, s.promotions[s.champions[harness].promotion].request.evaluation)
  {
    assert ChampionInv(s.promotions, harness, s.champions[harness]);
    assert PromotionInv(s.ev, s.promotions, s.promotions[s.champions[harness].promotion]);
  }

  lemma IncumbentIsCovered(s: Tables, q: Request)
    requires Inv(s) && q.evaluation in s.ev.evaluations && q.harness in s.champions
    ensures CoverageLost(s, s.ev.evaluations[q.evaluation], q.harness)
            <==> !exists e :: BehindChampion(s, q.harness, e) && Tested(s.ev, e) <= Tested(s.ev, q.evaluation)
  {
    ChampionWasEvaluated(s, q.harness);
    var e := s.promotions[s.champions[q.harness].promotion].request.evaluation;
    if CoverageLost(s, s.ev.evaluations[q.evaluation], q.harness) {
      var x :| x in s.ev.evaluations[e].selected && x !in s.ev.evaluations[q.evaluation].selected;
      assert x in Tested(s.ev, e);
    }
  }

  lemma NoOneFailed(ev: Evidence, e: Id, o: Outcome)
    requires e in ev.evaluations && o != Passed
    requires forall x :: x in ev.evaluations[e].selected ==> (e, x) in ev.results && ev.results[(e, x)] == Passed
    ensures Scored(ev, e, o) == {}
  {}

  /** What is backed raises nothing about the evaluation or the drill. */
  lemma BackedRaisesNone(s: Tables, q: Request, r: Reason)
    requires EvidenceInv(s.ev) && Backed(s.ev, q) && r !in ABOUT_COVERAGE
    ensures !Raises(s, s.ev.evaluations[q.evaluation], q, r)
  {
    assert EvaluationInv(s.ev, q.evaluation);
    NoOneFailed(s.ev, q.evaluation, Failed);
    NoOneFailed(s.ev, q.evaluation, Inconclusive);
    CoverageReasons(r);
  }

  lemma CoverageReasons(r: Reason)
    ensures r in ABOUT_COVERAGE
            <==> r == ScenarioClassNotEvaluated || r == NoScenariosDerived || r == ChallengerIsChampion
                 || r == IncumbentCoverageNotMatched
  {
    assert ABOUT_COVERAGE[0] == ScenarioClassNotEvaluated && ABOUT_COVERAGE[1] == NoScenariosDerived;
    assert ABOUT_COVERAGE[2] == ChallengerIsChampion && ABOUT_COVERAGE[3] == IncumbentCoverageNotMatched;
  }

  lemma FourReasons(s: Tables, e: Evaluation, q: Request)
    ensures (forall r :: r in ABOUT_COVERAGE ==> !Raises(s, e, q, r))
            <==> !Raises(s, e, q, ScenarioClassNotEvaluated) && !Raises(s, e, q, NoScenariosDerived)
                 && !Raises(s, e, q, ChallengerIsChampion) && !Raises(s, e, q, IncumbentCoverageNotMatched)
  {
    CoverageReasons(ScenarioClassNotEvaluated);
    CoverageReasons(NoScenariosDerived);
    CoverageReasons(ChallengerIsChampion);
    CoverageReasons(IncumbentCoverageNotMatched);
    forall r | r in ABOUT_COVERAGE
      ensures r == ScenarioClassNotEvaluated || r == NoScenariosDerived || r == ChallengerIsChampion
              || r == IncumbentCoverageNotMatched
    {
      CoverageReasons(r);
    }
  }

  lemma CoverageIsExact(s: Tables, q: Request)
    requires Inv(s) && q.evaluation in s.ev.evaluations
    ensures Covers(s, q) <==> forall r :: r in ABOUT_COVERAGE ==> !Raises(s, s.ev.evaluations[q.evaluation], q, r)
  {
    var e := s.ev.evaluations[q.evaluation];
    FourReasons(s, e, q);
    KindsAreCovered(s.ev, q.evaluation);
    NoScenarios(s, e, q);
    ChampionIsBeaten(s, q);
    ClassReason(s, e, q);
  }

  lemma ClassReason(s: Tables, e: Evaluation, q: Request)
    ensures Raises(s, e, q, ScenarioClassNotEvaluated) <==> ClassUncovered(s.ev, e)
  {}

  lemma NoScenarios(s: Tables, e: Evaluation, q: Request)
    ensures s.ev.scenarios.Keys != {} <==> !Raises(s, e, q, NoScenariosDerived)
  {}

  lemma ChampionIsBeaten(s: Tables, q: Request)
    requires Inv(s) && q.evaluation in s.ev.evaluations
    ensures var e := s.ev.evaluations[q.evaluation];
            BeatsChampion(s, q)
            <==> !Raises(s, e, q, ChallengerIsChampion) && !Raises(s, e, q, IncumbentCoverageNotMatched)
  {
    ChampionReasons(s, s.ev.evaluations[q.evaluation], q);
    if q.harness in s.champions { IncumbentIsCovered(s, q); }
  }

  lemma ChampionReasons(s: Tables, e: Evaluation, q: Request)
    ensures Raises(s, e, q, IncumbentCoverageNotMatched) <==> CoverageLost(s, e, q.harness)
    ensures CoverageLost(s, e, q.harness) ==> q.harness in s.champions
    ensures Raises(s, e, q, ChallengerIsChampion)
            <==> q.harness in s.champions && s.champions[q.harness].version == q.challenger
  {}

  /**
   * In every run the gate is clear exactly on a finished, fully passed evaluation of this version with a later passed
   * rollback drill, whose scenarios cover every kind and all of what the champion was evaluated on.
   */
  lemma ClearGateExactly(acts: seq<Action>, q: Request)
    requires q.evaluation in Exec(EMPTY, acts).ev.evaluations
    ensures var s := Exec(EMPTY, acts);
            Raised(s, s.ev.evaluations[q.evaluation], q, REASONS) == [] <==> Backed(s.ev, q) && Covers(s, q)
  {
    var s := Exec(EMPTY, acts);
    ExecKeepsInv(EMPTY, acts);
    var e := s.ev.evaluations[q.evaluation];
    ClearMeansNoReason(s, e, q);
    CoverageIsExact(s, q);
    if forall r :: !Raises(s, e, q, r) {
      NoReasonIsBacked(s, q);
    }
    if Backed(s.ev, q) && Covers(s, q) {
      forall r ensures !Raises(s, e, q, r) {
        if r !in ABOUT_COVERAGE { BackedRaisesNone(s, q, r); }
      }
    }
  }

  // ---- The reasons one by one, in their order

  const IN_ORDER := [
    EvaluationHarnessMismatch, EvaluationVersionMismatch, EvaluationNotCompleted, EvaluationIncomplete,
    EvaluationHasFailures, EvaluationHasInconclusiveOutcomes, ScenarioClassNotEvaluated, NoScenariosDerived,
    ChallengerIsChampion, IncumbentCoverageNotMatched, RollbackNotProven, RollbackDrillNotFound, RollbackDrillWrongKind,
    RollbackDrillFailed, RollbackDrillPredatesEvaluation]

  ghost predicate Before(order: seq<Reason>, r: Reason, q: Reason) {
    exists a, b :: 0 <= a < b < |order| && order[a] == r && order[b] == q
  }

  lemma {:induction false} KeptInOrder(among: seq<Reason>, raising: set<Reason>, i: nat, j: nat)
    requires i < j < |Kept(among, raising)|
    ensures Before(among, Kept(among, raising)[i], Kept(among, raising)[j])
    decreases |among|
  {
    var rest, kept := Kept(among[1..], raising), Kept(among, raising);
    var k := |kept| - |rest|;
    if i >= k {
      KeptInOrder(among[1..], raising, i - k, j - k);
      var a, b :| 0 <= a < b < |among[1..]| && among[1..][a] == kept[i] && among[1..][b] == kept[j];
      assert among[a + 1] == kept[i] && among[b + 1] == kept[j];
    } else {
      assert kept[j] == rest[j - k] && kept[j] in rest;
      var b :| 0 <= b < |among[1..]| && among[1..][b] == kept[j];
      assert among[0] == kept[i] && among[b + 1] == kept[j];
    }
  }

  /** The gate lists what it raises in a fixed order. */
  lemma RaisedInOrder(s: Tables, e: Evaluation, q: Request, i: nat, j: nat)
    requires i < j < |Raised(s, e, q, REASONS)|
    ensures Before(IN_ORDER, Raised(s, e, q, REASONS)[i], Raised(s, e, q, REASONS)[j])
  {
    ReasonsAre();
    KeptInOrder(REASONS, Raising(s, e, q), i, j);
  }

  lemma ReasonsAre()
    ensures REASONS == IN_ORDER
  {}

  lemma IsRaised(s: Tables, e: Evaluation, q: Request, r: Reason)
    ensures r in Raised(s, e, q, REASONS) <==> Raises(s, e, q, r)
  {
    EveryReasonIsAsked(r);
  }

  /** What each reason says of the evaluation is so. */
  lemma EvaluationReasonsAreExact(s: Tables, e: Evaluation, q: Request)
    ensures var raised := Raised(s, e, q, REASONS);
            && (EvaluationHarnessMismatch in raised <==> e.harness != q.harness)
            && (EvaluationVersionMismatch in raised <==> e.version != q.challenger)
            && (EvaluationNotCompleted in raised <==> e.status == Running || e.status == Abandoned)
            && (EvaluationIncomplete in raised <==> e.passed + e.failed + e.inconclusive != e.count)
            && (EvaluationHasFailures in raised <==> e.failed > 0)
            && (EvaluationHasInconclusiveOutcomes in raised <==> e.inconclusive > 0)
  {
    IsRaised(s, e, q, EvaluationHarnessMismatch);
    IsRaised(s, e, q, EvaluationVersionMismatch);
    IsRaised(s, e, q, EvaluationNotCompleted);
    IsRaised(s, e, q, EvaluationIncomplete);
    IsRaised(s, e, q, EvaluationHasFailures);
    IsRaised(s, e, q, EvaluationHasInconclusiveOutcomes);
  }

  lemma MissedCoverage(s: Tables, q: Request)
    requires Inv(s) && q.evaluation in s.ev.evaluations
    ensures CoverageLost(s, s.ev.evaluations[q.evaluation], q.harness)
            <==> exists x :: BehindChampion(s, q.harness, x) && !(Tested(s.ev, x) <= Tested(s.ev, q.evaluation))
  {
    if q.harness in s.champions {
      ChampionWasEvaluated(s, q.harness);
      IncumbentIsCovered(s, q);
    }
  }

  /** In every run, what each reason says of the scenarios and of the champion is so. */
  lemma CoverageReasonsAreExact(acts: seq<Action>, q: Request)
    requires q.evaluation in Exec(EMPTY, acts).ev.evaluations
    ensures var s := Exec(EMPTY, acts);
            var raised := Raised(s, s.ev.evaluations[q.evaluation], q, REASONS);
            && (ScenarioClassNotEvaluated in raised
                <==> !(Kinds(s.ev, s.ev.scenarios.Keys) <= Kinds(s.ev, Tested(s.ev, q.evaluation))))
            && (NoScenariosDerived in raised <==> s.ev.scenarios.Keys == {})
            && (ChallengerIsChampion in raised
                <==> q.harness in s.champions && s.champions[q.harness].version == q.challenger)
            && (IncumbentCoverageNotMatched in raised
                <==> exists x :: BehindChampion(s, q.harness, x) && !(Tested(s.ev, x) <= Tested(s.ev, q.evaluation)))
  {
    var s := Exec(EMPTY, acts);
    var e := s.ev.evaluations[q.evaluation];
    ExecKeepsInv(EMPTY, acts);
    IsRaised(s, e, q, ScenarioClassNotEvaluated);
    IsRaised(s, e, q, NoScenariosDerived);
    IsRaised(s, e, q, ChallengerIsChampion);
    IsRaised(s, e, q, IncumbentCoverageNotMatched);
    ClassReason(s, e, q);
    KindsAreCovered(s.ev, q.evaluation);
    NoScenarios(s, e, q);
    ChampionReasons(s, e, q);
    MissedCoverage(s, q);
  }

  /** And what each says of the drill. */
  lemma DrillReasonsAreExact(s: Tables, e: Evaluation, q: Request)
    ensures var raised := Raised(s, e, q, REASONS);
            && (RollbackNotProven in raised <==> q.drill == None)
            && (RollbackDrillNotFound in raised <==> q.drill.Some? && q.drill.value !in s.ev.drills)
            && (q.drill.Some? && q.drill.value in s.ev.drills ==>
                  var d := s.ev.drills[q.drill.value];
                  && (RollbackDrillWrongKind in raised <==> !d.rollback)
                  && (RollbackDrillFailed in raised <==> !d.passed)
                  && (RollbackDrillPredatesEvaluation in raised <==> d.at < e.startedAt))
  {
    IsRaised(s, e, q, RollbackNotProven);
    IsRaised(s, e, q, RollbackDrillNotFound);
    IsRaised(s, e, q, RollbackDrillWrongKind);
    IsRaised(s, e, q, RollbackDrillFailed);
    IsRaised(s, e, q, RollbackDrillPredatesEvaluation);
  }
}
