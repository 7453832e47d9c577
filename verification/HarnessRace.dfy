// A run in which rollback does not undo a promotion: two proposals drafted before either was decided.

module HarnessRace {
  import opened Ordering
  import opened Harness
  import opened HarnessEvidence
  import opened HarnessGovernance

  const FIRST := Request("h", "v1", 1, Some(1))
  const SECOND := Request("h", "v2", 2, Some(1))

  const SETUP := [AddScenario(1, Scenario("stale", "w")), AddDrill(1, Drill(true, true, 5))]
  const FIRST_EVALUATION := [Start(1, "h", "v1", [1], 0), Record(1, 1, Passed), Complete(1, Completed)]
  const SECOND_EVALUATION := [Start(2, "h", "v2", [1], 0), Record(2, 1, Passed), Complete(2, Completed)]
  const EVALUATING := SETUP + (FIRST_EVALUATION + SECOND_EVALUATION)

  const FIRST_DRAFT := [Gate(1, FIRST, "ann"), Sight(1)]
  const SECOND_DRAFT := [Gate(2, SECOND, "ann"), Sight(2)]
  const PROPOSALS := [Propose(1, 1), Propose(2, 2)]
  const DRAFTING := FIRST_DRAFT + (SECOND_DRAFT + PROPOSALS)

  const GATHERED := Evidence(
    map[1 := Scenario("stale", "w")], map[1 := Drill(true, true, 5)],
    map[1 := Clean("v1"), 2 := Clean("v2")],
    map[(1, 1) := Passed, (2, 1) := Passed])

  const PROPOSED := map[1 := Promotion(FIRST, None, Pending, [], "ann", None),
                        2 := Promotion(SECOND, None, Pending, [], "ann", None)]

  lemma ExecFirst(s: Tables, a: Action, rest: seq<Action>)
    ensures Exec(s, [a] + rest) == Exec(Step(s, a), rest)
  {
    assert ([a] + rest)[1..] == rest;
  }

  lemma {:induction false} ExecJoins(s: Tables, first: seq<Action>, rest: seq<Action>)
    ensures Exec(s, first + rest) == Exec(Exec(s, first), rest)
    decreases |first|
  {
    if first == [] {
      assert first + rest == rest;
    } else {
      assert first + rest == [first[0]] + (first[1..] + rest);
      ExecFirst(s, first[0], first[1..] + rest);
      ExecJoins(Step(s, first[0]), first[1..], rest);
    }
  }

  lemma ExecTwo(s: Tables, a: Action, b: Action)
    ensures Exec(s, [a, b]) == Step(Step(s, a), b)
  {
    assert [a, b] == [a] + [b];
    ExecFirst(s, a, [b]);
    assert [b] == [b] + [];
    ExecFirst(Step(s, a), b, []);
  }

  function Clean(version: string): Evaluation {
    Evaluation("h", version, Completed, [1], 1, 1, 0, 0, 0)
  }

  lemma Records(ev: Evidence, id: Id, e: Evaluation)
    requires e.status == Running && Recorded(e) < e.count && 1 in e.selected && (id, 1) !in ev.results
    ensures var started := ev.(evaluations := ev.evaluations[id := e]);
            RecordStep(started, id, 1, Passed)
            == ev.(evaluations := ev.evaluations[id := e.(passed := e.passed + 1)],
                   results := ev.results[(id, 1) := Passed])
  {
    var started := ev.(evaluations := ev.evaluations[id := e]);
    assert started.evaluations[id := e.(passed := e.passed + 1)] == ev.evaluations[id := e.(passed := e.passed + 1)];
  }

  lemma Completes(ev: Evidence, id: Id, e: Evaluation)
    requires e.status == Running && Recorded(e) == e.count
    ensures CompleteStep(ev.(evaluations := ev.evaluations[id := e]), id, Completed)
            == ev.(evaluations := ev.evaluations[id := e.(status := Completed)])
  {
    var started := ev.(evaluations := ev.evaluations[id := e]);
    assert started.evaluations[id := e.(status := Completed)] == ev.evaluations[id := e.(status := Completed)];
  }

  /** Starting, passing and completing an evaluation of scenario 1. */
  lemma Evaluates(ev: Evidence, id: Id, version: string)
    requires id !in ev.evaluations && 1 in ev.scenarios && (id, 1) !in ev.results
    ensures CompleteStep(RecordStep(StartStep(ev, id, "h", version, [1], 0), id, 1, Passed), id, Completed)
            == ev.(evaluations := ev.evaluations[id := Clean(version)], results := ev.results[(id, 1) := Passed])
  {
    var e := Evaluation("h", version, Running, [1], 1, 0, 0, 0, 0);
    assert StartStep(ev, id, "h", version, [1], 0) == ev.(evaluations := ev.evaluations[id := e]);
    assert 1 in e.selected;
    Records(ev, id, e);
    Completes(ev.(results := ev.results[(id, 1) := Passed]), id, e.(passed := 1));
  }

  lemma EvaluationRun(s: Tables, id: Id, version: string)
    requires id !in s.ev.evaluations && 1 in s.ev.scenarios && (id, 1) !in s.ev.results
    ensures Exec(s, [Start(id, "h", version, [1], 0), Record(id, 1, Passed), Complete(id, Completed)])
            == s.(ev := s.ev.(evaluations := s.ev.evaluations[id := Clean(version)],
                              results := s.ev.results[(id, 1) := Passed]))
  {
    var a, b, c := Start(id, "h", version, [1], 0), Record(id, 1, Passed), Complete(id, Completed);
    assert [a, b, c] == [a] + [b, c];
    ExecFirst(s, a, [b, c]);
    ExecTwo(Step(s, a), b, c);
    Evaluates(s.ev, id, version);
  }

  lemma Evaluated()
    ensures Exec(EMPTY, EVALUATING) == EMPTY.(ev := GATHERED)
  {
    var s1 := Exec(EMPTY, SETUP);
    ExecTwo(EMPTY, SETUP[0], SETUP[1]);
    var s2 := Exec(s1, FIRST_EVALUATION);
    EvaluationRun(s1, 1, "v1");
    EvaluationRun(s2, 2, "v2");
    ExecJoins(EMPTY, SETUP, FIRST_EVALUATION + SECOND_EVALUATION);
    ExecJoins(s1, FIRST_EVALUATION, SECOND_EVALUATION);
  }

  /** With no champion yet, both evaluations clear the gate. */
  lemma BothClear(s: Tables, q: Request, r: Reason)
    requires s.ev == GATHERED && s.champions == map[] && (q == FIRST || q == SECOND)
    ensures !Raises(s, GATHERED.evaluations[q.evaluation], q, r)
  {
    assert 1 in GATHERED.evaluations[q.evaluation].selected;
  }

  lemma GateClears(s: Tables, d: Id, q: Request)
    requires s.ev == GATHERED && s.champions == map[] && (q == FIRST || q == SECOND) && d !in s.drafts
    ensures GateStep(s, d, q, "ann") == s.(drafts := s.drafts[d := Draft(q, "ann", [], false, None)])
  {
    var e := s.ev.evaluations[q.evaluation];
    forall r ensures !Raises(s, e, q, r) { BothClear(s, q, r); }
    ClearMeansNoReason(s, e, q);
  }

  lemma SeesNone(s: Tables, d: Id, q: Request)
    requires s.champions == map[] && d in s.drafts && s.drafts[d] == Draft(q, "ann", [], false, None)
    ensures SightStep(s, d) == s.(drafts := s.drafts[d := Draft(q, "ann", [], true, None)])
  {}

  lemma DraftRun(s: Tables, d: Id, q: Request)
    requires s.champions == map[] && d !in s.drafts
    requires GateStep(s, d, q, "ann") == s.(drafts := s.drafts[d := Draft(q, "ann", [], false, None)])
    ensures Exec(s, [Gate(d, q, "ann"), Sight(d)]) == s.(drafts := s.drafts[d := Draft(q, "ann", [], true, None)])
  {
    var gated := s.(drafts := s.drafts[d := Draft(q, "ann", [], false, None)]);
    SeesNone(gated, d, q);
    assert gated.drafts[d := Draft(q, "ann", [], true, None)] == s.drafts[d := Draft(q, "ann", [], true, None)];
    ExecTwo(s, Gate(d, q, "ann"), Sight(d));
  }

  lemma Drafts(s: Tables, d: Id, q: Request)
    requires s.ev == GATHERED && s.champions == map[] && (q == FIRST || q == SECOND) && d !in s.drafts
    ensures Exec(s, [Gate(d, q, "ann"), Sight(d)]) == s.(drafts := s.drafts[d := Draft(q, "ann", [], true, None)])
  {
    GateClears(s, d, q);
    DraftRun(s, d, q);
  }

  lemma Proposes(s: Tables, d: Id, p: Id, q: Request)
    requires Cited(s.ev, q) && d in s.drafts && s.drafts[d] == Draft(q, "ann", [], true, None) && p !in s.promotions
    ensures ProposeStep(s, d, p)
            == s.(drafts := s.drafts - {d}, promotions := s.promotions[p := Promotion(q, None, Pending, [], "ann",
                                                                                      None)])
  {}

  lemma BothProposed(s: Tables)
    requires Cited(s.ev, FIRST) && Cited(s.ev, SECOND) && s.promotions == map[]
    requires s.drafts == map[1 := Draft(FIRST, "ann", [], true, None), 2 := Draft(SECOND, "ann", [], true, None)]
    ensures Exec(s, PROPOSALS) == s.(drafts := map[], promotions := PROPOSED)
  {
    ExecTwo(s, Propose(1, 1), Propose(2, 2));
    Proposes(s, 1, 1, FIRST);
    var s' := ProposeStep(s, 1, 1);
    Proposes(s', 2, 2, SECOND);
    assert s'.drafts - {2} == map[];
  }

  lemma Proposed(s: Tables)
    requires s == EMPTY.(ev := GATHERED)
    ensures Exec(s, DRAFTING) == s.(promotions := PROPOSED)
  {
    Drafts(s, 1, FIRST);
    var s1 := s.(drafts := s.drafts[1 := Draft(FIRST, "ann", [], true, None)]);
    Drafts(s1, 2, SECOND);
    var s2 := s1.(drafts := s1.drafts[2 := Draft(SECOND, "ann", [], true, None)]);
    BothProposed(s2);
    ExecJoins(s, FIRST_DRAFT, SECOND_DRAFT + PROPOSALS);
    ExecJoins(s1, SECOND_DRAFT, PROPOSALS);
  }

  /**
   * Whatever the tables, two promotions sighted without a champion and both installed leave none behind on rollback.
   */
  lemma SecondRollbackFindsNone(s: Tables, h: string, p: Id, q: Id, actor: string)
    requires p != q && p in s.promotions && q in s.promotions && h !in s.champions
    requires s.promotions[p].request.harness == h && s.promotions[q].request.harness == h
    requires s.promotions[p].status == Pending && s.promotions[q].status == Pending
    requires s.promotions[p].incumbent == None && s.promotions[q].incumbent == None
    requires s.promotions[p].requestedBy != actor && s.promotions[q].requestedBy != actor
    requires s.promotions[p].request.challenger != s.promotions[q].request.challenger
    ensures var first := DecideStep(s, p, actor, true);
            && VersionOf(first, h) == Some(s.promotions[p].request.challenger)
            && DecideError(first, q, actor, true) == None
            && var second := DecideStep(first, q, actor, true);
               RollBackError(second, q) == None && VersionOf(RollBackStep(second, q), h) == None
  {}

  const OVERLAP := EVALUATING + DRAFTING

  lemma OverlapIsReached(s: Tables)
    requires s == Exec(EMPTY, OVERLAP)
    ensures s.promotions == PROPOSED && s.champions == map[]
  {
    Evaluated();
    Proposed(EMPTY.(ev := GATHERED));
    ExecJoins(EMPTY, EVALUATING, DRAFTING);
  }

  /**
   * A run that rollback does not undo: two proposals drafted while the harness had no champion, both promoted.
   * Rolling back the second leaves no champion, although the first version was running when it was promoted.
   */
  lemma OverlappingProposalsLoseTheChampion()
    ensures var first := DecideStep(Exec(EMPTY, OVERLAP), 1, "bob", true);
            && VersionOf(first, "h") == Some("v1") && DecideError(first, 2, "bob", true) == None
            && var second := DecideStep(first, 2, "bob", true);
               RollBackError(second, 2) == None && VersionOf(RollBackStep(second, 2), "h") == None
  {
    var s := Exec(EMPTY, OVERLAP);
    OverlapIsReached(s);
    SecondRollbackFindsNone(s, "h", 1, 2, "bob");
  }
}
