// Where every promotion row came from, over whole runs: its gate, the version it saw running, and its insertion.

module HarnessDrafts {
  import opened Ordering
  import opened Harness
  import opened HarnessEvidence
  import opened HarnessGovernance

  lemma {:induction false} ExecLast(s: Tables, acts: seq<Action>)
    requires acts != []
    ensures var n := |acts| - 1; Exec(s, acts) == Step(Exec(s, acts[..n]), acts[n])
    decreases |acts|
  {
    var n := |acts| - 1;
    if n > 0 {
      ExecLast(Step(s, acts[0]), acts[1..]);
      assert acts[1..][..n - 1] == acts[..n][1..];
    }
  }

  function At(acts: seq<Action>, n: nat): Tables
    requires n <= |acts|
  {
    Exec(EMPTY, acts[..n])
  }

  lemma AtNext(acts: seq<Action>, n: nat)
    requires n < |acts|
    ensures At(acts, n + 1) == Step(At(acts, n), acts[n])
  {
    ExecLast(EMPTY, acts[..n + 1]);
    assert acts[..n + 1][..n] == acts[..n];
  }

  // ---- Drafts

  /** Step `m` gated the draft, over the tables as they were. */
  ghost predicate GatedAt(acts: seq<Action>, m: nat, d: Id, draft: Draft) {
    && m < |acts| && acts[m] == Gate(d, draft.request, draft.actor)
    && draft.request.evaluation in At(acts, m).ev.evaluations
    && draft.reasons == Raised(At(acts, m), At(acts, m).ev.evaluations[draft.request.evaluation], draft.request,
                               REASONS)
  }

  /** Step `n` was the first after `m` to look at the champion for this draft, and saw this version, or none. */
  ghost predicate SightedAt(acts: seq<Action>, m: nat, n: nat, d: Id, draft: Draft) {
    && m < n < |acts| && acts[n] == Sight(d) && (forall j :: m < j < n ==> acts[j] != Sight(d))
    && var champions, h := At(acts, n).champions, draft.request.harness;
       if h in champions then draft.incumbent == Some(champions[h].version) else draft.incumbent == None
  }

  ghost predicate DraftedBy(acts: seq<Action>, k: nat, m: nat, d: Id, draft: Draft) {
    && m < k <= |acts| && GatedAt(acts, m, d, draft)
    && (draft.sighted ==> exists n: nat :: n < k && SightedAt(acts, m, n, d, draft))
    && (!draft.sighted ==> forall j :: m < j < k ==> acts[j] != Sight(d))
  }

  lemma DraftStepKeeps(acts: seq<Action>, k: nat, m: nat, d: Id)
    requires k < |acts| && d in At(acts, k).drafts && d in At(acts, k + 1).drafts
    requires DraftedBy(acts, k, m, d, At(acts, k).drafts[d])
    ensures DraftedBy(acts, k + 1, m, d, At(acts, k + 1).drafts[d])
  {
    AtNext(acts, k);
    var draft, draft' := At(acts, k).drafts[d], At(acts, k + 1).drafts[d];
    if acts[k] == Sight(d) && !draft.sighted {
      assert SightedAt(acts, m, k, d, draft');
    } else {
      assert draft' == draft;
      if draft.sighted {
        var n: nat :| n < k && SightedAt(acts, m, n, d, draft);
      }
    }
  }

  lemma {:induction false} DraftWasGated(acts: seq<Action>, k: nat, d: Id) returns (m: nat)
    requires k <= |acts| && d in At(acts, k).drafts
    ensures DraftedBy(acts, k, m, d, At(acts, k).drafts[d])
    decreases k
  {
    assert k > 0;
    AtNext(acts, k - 1);
    if d in At(acts, k - 1).drafts {
      m := DraftWasGated(acts, k - 1, d);
      DraftStepKeeps(acts, k - 1, m, d);
    } else {
      m := k - 1;
    }
  }

  // ---- Promotions

  /** Step `k` stored the promotion from a draft, to be decided exactly if its gate had raised nothing. */
  ghost predicate ProposedAt(acts: seq<Action>, m: nat, n: nat, k: nat, d: Id, p: Id, pr: Promotion) {
    && m < n < k < |acts| && acts[k] == Propose(d, p)
    && var draft := Draft(pr.request, pr.requestedBy, pr.reasons, true, pr.incumbent);
       && GatedAt(acts, m, d, draft) && SightedAt(acts, m, n, d, draft)
       && pr.request.drill.Some? && pr.request.drill.value in At(acts, k).ev.drills
       && p in At(acts, k + 1).promotions && p !in At(acts, k).promotions
       && At(acts, k + 1).promotions[p].status == if pr.reasons == [] then Pending else Refused
  }

  lemma {:induction false} RunGrows(acts: seq<Action>, k: nat)
    requires k <= |acts|
    ensures Grows(At(acts, k).promotions, Exec(EMPTY, acts).promotions)
    decreases |acts| - k
  {
    assert acts[..|acts|] == acts;
    if k == |acts| {
      GrowsItself(Exec(EMPTY, acts).promotions);
    } else {
      RunGrows(acts, k + 1);
      AtNext(acts, k);
      StepGrows(At(acts, k), acts[k]);
      GrowsFurther(At(acts, k).promotions, At(acts, k + 1).promotions, Exec(EMPTY, acts).promotions);
    }
  }

  lemma GrowsItself(ps: map<Id, Promotion>)
    ensures Grows(ps, ps)
  {}

  lemma GrowsFurther(a: map<Id, Promotion>, b: map<Id, Promotion>, c: map<Id, Promotion>)
    requires Grows(a, b) && Grows(b, c)
    ensures Grows(a, c)
  {
    forall p | p in a ensures p in c && Advances(a[p], c[p]) {
      assert Advances(a[p], b[p]) && Advances(b[p], c[p]);
    }
  }

  lemma {:induction false} PromotionWasProposed(acts: seq<Action>, k: nat, p: Id) returns (j: nat, d: Id)
    requires k <= |acts| && p in At(acts, k).promotions
    ensures j < k && acts[j] == Propose(d, p) && p !in At(acts, j).promotions
    ensures ProposeError(At(acts, j), d, p) == None
    decreases k
  {
    assert k > 0;
    AtNext(acts, k - 1);
    if p in At(acts, k - 1).promotions {
      j, d := PromotionWasProposed(acts, k - 1, p);
    } else {
      j, d := k - 1, acts[k - 1].draft;
    }
  }

  /**
   * In every run each promotion carries what its own gate raised over the tables of that moment, and the version that
   * ran, after the gate, when its proposal first looked; it cites a drill that exists, and waits for a decision exactly
   * if its gate was clear.
   */
  lemma PromotionsWereDrafted(acts: seq<Action>, p: Id) returns (m: nat, n: nat, k: nat, d: Id)
    requires p in Exec(EMPTY, acts).promotions
    ensures ProposedAt(acts, m, n, k, d, p, Exec(EMPTY, acts).promotions[p])
  {
    assert acts[..|acts|] == acts;
    k, d := PromotionWasProposed(acts, |acts|, p);
    AtNext(acts, k);
    var draft := At(acts, k).drafts[d];
    m := DraftWasGated(acts, k, d);
    n :| n < k && SightedAt(acts, m, n, d, draft);
    RunGrows(acts, k + 1);
    assert Advances(At(acts, k + 1).promotions[p], Exec(EMPTY, acts).promotions[p]);
  }

  // ---- A champion never succeeds itself

  ghost predicate Succeeds(s: Tables) {
    forall h :: h in s.champions ==> s.champions[h].previous != Some(s.champions[h].version)
  }

  lemma {:induction false} ChampionsSucceed(s: Tables, acts: seq<Action>)
    requires Succeeds(s)
    ensures Succeeds(Exec(s, acts))
    decreases |acts|
  {
    if acts != [] {
      StepSucceeds(s, acts[0]);
      ChampionsSucceed(Step(s, acts[0]), acts[1..]);
    }
  }

  lemma StepSucceeds(s: Tables, a: Action)
    requires Succeeds(s)
    ensures Succeeds(Step(s, a))
  {
    if a.Decide? {
    } else if a.RollBack? {
    } else {
    }
  }

  /** In no run is a champion row's version its previous one. */
  lemma NoChampionSucceedsItself(acts: seq<Action>, h: string)
    requires h in Exec(EMPTY, acts).champions
    ensures var c := Exec(EMPTY, acts).champions[h]; c.previous != Some(c.version)
  {
    ChampionsSucceed(EMPTY, acts);
  }

  // ---- Evaluations are of known scenarios of one watermark

  ghost predicate Uniform(ev: Evidence) {
    forall e :: e in ev.evaluations ==>
      && var selected := ev.evaluations[e].selected;
         && selected != [] && (forall i, j :: 0 <= i < j < |selected| ==> selected[i] != selected[j])
         && (forall x :: x in selected ==> x in ev.scenarios)
         && (forall x, y :: x in selected && y in selected ==> ev.scenarios[x].watermark == ev.scenarios[y].watermark)
  }

  lemma GatherKeepsUniform(ev: Evidence, a: Action)
    requires Uniform(ev) && Gathers(a)
    ensures Uniform(EvidenceStep(ev, a))
  {
    if a.Start? {
    } else if a.Record? {
    } else if a.Complete? {
    } else {
    }
  }

  lemma {:induction false} RunsAreUniform(s: Tables, acts: seq<Action>)
    requires Uniform(s.ev)
    ensures Uniform(Exec(s, acts).ev)
    decreases |acts|
  {
    if acts != [] {
      if Gathers(acts[0]) { GatherKeepsUniform(s.ev, acts[0]); }
      RunsAreUniform(Step(s, acts[0]), acts[1..]);
    }
  }

  /** In every run an evaluation selects different, derived scenarios, at least one, all of one estate watermark. */
  lemma EvaluationsAreUniform(acts: seq<Action>)
    ensures Uniform(Exec(EMPTY, acts).ev)
  {
    RunsAreUniform(EMPTY, acts);
  }

  // ---- What each refusal says

  lemma StartIsRefused(ev: Evidence, id: Id, selected: seq<Id>)
    ensures var error := StartError(ev, id, selected);
            var proper := id !in ev.evaluations && selected != []
                          && forall i, j :: 0 <= i < j < |selected| ==> selected[i] != selected[j];
            var known := forall x :: x in selected ==> x in ev.scenarios;
            && (error == Some(InvalidRequest) <==> !proper)
            && (error == Some(ScenarioNotFound) <==> proper && !known)
            && (error == Some(WatermarkMixed)
                <==> proper && known
                     && exists x, y :: x in selected && y in selected
                                       && ev.scenarios[x].watermark != ev.scenarios[y].watermark)
            && (error == None || error == Some(InvalidRequest) || error == Some(ScenarioNotFound)
                || error == Some(WatermarkMixed))
  {}

  lemma RecordIsRefused(ev: Evidence, id: Id, scenario: Id)
    ensures var error := RecordError(ev, id, scenario);
            var running := id in ev.evaluations && ev.evaluations[id].status == Running;
            && (error == Some(EvaluationNotFound) <==> id !in ev.evaluations)
            && (error == Some(EvaluationTerminal) <==> id in ev.evaluations && ev.evaluations[id].status != Running)
            && (running ==>
                  var e := ev.evaluations[id];
                  var full := e.passed + e.failed + e.inconclusive >= e.count;
                  && (error == Some(EvaluationComplete) <==> full)
                  && (error == Some(ScenarioNotSelected) <==> !full && scenario !in e.selected)
                  && (error == Some(ScenarioAlreadyEvaluated)
                      <==> !full && scenario in e.selected && (id, scenario) in ev.results)
                  && (error == None <==> !full && scenario in e.selected && (id, scenario) !in ev.results))
  {}

  lemma CompletionIsRefused(ev: Evidence, id: Id, status: EvaluationStatus)
    ensures var error := CompleteError(ev, id, status);
            && (error == Some(InvalidRequest) <==> status == Running)
            && (error == Some(EvaluationNotFound) <==> status != Running && id !in ev.evaluations)
            && (status != Running && id in ev.evaluations ==>
                  var e := ev.evaluations[id];
                  && (error == Some(EvaluationTerminal) <==> e.status != Running)
                  && (error == Some(Incomplete)
                      <==> e.status == Running && status == Completed
                           && e.passed + e.failed + e.inconclusive != e.count)
                  && (error == None
                      <==> e.status == Running
                           && (status == Abandoned || e.passed + e.failed + e.inconclusive == e.count)))
  {}

  lemma ProposalIsRefused(s: Tables, d: Id, p: Id, q: Request)
    ensures GateError(s, d, q) == Some(EvaluationNotFound) <==> d !in s.drafts && q.evaluation !in s.ev.evaluations
    ensures GateError(s, d, q) == None <==> d !in s.drafts && q.evaluation in s.ev.evaluations
    ensures var error := ProposeError(s, d, p);
            var ready := d in s.drafts && s.drafts[d].sighted && p !in s.promotions;
            && (error == Some(DraftUnknown) <==> !ready)
            && (ready ==> var drill := s.drafts[d].request.drill;
                          && (error == Some(DrillMissing) <==> drill == None || drill.value !in s.ev.drills)
                          && (error == None <==> drill.Some? && drill.value in s.ev.drills))
  {}

  lemma DecisionIsRefused(s: Tables, p: Id, actor: string, promote: bool)
    ensures var error := DecideError(s, p, actor, promote);
            && (error == Some(PromotionNotFound) <==> p !in s.promotions)
            && (p in s.promotions ==>
                  var pr := s.promotions[p];
                  var h, v := pr.request.harness, pr.request.challenger;
                  var same := pr.incumbent == Some(v) || (h in s.champions && s.champions[h].version == v);
                  && (error == Some(PromotionDecided) <==> pr.status != Pending)
                  && (error == Some(SecondPersonRequired) <==> pr.status == Pending && pr.requestedBy == actor)
                  && (error == Some(SameVersion)
                      <==> pr.status == Pending && pr.requestedBy != actor && promote && same)
                  && (error == None <==> pr.status == Pending && pr.requestedBy != actor && (promote ==> !same)))
  {}

  lemma RollbackIsRefused(s: Tables, p: Id)
    ensures var error := RollBackError(s, p);
            && (error == Some(PromotionNotFound) <==> p !in s.promotions)
            && (p in s.promotions ==>
                  var h := s.promotions[p].request.harness;
                  && (error == Some(PromotionNotActive) <==> s.promotions[p].status != Promoted)
                  && (error == Some(Superseded)
                      <==> s.promotions[p].status == Promoted
                           && (h !in s.champions || s.champions[h].promotion != p))
                  && (error == None
                      <==> s.promotions[p].status == Promoted && h in s.champions && s.champions[h].promotion == p))
  {}
}
