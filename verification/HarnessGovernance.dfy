// Promotions, champions and rollback over whole runs: provenance, finality, and when rollback undoes a promotion.

module HarnessGovernance {
  import opened Ordering
  import opened Harness
  import opened HarnessEvidence

  // ---- Provenance

  /** This promotion once installed `version` for `harness`: clear gate, two people, standing evidence. */
  ghost predicate Vouches(ev: Evidence, pr: Promotion, harness: string, version: string) {
    && pr.request.harness == harness && pr.request.challenger == version
    && (pr.status == Promoted || pr.status == RolledBack)
    && pr.reasons == [] && pr.decidedBy.Some? && pr.decidedBy.value != pr.requestedBy
    && Backed(ev, pr.request)
  }

  ghost predicate Proven(ev: Evidence, ps: map<Id, Promotion>, harness: string, version: string) {
    exists p :: p in ps && Vouches(ev, ps[p], harness, version)
  }

  /** The version seen running when a proposal was drafted had itself been proven. */
  ghost predicate SightedVersion(ev: Evidence, ps: map<Id, Promotion>, harness: string, incumbent: Option<string>) {
    incumbent.Some? ==> Proven(ev, ps, harness, incumbent.value)
  }

  ghost predicate Decided(pr: Promotion) {
    pr.decidedBy.Some? && pr.decidedBy.value != pr.requestedBy
  }

  ghost predicate PromotionInv(ev: Evidence, ps: map<Id, Promotion>, pr: Promotion) {
    && (pr.status == Refused <==> pr.reasons != [])
    && (pr.reasons == [] ==> Backed(ev, pr.request))
    && (if pr.status == Pending || pr.status == Refused then pr.decidedBy == None else Decided(pr))
    && SightedVersion(ev, ps, pr.request.harness, pr.incumbent)
  }

  ghost predicate DraftInv(ev: Evidence, ps: map<Id, Promotion>, d: Draft) {
    && (d.reasons == [] ==> Backed(ev, d.request))
    && SightedVersion(ev, ps, d.request.harness, d.incumbent)
  }

  /** A champion row points at the promotion that put its version there, forwards or by rollback. */
  ghost predicate ChampionInv(ps: map<Id, Promotion>, h: string, c: Champion) {
    && c.promotion in ps
    && var pr := ps[c.promotion];
       && pr.request.harness == h
       && ((pr.status == Promoted && pr.request.challenger == c.version)
           || (pr.status == RolledBack && pr.incumbent == Some(c.version)))
  }

  ghost predicate PromotionsInv(ev: Evidence, ps: map<Id, Promotion>) {
    forall p :: p in ps ==> PromotionInv(ev, ps, ps[p])
  }

  ghost predicate DraftsInv(ev: Evidence, ps: map<Id, Promotion>, ds: map<Id, Draft>) {
    forall d :: d in ds ==> DraftInv(ev, ps, ds[d])
  }

  ghost predicate ChampionsInv(ps: map<Id, Promotion>, cs: map<string, Champion>) {
    forall h :: h in cs ==> ChampionInv(ps, h, cs[h])
  }

  ghost predicate Inv(s: Tables) {
    && EvidenceInv(s.ev)
    && PromotionsInv(s.ev, s.promotions)
    && DraftsInv(s.ev, s.promotions, s.drafts)
    && ChampionsInv(s.promotions, s.champions)
  }

  // ---- A promotion row only ever moves forward

  /** Decided at most once, then at most rolled back; who asked, what for and over which version never change. */
  ghost predicate Advances(pr: Promotion, pr': Promotion) {
    && pr'.request == pr.request && pr'.incumbent == pr.incumbent && pr'.reasons == pr.reasons
    && pr'.requestedBy == pr.requestedBy
    && (pr.status != Pending ==> pr'.decidedBy == pr.decidedBy)
    && match pr.status
       case Pending => pr'.status == Pending ==> pr' == pr
       case Promoted => pr'.status == Promoted || pr'.status == RolledBack
       case _ => pr' == pr
  }

  ghost predicate Grows(ps: map<Id, Promotion>, ps': map<Id, Promotion>) {
    forall p :: p in ps ==> p in ps' && Advances(ps[p], ps'[p])
  }

  lemma ProvenStays(ev: Evidence, ev': Evidence, ps: map<Id, Promotion>, ps': map<Id, Promotion>, harness: string,
                    version: string)
    requires Accumulates(ev, ev') && Grows(ps, ps') && Proven(ev, ps, harness, version)
    ensures Proven(ev', ps', harness, version)
  {
    var p :| p in ps && Vouches(ev, ps[p], harness, version);
    BackedStays(ev, ev', ps[p].request);
    assert Advances(ps[p], ps'[p]);
    assert Vouches(ev', ps'[p], harness, version);
  }

  lemma SightedStays(ev: Evidence, ev': Evidence, ps: map<Id, Promotion>, ps': map<Id, Promotion>, harness: string,
                     incumbent: Option<string>)
    requires Accumulates(ev, ev') && Grows(ps, ps') && SightedVersion(ev, ps, harness, incumbent)
    ensures SightedVersion(ev', ps', harness, incumbent)
  {
    if incumbent.Some? {
      ProvenStays(ev, ev', ps, ps', harness, incumbent.value);
    }
  }

  lemma PromotionStays(ev: Evidence, ev': Evidence, ps: map<Id, Promotion>, ps': map<Id, Promotion>, pr: Promotion)
    requires Accumulates(ev, ev') && Grows(ps, ps') && PromotionInv(ev, ps, pr)
    ensures PromotionInv(ev', ps', pr)
  {
    if pr.reasons == [] {
      BackedStays(ev, ev', pr.request);
    }
    SightedStays(ev, ev', ps, ps', pr.request.harness, pr.incumbent);
  }

  lemma DraftStays(ev: Evidence, ev': Evidence, ps: map<Id, Promotion>, ps': map<Id, Promotion>, d: Draft)
    requires Accumulates(ev, ev') && Grows(ps, ps') && DraftInv(ev, ps, d)
    ensures DraftInv(ev', ps', d)
  {
    if d.reasons == [] {
      BackedStays(ev, ev', d.request);
    }
    SightedStays(ev, ev', ps, ps', d.request.harness, d.incumbent);
  }

  lemma DraftsStay(ev: Evidence, ev': Evidence, ps: map<Id, Promotion>, ps': map<Id, Promotion>, ds: map<Id, Draft>)
    requires Accumulates(ev, ev') && Grows(ps, ps') && DraftsInv(ev, ps, ds)
    ensures DraftsInv(ev', ps', ds)
  {
    forall d | d in ds ensures DraftInv(ev', ps', ds[d]) { DraftStays(ev, ev', ps, ps', ds[d]); }
  }

  /** The running version of a champion is always proven. */
  lemma ChampionIsProven(s: Tables, h: string)
    requires Inv(s) && h in s.champions
    ensures Proven(s.ev, s.promotions, h, s.champions[h].version)
  {
    var c := s.champions[h];
    assert ChampionInv(s.promotions, h, c);
    var pr := s.promotions[c.promotion];
    assert PromotionInv(s.ev, s.promotions, pr);
    if pr.status == Promoted {
      assert Vouches(s.ev, pr, h, c.version);
    }
  }

  // ---- Each step keeps the invariant

  lemma GatherKeepsInv(s: Tables, a: Action)
    requires Inv(s) && Gathers(a)
    ensures Inv(s.(ev := EvidenceStep(s.ev, a)))
  {
    var ev' := EvidenceStep(s.ev, a);
    EvidenceStepKeepsInv(s.ev, a);
    EvidenceStepAccumulates(s.ev, a);
    forall p | p in s.promotions ensures PromotionInv(ev', s.promotions, s.promotions[p]) {
      PromotionStays(s.ev, ev', s.promotions, s.promotions, s.promotions[p]);
    }
    DraftsStay(s.ev, ev', s.promotions, s.promotions, s.drafts);
  }

  lemma GateKeepsInv(s: Tables, d: Id, q: Request, actor: string)
    requires Inv(s)
    ensures Inv(GateStep(s, d, q, actor))
  {
    if GateError(s, d, q) == None && Raised(s, s.ev.evaluations[q.evaluation], q, REASONS) == [] {
      ClearGateIsBacked(s, q);
    }
  }

  lemma SightKeepsInv(s: Tables, d: Id)
    requires Inv(s)
    ensures Inv(SightStep(s, d))
  {
    if d in s.drafts && s.drafts[d].request.harness in s.champions {
      ChampionIsProven(s, s.drafts[d].request.harness);
    }
  }

  lemma RowsKeepInv(ev: Evidence, ps: map<Id, Promotion>, p: Id, pr: Promotion)
    requires PromotionsInv(ev, ps) && (p in ps ==> Advances(ps[p], pr)) && PromotionInv(ev, ps, pr)
    ensures Grows(ps, ps[p := pr]) && PromotionsInv(ev, ps[p := pr])
  {
    var ps' := ps[p := pr];
    forall q | q in ps' ensures PromotionInv(ev, ps', ps'[q]) {
      PromotionStays(ev, ev, ps, ps', ps'[q]);
    }
  }

  lemma ProposeKeepsInv(s: Tables, d: Id, p: Id)
    requires Inv(s)
    ensures Inv(ProposeStep(s, d, p))
  {
    if ProposeError(s, d, p) == None {
      assert DraftInv(s.ev, s.promotions, s.drafts[d]);
      var s' := ProposeStep(s, d, p);
      RowsKeepInv(s.ev, s.promotions, p, s'.promotions[p]);
      DraftsStay(s.ev, s.ev, s.promotions, s'.promotions, s.drafts);
    }
  }

  lemma DecidedChampions(s: Tables, p: Id, actor: string, promote: bool)
    requires ChampionsInv(s.promotions, s.champions) && DecideError(s, p, actor, promote) == None
    ensures var s' := DecideStep(s, p, actor, promote); ChampionsInv(s'.promotions, s'.champions)
  {
    var s' := DecideStep(s, p, actor, promote);
    forall h | h in s'.champions ensures ChampionInv(s'.promotions, h, s'.champions[h]) {
      if h in s.champions {
        assert ChampionInv(s.promotions, h, s.champions[h]);
      }
    }
  }

  lemma DecideKeepsInv(s: Tables, p: Id, actor: string, promote: bool)
    requires Inv(s)
    ensures Inv(DecideStep(s, p, actor, promote))
  {
    if DecideError(s, p, actor, promote) == None {
      var s' := DecideStep(s, p, actor, promote);
      DecidedChampions(s, p, actor, promote);
      assert PromotionInv(s.ev, s.promotions, s.promotions[p]);
      RowsKeepInv(s.ev, s.promotions, p, s'.promotions[p]);
      DraftsStay(s.ev, s.ev, s.promotions, s'.promotions, s.drafts);
    }
  }

  lemma RollBackKeepsInv(s: Tables, p: Id)
    requires Inv(s)
    ensures Inv(RollBackStep(s, p))
  {
    if RollBackError(s, p) == None {
      var s' := RollBackStep(s, p);
      assert PromotionInv(s.ev, s.promotions, s.promotions[p]);
      RowsKeepInv(s.ev, s.promotions, p, s'.promotions[p]);
      DraftsStay(s.ev, s.ev, s.promotions, s'.promotions, s.drafts);
      forall h | h in s'.champions ensures ChampionInv(s'.promotions, h, s'.champions[h]) {
        if h != s.promotions[p].request.harness {
          assert ChampionInv(s.promotions, h, s.champions[h]);
        }
      }
    }
  }

  lemma StepKeepsInv(s: Tables, a: Action)
    requires Inv(s)
    ensures Inv(Step(s, a))
  {
    if Gathers(a) {
      GatherKeepsInv(s, a);
    } else if a.Gate? {
      GateKeepsInv(s, a.draft, a.request, a.actor);
    } else if a.Sight? {
      SightKeepsInv(s, a.draft);
    } else if a.Propose? {
      ProposeKeepsInv(s, a.draft, a.promotion);
    } else if a.Decide? {
      DecideKeepsInv(s, a.promotion, a.actor, a.promote);
    } else {
      RollBackKeepsInv(s, a.promotion);
    }
  }

  lemma {:induction false} ExecKeepsInv(s: Tables, acts: seq<Action>)
    requires Inv(s)
    ensures Inv(Exec(s, acts))
    decreases |acts|
  {
    if acts != [] {
      StepKeepsInv(s, acts[0]);
      ExecKeepsInv(Step(s, acts[0]), acts[1..]);
    }
  }

  /** In every run each champion row answers to the promotion it names, and its version was proven before it ran. */
  lemma ChampionsAreProven(acts: seq<Action>, h: string)
    requires h in Exec(EMPTY, acts).champions
    ensures var s := Exec(EMPTY, acts);
            ChampionInv(s.promotions, h, s.champions[h]) && Proven(s.ev, s.promotions, h, s.champions[h].version)
  {
    ExecKeepsInv(EMPTY, acts);
    ChampionIsProven(Exec(EMPTY, acts), h);
  }

  // ---- Finality

  lemma StepGrows(s: Tables, a: Action)
    ensures Grows(s.promotions, Step(s, a).promotions)
  {
    if a.Decide? {
    } else if a.RollBack? {
    } else if a.Propose? {
    }
  }

  /** Over any run a promotion row only moves forward: its terms are fixed and its verdict is given once. */
  lemma {:induction false} PromotionsOnlyAdvance(s: Tables, acts: seq<Action>)
    ensures Grows(s.promotions, Exec(s, acts).promotions)
    decreases |acts|
  {
    if acts != [] {
      var s' := Step(s, acts[0]);
      StepGrows(s, acts[0]);
      PromotionsOnlyAdvance(s', acts[1..]);
      var ps, ps', ps'' := s.promotions, s'.promotions, Exec(s, acts).promotions;
      forall p | p in ps ensures p in ps'' && Advances(ps[p], ps''[p]) {
        assert Advances(ps[p], ps'[p]) && Advances(ps'[p], ps''[p]);
      }
    }
  }

  // ---- What rollback restores

  /**
   * However long a promotion has run, rolling it back leaves the version that was running when it was decided
   * exactly when that is the version its proposal had sighted; no other harness is touched.
   */
  lemma RollbackRestoresTheSightedVersion(s: Tables, p: Id, actor: string, acts: seq<Action>)
    requires DecideError(s, p, actor, true) == None
    requires RollBackError(Exec(DecideStep(s, p, actor, true), acts), p) == None
    ensures var h := s.promotions[p].request.harness;
            var running := Exec(DecideStep(s, p, actor, true), acts);
            var restored := RollBackStep(running, p);
            && VersionOf(restored, h) == s.promotions[p].incumbent
            && (VersionOf(restored, h) == VersionOf(s, h) <==> s.promotions[p].incumbent == VersionOf(s, h))
            && restored.champions - {h} == running.champions - {h}
  {
    var decided := DecideStep(s, p, actor, true);
    PromotionsOnlyAdvance(decided, acts);
    assert Advances(decided.promotions[p], Exec(decided, acts).promotions[p]);
  }

  /** A promotion that is in force on paper but that no champion row names. */
  predicate Stranded(s: Tables, p: Id) {
    && p in s.promotions && s.promotions[p].status == Promoted
    && forall h :: h in s.champions ==> s.champions[h].promotion != p
  }

  lemma StrandedStays(s: Tables, p: Id, a: Action)
    requires Stranded(s, p)
    ensures Stranded(Step(s, a), p)
  {
    if a.Decide? {
    } else if a.RollBack? {
    } else if a.Propose? {
    }
  }

  /** A stranded promotion can never be rolled back again, whatever happens next. */
  lemma {:induction false} StrandedForever(s: Tables, p: Id, acts: seq<Action>)
    requires Stranded(s, p)
    ensures Stranded(Exec(s, acts), p) && RollBackError(Exec(s, acts), p) == Some(Superseded)
    decreases |acts|
  {
    if acts != [] {
      StrandedStays(s, p, acts[0]);
      StrandedForever(Step(s, acts[0]), p, acts[1..]);
    }
  }

  /**
   * Rollback works one deep: once a promotion replaced an earlier one, rolling it back runs the earlier version again
   * but strands the earlier promotion, so that version can no longer be rolled back itself.
   */
  lemma RollbackIsOneDeep(s: Tables, earlier: Id, p: Id, actor: string, acts: seq<Action>)
    requires Inv(s) && earlier in s.promotions && RollBackError(s, earlier) == None
    requires DecideError(s, p, actor, true) == None
    requires s.promotions[p].request.harness == s.promotions[earlier].request.harness
    ensures RollBackError(Exec(DecideStep(s, p, actor, true), acts), earlier) == Some(Superseded)
  {
    var h := s.promotions[p].request.harness;
    var decided := DecideStep(s, p, actor, true);
    assert Stranded(decided, earlier) by {
      forall g | g in decided.champions ensures decided.champions[g].promotion != earlier {
        if g != h {
          assert ChampionInv(s.promotions, g, s.champions[g]);
        }
      }
    }
    StrandedForever(decided, earlier, acts);
  }
}
