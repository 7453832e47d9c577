// What an evaluation holds, and that a fresh one is served to whoever asks next.

module InsightServed {
  import opened Ordering
  import opened InsightCache
  import opened InsightFreshness

  // ---- The insights of an evaluation

  /** The rule found `x` in the estate its query read, for enough repositories; the context then rates it. */
  predicate Found(estate: Estate, policy: (Rule, RulePolicy), only: Option<Rule>, context: map<nat, int>, x: Insight,
                  i: Insight)
  {
    && policy.1.enabled && (only == None || only.value == policy.0)
    && policy.0 in estate.found && x in estate.found[policy.0] && x.affected >= policy.1.minimum
    && i == x.(rule := policy.0, priority := if x.id in context then x.priority + context[x.id] else x.priority)
  }

  lemma {:induction false} AtLeastKeeps(insights: seq<Insight>, minimum: nat, i: Insight)
    ensures i in AtLeast(insights, minimum) <==> i in insights && i.affected >= minimum
    decreases |insights|
  {
    if insights != [] {
      var front, last := insights[..|insights| - 1], insights[|insights| - 1];
      assert insights == front + [last];
      AtLeastKeeps(front, minimum, i);
    }
  }

  lemma RowsAre(estate: Estate, rule: Rule, p: RulePolicy, i: Insight)
    ensures i in Rows(estate, rule, p)
            <==> rule in estate.found
                 && exists x :: x in estate.found[rule] && x.affected >= p.minimum && i == x.(rule := rule)
  {
    var found := InsightCache.Found(estate, rule);
    var labelled := Labelled(rule, found);
    AtLeastKeeps(labelled, p.minimum, i);
    if i in labelled {
      var k :| 0 <= k < |labelled| && labelled[k] == i;
      assert found[k] in found;
    }
    if rule in estate.found {
      forall x | x in found ensures x.(rule := rule) in labelled {
        var k :| 0 <= k < |found| && found[k] == x;
        assert labelled[k] == x.(rule := rule);
      }
    }
  }

  ghost predicate GatheredAt(seen: seq<Estate>, policies: Policies, only: Option<Rule>, k: nat, i: Insight)
    requires |seen| == |policies|
  {
    k < |policies| && Evaluates(policies[k].1, policies[k].0, only) && i in Rows(seen[k], policies[k].0, policies[k].1)
  }

  lemma {:induction false} GatherKeeps(seen: seq<Estate>, policies: Policies, only: Option<Rule>, i: Insight)
    requires |seen| == |policies|
    ensures i in Gather(seen, policies, only) <==> exists k: nat :: GatheredAt(seen, policies, only, k, i)
    decreases |policies|
  {
    if policies != [] {
      var n: nat := |policies| - 1;
      GatherKeeps(seen[..n], policies[..n], only, i);
      if k: nat :| GatheredAt(seen[..n], policies[..n], only, k, i) {
        assert GatheredAt(seen, policies, only, k, i);
      }
      if k: nat :| GatheredAt(seen, policies, only, k, i) {
        if k < n { assert GatheredAt(seen[..n], policies[..n], only, k, i); }
      }
      if Evaluates(policies[n].1, policies[n].0, only) && i in Rows(seen[n], policies[n].0, policies[n].1) {
        assert GatheredAt(seen, policies, only, n, i);
      }
    }
  }

  lemma RatedAre(rows: seq<Insight>, context: map<nat, int>, i: Insight)
    ensures i in RateAll(rows, context) <==> exists r :: r in rows && i == Rate(r, context)
  {
    var rated := RateAll(rows, context);
    if i in rated {
      var k :| 0 <= k < |rated| && rated[k] == i;
      assert rows[k] in rows;
    }
    if r :| r in rows && i == Rate(r, context) {
      var k :| 0 <= k < |rows| && rows[k] == r;
      assert rated[k] == i;
    }
  }

  lemma EvaluatedIsFound(seen: seq<Estate>, policies: Policies, only: Option<Rule>, r: Insight)
      returns (k: nat, x: Insight)
    requires |seen| == |policies| + 1 && r in Gather(seen[..|policies|], policies, only)
    ensures k < |policies| && Found(seen[k], policies[k], only, seen[|policies|].context, x,
                                    Rate(r, seen[|policies|].context))
  {
    GatherKeeps(seen[..|policies|], policies, only, r);
    k :| GatheredAt(seen[..|policies|], policies, only, k, r);
    RowsAre(seen[k], policies[k].0, policies[k].1, r);
    x :| x in seen[k].found[policies[k].0] && x.affected >= policies[k].1.minimum && r == x.(rule := policies[k].0);
  }

  lemma FoundIsEvaluated(seen: seq<Estate>, policies: Policies, only: Option<Rule>, k: nat, x: Insight, i: Insight)
    requires |seen| == |policies| + 1 && k < |policies|
    requires Found(seen[k], policies[k], only, seen[|policies|].context, x, i)
    ensures exists r :: r in Gather(seen[..|policies|], policies, only) && i == Rate(r, seen[|policies|].context)
  {
    var r := x.(rule := policies[k].0);
    RowsAre(seen[k], policies[k].0, policies[k].1, r);
    assert GatheredAt(seen[..|policies|], policies, only, k, r);
    GatherKeeps(seen[..|policies|], policies, only, r);
  }

  /** An evaluation holds exactly what the enabled rules found, each in what its own query read. */
  lemma EvaluationsAreFound(seen: seq<Estate>, policies: Policies, only: Option<Rule>, i: Insight)
    requires |seen| == |policies| + 1
    ensures i in Evaluation(seen, policies, only)
            <==> exists k, x :: 0 <= k < |policies|
                                && Found(seen[k], policies[k], only, seen[|policies|].context, x, i)
  {
    var n, context := |policies|, seen[|policies|].context;
    RatedAre(Gather(seen[..n], policies, only), context, i);
    if r :| r in Gather(seen[..n], policies, only) && i == Rate(r, context) {
      var k, x := EvaluatedIsFound(seen, policies, only, r);
    }
    if k, x :| 0 <= k < n && Found(seen[k], policies[k], only, context, x, i) {
      FoundIsEvaluated(seen, policies, only, k, x, i);
    }
  }

  // ---- A fresh evaluation is served

  /** Step `k` ended a full evaluation for the tenant and policies, whose lookup had missed at this time. */
  ghost predicate FilledAt(s0: Service, acts: seq<Action>, k: nat, id: nat, t: Tenant, policies: Policies, start: int) {
    && k < |acts| && acts[k] == Finish(id) && id in At(s0, acts, k).flights
    && var f := At(s0, acts, k).flights[id];
       f.Evaluated? && f.tenant == t && f.policies == policies && f.request.rule == None && f.start == start
  }

  ghost predicate Replaced(s0: Service, acts: seq<Action>, x: nat, t: Tenant, policies: Policies) {
    exists id, start :: FilledAt(s0, acts, x, id, t, policies, start)
  }

  /** The cache holds what fill `id`, which ended at step `k`, left for the tenant and policies. */
  predicate Stands(s: Service, t: Tenant, policies: Policies, start: int, id: nat, k: nat) {
    && (t, policies) in s.cache
    && var e := s.cache[(t, policies)]; e.expires == start + 30 && e.fill.id == id && e.fill.stored == k
  }

  predicate Stores(s: Service, a: Action, t: Tenant, policies: Policies) {
    && a.Finish? && a.id in s.flights && s.flights[a.id].Evaluated?
    && var f := s.flights[a.id]; f.tenant == t && f.policies == policies && f.request.rule == None
  }

  lemma EntryKept(s: Service, a: Action, t: Tenant, policies: Policies, start: int, id: nat, k: nat)
    requires Stands(s, t, policies, start, id, k) && a != Invalidate(t) && s.clock < start + 30
    requires !Stores(s, a, t, policies)
    ensures Stands(Step(s, a), t, policies, start, id, k)
  {}

  lemma EntryBegins(s: Service, a: Action, t: Tenant, policies: Policies)
    requires Stores(s, a, t, policies)
    ensures Stands(Step(s, a), t, policies, s.flights[a.id].start, a.id, s.moment)
  {}

  lemma {:induction false} EntryStands(s0: Service, acts: seq<Action>, k: nat, m: nat, id: nat, t: Tenant,
                                       policies: Policies, start: int)
    requires Initial(s0) && FilledAt(s0, acts, k, id, t, policies, start) && k < m <= |acts|
    requires Spared(acts, t, k, m) && forall x: nat :: k < x < m ==> !Replaced(s0, acts, x, t, policies)
    requires forall x: nat :: k < x < m ==> At(s0, acts, x).clock < start + 30
    ensures Stands(At(s0, acts, m), t, policies, start, id, k)
    decreases m
  {
    var n: nat := m - 1;
    AtNext(s0, acts, n);
    if n == k {
      MomentsAreSteps(s0, acts, k);
      EntryBegins(At(s0, acts, k), acts[k], t, policies);
    } else {
      EntryStands(s0, acts, k, n, id, t, policies, start);
      NotStored(s0, acts, n, t, policies);
      EntryKept(At(s0, acts, n), acts[n], t, policies, start, id, k);
    }
  }

  lemma NotStored(s0: Service, acts: seq<Action>, n: nat, t: Tenant, policies: Policies)
    requires n < |acts| && !Replaced(s0, acts, n, t, policies)
    ensures !Stores(At(s0, acts, n), acts[n], t, policies)
  {
    var s, a := At(s0, acts, n), acts[n];
    if a.Finish? && a.id in s.flights && s.flights[a.id].Evaluated? {
      assert !FilledAt(s0, acts, n, a.id, t, policies, s.flights[a.id].start);
    }
  }

  /**
   * Whoever looks the tenant's insights up, under the same policies, within thirty seconds of the lookup that began a
   * full evaluation and after its end, is served that evaluation, unless the tenant was invalidated or another
   * evaluation stored meanwhile.
   */
  lemma FreshEvaluationIsServed(s0: Service, acts: seq<Action>, k: nat, m: nat, id: nat, j: nat, t: Tenant,
                                policies: Policies, start: int)
    requires Initial(s0) && FilledAt(s0, acts, k, id, t, policies, start) && k < m < |acts|
    requires acts[m] == LookUp(j) && j in At(s0, acts, m).flights && At(s0, acts, m).flights[j].Ready?
    requires At(s0, acts, m).flights[j].tenant == t && At(s0, acts, m).flights[j].policies == policies
    requires Spared(acts, t, k, m) && forall x: nat :: k < x < m ==> !Replaced(s0, acts, x, t, policies)
    requires At(s0, acts, m).clock < start + 30
    ensures var replies, replies' := At(s0, acts, m).replies, At(s0, acts, m + 1).replies;
            && |replies'| == |replies| + 1
            && var r := replies'[|replies|];
               r.cached && r.fill.id == id && r.fill.stored == k && r.tenant == t && r.policies == policies
  {
    forall x: nat | k < x < m ensures At(s0, acts, x).clock < start + 30 { ClockAdvances(s0, acts, x, m); }
    EntryStands(s0, acts, k, m, id, t, policies, start);
    AtNext(s0, acts, m);
  }

  lemma StartIsKept(s: Service, a: Action, id: nat)
    requires id in Step(s, a).flights && !Step(s, a).flights[id].Ready?
    ensures if id in s.flights && !s.flights[id].Ready? then Step(s, a).flights[id].start == s.flights[id].start
            else a == LookUp(id) && Step(s, a).flights[id].start == s.clock
  {}

  /** And the evaluation's time runs from the lookup of its own request that missed. */
  lemma {:induction false} FillStartedAtItsLookup(s0: Service, acts: seq<Action>, k: nat, id: nat) returns (n: nat)
    requires Initial(s0) && k <= |acts| && id in At(s0, acts, k).flights && !At(s0, acts, k).flights[id].Ready?
    ensures n < k && acts[n] == LookUp(id) && At(s0, acts, n).clock == At(s0, acts, k).flights[id].start
    decreases k
  {
    var before: nat := k - 1;
    AtNext(s0, acts, before);
    StartIsKept(At(s0, acts, before), acts[before], id);
    if id in At(s0, acts, before).flights && !At(s0, acts, before).flights[id].Ready? {
      n := FillStartedAtItsLookup(s0, acts, before, id);
    } else {
      n := before;
    }
  }

  // ---- What is asked and changed

  /** A change of one tenant's estate or policies is seen by that tenant's requests and by no other's. */
  lemma ChangesAreSeen(s: Service, t: Tenant, estate: Estate, policies: Policies, x: Tenant)
    ensures Step(s, ChangeEstate(t, estate)).estates(x) == if x == t then estate else s.estates(x)
    ensures Step(s, ChangeEstate(t, estate)).policies == s.policies
    ensures Step(s, ChangePolicies(t, policies)).policies(x) == if x == t then policies else s.policies(x)
    ensures Step(s, ChangePolicies(t, policies)).estates == s.estates
  {}
}
