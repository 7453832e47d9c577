// The insight service as the program keeps it: a dictionary purged, invalidated, filled and read in place.

module InsightService {
  import opened Ordering
  import opened InsightCache

  type CacheKey = (Tenant, Policies)

  /** Evaluating the rules one query after another, with nothing in between. */
  method EvaluateRules(estate: Estate, policies: Policies, only: Option<Rule>) returns (insights: seq<Insight>)
    ensures insights == Evaluate(estate, policies, only)
  {
    var rows := [];
    for i := 0 to |policies|
      invariant rows == Gather(Repeated(estate, i), policies[..i], only)
    {
      assert policies[..i + 1][..i] == policies[..i] && Repeated(estate, i + 1)[..i] == Repeated(estate, i);
      var more := RunRule(estate, policies[i].0, policies[i].1, only);
      rows := rows + more;
    }
    assert policies[..|policies|] == policies;
    assert Repeated(estate, |policies| + 1)[..|policies|] == Repeated(estate, |policies|);
    insights := RateAll(rows, estate.context);
  }

  /** One turn of that loop: a rule that is disabled or not asked for is passed over. */
  method RunRule(estate: Estate, rule: Rule, p: RulePolicy, only: Option<Rule>) returns (rows: seq<Insight>)
    ensures rows == if Evaluates(p, rule, only) then Rows(estate, rule, p) else []
  {
    if !p.enabled || (only != None && only.value != rule) {
      return [];
    }
    rows := KeepLargeEnough(Labelled(rule, Found(estate, rule)), p.minimum);
  }

  method KeepLargeEnough(insights: seq<Insight>, minimum: nat) returns (kept: seq<Insight>)
    ensures kept == AtLeast(insights, minimum)
  {
    kept := [];
    for i := 0 to |insights|
      invariant kept == AtLeast(insights[..i], minimum)
    {
      assert insights[..i + 1][..i] == insights[..i];
      if insights[i].affected >= minimum { kept := kept + [insights[i]]; }
    }
    assert insights[..|insights|] == insights;
  }

  /** Filtering, ordering and paging what is served. */
  method Page(insights: seq<Insight>, q: Request) returns (view: View)
    ensures view == Serve(insights, q)
  {
    var ruled := insights;
    if q.rule.Some? {
      ruled := [];
      for i := 0 to |insights|
        invariant ruled == OfRule(insights[..i], q.rule)
      {
        assert insights[..i + 1][..i] == insights[..i];
        if insights[i].rule == q.rule.value { ruled := ruled + [insights[i]]; }
      }
      assert insights[..|insights|] == insights;
    }
    var scoped := [];
    for i := 0 to |ruled|
      invariant scoped == InScope(ruled[..i], q.scope)
    {
      assert ruled[..i + 1][..i] == ruled[..i];
      if Touches(ruled[i], q.scope) { scoped := scoped + [ruled[i]]; }
    }
    assert ruled[..|ruled|] == ruled;
    var sorted := SortBy(scoped, Order);
    view := View(if |sorted| > q.limit then sorted[..q.limit] else sorted, |sorted|, |sorted| > q.limit);
  }

  /**
   * The process-wide cache and the requests suspended between two awaits; each method runs from one await to the
   * next.
   */
  class Server {
    var moment: nat
    var clock: nat
    var estates: Tenant -> Estate
    var policies: Tenant -> Policies
    var entries: map<CacheKey, Entry>
    var flights: map<nat, Flight>
    var replies: seq<Reply>

    ghost function State(): Service
      reads this
    {
      Service(moment, clock, estates, policies, entries, flights, replies)
    }

    constructor (clock: nat, estates: Tenant -> Estate, policies: Tenant -> Policies)
      ensures Initial(State()) && State().clock == clock && State().estates == estates && State().policies == policies
    {
      this.moment, this.clock, this.estates, this.policies := 0, clock, estates, policies;
      this.entries, this.flights, this.replies := map[], map[], [];
    }

    /** Drop what has expired, one key after another. */
    method Purge()
      modifies this`entries
      ensures entries == Unexpired(old(entries), clock)
    {
      var keys := entries.Keys;
      while keys != {}
        invariant keys <= entries.Keys
        invariant forall k :: k in entries ==> k in old(entries) && entries[k] == old(entries)[k]
        invariant forall k :: k in old(entries) && k !in keys ==> (k in entries <==> old(entries)[k].expires > clock)
        decreases |keys|
      {
        var k :| k in keys;
        keys := keys - {k};
        if entries[k].expires <= clock {
          entries := entries - {k};
        }
      }
    }

    method Drop(tenant: Tenant)
      modifies this`entries
      ensures entries == Without(old(entries), tenant)
    {
      var keys := set k | k in entries && k.0 == tenant;
      while keys != {}
        invariant keys <= entries.Keys && forall k :: k in keys ==> k.0 == tenant
        invariant forall k :: k in entries ==> k in old(entries) && entries[k] == old(entries)[k]
        invariant forall k :: k in old(entries) ==> (k in entries <==> k.0 != tenant || k in keys)
        decreases |keys|
      {
        var k :| k in keys;
        keys := keys - {k};
        entries := entries - {k};
      }
    }

    /** Make governed changes of one tenant visible at once. */
    method InvalidateTenant(tenant: Tenant)
      modifies this
      ensures State() == Step(old(State()), Invalidate(tenant))
    {
      Drop(tenant);
      moment := moment + 1;
    }

    /** A request reads the tenant's policies first. */
    method Begin(id: nat, tenant: Tenant, request: Request)
      requires id !in flights
      modifies this
      ensures State() == Step(old(State()), Ask(id, tenant, request))
    {
      flights := flights[id := Ready(tenant, policies(tenant), request)];
      moment := moment + 1;
    }

    /** After the policy read: purge, then serve the tenant's evaluation under these policies, or begin a fill. */
    method Find(id: nat)
      requires id in flights && flights[id].Ready?
      modifies this
      ensures State() == Step(old(State()), LookUp(id))
    {
      var f := flights[id];
      Purge();
      if (f.tenant, f.policies) in entries {
        var e := entries[(f.tenant, f.policies)];
        var view := Page(e.insights, f.request);
        replies := replies + [Reply(f.tenant, f.policies, f.request, view, true, e.fill)];
        flights := flights - {id};
      } else {
        flights := flights[id := Filling(f.tenant, f.policies, f.request, clock, [], [])];
      }
      moment := moment + 1;
    }

    /** One more await of a fill: the next rule's query, or the context once every rule has been asked. */
    method Read(id: nat)
      requires id in flights && flights[id].Filling?
      modifies this
      ensures State() == Step(old(State()), Fetch(id))
    {
      var f := flights[id];
      var n, estate := |f.moments|, estates(f.tenant);
      if n < |f.policies| {
        var more := RunRule(estate, f.policies[n].0, f.policies[n].1, f.request.rule);
        assert f.rows + [] == f.rows;
        flights := flights[id := f.(rows := f.rows + more, moments := f.moments + [moment])];
      } else {
        var insights := RateAll(f.rows, estate.context);
        flights := flights[id := Evaluated(f.tenant, f.policies, f.request, f.start, insights, f.moments + [moment])];
      }
      moment := moment + 1;
    }

    /** The end of a fill: only a full evaluation is kept. */
    method Keep(id: nat)
      requires id in flights && flights[id].Evaluated?
      modifies this
      ensures State() == Step(old(State()), Finish(id))
    {
      var f := flights[id];
      var fill := Fill(id, f.moments, moment);
      if f.request.rule == None {
        entries := entries[(f.tenant, f.policies) := Entry(f.start + TTL, f.insights, fill)];
      }
      var view := Page(f.insights, f.request);
      replies := replies + [Reply(f.tenant, f.policies, f.request, view, false, fill)];
      flights := flights - {id};
      moment := moment + 1;
    }
  }
}
