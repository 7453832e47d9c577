// Two runs that store less than they hash, and one of them hashes what the order of storage decides.

module SimulationRuns {
  import opened Ordering
  import opened Estate
  import opened Traversal
  import opened TraversalReach
  import opened TraversalBudget
  import opened TraversalStops
  import opened Findings
  import opened Seeds
  import opened Simulation
  import opened SimulationProofs
  import opened SimulationKeys
  import opened SimulationStored
  import opened SimulationRerun
  import ChangeScopes

  const UPGRADE := Change(3, "pad", ChangeScopes.Scope.Estate, false)

  lemma OneChange(g: Graph, p: Policy, c: Change, maxNodes: int, maxEdges: int)
    requires p.maxNodes == 0 && p.maxEdges == 0 && maxNodes > 1 && maxEdges > 1
    ensures var o := Simulate(g, p, 0, Resolve(g, p, c), maxNodes, maxEdges);
            AnyLimited(RunOf(g, p, [c], maxNodes, maxEdges)) <==> o.limited
  {
    var os := RunOf(g, p, [c], maxNodes, maxEdges);
    RunAt(g, p, Resolved(g, p, [c]), maxNodes, maxEdges, 0);
    assert os == [Simulate(g, p, 0, Resolve(g, p, c), maxNodes, maxEdges)];
  }

  lemma {:induction false} AcceptedAtMost(p: Policy, rows: seq<SeedRow>)
    ensures Accepted(p, rows) <= |rows|
  {
    if rows != [] { AcceptedAtMost(p, rows[1..]); }
  }

  lemma RoomForAll(p: Policy, m: Mutation, nodes: nat, edges: nat)
    requires |m.seeds| <= nodes && |m.seeds| <= edges
    ensures !Taken(p, 0, m, nodes, edges).limited
  {
    AcceptedAtMost(p, m.seeds);
    assert Take(m.seeds, edges) == m.seeds;
    TakeInLimited(p, m, 0, nodes, Intake([], [], false), m.seeds);
  }

  /** Room for every seed row, every entity and every edge of every level: nothing is limited. */
  lemma RoomyRun(g: Graph, p: Policy, c: Change, nodes: nat, edges: nat)
    requires p.maxNodes == 0 && p.maxEdges == 0 && nodes > 1 && edges > 1 && FactIdsUnique(g.facts)
    requires |SeedRows(g, p, c)| <= nodes && |g.entities.Keys| <= nodes
    requires |SeedRows(g, p, c)| + EnoughEdges(g, p, 1) <= edges
    ensures !AnyLimited(RunOf(g, p, [c], nodes, edges))
  {
    var m := Resolve(g, p, c);
    RoomForAll(p, m, nodes, edges);
    OneChange(g, p, c, nodes, edges);
    ResolvedSeeds(g, p, c);
    SeedsAreWell(g, p, 0, m, nodes, edges);
    assert Take(m.seeds, edges) == m.seeds;
    var seeds := SeedNodes(p, m, Taken(p, 0, m, nodes, edges).eligible);
    EnoughBudgetSuffices(Task(g, p, nodes, Left(edges, Take(m.seeds, edges))), seeds, 1);
  }

  lemma FewerStored(id: nat -> string, fs: seq<Finding>)
    requires |Merge(id, map[], fs)| != |fs|
    ensures |Merge(id, map[], fs)| < |fs|
  {
    MergeSize(id, fs);
  }

  lemma Loses(id: nat -> string, g: Graph, p: Policy, c: Change, nodes: nat, edges: nat)
    requires Names(id) && FactsOnce(g.facts) && !AnyLimited(RunOf(g, p, [c], nodes, edges))
    requires !RegisteredOnce(g, p, c) || !RefusalsDiffer(g, p, Eligible(p, Resolve(g, p, c)), 1)
    ensures var os := RunOf(g, p, [c], nodes, edges); |TableOf(id, os)| < |Hashed(id, Results(os))|
  {
    assert c in [c];
    StoredIsHashedInEstate(id, g, p, [c], nodes, edges);
    FewerStored(id, Hashed(id, Results(RunOf(g, p, [c], nodes, edges))));
  }

  /** An edge refused out of an accepted dependent is met by the policy. */
  lemma RefusedAtOnce(g: Graph, p: Policy, roots: set<EntityId>, x: Refusal)
    requires Holder(x) in roots && RefusedAt(g, p, 1, x)
    ensures Refuses(g, p, roots, 1, x)
  {
    assert LeastDepth(g, p, roots, 1, Holder(x), 1);
  }

  lemma SharedLabel(g: Graph, p: Policy, roots: set<EntityId>, x: Refusal, y: Refusal)
    requires Refuses(g, p, roots, 1, x) && Refuses(g, p, roots, 1, y) && RefusalLabel(x) == RefusalLabel(y) && x != y
    ensures !RefusalsDiffer(g, p, roots, 1)
  {}

  lemma AcceptedIsEligible(g: Graph, p: Policy, c: Change, f: Fact, x: Registered)
    requires f in g.facts && x in g.registry && Through(g, p, c, f, x)
    requires Eligibility(f.evidenced, f.confidence, p.minimumConfidence).None?
    ensures f.subject in Eligible(p, Resolve(g, p, c))
  {
    SeedRowsMembers(g, p, c, Seeds.RowFor(g, f, x));
    assert Verdict(p, Seeds.RowFor(g, f, x)).None?;
  }

  // ---- A dependency whose package entity has two versions

  const TWO_VERSIONS := Graph(
    map[0 := Entity("Repository", Some("app")), 3 := Entity("Package", Some("pad"))],
    [Fact(7, 0, "DEPENDS_ON", 3, 1.0, true, Details(None, None, "*"))],
    [Registered(3, "pad", Some("1")), Registered(3, "pad", Some("2"))], [])

  const NO_RULES := Policy(4, 0, 0, 0.8, Direct, [], {}, None, {"Repository"})

  lemma TwoRows()
    ensures |SeedRows(TWO_VERSIONS, NO_RULES, UPGRADE)| == 2
  {
    var g, f := TWO_VERSIONS, TWO_VERSIONS.facts[0];
    assert g.registry[1..] == [g.registry[1]] && g.registry[1..][1..] == [];
    assert RowsOf(g, UPGRADE, f, []) == [];
    assert RowsOf(g, UPGRADE, f, g.registry[1..]) == [Seeds.RowFor(g, f, g.registry[1])];
    assert RowsOf(g, UPGRADE, f, g.registry) == [Seeds.RowFor(g, f, g.registry[0]), Seeds.RowFor(g, f, g.registry[1])];
    assert g.facts[1..] == [];
    assert SeedJoin(g, NO_RULES, UPGRADE, g.facts) == RowsOf(g, UPGRADE, f, g.registry);
  }

  lemma TwoVersionsUnlimited()
    ensures !AnyLimited(RunOf(TWO_VERSIONS, NO_RULES, [UPGRADE], 100, 100))
  {
    TwoRows();
    assert TWO_VERSIONS.entities.Keys == {0, 3} && |NO_RULES.edges| == 0;
    RoomyRun(TWO_VERSIONS, NO_RULES, UPGRADE, 100, 100);
  }

  lemma BothVersionsJoin()
    ensures var g, f := TWO_VERSIONS, TWO_VERSIONS.facts[0];
            && f in g.facts && Through(g, NO_RULES, UPGRADE, f, g.registry[0])
              && Through(g, NO_RULES, UPGRADE, f, g.registry[1])
            && VersionOf(f, g.registry[0]) != VersionOf(f, g.registry[1])
    ensures !SettledFor(TWO_VERSIONS, NO_RULES, UPGRADE) && !RegisteredOnce(TWO_VERSIONS, NO_RULES, UPGRADE)
  {
    assert "1"[0] != "2"[0];
    var g, f := TWO_VERSIONS, TWO_VERSIONS.facts[0];
    assert g.registry[0] in g.registry && g.registry[1] in g.registry && f in g.facts;
  }

  /**
   * One dependency on a package entity registered under two versions: two findings of one key are hashed and one row is
   * stored, and the order in which the two identities are stored decides the hash.
   */
  lemma TwoVersionsChangeTheHash<H>(id: nat -> string, digest: (seq<Finding>, seq<Limitation>) -> H)
    requires Names(id) && Faithful(digest)
    ensures var os := RunOf(TWO_VERSIONS, NO_RULES, [UPGRADE], 100, 100);
            && !OneHash(id, digest, TWO_VERSIONS, NO_RULES, [UPGRADE], 100, 100)
            && |TableOf(id, os)| < |Hashed(id, Results(os))|
  {
    TwoVersionsUnlimited();
    BothVersionsJoin();
    UnsettledShowsInHash(id, digest, TWO_VERSIONS, NO_RULES, [UPGRADE], 100, 100, 0);
    Loses(id, TWO_VERSIONS, NO_RULES, UPGRADE, 100, 100);
  }

  // ---- Two dependents with evidence-less edges into one service

  const USES := Rule("USES", Outbound, {"Repository"}, {}, Transitive, 4, 1.0)
  const ONE_RULE := Policy(4, 0, 0, 0.8, Direct, [USES], {}, None, {"Repository"})

  const SHARED_SERVICE := Graph(
    map[0 := Entity("Repository", Some("app")), 1 := Entity("Repository", Some("web")),
        2 := Entity("Service", Some("api")), 3 := Entity("Package", Some("pad"))],
    [Fact(10, 0, "DEPENDS_ON", 3, 1.0, true, Details(None, None, "*")),
     Fact(11, 1, "DEPENDS_ON", 3, 1.0, true, Details(None, None, "*")),
     Fact(12, 0, "USES", 2, 1.0, false, Details(None, None, "")),
     Fact(13, 1, "USES", 2, 1.0, false, Details(None, None, ""))],
    [Registered(3, "pad", Some("1"))], [])

  lemma DependsOnPad(e: EntityId)
    requires e == 0 || e == 1
    ensures e in Eligible(ONE_RULE, Resolve(SHARED_SERVICE, ONE_RULE, UPGRADE))
  {
    var f, x := SHARED_SERVICE.facts[e], SHARED_SERVICE.registry[0];
    assert f in SHARED_SERVICE.facts && x in SHARED_SERVICE.registry;
    AcceptedIsEligible(SHARED_SERVICE, ONE_RULE, UPGRADE, f, x);
  }

  lemma UsesIsRefused(e: EntityId)
    requires e == 0 || e == 1
    ensures RefusedAt(SHARED_SERVICE, ONE_RULE, 1, Refusal(KeyOf(USES), SHARED_SERVICE.facts[2 + e]))
  {
    var f := SHARED_SERVICE.facts[2 + e];
    assert f in SHARED_SERVICE.facts && USES in ONE_RULE.edges && FirstRule(ONE_RULE.edges, KeyOf(USES)) == USES;
    assert Admits(ONE_RULE, USES, SHARED_SERVICE.entities[e].kind, 1);
  }

  lemma ServiceIsSharedTwice()
    ensures !RefusalsDiffer(SHARED_SERVICE, ONE_RULE, Eligible(ONE_RULE, Resolve(SHARED_SERVICE, ONE_RULE, UPGRADE)), 1)
  {
    var roots := Eligible(ONE_RULE, Resolve(SHARED_SERVICE, ONE_RULE, UPGRADE));
    var x, y := Refusal(KeyOf(USES), SHARED_SERVICE.facts[2]), Refusal(KeyOf(USES), SHARED_SERVICE.facts[3]);
    DependsOnPad(0);
    DependsOnPad(1);
    UsesIsRefused(0);
    UsesIsRefused(1);
    RefusedAtOnce(SHARED_SERVICE, ONE_RULE, roots, x);
    RefusedAtOnce(SHARED_SERVICE, ONE_RULE, roots, y);
    SharedLabel(SHARED_SERVICE, ONE_RULE, roots, x, y);
  }

  lemma {:induction false} OneRowAFact(g: Graph, p: Policy, c: Change, facts: seq<Fact>)
    requires |g.registry| == 1
    ensures |SeedJoin(g, p, c, facts)| <= |facts|
  {
    if facts != [] {
      OneRowAFact(g, p, c, facts[1..]);
      assert Declares(g, p, c, facts[0]) ==> RowsOf(g, c, facts[0], g.registry[1..]) == [];
    }
  }

  lemma ServiceFacts()
    ensures FactsOnce(SHARED_SERVICE.facts) && FactIdsUnique(SHARED_SERVICE.facts)
  {
    OnceIsUnique(SHARED_SERVICE.facts);
  }

  lemma ServiceUnlimited()
    ensures !AnyLimited(RunOf(SHARED_SERVICE, ONE_RULE, [UPGRADE], 100, 100))
  {
    ServiceFacts();
    OneRowAFact(SHARED_SERVICE, ONE_RULE, UPGRADE, SHARED_SERVICE.facts);
    assert SHARED_SERVICE.entities.Keys == {0, 1, 2, 3} && |ONE_RULE.edges| == 1 && |SHARED_SERVICE.facts| == 4;
    assert EnoughEdges(SHARED_SERVICE, ONE_RULE, 1) == 13;
    RoomyRun(SHARED_SERVICE, ONE_RULE, UPGRADE, 100, 100);
  }

  lemma LosesAStop(id: nat -> string, g: Graph, p: Policy)
    requires Names(id) && FactsOnce(g.facts) && !AnyLimited(RunOf(g, p, [UPGRADE], 100, 100))
    requires !RefusalsDiffer(g, p, Eligible(p, Resolve(g, p, UPGRADE)), 1)
    ensures var os := RunOf(g, p, [UPGRADE], 100, 100); |TableOf(id, os)| < |Hashed(id, Results(os))|
  {
    Loses(id, g, p, UPGRADE, 100, 100);
  }

  /** Two dependents with evidence-less edges into one service: two stops are hashed under one key, one is stored. */
  lemma SharedServiceLosesAStop(id: nat -> string)
    requires Names(id)
    ensures var os := RunOf(SHARED_SERVICE, ONE_RULE, [UPGRADE], 100, 100);
            |TableOf(id, os)| < |Hashed(id, Results(os))|
  {
    ServiceFacts();
    ServiceUnlimited();
    ServiceIsSharedTwice();
    LosesAStop(id, SHARED_SERVICE, ONE_RULE);
  }
}
