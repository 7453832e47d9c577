// What the stored rows and the limitations of a run say about the estate.

module SimulationStored {
  import opened Ordering
  import opened Estate
  import opened Traversal
  import opened TraversalReach
  import opened TraversalPolicy
  import opened TraversalShape
  import opened TraversalStops
  import opened Findings
  import opened Seeds
  import opened Simulation
  import opened SimulationProofs
  import opened SimulationKeys

  /** The rows of one dependency fact name its subject. */
  predicate OneEntityEach(m: Mutation) {
    forall a, b :: a in m.seeds && b in m.seeds && a.fact == b.fact ==> a.entity == b.entity
  }

  lemma {:induction false} IntakeComesFrom(p: Policy, m: Mutation, ordinal: nat, budget: nat, had: Intake,
                                           rows: seq<SeedRow>)
    ensures forall f :: f in TakeIn(p, m, ordinal, budget, had, rows).findings ==>
      f in had.findings || exists r :: r in rows && f == SeedFinding(p, m, ordinal, r)
    decreases |rows|
  {
    if rows != [] {
      var row, f := rows[0], SeedFinding(p, m, ordinal, rows[0]);
      assert row in rows && forall r :: r in rows[1..] ==> r in rows;
      if Verdict(p, row).Some? {
        IntakeComesFrom(p, m, ordinal, budget, had.(findings := had.findings + [f]), rows[1..]);
      } else if |had.eligible| < budget {
        IntakeComesFrom(p, m, ordinal, budget, Intake(had.findings + [f], had.eligible + [row], had.limited),
                        rows[1..]);
      }
    }
  }

  lemma SameSeedFinding(p: Policy, i: nat, m: Mutation, rows: seq<SeedRow>, a: SeedRow, b: SeedRow)
    requires OneEntityEach(m) && a in m.seeds && b in m.seeds
    requires var f, h := SeedFinding(p, m, i, a), SeedFinding(p, m, i, b); SameKey(f, h) && f.about.SeedDirect?
    ensures SeedFinding(p, m, i, b).about.SeedDirect? && a.entity == b.entity
  {}

  lemma SameNodeFinding(i: nat, a: Node, b: Node)
    requires SameKey(NodeFinding(i, a), NodeFinding(i, b))
    ensures a.id == b.id
  {}

  lemma SeedKeyAffects(p: Policy, i: nat, m: Mutation, nodes: nat, edges: nat, f: Finding, h: Finding)
    requires OneEntityEach(m) && SameKey(f, h) && f.about.SeedDirect? && h.ordinal == i
    requires f in Taken(p, i, m, nodes, edges).findings && h in Taken(p, i, m, nodes, edges).findings
    ensures Affects(h, i, f.entity)
  {
    var rows := Take(m.seeds, edges);
    IntakeComesFrom(p, m, i, nodes, Intake([], [], |m.seeds| > edges), rows);
    var a :| a in rows && f == SeedFinding(p, m, i, a);
    var b :| b in rows && h == SeedFinding(p, m, i, b);
    SameSeedFinding(p, i, m, rows, a, b);
  }

  lemma WalkKeyAffects(t: Task, seeds: seq<Node>, i: nat, f: Finding, h: Finding)
    requires FactIdsUnique(t.graph.facts) && forall s :: s in seeds ==> s.depth == 1
    requires var w := Expanded(t, seeds);
             f in NodeFindings(i, w.nodes) && (h in NodeFindings(i, w.nodes) || h in StopFindings(i, w.stopped))
    requires SameKey(f, h) && h.ordinal == i
    ensures Affects(h, i, f.entity)
  {
    var w := Expanded(t, seeds);
    NodesApartFromStops(t, seeds, i);
    NodeIsFound(i, w.nodes, f);
    NodeIsFound(i, w.nodes, h);
    var a :| a in w.nodes && f == NodeFinding(i, a);
    var b :| b in w.nodes && h == NodeFinding(i, b);
    SameNodeFinding(i, a, b);
  }

  lemma OutcomeAffecting(g: Graph, p: Policy, i: nat, m: Mutation, nodes: nat, edges: nat, f: Finding)
    requires f in Simulate(g, p, i, m, nodes, edges).findings
    ensures var w := Simulate(g, p, i, m, nodes, edges).walk;
            && f.ordinal == i && (f.about.SeedDirect? ==> f in Taken(p, i, m, nodes, edges).findings)
            && (f.about.Walked? ==> f in NodeFindings(i, w.nodes))
              && (f.about.Halted? ==> f in StopFindings(i, w.stopped))
  {
    var rows, intake := Take(m.seeds, edges), Taken(p, i, m, nodes, edges);
    IntakeIsSeeds(p, m, i, nodes, Intake([], [], |m.seeds| > edges), rows);
    AffectingComesFrom(g, p, i, m, rows, intake, Simulate(g, p, i, m, nodes, edges).walk, nodes, f);
    OrdinalsMatch(g, p, i, m, nodes, edges, f);
  }

  /** Two findings of one mutation with one key agree on whom they say is affected. */
  lemma SameKeyAffects(g: Graph, p: Policy, i: nat, m: Mutation, nodes: nat, edges: nat, f: Finding, h: Finding)
    requires FactIdsUnique(g.facts) && OneEntityEach(m) && SameKey(f, h)
    requires var o := Simulate(g, p, i, m, nodes, edges); f in o.findings && h in o.findings
    requires f.about.SeedDirect? || f.about.Walked?
    ensures Affects(h, i, f.entity)
  {
    OutcomeAffecting(g, p, i, m, nodes, edges, f);
    OutcomeAffecting(g, p, i, m, nodes, edges, h);
    if f.about.SeedDirect? {
      SeedKeyAffects(p, i, m, nodes, edges, f, h);
    } else {
      var seeds := SeedNodes(p, m, Taken(p, i, m, nodes, edges).eligible);
      WalkKeyAffects(Task(g, p, nodes, Left(edges, Take(m.seeds, edges))), seeds, i, f, h);
    }
  }

  ghost predicate Found(table: map<string, Finding>, i: nat, x: EntityId) {
    exists k :: k in table && Affects(table[k], i, x)
  }

  /** What the table keeps for a hashed finding says the same of the same entity. */
  lemma StoredForHashed(id: nat -> string, g: Graph, p: Policy, ms: seq<Mutation>, maxNodes: int, maxEdges: int, i: nat,
                        f: Finding)
    requires i < |ms| && Names(id) && FactIdsUnique(g.facts) && OneEntityEach(ms[i])
    requires f in Hashed(id, Results(Run(g, p, ms, maxNodes, maxEdges))) && Affects(f, i, f.entity)
    ensures Found(Merge(id, map[], Hashed(id, Results(Run(g, p, ms, maxNodes, maxEdges)))), i, f.entity)
  {
    var nodes, edges := Share(Effective(maxNodes, p.maxNodes), |ms|), Share(Effective(maxEdges, p.maxEdges), |ms|);
    var fs := Hashed(id, Results(Run(g, p, ms, maxNodes, maxEdges)));
    var k := FindingKey(id, f);
    MergeCovers(id, map[], fs);
    MergeComesFrom(id, map[], fs, k);
    var h := Merge(id, map[], fs)[k];
    KeyReads(id, f.ordinal, f.about, h.ordinal, h.about);
    HashedByOrdinal(id, g, p, ms, maxNodes, maxEdges, f);
    HashedByOrdinal(id, g, p, ms, maxNodes, maxEdges, h);
    SameKeyAffects(g, p, i, ms[i], nodes, edges, f, h);
  }

  lemma HashedOrStored(id: nat -> string, g: Graph, p: Policy, ms: seq<Mutation>, maxNodes: int, maxEdges: int, i: nat,
                       x: EntityId)
    requires i < |ms| && Names(id) && FactIdsUnique(g.facts) && SeedsInGraph(g, ms[i]) && OneEntityEach(ms[i])
    requires StatusOf(Run(g, p, ms, maxNodes, maxEdges)) == Succeeded
    ensures Reachable(g, p, AsGrouped, ms[i], x)
            <==> Found(Merge(id, map[], Hashed(id, Results(Run(g, p, ms, maxNodes, maxEdges)))), i, x)
  {
    var fs := Hashed(id, Results(Run(g, p, ms, maxNodes, maxEdges)));
    SucceededIsComplete(id, g, p, ms, maxNodes, maxEdges, i, x);
    if Reachable(g, p, AsGrouped, ms[i], x) {
      var f :| f in fs && Affects(f, i, x);
      StoredForHashed(id, g, p, ms, maxNodes, maxEdges, i, f);
    }
    if Found(Merge(id, map[], fs), i, x) {
      var k :| k in Merge(id, map[], fs) && Affects(Merge(id, map[], fs)[k], i, x);
      MergeComesFrom(id, map[], fs, k);
    }
  }

  /** The rows of a seed query are of entities of the graph, one entity a fact. */
  lemma ResolvedSeeds(g: Graph, p: Policy, c: Change)
    requires FactIdsUnique(g.facts)
    ensures SeedsInGraph(g, Resolve(g, p, c)) && OneEntityEach(Resolve(g, p, c))
  {
    forall r | r in SeedRows(g, p, c) ensures r.entity in g.entities && g.entities[r.entity] == Entity(r.kind, r.key) {
      SeedRowsMembers(g, p, c, r);
    }
    forall r, q | r in SeedRows(g, p, c) && q in SeedRows(g, p, c) && r.fact == q.fact ensures r.entity == q.entity {
      SeedRowsMembers(g, p, c, r);
      SeedRowsMembers(g, p, c, q);
    }
  }

  /** The change set's runs, over the estate's tables. */
  function RunOf(g: Graph, p: Policy, cs: seq<Change>, maxNodes: int, maxEdges: int): seq<Outcome>
    requires cs != []
  {
    Run(g, p, Resolved(g, p, cs), maxNodes, maxEdges)
  }

  function TableOf(id: nat -> string, os: seq<Outcome>): map<string, Finding> {
    Merge(id, map[], Hashed(id, Results(os)))
  }

  /**
   * When a run reports SUCCEEDED, its stored rows say that a mutation affects an entity exactly when the policy, as the
   * engine groups it, reaches that entity from a dependent the policy accepts; rows lost to a shared key lose nothing
   * of this.
   */
  lemma StoredIsComplete(id: nat -> string, g: Graph, p: Policy, cs: seq<Change>, maxNodes: int, maxEdges: int, i: nat,
                         x: EntityId)
    requires i < |cs| && Names(id) && FactIdsUnique(g.facts)
    requires StatusOf(RunOf(g, p, cs, maxNodes, maxEdges)) == Succeeded
    ensures Reachable(g, p, AsGrouped, Resolve(g, p, cs[i]), x)
            <==> Found(TableOf(id, RunOf(g, p, cs, maxNodes, maxEdges)), i, x)
  {
    ResolvedSeeds(g, p, cs[i]);
    HashedOrStored(id, g, p, Resolved(g, p, cs), maxNodes, maxEdges, i, x);
  }

  /** And under a policy coherent from depth 1, exactly when the policy as written reaches it. */
  lemma StoredMeetsPolicy(id: nat -> string, g: Graph, p: Policy, cs: seq<Change>, maxNodes: int, maxEdges: int, i: nat,
                          x: EntityId)
    requires i < |cs| && Names(id) && FactIdsUnique(g.facts) && Coherent(p, 1)
    requires StatusOf(RunOf(g, p, cs, maxNodes, maxEdges)) == Succeeded
    ensures Reachable(g, p, AsWritten, Resolve(g, p, cs[i]), x)
            <==> Found(TableOf(id, RunOf(g, p, cs, maxNodes, maxEdges)), i, x)
  {
    var m := Resolve(g, p, cs[i]);
    StoredIsComplete(id, g, p, cs, maxNodes, maxEdges, i, x);
    if Reachable(g, p, AsWritten, m, x) { CoherentlyReachable(g, p, AsWritten, AsGrouped, m, x); }
    if Reachable(g, p, AsGrouped, m, x) { CoherentlyReachable(g, p, AsGrouped, AsWritten, m, x); }
  }

  // ---- When the stored rows are the hashed findings, over the estate's tables

  /** The rows of one fact get one verdict, so what the seed findings need is that no fact has two rows. */
  lemma SeedsDifferExactly(g: Graph, p: Policy, c: Change)
    requires FactsOnce(g.facts)
    ensures SeedsDiffer(p, SeedRows(g, p, c)) <==> RegisteredOnce(g, p, c)
  {
    var rows := SeedRows(g, p, c);
    FactsApartExactly(g, p, c);
    forall i, j | 0 <= i < j < |rows| && rows[i].fact == rows[j].fact
      ensures Verdict(p, rows[i]) == Verdict(p, rows[j]) {
      SeedRowsMembers(g, p, c, rows[i]);
      SeedRowsMembers(g, p, c, rows[j]);
      OnceIsUnique(g.facts);
    }
  }

  lemma KeepsApartExactly(g: Graph, p: Policy, c: Change)
    requires FactsOnce(g.facts)
    ensures KeepsApart(g, p, Resolve(g, p, c))
            <==> RegisteredOnce(g, p, c) && RefusalsDiffer(g, p, Eligible(p, Resolve(g, p, c)), 1)
  {
    SeedsDifferExactly(g, p, c);
  }

  lemma ResolvedKeepApart(g: Graph, p: Policy, cs: seq<Change>)
    ensures (forall m :: m in Resolved(g, p, cs) ==> KeepsApart(g, p, m))
            <==> forall c :: c in cs ==> KeepsApart(g, p, Resolve(g, p, c))
  {
    var ms := Resolved(g, p, cs);
    forall c | c in cs ensures Resolve(g, p, c) in ms {
      var i :| 0 <= i < |cs| && cs[i] == c;
      assert ms[i] == Resolve(g, p, c);
    }
    forall m | m in ms ensures exists c :: c in cs && m == Resolve(g, p, c) {
      var i :| 0 <= i < |ms| && ms[i] == m;
      assert cs[i] in cs;
    }
  }

  lemma AllInGraph(g: Graph, p: Policy, cs: seq<Change>)
    requires FactIdsUnique(g.facts)
    ensures forall m :: m in Resolved(g, p, cs) ==> SeedsInGraph(g, m)
  {
    forall m | m in Resolved(g, p, cs) ensures SeedsInGraph(g, m) {
      var i :| 0 <= i < |cs| && Resolved(g, p, cs)[i] == m;
      ResolvedSeeds(g, p, cs[i]);
    }
  }

  /**
   * A run that no budget limited stores what it hashed exactly when, for each of its changes, no dependency in scope
   * joins two registry identities, and no two refused edges that the policy meets, from the accepted dependents on,
   * have one relation, one fact or none, and one entity.
   */
  lemma StoredIsHashedInEstate(id: nat -> string, g: Graph, p: Policy, cs: seq<Change>, maxNodes: int, maxEdges: int)
    requires Names(id) && FactsOnce(g.facts) && cs != []
    requires !AnyLimited(RunOf(g, p, cs, maxNodes, maxEdges))
    ensures var os := RunOf(g, p, cs, maxNodes, maxEdges);
            |TableOf(id, os)| == |Hashed(id, Results(os))|
            <==> forall c :: c in cs ==>
                   RegisteredOnce(g, p, c) && RefusalsDiffer(g, p, Eligible(p, Resolve(g, p, c)), 1)
  {
    OnceIsUnique(g.facts);
    AllInGraph(g, p, cs);
    StoredIsHashedExactly(id, g, p, Resolved(g, p, cs), maxNodes, maxEdges);
    ResolvedKeepApart(g, p, cs);
    forall c | c in cs
      ensures KeepsApart(g, p, Resolve(g, p, c))
              <==> RegisteredOnce(g, p, c) && RefusalsDiffer(g, p, Eligible(p, Resolve(g, p, c)), 1)
    {
      KeepsApartExactly(g, p, c);
    }
  }

  // ---- The limitations of a run tell its status

  lemma CodeNext(ls: seq<Limitation>, l: Limitation, c: Code)
    ensures HasCode(ls + [l], c) <==> HasCode(ls, c) || l.code == c
  {
    assert forall k :: k in ls + [l] <==> k in ls || k == l;
  }

  lemma CodesJoined(a: seq<Limitation>, b: seq<Limitation>, c: Code)
    ensures HasCode(a + b, c) <==> HasCode(a, c) || HasCode(b, c)
  {
    assert forall k :: k in a + b <==> k in a || k in b;
  }

  lemma {:induction false} NotedAllHas(ls: seq<Limitation>, more: seq<Limitation>, c: Code)
    ensures HasCode(NotedAll(ls, more), c) <==> HasCode(ls, c) || HasCode(more, c)
    decreases |more|
  {
    if more != [] {
      var front, last := more[..|more| - 1], more[|more| - 1];
      assert more == front + [last];
      NotedAllHas(ls, front, c);
      CodeNext(front, last, c);
      CodeNext(NotedAll(ls, front), last, c);
    }
  }

  lemma {:induction false} RunHas(os: seq<Outcome>, c: Code)
    ensures HasCode(RunLimitations(os), c) <==> exists o :: o in os && HasCode(o.limitations, c)
    decreases |os|
  {
    if os != [] {
      var front, last := os[..|os| - 1], os[|os| - 1];
      assert os == front + [last];
      RunHas(front, c);
      NotedAllHas(RunLimitations(front), last.limitations, c);
    }
  }

  lemma WalkLimitsHave(codes: seq<Limit>, c: Limit)
    ensures HasCode(WalkLimits(codes), OfWalk(c)) <==> c in codes
    ensures !HasCode(WalkLimits(codes), NoEligiblePath)
  {
    var ls := WalkLimits(codes);
    if c in codes {
      var i :| 0 <= i < |codes| && codes[i] == c;
      assert ls[i].code == OfWalk(c);
    }
  }

  lemma OutcomeLimits(g: Graph, p: Policy, i: nat, m: Mutation, nodes: nat, edges: nat)
    ensures var o := Simulate(g, p, i, m, nodes, edges);
            && (HasCode(o.limitations, OfWalk(TraversalBudget)) <==> o.limited)
            && (HasCode(o.limitations, NoEligiblePath) <==> o.eligible == [])
  {
    var rows, intake := Take(m.seeds, edges), Taken(p, i, m, nodes, edges);
    var t, seeds := Task(g, p, nodes, Left(edges, rows)), SeedNodes(p, m, intake.eligible);
    TruncationIsAnnounced(t, seeds);
    LimitsHave(g, p, rows, intake, Expanded(t, seeds), nodes);
  }

  lemma LimitsHave(g: Graph, p: Policy, rows: seq<SeedRow>, intake: Intake, w: Walk, limit: nat)
    requires Announced(w)
    ensures var ls := Limitations(g, p, rows, intake, w, limit);
            && (HasCode(ls, OfWalk(TraversalBudget)) <==> intake.limited || w.truncated)
            && (HasCode(ls, NoEligiblePath) <==> intake.eligible == [])
  {
    var budget := if intake.limited then [Limitation(OfWalk(TraversalBudget), [])] else [];
    var walked, mapped := NotedAll(budget, WalkLimits(w.limitations)), CapabilityLimits(g, p, w.nodes, limit);
    var closing := if intake.eligible == [] then [Limitation(NoEligiblePath, Evidenced(rows))] else [];
    forall c | c == OfWalk(TraversalBudget) || c == NoEligiblePath
      ensures HasCode(walked + mapped + closing, c) <==> HasCode(walked, c) || HasCode(closing, c)
    {
      CodesJoined(walked, mapped, c);
      CodesJoined(walked + mapped, closing, c);
    }
    NotedAllHas(budget, WalkLimits(w.limitations), OfWalk(TraversalBudget));
    NotedAllHas(budget, WalkLimits(w.limitations), NoEligiblePath);
    WalkLimitsHave(w.limitations, TraversalBudget);
    if intake.limited { assert budget[0].code == OfWalk(TraversalBudget); }
    if intake.eligible == [] { assert closing[0].code == NoEligiblePath; }
  }

  ghost predicate Tells(o: Outcome) {
    && (HasCode(o.limitations, OfWalk(TraversalBudget)) <==> o.limited)
    && (HasCode(o.limitations, NoEligiblePath) <==> o.eligible == [])
  }

  lemma StatusFromLimitations(os: seq<Outcome>)
    requires os != [] && forall o :: o in os ==> Tells(o)
    ensures StatusOf(os) == Succeeded
            <==> !HasCode(RunLimitations(os), OfWalk(TraversalBudget)) && !HasCode(RunLimitations(os), NoEligiblePath)
  {
    StatusIsExact(os);
    RunHas(os, OfWalk(TraversalBudget));
    RunHas(os, NoEligiblePath);
  }

  /** A run reports SUCCEEDED exactly when its limitations name neither a budget nor a missing impact path. */
  lemma LimitationsTellStatus(g: Graph, p: Policy, ms: seq<Mutation>, maxNodes: int, maxEdges: int)
    requires ms != []
    ensures var os := Run(g, p, ms, maxNodes, maxEdges);
            StatusOf(os) == Succeeded
            <==> !HasCode(RunLimitations(os), OfWalk(TraversalBudget)) && !HasCode(RunLimitations(os), NoEligiblePath)
  {
    var os := Run(g, p, ms, maxNodes, maxEdges);
    forall o | o in os ensures Tells(o) {
      var i :| 0 <= i < |os| && os[i] == o;
      OutcomeLimits(g, p, i, ms[i], Share(Effective(maxNodes, p.maxNodes), |ms|),
                    Share(Effective(maxEdges, p.maxEdges), |ms|));
    }
    StatusFromLimitations(os);
  }
}
