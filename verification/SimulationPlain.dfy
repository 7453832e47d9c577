// What the findings of a mutation say, in the fields of facts, rules, links and nodes.

module SimulationPlain {
  import opened Ordering
  import opened Estate
  import opened Traversal
  import opened TraversalSound
  import opened TraversalReach
  import opened TraversalPlain
  import opened Findings
  import opened Seeds
  import opened Simulation
  import opened SimulationProofs
  import SimulationKeys
  import SimulationStored

  // ---- Which part of the program a finding comes from

  lemma ClosingAre(ordinal: nat, m: Mutation, rows: seq<SeedRow>, eligible: seq<SeedRow>, nodes: seq<Node>, f: Finding)
    requires f in ClosingFindings(ordinal, m, rows, eligible, nodes)
    ensures f.about.Memory? || f.about.Spread?
  {}

  lemma StopsAreHalted(i: nat, stopped: seq<StoppedBranch>, f: Finding)
    requires f in StopFindings(i, stopped)
    ensures f.about.Halted?
  {}

  lemma NodesAreWalked(i: nat, nodes: seq<Node>, f: Finding)
    requires f in NodeFindings(i, nodes)
    ensures f.about.Walked?
  {
    NodeIsFound(i, nodes, f);
  }

  ghost predicate FromItsPart(g: Graph, p: Policy, i: nat, m: Mutation, rows: seq<SeedRow>, intake: Intake, w: Walk,
                              limit: nat, f: Finding)
  {
    match f.about
    case SeedStop(_) => f in intake.findings
    case SeedDirect(_) => f in intake.findings
    case Walked(_, _, _, _) => f in NodeFindings(i, w.nodes)
    case Halted(_, _, _) => f in StopFindings(i, w.stopped)
    case Capability(_) => f in CapabilityFindings(g, p, i, m, w.nodes, limit)
    case _ => f in ClosingFindings(i, m, rows, intake.eligible, w.nodes)
  }

  lemma InFive<T>(a: seq<T>, b: seq<T>, c: seq<T>, d: seq<T>, e: seq<T>, x: T)
    ensures x in a + b + c + d + e <==> x in a || x in b || x in c || x in d || x in e
  {}

  lemma PartOf(g: Graph, p: Policy, i: nat, m: Mutation, rows: seq<SeedRow>, intake: Intake, w: Walk, limit: nat,
               f: Finding)
    requires forall h :: h in intake.findings ==> h.about.SeedStop? || h.about.SeedDirect?
    ensures f in Assemble(g, p, i, m, rows, intake, w, limit).findings
            <==> FromItsPart(g, p, i, m, rows, intake, w, limit, f)
  {
    InFive(intake.findings, NodeFindings(i, w.nodes), StopFindings(i, w.stopped),
           CapabilityFindings(g, p, i, m, w.nodes, limit), ClosingFindings(i, m, rows, intake.eligible, w.nodes), f);
    CapabilitiesAre(g, p, i, m, w.nodes, limit);
    if f in NodeFindings(i, w.nodes) { NodesAreWalked(i, w.nodes, f); }
    if f in StopFindings(i, w.stopped) { StopsAreHalted(i, w.stopped, f); }
    if f in ClosingFindings(i, m, rows, intake.eligible, w.nodes) {
      ClosingAre(i, m, rows, intake.eligible, w.nodes, f);
    }
  }

  /** A mutation's findings part by part: `rows`, `intake` and the walk are what its budgets let it have. */
  lemma OutcomeParts(g: Graph, p: Policy, i: nat, m: Mutation, nodes: nat, edges: nat, f: Finding)
    ensures var o := Simulate(g, p, i, m, nodes, edges);
            f in o.findings <==> FromItsPart(g, p, i, m, o.rows, Taken(p, i, m, nodes, edges), o.walk, nodes, f)
  {
    var rows, intake := Take(m.seeds, edges), Taken(p, i, m, nodes, edges);
    SimulationKeys.IntakeIsSeeds(p, m, i, nodes, Intake([], [], |m.seeds| > edges), rows);
    PartOf(g, p, i, m, rows, intake, Simulate(g, p, i, m, nodes, edges).walk, nodes, f);
  }

  // ---- Dependencies

  /**
   * A finding about a dependency: accepted, it moves from the version it has and is cited; refused, it stops there for
   * want of evidence or confidence, and is cited only if there is evidence.
   */
  ghost predicate SeedTold(g: Graph, p: Policy, c: Change, i: nat, f: Finding, e: Fact, x: Registered) {
    && (exists row :: Tells(g, p, c, e, x, row))
    && f.ordinal == i && f.entity == e.subject && f.path == [c.subject, e.subject] && f.confidence == e.confidence
    && (if e.evidenced && e.confidence >= p.minimumConfidence
        then f.about == SeedDirect(e.id) && f.classification == p.seedClassification && f.evidence == [e.id]
             && f.payload.SeedMove? && f.payload.path == e.details.path && Versioned(e, x, f.payload.before)
        else f.about == SeedStop(e.id) && f.classification == Stop && f.evidence == (if e.evidenced then [e.id] else [])
             && f.payload == SeedHalt(if e.evidenced then LowConfidence else MissingEvidence))
  }

  lemma SeedIsTold(g: Graph, p: Policy, c: Change, i: nat, e: Fact, x: Registered, row: SeedRow)
    requires Tells(g, p, c, e, x, row)
    ensures SeedTold(g, p, c, i, SeedFinding(p, Resolve(g, p, c), i, row), e, x)
  {}

  lemma TakenIsTold(g: Graph, p: Policy, c: Change, i: nat, nodes: nat, edges: nat, f: Finding)
    requires f in Taken(p, i, Resolve(g, p, c), nodes, edges).findings
    ensures exists e, x :: SeedTold(g, p, c, i, f, e, x)
  {
    var m := Resolve(g, p, c);
    SimulationStored.IntakeComesFrom(p, m, i, nodes, Intake([], [], |m.seeds| > edges), Take(m.seeds, edges));
    var row :| row in m.seeds && f == SeedFinding(p, m, i, row);
    SeedRowsTell(g, p, c);
    var e, x :| Tells(g, p, c, e, x, row);
    SeedIsTold(g, p, c, i, e, x, row);
  }

  /** Whatever the budgets, what a finding says of a dependency is so. */
  lemma SeedsAreTold(g: Graph, p: Policy, c: Change, i: nat, nodes: nat, edges: nat, f: Finding)
    requires f in Simulate(g, p, i, Resolve(g, p, c), nodes, edges).findings
             && (f.about.SeedStop? || f.about.SeedDirect?)
    ensures exists e, x :: SeedTold(g, p, c, i, f, e, x)
  {
    OutcomeParts(g, p, i, Resolve(g, p, c), nodes, edges, f);
    TakenIsTold(g, p, c, i, nodes, edges, f);
  }

  /** And when nothing was cut, every dependency in scope has a finding, with every registry identity it joins. */
  lemma EverySeedIsTold(g: Graph, p: Policy, c: Change, i: nat, nodes: nat, edges: nat, e: Fact, x: Registered,
                        row: SeedRow)
    requires Tells(g, p, c, e, x, row) && !Simulate(g, p, i, Resolve(g, p, c), nodes, edges).limited
    ensures exists f :: f in Simulate(g, p, i, Resolve(g, p, c), nodes, edges).findings && SeedTold(g, p, c, i, f, e, x)
  {
    var m := Resolve(g, p, c);
    var f := SeedFinding(p, m, i, row);
    SeedRowsTell(g, p, c);
    SeedIsTold(g, p, c, i, e, x, row);
    SimulationKeys.UnlimitedTake(p, i, m, nodes, edges);
    UnlimitedTakesAll(p, m, i, nodes, Intake([], [], |m.seeds| > edges), Take(m.seeds, edges));
    assert row in Take(m.seeds, edges) && f in Taken(p, i, m, nodes, edges).findings;
    OutcomeParts(g, p, i, m, nodes, edges, f);
  }

  // ---- Entities the walk led to

  /** A finding about an entity across a fact from node `m`: the rule's classification and weight, the fact cited. */
  ghost predicate NodeTold(g: Graph, p: Policy, i: nat, f: Finding, m: Node, r: Rule, q: Rule, e: Fact, y: EntityId) {
    && Crosses(g, p, m, r, q, e, y) && e.evidenced && e.confidence >= p.minimumConfidence
    && f.ordinal == i && f.entity == y && f.about == Walked(r.classification, r.relation, Some(e.id), y)
    && f.classification == r.classification && f.evidence == [e.id] && f.path == m.path + [y]
    && f.confidence == e.confidence && f.payload == WalkReach(r.relation, m.depth + 1, q.weight)
  }

  lemma SeedsAreFirstLevel(p: Policy, m: Mutation, rows: seq<SeedRow>, t: Task, n: Node)
    requires n in Expanded(t, SeedNodes(p, m, rows)).nodes && n.depth > 1
    ensures n.id !in Ids(SeedNodes(p, m, rows))
  {
    var seeds := SeedNodes(p, m, rows);
    var nodes := Expanded(t, seeds).nodes;
    SeedsComeFirst(t, seeds);
    var k := |Ids(seeds)|;
    forall j | 0 <= j < k ensures nodes[j].depth == 1 {
      assert nodes[..k][j] in seeds;
    }
  }

  lemma WalkedSource(g: Graph, p: Policy, i: nat, m: Mutation, nodes: nat, edges: nat)
    ensures var o := Simulate(g, p, i, m, nodes, edges);
            && o.eligible == Taken(p, i, m, nodes, edges).eligible
            && o.walk == Expanded(Task(g, p, nodes, Left(edges, o.rows)), SeedNodes(p, m, o.eligible))
  {}

  /** Whatever the budgets, what a finding says of an entity the walk led to is so. */
  lemma NodesAreTold(g: Graph, p: Policy, i: nat, m: Mutation, nodes: nat, edges: nat, f: Finding)
    requires f in Simulate(g, p, i, m, nodes, edges).findings && f.about.Walked?
    ensures exists n, r, q, e ::
              n in Simulate(g, p, i, m, nodes, edges).walk.nodes && NodeTold(g, p, i, f, n, r, q, e, f.entity)
  {
    var o := Simulate(g, p, i, m, nodes, edges);
    OutcomeParts(g, p, i, m, nodes, edges, f);
    WalkedSource(g, p, i, m, nodes, edges);
    NodeIsFound(i, o.walk.nodes, f);
    var n :| n in o.walk.nodes && n.depth > 1 && f == NodeFinding(i, n);
    var t := Task(g, p, nodes, Left(edges, o.rows));
    SeedsAreFirstLevel(p, m, o.eligible, t, n);
    NodesLieAcross(t, SeedNodes(p, m, o.eligible), n);
    var k, r, q, e :| k in o.walk.nodes && Across(g, p, k, r, q, e, n);
    assert NodeTold(g, p, i, f, k, r, q, e, n.id);
  }

  /** Every entity recorded past the seeds has a finding, at its own path. */
  lemma EveryNodeIsTold(g: Graph, p: Policy, i: nat, m: Mutation, nodes: nat, edges: nat, n: Node)
    requires n in Simulate(g, p, i, m, nodes, edges).walk.nodes && n.depth > 1
    ensures exists f :: f in Simulate(g, p, i, m, nodes, edges).findings && f.about.Walked? && f.entity == n.id
                        && f.path == n.path
  {
    var f, o := NodeFinding(i, n), Simulate(g, p, i, m, nodes, edges);
    NodeIsFound(i, o.walk.nodes, f);
    OutcomeParts(g, p, i, m, nodes, edges, f);
  }

  // ---- Branches that stopped

  ghost predicate StopTold(g: Graph, p: Policy, i: nat, f: Finding, m: Node, r: Rule, q: Rule, e: Fact, y: EntityId) {
    && Crosses(g, p, m, r, q, e, y) && !(e.evidenced && e.confidence >= p.minimumConfidence)
    && f.ordinal == i && f.entity == y && f.classification == Stop && f.path == m.path + [y]
    && f.confidence == e.confidence
    && f.about == Halted(r.relation, if e.evidenced then Some(e.id) else None, y)
    && f.evidence == (if e.evidenced then [e.id] else [])
    && f.payload == WalkHalt(r.relation, if e.evidenced then LowConfidence else MissingEvidence, m.depth + 1)
  }

  lemma BranchIsTold(g: Graph, p: Policy, i: nat, m: Node, r: Rule, q: Rule, e: Fact, s: StoppedBranch)
    requires StopsAt(g, p, m, r, q, e, s)
    ensures StopTold(g, p, i, StopFinding(i, s), m, r, q, e, s.id)
  {}

  lemma StopSource(g: Graph, p: Policy, i: nat, m: Mutation, nodes: nat, edges: nat, f: Finding)
      returns (s: StoppedBranch)
    requires f in Simulate(g, p, i, m, nodes, edges).findings && f.about.Halted?
    ensures s in Simulate(g, p, i, m, nodes, edges).walk.stopped && f == StopFinding(i, s)
  {
    OutcomeParts(g, p, i, m, nodes, edges, f);
    s := StopFound(i, Simulate(g, p, i, m, nodes, edges).walk.stopped, f);
  }

  lemma StopFound(i: nat, stopped: seq<StoppedBranch>, f: Finding) returns (s: StoppedBranch)
    requires f in StopFindings(i, stopped)
    ensures s in stopped && f == StopFinding(i, s)
  {
    var j :| 0 <= j < |stopped| && f == StopFinding(i, stopped[j]);
    s := stopped[j];
  }

  /** Whatever the budgets, what a finding says of a stopped branch is so. */
  lemma StopsAreTold(g: Graph, p: Policy, i: nat, m: Mutation, nodes: nat, edges: nat, f: Finding)
    requires f in Simulate(g, p, i, m, nodes, edges).findings && f.about.Halted?
    ensures exists n, r, q, e ::
              n in Simulate(g, p, i, m, nodes, edges).walk.nodes && StopTold(g, p, i, f, n, r, q, e, f.entity)
  {
    var s := StopSource(g, p, i, m, nodes, edges, f);
    WalkedSource(g, p, i, m, nodes, edges);
    var o := Simulate(g, p, i, m, nodes, edges);
    BranchesStop(Task(g, p, nodes, Left(edges, o.rows)), SeedNodes(p, m, o.eligible), s);
    var n, r, q, e :| n in o.walk.nodes && StopsAt(g, p, n, r, q, e, s);
    BranchIsTold(g, p, i, n, r, q, e, s);
  }

  /** Every stopped branch has a finding, at its own path. */
  lemma EveryStopIsTold(g: Graph, p: Policy, i: nat, m: Mutation, nodes: nat, edges: nat, s: StoppedBranch)
    requires s in Simulate(g, p, i, m, nodes, edges).walk.stopped
    ensures exists f :: f in Simulate(g, p, i, m, nodes, edges).findings && f.about.Halted? && f.entity == s.id
                        && f.path == s.path
  {
    var f, o := StopFinding(i, s), Simulate(g, p, i, m, nodes, edges);
    var j :| 0 <= j < |o.walk.stopped| && o.walk.stopped[j] == s;
    assert StopFindings(i, o.walk.stopped)[j] == f;
    OutcomeParts(g, p, i, m, nodes, edges, f);
  }

  // ---- Evidence

  /** The fact is in the estate, and there is evidence for it. */
  ghost predicate Evidenced(g: Graph, x: FactId) {
    exists e :: e in g.facts && e.id == x && e.evidenced
  }

  lemma {:induction false} TakenAreAccepted(p: Policy, m: Mutation, ordinal: nat, budget: nat, had: Intake,
                                            rows: seq<SeedRow>)
    ensures forall r :: r in TakeIn(p, m, ordinal, budget, had, rows).eligible ==>
              r in had.eligible || (r in rows && r.evidenced && r.confidence >= p.minimumConfidence)
    decreases |rows|
  {
    if rows != [] {
      var row, f := rows[0], SeedFinding(p, m, ordinal, rows[0]);
      if Verdict(p, row).Some? {
        TakenAreAccepted(p, m, ordinal, budget, had.(findings := had.findings + [f]), rows[1..]);
      } else if |had.eligible| < budget {
        TakenAreAccepted(p, m, ordinal, budget, Intake(had.findings + [f], had.eligible + [row], had.limited),
                         rows[1..]);
      }
    }
  }

  lemma AcceptedIsEvidenced(g: Graph, p: Policy, c: Change, row: SeedRow)
    requires row in SeedRows(g, p, c) && row.evidenced
    ensures Evidenced(g, row.fact)
  {
    SeedRowsTell(g, p, c);
    var e, x :| Tells(g, p, c, e, x, row);
  }

  lemma SpreadCites(g: Graph, p: Policy, c: Change, i: nat, nodes: nat, edges: nat, x: FactId)
    requires x in FactsOf(Taken(p, i, Resolve(g, p, c), nodes, edges).eligible)
    ensures Evidenced(g, x)
  {
    var m := Resolve(g, p, c);
    TakenAreAccepted(p, m, i, nodes, Intake([], [], |m.seeds| > edges), Take(m.seeds, edges));
    var row :| row in Taken(p, i, m, nodes, edges).eligible && row.fact == x;
    AcceptedIsEvidenced(g, p, c, row);
  }

  lemma SeedCites(g: Graph, p: Policy, c: Change, i: nat, f: Finding, e: Fact, r: Registered, x: FactId)
    requires SeedTold(g, p, c, i, f, e, r) && x in f.evidence
    ensures Evidenced(g, x)
  {}

  lemma NodeCites(g: Graph, p: Policy, i: nat, f: Finding, n: Node, r: Rule, q: Rule, e: Fact, x: FactId)
    requires NodeTold(g, p, i, f, n, r, q, e, f.entity) && x in f.evidence
    ensures Evidenced(g, x)
  {}

  lemma StopCites(g: Graph, p: Policy, i: nat, f: Finding, n: Node, r: Rule, q: Rule, e: Fact, x: FactId)
    requires StopTold(g, p, i, f, n, r, q, e, f.entity) && x in f.evidence
    ensures Evidenced(g, x)
  {}

  lemma CapabilitiesCiteNone(g: Graph, p: Policy, i: nat, m: Mutation, nodes: seq<Node>, limit: nat, f: Finding)
    requires f in CapabilityFindings(g, p, i, m, nodes, limit)
    ensures f.evidence == []
  {}

  lemma ClosingCites(i: nat, m: Mutation, rows: seq<SeedRow>, eligible: seq<SeedRow>, nodes: seq<Node>, f: Finding,
                     x: FactId)
    requires f in ClosingFindings(i, m, rows, eligible, nodes) && x in f.evidence
    ensures x in FactsOf(eligible)
  {
    SortKeepsMembers(FactsOf(eligible), FactOrder);
  }

  lemma RestCites(g: Graph, p: Policy, c: Change, i: nat, nodes: nat, edges: nat, f: Finding, x: FactId)
    requires f in Simulate(g, p, i, Resolve(g, p, c), nodes, edges).findings && x in f.evidence
    requires f.about.Capability? || f.about.Memory? || f.about.Spread?
    ensures Evidenced(g, x)
  {
    var m := Resolve(g, p, c);
    OutcomeParts(g, p, i, m, nodes, edges, f);
    var o := Simulate(g, p, i, m, nodes, edges);
    if f.about.Capability? {
      CapabilitiesCiteNone(g, p, i, m, o.walk.nodes, nodes, f);
    }
    ClosingCites(i, m, o.rows, Taken(p, i, m, nodes, edges).eligible, o.walk.nodes, f, x);
    SpreadCites(g, p, c, i, nodes, edges, x);
  }

  /** Nothing is cited that the estate has no evidence for, in any finding under any budgets. */
  lemma OnlyEvidenceIsCited(g: Graph, p: Policy, c: Change, i: nat, nodes: nat, edges: nat, f: Finding, x: FactId)
    requires f in Simulate(g, p, i, Resolve(g, p, c), nodes, edges).findings && x in f.evidence
    ensures Evidenced(g, x)
  {
    if f.about.SeedStop? || f.about.SeedDirect? {
      SeedsAreTold(g, p, c, i, nodes, edges, f);
      var e, r :| SeedTold(g, p, c, i, f, e, r);
      SeedCites(g, p, c, i, f, e, r, x);
    } else if f.about.Walked? {
      NodesAreTold(g, p, i, Resolve(g, p, c), nodes, edges, f);
      var n, r, q, e :| NodeTold(g, p, i, f, n, r, q, e, f.entity);
      NodeCites(g, p, i, f, n, r, q, e, x);
    } else if f.about.Halted? {
      StopsAreTold(g, p, i, Resolve(g, p, c), nodes, edges, f);
      var n, r, q, e :| StopTold(g, p, i, f, n, r, q, e, f.entity);
      StopCites(g, p, i, f, n, r, q, e, x);
    } else {
      RestCites(g, p, c, i, nodes, edges, f, x);
    }
  }

  // ---- Where the walk starts

  /** A dependent the walk starts from: an accepted dependency found for the changed package. */
  ghost predicate RootTold(g: Graph, p: Policy, c: Change, n: Node, e: Fact, x: Registered) {
    && (exists row :: Tells(g, p, c, e, x, row)) && e.evidenced && e.confidence >= p.minimumConfidence
    && n.id == e.subject && n.id in g.entities && n.kind == g.entities[n.id].kind && n.key == g.entities[n.id].key
    && n.depth == 1 && n.classification == p.seedClassification && n.weight == 1.0 && n.relation == Some("DEPENDS_ON")
    && n.origin == Some(c.subject) && n.fact == Some(e.id) && n.confidence == e.confidence
    && n.path == [c.subject, e.subject]
  }

  lemma SeedNodeIsTold(g: Graph, p: Policy, c: Change, i: nat, nodes: nat, edges: nat, n: Node)
    requires n in SeedNodes(p, Resolve(g, p, c), Taken(p, i, Resolve(g, p, c), nodes, edges).eligible)
    ensures exists e, x :: RootTold(g, p, c, n, e, x)
  {
    var m, eligible := Resolve(g, p, c), Taken(p, i, Resolve(g, p, c), nodes, edges).eligible;
    TakenAreAccepted(p, m, i, nodes, Intake([], [], |m.seeds| > edges), Take(m.seeds, edges));
    var k :| 0 <= k < |eligible| && n == SeedNode(p, m, eligible[k]);
    SeedRowsTell(g, p, c);
    var e, x :| Tells(g, p, c, e, x, eligible[k]);
    assert RootTold(g, p, c, n, e, x);
  }

  lemma StartsOrLiesAcross(t: Task, seeds: seq<Node>, n: Node)
    requires n in Expanded(t, seeds).nodes
    ensures n in seeds || exists m, r, q, f :: m in Expanded(t, seeds).nodes && Across(t.graph, t.policy, m, r, q, f, n)
  {
    SeedsComeFirst(t, seeds);
    var nodes, k := Expanded(t, seeds).nodes, |Ids(seeds)|;
    var j :| 0 <= j < |nodes| && nodes[j] == n;
    if j < k { assert nodes[..k][j] == n; } else { NodesLieAcross(t, seeds, n); }
  }

  /**
   * Every entity a mutation's walk records is a dependent it starts from, or lies across an edge from a recorded one.
   */
  lemma RecordedAreTold(g: Graph, p: Policy, c: Change, i: nat, nodes: nat, edges: nat, n: Node)
    requires n in Simulate(g, p, i, Resolve(g, p, c), nodes, edges).walk.nodes
    ensures (exists e, x :: RootTold(g, p, c, n, e, x))
            || exists m, r, q, f ::
                 m in Simulate(g, p, i, Resolve(g, p, c), nodes, edges).walk.nodes && Across(g, p, m, r, q, f, n)
  {
    var change := Resolve(g, p, c);
    var seeds := SeedNodes(p, change, Taken(p, i, change, nodes, edges).eligible);
    StartsOrLiesAcross(Task(g, p, nodes, Left(edges, Take(change.seeds, edges))), seeds, n);
    if n in seeds { SeedNodeIsTold(g, p, c, i, nodes, edges, n); }
  }
}
