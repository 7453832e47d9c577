// Capabilities, counts, limitations and order: the rest of what a run reports, in plain terms.

module SimulationClosing {
  import opened Ordering
  import opened Estate
  import opened Traversal
  import opened TraversalSound
  import opened Findings
  import opened Seeds
  import opened Simulation
  import opened SimulationProofs
  import opened SimulationPlain
  import TraversalPlain
  import SimulationRerun
  import SimulationStored
  import TraversalShape

  // ---- Capabilities

  /** The curated map says that a reached application, of a type and at a depth the rule takes, delivers it. */
  predicate Delivers(g: Graph, rule: CapabilityRule, nodes: seq<Node>, l: Link) {
    && l in g.links && l.capability in g.entities
    && exists n :: n in nodes && n.id == l.application && n.kind in rule.fromTypes && n.depth <= rule.maxDepth
  }

  lemma LinkRowsDeliver(g: Graph, rule: CapabilityRule, nodes: seq<Node>, l: Link)
    ensures l in LinkRows(g, Applications(rule, nodes)) <==> Delivers(g, rule, nodes, l)
  {
    SortKeepsMembers(Once(LinksOf(g.entities, g.links, Applications(rule, nodes))), LinkOrder(g.entities));
    SimulationRerun.OnceMembers(LinksOf(g.entities, g.links, Applications(rule, nodes)));
    SimulationRerun.LinksOfMembers(g.entities, g.links, Applications(rule, nodes));
  }

  /** Of two rows of the query the later one is no more critical. */
  lemma RowsByCriticality(g: Graph, applications: set<EntityId>, i: nat, j: nat)
    requires i < j < |LinkRows(g, applications)|
    ensures LinkRows(g, applications)[i].criticality <= LinkRows(g, applications)[j].criticality
  {
    SortSorts(Once(LinksOf(g.entities, g.links, applications)), LinkOrder(g.entities));
    var a, b := LinkRows(g, applications)[i], LinkRows(g, applications)[j];
    assert !Less(LinkOrder(g.entities)(b), LinkOrder(g.entities)(a));
  }

  /** The first row of a capability among the rows. */
  predicate FirstRowAt(links: seq<Link>, i: nat, l: Link) {
    i < |links| && links[i] == l && forall j :: 0 <= j < i ==> links[j].capability != l.capability
  }

  lemma NotAmong(links: seq<Link>, k: EntityId)
    ensures k !in CapabilitiesOf(links) <==> forall j :: 0 <= j < |links| ==> links[j].capability != k
  {
    if k in CapabilitiesOf(links) {
      var l :| l in links && l.capability == k;
    }
  }

  lemma {:induction false} FirstLinksKeepCapabilities(links: seq<Link>)
    ensures CapabilitiesOf(FirstLinks(links)) == CapabilitiesOf(links)
    decreases |links|
  {
    if links != [] {
      var n := |links| - 1;
      assert links == links[..n] + [links[n]];
      FirstLinksKeepCapabilities(links[..n]);
      CapabilitiesNext(links[..n], links[n]);
      CapabilitiesNext(FirstLinks(links[..n]), links[n]);
    }
  }

  /** One more row is the first of its capability exactly when none before it names that capability. */
  lemma FirstRowNext(front: seq<Link>, last: Link, l: Link)
    ensures (exists i: nat :: FirstRowAt(front + [last], i, l))
        <==> (exists i: nat :: FirstRowAt(front, i, l)) || (l == last && last.capability !in CapabilitiesOf(front))
  {
    var links := front + [last];
    NotAmong(front, last.capability);
    assert forall j :: 0 <= j < |front| ==> front[j] == links[j];
    if i: nat :| FirstRowAt(front, i, l) {
      assert FirstRowAt(links, i, l);
    } else if l == last && last.capability !in CapabilitiesOf(front) {
      assert FirstRowAt(links, |front|, l);
    }
    if i: nat :| FirstRowAt(links, i, l) {
      if i < |front| {
        assert FirstRowAt(front, i, l);
      } else {
        assert forall j :: 0 <= j < |front| ==> links[j].capability != last.capability;
      }
    }
  }

  lemma {:induction false} FirstLinksAre(links: seq<Link>, l: Link)
    ensures l in FirstLinks(links) <==> exists i: nat :: FirstRowAt(links, i, l)
    decreases |links|
  {
    if links != [] {
      var n := |links| - 1;
      assert links == links[..n] + [links[n]];
      FirstLinksAre(links[..n], l);
      FirstLinksKeepCapabilities(links[..n]);
      FirstRowNext(links[..n], links[n], l);
    }
  }

  /**
   * A finding about a capability names, of all deliveries to reached applications, one that is most critical, and among
   * its applications only such; when no row was cut off, all of them.
   */
  predicate CapabilityTold(g: Graph, rule: CapabilityRule, nodes: seq<Node>, limit: nat, i: nat, subject: EntityId,
                           f: Finding, k: EntityId, l: Link)
  {
    && Delivers(g, rule, nodes, l) && l.capability == k
    && (forall o :: o in g.links && Delivers(g, rule, nodes, o) && o.capability == k ==> l.criticality <= o.criticality)
    && f.ordinal == i && f.about == Capability(k) && f.entity == k && f.classification == rule.classification
    && f.evidence == [] && f.path == [subject, l.application, k] && f.confidence == 1.0 && f.payload.CuratedBy?
    && f.payload.criticality == l.criticality && f.payload.source == l.source
    && (forall a :: a in f.payload.applications ==>
          exists o :: o in g.links && Delivers(g, rule, nodes, o) && o.capability == k && o.application == a)
    && (|LinkRows(g, Applications(rule, nodes))| <= limit ==>
          forall o :: o in g.links && Delivers(g, rule, nodes, o) && o.capability == k
                      ==> o.application in f.payload.applications)
  }

  lemma TakenAt<T>(s: seq<T>, limit: nat, i: nat)
    requires i < |Take(s, limit)|
    ensures i < |s| && Take(s, limit)[i] == s[i]
  {}

  lemma MostCritical(g: Graph, rule: CapabilityRule, nodes: seq<Node>, limit: nat, i: nat, l: Link, o: Link)
    requires FirstRowAt(Mapped(g, rule, nodes, limit), i, l) && Delivers(g, rule, nodes, o)
    requires o.capability == l.capability
    ensures l.criticality <= o.criticality
  {
    var all := LinkRows(g, Applications(rule, nodes));
    LinkRowsDeliver(g, rule, nodes, o);
    TakenAt(all, limit, i);
    var j :| 0 <= j < |all| && all[j] == o;
    forall k: nat | k < i ensures all[k].capability != l.capability { TakenAt(all, limit, k); }
    if i < j {
      RowsByCriticality(g, Applications(rule, nodes), i, j);
    }
  }

  lemma CapabilityIsTold(g: Graph, p: Policy, i: nat, m: Mutation, nodes: seq<Node>, limit: nat, f: Finding)
    requires f in CapabilityFindings(g, p, i, m, nodes, limit)
    ensures p.capability.Some?
    ensures exists l :: CapabilityTold(g, p.capability.value, nodes, limit, i, m.subject, f, f.entity, l)
  {
    var rule := p.capability.value;
    var rows := Mapped(g, rule, nodes, limit);
    var firsts := SortBy(FirstLinks(rows), GroupOrder);
    var a :| 0 <= a < |firsts| && f == CapabilityFinding(i, m, rule, rows, firsts[a]);
    var l := firsts[a];
    SortKeepsMembers(FirstLinks(rows), GroupOrder);
    FirstLinksAre(rows, l);
    var n: nat :| FirstRowAt(rows, n, l);
    LinkRowsDeliver(g, rule, nodes, l);
    forall o | o in g.links && Delivers(g, rule, nodes, o) && o.capability == l.capability
      ensures l.criticality <= o.criticality
      ensures |LinkRows(g, Applications(rule, nodes))| <= limit ==> o.application in ApplicationsOf(rows, l.capability)
    {
      MostCritical(g, rule, nodes, limit, n, l, o);
      LinkRowsDeliver(g, rule, nodes, o);
    }
    forall x | x in ApplicationsOf(rows, l.capability)
      ensures exists o :: o in g.links && Delivers(g, rule, nodes, o)
                          && o.capability == l.capability && o.application == x
    {
      var o :| o in rows && o.capability == l.capability && o.application == x;
      LinkRowsDeliver(g, rule, nodes, o);
    }
    assert CapabilityTold(g, rule, nodes, limit, i, m.subject, f, f.entity, l);
  }

  lemma CapabilityIsFound(g: Graph, p: Policy, i: nat, m: Mutation, nodes: seq<Node>, limit: nat, o: Link)
    requires p.capability.Some? && o in Mapped(g, p.capability.value, nodes, limit)
    ensures exists f :: f in CapabilityFindings(g, p, i, m, nodes, limit) && f.entity == o.capability
  {
    var rule := p.capability.value;
    var rows := Mapped(g, rule, nodes, limit);
    var firsts := SortBy(FirstLinks(rows), GroupOrder);
    FirstLinksKeepCapabilities(rows);
    SortKeepsMembers(FirstLinks(rows), GroupOrder);
    assert o.capability in CapabilitiesOf(FirstLinks(rows));
    var l :| l in FirstLinks(rows) && l.capability == o.capability;
    var a :| 0 <= a < |firsts| && firsts[a] == l;
    var fs := CapabilityFindings(g, p, i, m, nodes, limit);
    assert fs[a].entity == o.capability && fs[a] in fs;
  }

  /** In any outcome under any budgets, what a finding says of a capability is so. */
  lemma CapabilitiesAreTold(g: Graph, p: Policy, i: nat, m: Mutation, nodes: nat, edges: nat, f: Finding)
    requires f in Simulate(g, p, i, m, nodes, edges).findings && f.about.Capability?
    ensures p.capability.Some?
    ensures exists l :: CapabilityTold(g, p.capability.value, Simulate(g, p, i, m, nodes, edges).walk.nodes, nodes, i,
                                       m.subject, f, f.entity, l)
  {
    OutcomeParts(g, p, i, m, nodes, edges, f);
    CapabilityIsTold(g, p, i, m, Simulate(g, p, i, m, nodes, edges).walk.nodes, nodes, f);
  }

  /**
   * Every capability delivered to a reached application has a finding, unless the capability query, which is limited to
   * the mutation's node share, returned more rows than that: those it leaves out raise no limitation.
   */
  lemma EveryCapabilityIsTold(g: Graph, p: Policy, i: nat, m: Mutation, nodes: nat, edges: nat, l: Link)
    requires p.capability.Some? && Delivers(g, p.capability.value, Simulate(g, p, i, m, nodes, edges).walk.nodes, l)
    requires |LinkRows(g, Applications(p.capability.value, Simulate(g, p, i, m, nodes, edges).walk.nodes))| <= nodes
    ensures exists f :: f in Simulate(g, p, i, m, nodes, edges).findings
                        && f.about.Capability? && f.entity == l.capability
  {
    var w := Simulate(g, p, i, m, nodes, edges).walk;
    LinkRowsDeliver(g, p.capability.value, w.nodes, l);
    CapabilityIsFound(g, p, i, m, w.nodes, nodes, l);
    var f :| f in CapabilityFindings(g, p, i, m, w.nodes, nodes) && f.entity == l.capability;
    CapabilitiesAre(g, p, i, m, w.nodes, nodes);
    OutcomeParts(g, p, i, m, nodes, edges, f);
  }

  // ---- The closing findings

  /** The places of the nodes of a classification. */
  function Places(nodes: seq<Node>, c: Classification): set<int> {
    set i | 0 <= i < |nodes| && nodes[i].classification == c
  }

  lemma PlacesNext(nodes: seq<Node>, n: Node, c: Classification)
    ensures Places(nodes + [n], c) == Places(nodes, c) + if n.classification == c then {|nodes|} else {}
    ensures |nodes| !in Places(nodes, c)
  {}

  lemma {:induction false} CountIsSize(nodes: seq<Node>, c: Classification)
    ensures CountOf(nodes, c) == |Places(nodes, c)|
    decreases |nodes|
  {
    if nodes == [] {
      assert Places(nodes, c) == {};
    } else {
      var front, n := nodes[..|nodes| - 1], nodes[|nodes| - 1];
      assert nodes == front + [n];
      CountIsSize(front, c);
      CountAppends(front, n, c);
      PlacesNext(front, n, c);
    }
  }

  lemma {:induction false} CountAppends(nodes: seq<Node>, n: Node, c: Classification)
    ensures CountOf(nodes + [n], c) == CountOf(nodes, c) + if n.classification == c then 1 else 0
  {
    if nodes == [] {
      assert nodes + [n] == [n] && CountOf([], c) == 0;
    } else {
      assert (nodes + [n])[1..] == nodes[1..] + [n];
      CountAppends(nodes[1..], n, c);
    }
  }

  lemma TakenWithinRows(p: Policy, m: Mutation, i: nat, nodes: nat, edges: nat)
    ensures |Taken(p, i, m, nodes, edges).eligible| <= |Take(m.seeds, edges)|
  {
    EligibleAtMost(p, m, i, nodes, Intake([], [], |m.seeds| > edges), Take(m.seeds, edges));
  }

  lemma {:induction false} EligibleAtMost(p: Policy, m: Mutation, ordinal: nat, budget: nat, had: Intake,
                                          rows: seq<SeedRow>)
    ensures |TakeIn(p, m, ordinal, budget, had, rows).eligible| <= |had.eligible| + |rows|
    decreases |rows|
  {
    if rows != [] {
      var row, f := rows[0], SeedFinding(p, m, ordinal, rows[0]);
      if Verdict(p, row).Some? {
        EligibleAtMost(p, m, ordinal, budget, had.(findings := had.findings + [f]), rows[1..]);
      } else if |had.eligible| < budget {
        EligibleAtMost(p, m, ordinal, budget, Intake(had.findings + [f], had.eligible + [row], had.limited), rows[1..]);
      }
    }
  }

  lemma AscendingIds(ids: seq<FactId>, sorted: seq<FactId>)
    requires NoRepeats(ids) && sorted == SortBy(ids, FactOrder)
    ensures forall a, b :: 0 <= a < b < |sorted| ==> sorted[a] < sorted[b]
  {
    SortSorts(ids, FactOrder);
    SortKeepsDistinct(ids, FactOrder);
    forall a, b | 0 <= a < b < |sorted| ensures sorted[a] < sorted[b] {
      assert !Less(FactOrder(sorted[b]), FactOrder(sorted[a]));
    }
  }

  /**
   * What the accepted dependencies move, each fact once and in order, how many stay, and how many nodes are of a
   * kind.
   */
  ghost predicate SpreadTold(i: nat, subject: EntityId, o: Outcome, f: Finding) {
    && f.ordinal == i && f.entity == subject && f.path == [subject] && f.classification == Informational
    && f.confidence == 1.0
    && (forall a, b :: 0 <= a < b < |f.evidence| ==> f.evidence[a] < f.evidence[b])
    && (forall x :: x in f.evidence <==> exists r :: r in o.eligible && r.fact == x)
    && f.payload == Spreading(|o.eligible|, if |o.rows| > |o.eligible| then |o.rows| - |o.eligible| else 0,
                              |Places(o.walk.nodes, Transitive)|, |Places(o.walk.nodes, Context)|)
  }

  predicate MemoryTold(i: nat, subject: EntityId, f: Finding) {
    f.ordinal == i && f.entity == subject && f.evidence == [] && f.path == [subject]
    && f.classification == Informational && f.payload == Outcomes
  }

  lemma SpreadIsTold(i: nat, m: Mutation, o: Outcome, f: Finding)
    requires f in ClosingFindings(i, m, o.rows, o.eligible, o.walk.nodes) && f.about.Spread?
    ensures SpreadTold(i, m.subject, o, f)
  {
    CountIsSize(o.walk.nodes, Transitive);
    CountIsSize(o.walk.nodes, Context);
    assert f.evidence == SortBy(FactsOf(o.eligible), FactOrder);
    AscendingIds(FactsOf(o.eligible), f.evidence);
    SortKeepsMembers(FactsOf(o.eligible), FactOrder);
  }

  lemma MemoryIsTold(i: nat, m: Mutation, o: Outcome, f: Finding)
    requires f in ClosingFindings(i, m, o.rows, o.eligible, o.walk.nodes) && f.about.Memory?
    ensures m.remembered && MemoryTold(i, m.subject, f)
  {}

  /** The accepted rows are some of the rows, and the closing findings are as said. */
  lemma ClosingIsTold(g: Graph, p: Policy, i: nat, m: Mutation, nodes: nat, edges: nat, f: Finding)
    requires f in Simulate(g, p, i, m, nodes, edges).findings
    ensures var o := Simulate(g, p, i, m, nodes, edges);
            && |o.eligible| <= |o.rows| && (f.about.Spread? ==> SpreadTold(i, m.subject, o, f))
            && (f.about.Memory? ==> m.remembered && MemoryTold(i, m.subject, f))
  {
    var o := Simulate(g, p, i, m, nodes, edges);
    WalkedSource(g, p, i, m, nodes, edges);
    OutcomeParts(g, p, i, m, nodes, edges, f);
    TakenWithinRows(p, m, i, nodes, edges);
    if f.about.Spread? { SpreadIsTold(i, m, o, f); }
    if f.about.Memory? { MemoryIsTold(i, m, o, f); }
  }

  lemma ClosingIsThere(g: Graph, p: Policy, i: nat, m: Mutation, nodes: nat, edges: nat)
    ensures exists f :: f in Simulate(g, p, i, m, nodes, edges).findings && f.about.Spread?
    ensures m.remembered <==> exists f :: f in Simulate(g, p, i, m, nodes, edges).findings && f.about.Memory?
  {
    var o, intake := Simulate(g, p, i, m, nodes, edges), Taken(p, i, m, nodes, edges);
    var closing := ClosingFindings(i, m, o.rows, intake.eligible, o.walk.nodes);
    var f := closing[|closing| - 1];
    assert f in closing && f.about.Spread?;
    OutcomeParts(g, p, i, m, nodes, edges, f);
    if m.remembered {
      assert closing[0] in closing && closing[0].about.Memory?;
      OutcomeParts(g, p, i, m, nodes, edges, closing[0]);
    }
    if h :| h in o.findings && h.about.Memory? {
      ClosingIsTold(g, p, i, m, nodes, edges, h);
    }
  }

  // ---- Limitations

  lemma WalkNotes(g: Graph, p: Policy, i: nat, m: Mutation, nodes: nat, edges: nat)
    ensures var w := Simulate(g, p, i, m, nodes, edges).walk;
            && TraversalShape.Announced(w)
            && (MaxDepth in w.limitations
                <==> "MAX_DEPTH" in p.stopConditions && exists n :: n in w.nodes && n.depth >= p.maxDepth)
  {
    var o := Simulate(g, p, i, m, nodes, edges);
    WalkedSource(g, p, i, m, nodes, edges);
    var t, seeds := Task(g, p, nodes, Left(edges, o.rows)), SeedNodes(p, m, o.eligible);
    TraversalShape.TruncationIsAnnounced(t, seeds);
    TraversalPlain.DepthBoundIsNoted(t, seeds, 1);
  }

  lemma WalkCodes(codes: seq<Limit>, c: Code)
    ensures HasCode(WalkLimits(codes), c) <==> exists l :: l in codes && c == OfWalk(l)
  {
    var ls := WalkLimits(codes);
    if l :| l in codes && c == OfWalk(l) {
      var i :| 0 <= i < |codes| && codes[i] == l;
      assert ls[i].code == c && ls[i] in ls;
    }
  }

  lemma CodesOf(g: Graph, p: Policy, rows: seq<SeedRow>, intake: Intake, w: Walk, limit: nat, c: Code)
    ensures HasCode(Limitations(g, p, rows, intake, w, limit), c)
            <==> (c == OfWalk(TraversalBudget) && intake.limited) || (exists l :: l in w.limitations && c == OfWalk(l))
                 || HasCode(CapabilityLimits(g, p, w.nodes, limit), c) || (c == NoEligiblePath && intake.eligible == [])
  {
    var budget := if intake.limited then [Limitation(OfWalk(TraversalBudget), [])] else [];
    var walked, mapped := NotedAll(budget, WalkLimits(w.limitations)), CapabilityLimits(g, p, w.nodes, limit);
    var closing := if intake.eligible == [] then [Limitation(NoEligiblePath, Simulation.Evidenced(rows))] else [];
    SimulationStored.CodesJoined(walked, mapped, c);
    SimulationStored.CodesJoined(walked + mapped, closing, c);
    SimulationStored.NotedAllHas(budget, WalkLimits(w.limitations), c);
    WalkCodes(w.limitations, c);
    OneCode(budget, c);
    OneCode(closing, c);
  }

  lemma OneCode(ls: seq<Limitation>, c: Code)
    requires |ls| <= 1
    ensures HasCode(ls, c) <==> ls != [] && ls[0].code == c
  {
    if ls != [] { assert ls[0] in ls; }
  }

  predicate ReachedApplication(rule: CapabilityRule, nodes: seq<Node>) {
    exists n :: n in nodes && n.kind in rule.fromTypes && n.depth <= rule.maxDepth
  }

  lemma ApplicationsReached(rule: CapabilityRule, nodes: seq<Node>)
    ensures Applications(rule, nodes) == {} <==> !ReachedApplication(rule, nodes)
  {
    if n :| n in nodes && n.kind in rule.fromTypes && n.depth <= rule.maxDepth {
      assert n.id in Applications(rule, nodes);
    }
  }

  lemma NothingDelivered(g: Graph, rule: CapabilityRule, nodes: seq<Node>, limit: nat)
    requires limit > 0
    ensures Mapped(g, rule, nodes, limit) == [] <==> forall l :: l in g.links ==> !Delivers(g, rule, nodes, l)
  {
    var rows := LinkRows(g, Applications(rule, nodes));
    forall l ensures l in rows <==> Delivers(g, rule, nodes, l) { LinkRowsDeliver(g, rule, nodes, l); }
    if rows != [] { assert rows[0] in rows; }
  }

  /** What each limitation of a mutation says is so, and whatever is so is said. */
  lemma LimitationsAreExact(g: Graph, p: Policy, i: nat, m: Mutation, nodes: nat, edges: nat)
    requires nodes > 0
    ensures var o := Simulate(g, p, i, m, nodes, edges);
            && (HasCode(o.limitations, OfWalk(TraversalBudget)) <==> o.limited)
            && (HasCode(o.limitations, OfWalk(MaxDepth))
                <==> "MAX_DEPTH" in p.stopConditions && exists n :: n in o.walk.nodes && n.depth >= p.maxDepth)
            && (HasCode(o.limitations, NoEligiblePath) <==> o.eligible == [])
            && (HasCode(o.limitations, NoCapabilityPath)
                <==> p.capability.Some? && !ReachedApplication(p.capability.value, o.walk.nodes))
            && (HasCode(o.limitations, CapabilityNotMapped)
                <==> p.capability.Some? && ReachedApplication(p.capability.value, o.walk.nodes)
                     && forall l :: l in g.links ==> !Delivers(g, p.capability.value, o.walk.nodes, l))
  {
    var o, intake := Simulate(g, p, i, m, nodes, edges), Taken(p, i, m, nodes, edges);
    WalkNotes(g, p, i, m, nodes, edges);
    CodesOf(g, p, o.rows, intake, o.walk, nodes, OfWalk(TraversalBudget));
    CodesOf(g, p, o.rows, intake, o.walk, nodes, OfWalk(MaxDepth));
    CodesOf(g, p, o.rows, intake, o.walk, nodes, NoEligiblePath);
    CodesOf(g, p, o.rows, intake, o.walk, nodes, NoCapabilityPath);
    CodesOf(g, p, o.rows, intake, o.walk, nodes, CapabilityNotMapped);
    CapabilityCodes(g, p, o.walk.nodes, nodes);
  }

  lemma CapabilityCodes(g: Graph, p: Policy, nodes: seq<Node>, limit: nat)
    requires limit > 0
    ensures var ls := CapabilityLimits(g, p, nodes, limit);
            && !HasCode(ls, OfWalk(TraversalBudget)) && !HasCode(ls, OfWalk(MaxDepth)) && !HasCode(ls, NoEligiblePath)
            && (HasCode(ls, NoCapabilityPath) <==> p.capability.Some? && !ReachedApplication(p.capability.value, nodes))
            && (HasCode(ls, CapabilityNotMapped)
                <==> p.capability.Some? && ReachedApplication(p.capability.value, nodes)
                     && forall l :: l in g.links ==> !Delivers(g, p.capability.value, nodes, l))
  {
    var ls := CapabilityLimits(g, p, nodes, limit);
    OneCode(ls, OfWalk(TraversalBudget));
    OneCode(ls, OfWalk(MaxDepth));
    OneCode(ls, NoEligiblePath);
    OneCode(ls, NoCapabilityPath);
    OneCode(ls, CapabilityNotMapped);
    if p.capability.Some? {
      ApplicationsReached(p.capability.value, nodes);
      NothingDelivered(g, p.capability.value, nodes, limit);
    }
  }

  /** The dependencies that were found and had evidence, though none of them was accepted. */
  lemma RefusedAreCited(g: Graph, p: Policy, i: nat, m: Mutation, nodes: nat, edges: nat)
    requires Simulate(g, p, i, m, nodes, edges).eligible == []
    ensures var o := Simulate(g, p, i, m, nodes, edges);
            exists l :: l in o.limitations && l.code == NoEligiblePath
                        && forall x :: x in l.evidence <==> exists r :: r in o.rows && r.evidenced && r.fact == x
  {
    var o := Simulate(g, p, i, m, nodes, edges);
    var l := Limitation(NoEligiblePath, Simulation.Evidenced(o.rows));
    assert o.limitations[|o.limitations| - 1] == l;
    forall x ensures x in l.evidence <==> exists r :: r in o.rows && r.evidenced && r.fact == x {
      EvidencedAre(o.rows, x);
    }
  }

  lemma {:induction false} EvidencedAre(rows: seq<SeedRow>, x: FactId)
    ensures x in Simulation.Evidenced(rows) <==> exists r :: r in rows && r.evidenced && r.fact == x
  {
    if rows != [] {
      EvidencedAre(rows[1..], x);
      assert rows == [rows[0]] + rows[1..];
    }
  }

  // ---- The order of the result

  const CLASSIFICATIONS := [Direct, Transitive, Context, Stop, Informational]

  predicate ResultBefore(id: nat -> string, f: Finding, h: Finding) {
    || (exists a, b :: 0 <= a < b < |CLASSIFICATIONS| && CLASSIFICATIONS[a] == f.classification
                       && CLASSIFICATIONS[b] == h.classification)
    || (f.classification == h.classification && TextBefore(FindingKey(id, f), FindingKey(id, h)))
  }

  lemma ClassIndexReads(c: Classification)
    ensures 0 <= ClassIndex(c) < |CLASSIFICATIONS| && CLASSIFICATIONS[ClassIndex(c)] == c
    ensures forall a :: 0 <= a < |CLASSIFICATIONS| && CLASSIFICATIONS[a] == c ==> a == ClassIndex(c)
  {}

  lemma ResultOrderReads(id: nat -> string, f: Finding, h: Finding)
    ensures Less(ResultOrder(id, f), ResultOrder(id, h)) <==> ResultBefore(id, f, h)
  {
    ClassIndexReads(f.classification);
    ClassIndexReads(h.classification);
    var s, t := FindingKey(id, f), FindingKey(id, h);
    NumberDecides(ClassIndex(f.classification), ClassIndex(h.classification), TextKey(s), TextKey(t));
    TextDecides(s, t, [], []);
    assert TextKey(s) + [] == TextKey(s) && TextKey(t) + [] == TextKey(t);
  }

  /** The hashed findings are the run's, by classification and then by key. */
  lemma HashedReads(id: nat -> string, fs: seq<Finding>)
    ensures multiset(Hashed(id, fs)) == multiset(fs)
    ensures forall a, b :: 0 <= a < b < |Hashed(id, fs)| ==> !ResultBefore(id, Hashed(id, fs)[b], Hashed(id, fs)[a])
  {
    SortPermutes(fs, ByResult(id));
    SortSorts(fs, ByResult(id));
    var hashed := Hashed(id, fs);
    forall a, b | 0 <= a < b < |hashed| ensures !ResultBefore(id, hashed[b], hashed[a]) {
      ResultOrderReads(id, hashed[b], hashed[a]);
      assert !Less(ByResult(id)(hashed[b]), ByResult(id)(hashed[a]));
    }
  }
}
