// One simulation run: every mutation of a change set walked under its share of the budgets, and one merged result.

module Simulation {
  import opened Ordering
  import opened Estate
  import opened Traversal
  import opened ImpactTraversal
  import opened Findings
  import opened Seeds

  /** A change with all the rows its seed query returns, in order. */
  datatype Mutation = Mutation(subject: EntityId, seeds: seq<SeedRow>, remembered: bool)

  datatype Status = NotSimulatable | Limited | Succeeded

  datatype Code = OfWalk(limit: Limit) | NoCapabilityPath | CapabilityNotMapped | NoEligiblePath

  /** A limitation of the result; its message is not modelled. */
  datatype Limitation = Limitation(code: Code, evidence: seq<FactId>)

  datatype Intake = Intake(findings: seq<Finding>, eligible: seq<SeedRow>, limited: bool)
  datatype Outcome = Outcome(findings: seq<Finding>, limitations: seq<Limitation>, limited: bool, rows: seq<SeedRow>,
                             eligible: seq<SeedRow>, walk: Walk)

  // ---- Budgets

  /** A policy without a budget of its own leaves the setting in force. */
  function Effective(setting: int, own: int): int {
    if own == 0 then setting else if own < setting then own else setting
  }

  function Share(budget: int, n: nat): (share: nat)
    requires n > 0
  {
    if budget / n > 1 then budget / n else 1
  }

  // ---- Seeds

  function Verdict(p: Policy, row: SeedRow): Option<StopReason> {
    Eligibility(row.evidenced, row.confidence, p.minimumConfidence)
  }

  function SeedFinding(p: Policy, m: Mutation, ordinal: nat, row: SeedRow): Finding {
    match Verdict(p, row)
    case Some(reason) =>
      Finding(ordinal, SeedStop(row.fact), Stop, row.entity, if row.evidenced then [row.fact] else [],
              [m.subject, row.entity], row.confidence, SeedHalt(reason))
    case None =>
      Finding(ordinal, SeedDirect(row.fact), p.seedClassification, row.entity, [row.fact], [m.subject, row.entity],
              row.confidence, SeedMove(row.version, row.path))
  }

  function TakeIn(p: Policy, m: Mutation, ordinal: nat, budget: nat, had: Intake, rows: seq<SeedRow>): Intake
    decreases |rows|
  {
    if rows == [] then had
    else
      var row, f := rows[0], SeedFinding(p, m, ordinal, rows[0]);
      if Verdict(p, row).Some? then TakeIn(p, m, ordinal, budget, had.(findings := had.findings + [f]), rows[1..])
      else if |had.eligible| >= budget then had.(limited := true)
      else TakeIn(p, m, ordinal, budget, Intake(had.findings + [f], had.eligible + [row], had.limited), rows[1..])
  }

  function SeedNode(p: Policy, m: Mutation, row: SeedRow): Node {
    Node(row.entity, row.kind, row.key, 1, p.seedClassification, 1.0, Some("DEPENDS_ON"), Some(m.subject),
         Some(row.fact),
         row.confidence, [m.subject, row.entity])
  }

  function SeedNodes(p: Policy, m: Mutation, rows: seq<SeedRow>): (nodes: seq<Node>)
    ensures |nodes| == |rows|
    ensures forall i :: 0 <= i < |rows| ==> nodes[i] == SeedNode(p, m, rows[i])
  {
    seq(|rows|, i requires 0 <= i < |rows| => SeedNode(p, m, rows[i]))
  }

  // ---- Findings of a walk

  function RelationText(n: Node): string {
    if n.relation.Some? then n.relation.value else "None"
  }

  function NodeFinding(ordinal: nat, n: Node): Finding {
    Finding(ordinal, Walked(n.classification, RelationText(n), n.fact, n.id), n.classification, n.id,
            if n.fact.Some? then [n.fact.value] else [], n.path, n.confidence,
            WalkReach(RelationText(n), n.depth, n.weight))
  }

  function NodeFindings(ordinal: nat, nodes: seq<Node>): seq<Finding>
    decreases |nodes|
  {
    if nodes == [] then []
    else
      var front, n := NodeFindings(ordinal, nodes[..|nodes| - 1]), nodes[|nodes| - 1];
      if n.depth <= 1 then front else front + [NodeFinding(ordinal, n)]
  }

  function StopFinding(ordinal: nat, b: StoppedBranch): Finding {
    Finding(ordinal, Halted(b.relation, b.fact, b.id), Stop, b.id, if b.fact.Some? then [b.fact.value] else [], b.path,
            b.confidence, WalkHalt(b.relation, b.reason, b.depth))
  }

  function StopFindings(ordinal: nat, stopped: seq<StoppedBranch>): seq<Finding> {
    seq(|stopped|, i requires 0 <= i < |stopped| => StopFinding(ordinal, stopped[i]))
  }

  // ---- The curated map

  /** The reached applications a capability may be delivered by. */
  function Applications(rule: CapabilityRule, nodes: seq<Node>): set<EntityId> {
    set n | n in nodes && n.kind in rule.fromTypes && n.depth <= rule.maxDepth :: n.id
  }

  function LinksOf(es: map<EntityId, Entity>, links: seq<Link>, applications: set<EntityId>): seq<Link> {
    if links == [] then []
    else
      (if links[0].application in applications && links[0].capability in es then [links[0]] else [])
      + LinksOf(es, links[1..], applications)
  }

  /** Rows that are alike appear once. */
  function Once(links: seq<Link>): seq<Link>
    decreases |links|
  {
    if links == [] then []
    else
      var front, last := Once(links[..|links| - 1]), links[|links| - 1];
      if last in front then front else front + [last]
  }

  function LinkOrder(es: map<EntityId, Entity>): Link -> Key {
    (l: Link) =>
      [l.criticality] + NullableKey(if l.capability in es then es[l.capability].key else None) + TextKey(l.name)
      + [l.capability, l.application]
  }

  /** Every row of the capability query, before its LIMIT. */
  function LinkRows(g: Graph, applications: set<EntityId>): seq<Link> {
    SortBy(Once(LinksOf(g.entities, g.links, applications)), LinkOrder(g.entities))
  }

  /** The rows the capability query returns. */
  function Mapped(g: Graph, rule: CapabilityRule, nodes: seq<Node>, limit: nat): seq<Link> {
    Take(LinkRows(g, Applications(rule, nodes)), limit)
  }

  function CapabilitiesOf(links: seq<Link>): set<EntityId> {
    set l | l in links :: l.capability
  }

  /** The first row of each capability. */
  function FirstLinks(links: seq<Link>): seq<Link>
    decreases |links|
  {
    if links == [] then []
    else
      var front, last := FirstLinks(links[..|links| - 1]), links[|links| - 1];
      if last.capability in CapabilitiesOf(front) then front else front + [last]
  }

  function GroupOrder(l: Link): Key {
    [l.capability]
  }

  function ApplicationsOf(links: seq<Link>, capability: EntityId): set<EntityId> {
    set l | l in links && l.capability == capability :: l.application
  }

  /** A group of rows of one capability, told by the first of them. */
  function CapabilityFinding(ordinal: nat, m: Mutation, rule: CapabilityRule, links: seq<Link>, l: Link): Finding {
    Finding(ordinal, Capability(l.capability), rule.classification, l.capability, [],
            [m.subject, l.application, l.capability], 1.0,
            CuratedBy(l.criticality, l.source, ApplicationsOf(links, l.capability)))
  }

  function EachCapability(ordinal: nat, m: Mutation, rule: CapabilityRule, links: seq<Link>, firsts: seq<Link>)
    : (fs: seq<Finding>)
    ensures |fs| == |firsts|
    ensures forall i :: 0 <= i < |firsts| ==> fs[i] == CapabilityFinding(ordinal, m, rule, links, firsts[i])
  {
    seq(|firsts|, i requires 0 <= i < |firsts| => CapabilityFinding(ordinal, m, rule, links, firsts[i]))
  }

  function ByCapability(ordinal: nat, m: Mutation, rule: CapabilityRule, links: seq<Link>): seq<Finding> {
    EachCapability(ordinal, m, rule, links, SortBy(FirstLinks(links), GroupOrder))
  }

  function CapabilityFindings(g: Graph, p: Policy, ordinal: nat, m: Mutation, nodes: seq<Node>, limit: nat)
    : seq<Finding>
  {
    match p.capability
    case None => []
    case Some(rule) => ByCapability(ordinal, m, rule, Mapped(g, rule, nodes, limit))
  }

  function CapabilityLimits(g: Graph, p: Policy, nodes: seq<Node>, limit: nat): seq<Limitation> {
    match p.capability
    case None => []
    case Some(rule) =>
      if Applications(rule, nodes) == {} then [Limitation(NoCapabilityPath, [])]
      else if Mapped(g, rule, nodes, limit) == [] then [Limitation(CapabilityNotMapped, [])]
      else []
  }

  // ---- Closing findings

  function FactsOf(rows: seq<SeedRow>): (facts: seq<FactId>)
    ensures NoRepeats(facts)
    ensures forall f :: f in facts <==> exists r :: r in rows && r.fact == f
    decreases |rows|
  {
    if rows == [] then []
    else
      var front, last := FactsOf(rows[..|rows| - 1]), rows[|rows| - 1];
      assert rows == rows[..|rows| - 1] + [last];
      if last.fact in front then front else front + [last.fact]
  }

  function FactOrder(f: FactId): Key {
    [f]
  }

  function CountOf(nodes: seq<Node>, c: Classification): nat {
    if nodes == [] then 0 else (if nodes[0].classification == c then 1 else 0) + CountOf(nodes[1..], c)
  }

  function ClosingFindings(ordinal: nat, m: Mutation, rows: seq<SeedRow>, eligible: seq<SeedRow>, nodes: seq<Node>)
    : seq<Finding>
  {
    (if m.remembered then [Finding(ordinal, Memory, Informational, m.subject, [], [m.subject], 1.0, Outcomes)] else [])
    + [Finding(ordinal, Spread, Informational, m.subject, SortBy(FactsOf(eligible), FactOrder), [m.subject],
               1.0,
               Spreading(|eligible|, if |eligible| <= |rows| then |rows| - |eligible| else 0,
                         CountOf(nodes, Transitive), CountOf(nodes, Context)))]
  }

  // ---- Limitations: one of each code

  predicate HasCode(ls: seq<Limitation>, c: Code) {
    exists l :: l in ls && l.code == c
  }

  function Noted(ls: seq<Limitation>, l: Limitation): seq<Limitation> {
    if HasCode(ls, l.code) then ls else ls + [l]
  }

  function NotedAll(ls: seq<Limitation>, more: seq<Limitation>): seq<Limitation>
    decreases |more|
  {
    if more == [] then ls else Noted(NotedAll(ls, more[..|more| - 1]), more[|more| - 1])
  }

  function WalkLimits(codes: seq<Limit>): seq<Limitation> {
    seq(|codes|, i requires 0 <= i < |codes| => Limitation(OfWalk(codes[i]), []))
  }

  function Evidenced(rows: seq<SeedRow>): seq<FactId> {
    if rows == [] then [] else (if rows[0].evidenced then [rows[0].fact] else []) + Evidenced(rows[1..])
  }

  function Limitations(g: Graph, p: Policy, rows: seq<SeedRow>, intake: Intake, walk: Walk,
                       limit: nat): seq<Limitation> {
    NotedAll(if intake.limited then [Limitation(OfWalk(TraversalBudget), [])] else [], WalkLimits(walk.limitations))
    + CapabilityLimits(g, p, walk.nodes, limit)
    + if intake.eligible == [] then [Limitation(NoEligiblePath, Evidenced(rows))] else []
  }

  // ---- One mutation, all mutations

  function Assemble(g: Graph, p: Policy, ordinal: nat, m: Mutation, rows: seq<SeedRow>, intake: Intake, walk: Walk,
                    limit: nat): Outcome
  {
    Outcome(intake.findings + NodeFindings(ordinal, walk.nodes) + StopFindings(ordinal, walk.stopped)
            + CapabilityFindings(g, p, ordinal, m, walk.nodes, limit)
              + ClosingFindings(ordinal, m, rows, intake.eligible, walk.nodes),
            Limitations(g, p, rows, intake, walk, limit),
            intake.limited || walk.truncated, rows, intake.eligible, walk)
  }

  /** What the seed rows leave of the edge budget. */
  function Left(edges: nat, rows: seq<SeedRow>): nat {
    if edges > |rows| then edges - |rows| else 0
  }

  function Taken(p: Policy, ordinal: nat, m: Mutation, nodes: nat, edges: nat): Intake {
    TakeIn(p, m, ordinal, nodes, Intake([], [], |m.seeds| > edges), Take(m.seeds, edges))
  }

  function Simulate(g: Graph, p: Policy, ordinal: nat, m: Mutation, nodes: nat, edges: nat): Outcome {
    var rows, intake := Take(m.seeds, edges), Taken(p, ordinal, m, nodes, edges);
    Assemble(g, p, ordinal, m, rows, intake,
             Expanded(Task(g, p, nodes, Left(edges, rows)), SeedNodes(p, m, intake.eligible)), nodes)
  }

  function SimulateAll(g: Graph, p: Policy, ms: seq<Mutation>, nodes: nat, edges: nat): (os: seq<Outcome>)
    ensures |os| == |ms|
  {
    seq(|ms|, i requires 0 <= i < |ms| => Simulate(g, p, i, ms[i], nodes, edges))
  }

  function Resolve(g: Graph, p: Policy, c: Change): Mutation {
    Mutation(c.subject, SeedRows(g, p, c), c.remembered)
  }

  function Resolved(g: Graph, p: Policy, cs: seq<Change>): (ms: seq<Mutation>)
    ensures |ms| == |cs| && forall i :: 0 <= i < |cs| ==> ms[i] == Resolve(g, p, cs[i])
  {
    seq(|cs|, i requires 0 <= i < |cs| => Resolve(g, p, cs[i]))
  }

  function Results(os: seq<Outcome>): seq<Finding>
    decreases |os|
  {
    if os == [] then [] else Results(os[..|os| - 1]) + os[|os| - 1].findings
  }

  /** The limitations of the run: those of its mutations, one of each code. */
  function RunLimitations(os: seq<Outcome>): seq<Limitation>
    decreases |os|
  {
    if os == [] then [] else NotedAll(RunLimitations(os[..|os| - 1]), os[|os| - 1].limitations)
  }

  function Simulatable(os: seq<Outcome>): (n: nat)
    ensures n <= |os|
    decreases |os|
  {
    if os == [] then 0 else Simulatable(os[..|os| - 1]) + if os[|os| - 1].eligible != [] then 1 else 0
  }

  predicate AnyLimited(os: seq<Outcome>) {
    exists o :: o in os && o.limited
  }

  function StatusOf(os: seq<Outcome>): Status {
    if Simulatable(os) == 0 then NotSimulatable
    else if AnyLimited(os) || Simulatable(os) < |os| then Limited
    else Succeeded
  }

  function Run(g: Graph, p: Policy, ms: seq<Mutation>, maxNodes: int, maxEdges: int): seq<Outcome>
    requires ms != []
  {
    SimulateAll(g, p, ms, Share(Effective(maxNodes, p.maxNodes), |ms|), Share(Effective(maxEdges, p.maxEdges), |ms|))
  }

  // ---- The result is hashed in a fixed order

  function ClassIndex(c: Classification): int {
    match c
    case Direct => 0
    case Transitive => 1
    case Context => 2
    case Stop => 3
    case Informational => 4
  }

  function ResultOrder(id: nat -> string, f: Finding): Key {
    [ClassIndex(f.classification)] + TextKey(FindingKey(id, f))
  }

  function ByResult(id: nat -> string): Finding -> Key {
    (f: Finding) => ResultOrder(id, f)
  }

  function Hashed(id: nat -> string, fs: seq<Finding>): seq<Finding> {
    SortBy(fs, ByResult(id))
  }

  /** The digest of what a run yields, however `digest` reads findings and limitations. */
  function ResultHash<H>(id: nat -> string, digest: (seq<Finding>, seq<Limitation>) -> H, os: seq<Outcome>): H {
    digest(Hashed(id, Results(os)), RunLimitations(os))
  }

  /** What a run stores: its status, its hash, its limitations and the findings table. */
  datatype Stored<H> = Stored(status: Status, hash: H, limitations: seq<Limitation>, table: map<string, Finding>)

  function Result<H>(id: nat -> string, digest: (seq<Finding>, seq<Limitation>) -> H, os: seq<Outcome>,
                  table: map<string, Finding>): Stored<H>
  {
    Stored(StatusOf(os), ResultHash(id, digest, os), RunLimitations(os), Merge(id, table, Hashed(id, Results(os))))
  }

  // ---- The same as the program computes it

  method AddSeeds(p: Policy, m: Mutation, ordinal: nat, budget: nat, rows: seq<SeedRow>, cut: bool)
      returns (intake: Intake)
    ensures intake == TakeIn(p, m, ordinal, budget, Intake([], [], cut), rows)
  {
    var findings, eligible, limited := [], [], cut;
    for i := 0 to |rows|
      invariant TakeIn(p, m, ordinal, budget, Intake(findings, eligible, limited), rows[i..])
             == TakeIn(p, m, ordinal, budget, Intake([], [], cut), rows)
    {
      var row := rows[i];
      assert rows[i..][0] == row && rows[i..][1..] == rows[i + 1..];
      var reason := Eligibility(row.evidenced, row.confidence, p.minimumConfidence);
      if reason.Some? {
        findings := findings + [Finding(ordinal, SeedStop(row.fact), Stop, row.entity,
                                        if row.evidenced then [row.fact] else [], [m.subject, row.entity],
                                        row.confidence, SeedHalt(reason.value))];
      } else if |eligible| >= budget {
        return Intake(findings, eligible, true);
      } else {
        eligible := eligible + [row];
        findings := findings + [Finding(ordinal, SeedDirect(row.fact), p.seedClassification, row.entity, [row.fact],
                                        [m.subject, row.entity], row.confidence, SeedMove(row.version, row.path))];
      }
    }
    intake := Intake(findings, eligible, limited);
  }

  method AddNodes(ordinal: nat, nodes: seq<Node>) returns (findings: seq<Finding>)
    ensures findings == NodeFindings(ordinal, nodes)
  {
    findings := [];
    for i := 0 to |nodes|
      invariant findings == NodeFindings(ordinal, nodes[..i])
    {
      assert nodes[..i + 1][..i] == nodes[..i];
      if nodes[i].depth > 1 {
        findings := findings + [NodeFinding(ordinal, nodes[i])];
      }
    }
    assert nodes[..|nodes|] == nodes;
  }

  lemma FetchedOneMore(seeds: seq<SeedRow>, edges: nat)
    ensures Take(Take(seeds, edges + 1), edges) == Take(seeds, edges)
    ensures |Take(seeds, edges + 1)| > edges <==> |seeds| > edges
  {}

  lemma CapabilitiesNext(links: seq<Link>, l: Link)
    ensures CapabilitiesOf(links + [l]) == CapabilitiesOf(links) + {l.capability}
  {
    assert forall k :: k in links + [l] <==> k in links || k == l;
  }

  lemma FirstLinksNext(links: seq<Link>, i: nat)
    requires i < |links|
    ensures var firsts := FirstLinks(links[..i]);
            FirstLinks(links[..i + 1])
            == if links[i].capability in CapabilitiesOf(firsts) then firsts else firsts + [links[i]]
  {
    assert links[..i + 1][..i] == links[..i];
  }

  /**
   * Grouping the rows of the capability query in a dictionary, and a finding for each group in the order of its key.
   */
  method AddCapabilities(ordinal: nat, m: Mutation, rule: CapabilityRule, links: seq<Link>)
      returns (findings: seq<Finding>)
    ensures findings == ByCapability(ordinal, m, rule, links)
  {
    var firsts: map<EntityId, Link>, order: seq<Link> := map[], [];
    for i := 0 to |links|
      invariant order == FirstLinks(links[..i]) && firsts.Keys == CapabilitiesOf(order)
    {
      FirstLinksNext(links, i);
      CapabilitiesNext(order, links[i]);
      if links[i].capability !in firsts {
        firsts, order := firsts[links[i].capability := links[i]], order + [links[i]];
      }
    }
    assert links[..|links|] == links;
    findings := EachCapability(ordinal, m, rule, links, SortBy(order, GroupOrder));
  }

  method CapabilityStage(g: Graph, p: Policy, ordinal: nat, m: Mutation, nodes: seq<Node>, limit: nat)
      returns (findings: seq<Finding>, limits: seq<Limitation>)
    ensures findings == CapabilityFindings(g, p, ordinal, m, nodes, limit)
            && limits == CapabilityLimits(g, p, nodes, limit)
  {
    if p.capability.None? {
      return [], [];
    }
    var rule := p.capability.value;
    var applications := Applications(rule, nodes);
    if applications == {} {
      NothingMapped(g.entities, g.links);
      return [], [Limitation(NoCapabilityPath, [])];
    }
    var links := Take(LinkRows(g, applications), limit);
    if links == [] {
      return [], [Limitation(CapabilityNotMapped, [])];
    }
    findings := AddCapabilities(ordinal, m, rule, links);
    limits := [];
  }

  lemma {:induction false} NothingMapped(es: map<EntityId, Entity>, links: seq<Link>)
    ensures LinksOf(es, links, {}) == []
  {
    if links != [] {
      NothingMapped(es, links[1..]);
    }
  }

  method NoteAll(ls: seq<Limitation>, more: seq<Limitation>) returns (noted: seq<Limitation>)
    ensures noted == NotedAll(ls, more)
  {
    noted := ls;
    for i := 0 to |more|
      invariant noted == NotedAll(ls, more[..i])
    {
      assert more[..i + 1][..i] == more[..i];
      if !HasCode(noted, more[i].code) {
        noted := noted + [more[i]];
      }
    }
    assert more[..|more|] == more;
  }

  method Report(g: Graph, p: Policy, ordinal: nat, m: Mutation, rows: seq<SeedRow>, intake: Intake,
                result: TraversalResult, limit: nat)
      returns (o: Outcome)
    ensures o == Assemble(g, p, ordinal, m, rows, intake, result.Snapshot(), limit)
  {
    var findings := intake.findings;
    var limitations := NoteAll(if intake.limited then [Limitation(OfWalk(TraversalBudget), [])] else [],
                               WalkLimits(result.limitations));
    var walked := AddNodes(ordinal, result.nodes);
    findings := findings + walked;
    findings := findings + StopFindings(ordinal, result.stopped);
    var joined, unmapped := CapabilityStage(g, p, ordinal, m, result.nodes, limit);
    findings := findings + joined;
    limitations := limitations + unmapped;
    findings := findings + ClosingFindings(ordinal, m, rows, intake.eligible, result.nodes);
    if intake.eligible == [] {
      limitations := limitations + [Limitation(NoEligiblePath, Evidenced(rows))];
    }
    o := Outcome(findings, limitations, intake.limited || result.truncated, rows, intake.eligible, result.Snapshot());
  }

  method SimulateMutation(g: Graph, p: Policy, ordinal: nat, c: Change, nodes: nat, edges: nat) returns (o: Outcome)
    ensures o == Simulate(g, p, ordinal, Resolve(g, p, c), nodes, edges)
  {
    var m := Resolve(g, p, c);
    var fetched := Take(m.seeds, edges + 1);
    FetchedOneMore(m.seeds, edges);
    var rows := Take(fetched, edges);
    var intake := AddSeeds(p, m, ordinal, nodes, rows, |fetched| > edges);
    var traverser := new Traverser(g, p);
    var result := traverser.Expand(SeedNodes(p, m, intake.eligible), nodes, Left(edges, rows));
    o := Report(g, p, ordinal, m, rows, intake, result, nodes);
  }

  lemma ResultsNext(os: seq<Outcome>, i: nat)
    requires i < |os|
    ensures Results(os[..i + 1]) == Results(os[..i]) + os[i].findings
    ensures RunLimitations(os[..i + 1]) == NotedAll(RunLimitations(os[..i]), os[i].limitations)
    ensures Simulatable(os[..i + 1]) == Simulatable(os[..i]) + if os[i].eligible != [] then 1 else 0
    ensures AnyLimited(os[..i + 1]) <==> AnyLimited(os[..i]) || os[i].limited
  {
    assert os[..i + 1][..i] == os[..i] && os[..i + 1] == os[..i] + [os[i]];
  }

  lemma SimulatedAt(g: Graph, p: Policy, ms: seq<Mutation>, nodes: nat, edges: nat, i: nat)
    requires i < |ms|
    ensures SimulateAll(g, p, ms, nodes, edges)[i] == Simulate(g, p, i, ms[i], nodes, edges)
  {}

  /** What the loop over mutations has collected. */
  datatype Tally = Tally(findings: seq<Finding>, limitations: seq<Limitation>, limited: bool, simulatable: nat)

  function TallyOf(os: seq<Outcome>): Tally {
    Tally(Results(os), RunLimitations(os), AnyLimited(os), Simulatable(os))
  }

  function Added(t: Tally, o: Outcome): Tally {
    Tally(t.findings + o.findings, NotedAll(t.limitations, o.limitations), t.limited || o.limited,
          t.simulatable + if o.eligible != [] then 1 else 0)
  }

  lemma TallyNext(os: seq<Outcome>, i: nat)
    requires i < |os|
    ensures TallyOf(os[..i + 1]) == Added(TallyOf(os[..i]), os[i])
  {
    ResultsNext(os, i);
  }

  method Collect(t: Tally, o: Outcome) returns (next: Tally)
    ensures next == Added(t, o)
  {
    var limitations := NoteAll(t.limitations, o.limitations);
    next := Tally(t.findings + o.findings, limitations, t.limited || o.limited,
                  t.simulatable + if o.eligible != [] then 1 else 0);
  }

  method SimulateEach(g: Graph, p: Policy, cs: seq<Change>, nodes: nat, edges: nat) returns (t: Tally)
    ensures t == TallyOf(SimulateAll(g, p, Resolved(g, p, cs), nodes, edges))
  {
    ghost var ms := Resolved(g, p, cs);
    ghost var os := SimulateAll(g, p, ms, nodes, edges);
    t := Tally([], [], false, 0);
    for i := 0 to |cs|
      invariant t == TallyOf(os[..i])
    {
      var o := SimulateMutation(g, p, i, cs[i], nodes, edges);
      SimulatedAt(g, p, ms, nodes, edges, i);
      TallyNext(os, i);
      t := Collect(t, o);
    }
    assert os[..|os|] == os;
  }

  /** Simulating every mutation and storing the result; `table` holds the rows the run already has. */
  method Execute<H>(id: nat -> string, digest: (seq<Finding>, seq<Limitation>) -> H, g: Graph, p: Policy,
                 cs: seq<Change>, maxNodes: int, maxEdges: int, table: map<string, Finding>)
      returns (stored: Stored<H>)
    requires cs != []
    ensures stored == Result(id, digest, Run(g, p, Resolved(g, p, cs), maxNodes, maxEdges), table)
  {
    var nodes := Share(Effective(maxNodes, p.maxNodes), |cs|);
    var edges := Share(Effective(maxEdges, p.maxEdges), |cs|);
    var t := SimulateEach(g, p, cs, nodes, edges);
    var status := if t.simulatable == 0 then NotSimulatable
                  else if t.limited || t.simulatable < |cs| then Limited
                  else Succeeded;
    var hashed := Hashed(id, t.findings);
    var after := Persist(id, table, hashed);
    stored := Stored(status, digest(hashed, t.limitations), t.limitations, after);
  }
}
