// When every hashed finding has a row of its own, and that running a change set again adds nothing.

module SimulationKeys {
  import opened Ordering
  import opened Estate
  import opened Traversal
  import opened TraversalSound
  import opened TraversalReach
  import opened TraversalShape
  import opened TraversalStops
  import opened Findings
  import opened Seeds
  import opened Simulation
  import opened SimulationProofs

  predicate SameKey(f: Finding, h: Finding) {
    f.ordinal == h.ordinal && Canonical(f.about) == Canonical(h.about)
  }

  predicate Differ(fs: seq<Finding>) {
    forall i, j :: 0 <= i < j < |fs| ==> !SameKey(fs[i], fs[j])
  }

  predicate Apart(a: seq<Finding>, b: seq<Finding>) {
    forall f, h :: f in a && h in b ==> !SameKey(f, h)
  }

  lemma KeysAreLabels(id: nat -> string, fs: seq<Finding>)
    requires Names(id)
    ensures KeysDiffer(id, fs) <==> Differ(fs)
  {
    forall i, j | 0 <= i < j < |fs|
      ensures FindingKey(id, fs[i]) == FindingKey(id, fs[j]) <==> SameKey(fs[i], fs[j])
    {
      KeyReads(id, fs[i].ordinal, fs[i].about, fs[j].ordinal, fs[j].about);
    }
  }

  lemma Joined(a: seq<Finding>, b: seq<Finding>)
    ensures Differ(a + b) <==> Differ(a) && Differ(b) && Apart(a, b)
  {
    var fs := a + b;
    if Differ(fs) {
      forall i, j | 0 <= i < j < |a| ensures !SameKey(a[i], a[j]) { assert fs[i] == a[i] && fs[j] == a[j]; }
      forall i, j | 0 <= i < j < |b| ensures !SameKey(b[i], b[j]) { assert fs[|a| + i] == b[i] && fs[|a| + j] == b[j]; }
      forall f, h | f in a && h in b ensures !SameKey(f, h) {
        var i :| 0 <= i < |a| && a[i] == f;
        var j :| 0 <= j < |b| && b[j] == h;
        assert fs[i] == f && fs[|a| + j] == h;
      }
    }
    if Differ(a) && Differ(b) && Apart(a, b) {
      forall i, j | 0 <= i < j < |fs| ensures !SameKey(fs[i], fs[j]) {
        if i < |a| <= j {
          assert fs[i] in a && fs[j] in b;
        }
      }
    }
  }

  // ---- Inside one mutation

  lemma {:induction false} NodesDiffer(ordinal: nat, nodes: seq<Node>)
    requires Unique(nodes)
    ensures Differ(NodeFindings(ordinal, nodes))
    decreases |nodes|
  {
    if nodes != [] {
      var front, n := nodes[..|nodes| - 1], nodes[|nodes| - 1];
      NodesDiffer(ordinal, front);
      if n.depth > 1 {
        forall f | f in NodeFindings(ordinal, front) ensures !SameKey(f, NodeFinding(ordinal, n)) {
          NodeIsFound(ordinal, front, f);
          var k :| k in front && f == NodeFinding(ordinal, k);
          var i :| 0 <= i < |front| && front[i] == k;
          assert nodes[i].id != nodes[|nodes| - 1].id;
        }
        Joined(NodeFindings(ordinal, front), [NodeFinding(ordinal, n)]);
      }
    }
  }

  lemma StopFindingsDiffer(ordinal: nat, stopped: seq<StoppedBranch>)
    ensures Differ(StopFindings(ordinal, stopped)) <==> StopsDiffer(stopped)
  {
    var fs := StopFindings(ordinal, stopped);
    forall i, j | 0 <= i < j < |fs| ensures SameKey(fs[i], fs[j]) <==> SameStop(stopped[i], stopped[j]) {}
  }

  predicate CapabilitiesDiffer(links: seq<Link>) {
    forall i, j :: 0 <= i < j < |links| ==> links[i].capability != links[j].capability
  }

  lemma {:induction false} FirstLinksDiffer(links: seq<Link>)
    ensures CapabilitiesDiffer(FirstLinks(links))
    decreases |links|
  {
    if links != [] {
      FirstLinksDiffer(links[..|links| - 1]);
    }
  }

  lemma SortedLinksDiffer(links: seq<Link>)
    requires CapabilitiesDiffer(links)
    ensures CapabilitiesDiffer(SortBy(links, GroupOrder))
  {
    var sorted := SortBy(links, GroupOrder);
    SortKeepsDistinct(links, GroupOrder);
    SortKeepsMembers(links, GroupOrder);
    forall i, j | 0 <= i < j < |sorted| ensures sorted[i].capability != sorted[j].capability {
      assert sorted[i] in links && sorted[j] in links && sorted[i] != sorted[j];
    }
  }

  lemma EachCapabilityDiffers(ordinal: nat, m: Mutation, rule: CapabilityRule, rows: seq<Link>, links: seq<Link>)
    requires CapabilitiesDiffer(links)
    ensures Differ(EachCapability(ordinal, m, rule, rows, links))
  {
    var fs := EachCapability(ordinal, m, rule, rows, links);
    forall i, j | 0 <= i < j < |fs| ensures !SameKey(fs[i], fs[j]) {
      assert fs[i].about == Capability(links[i].capability) && fs[j].about == Capability(links[j].capability);
    }
  }

  /** The capabilities are the keys of a dictionary. */
  lemma CapabilityFindingsDiffer(g: Graph, p: Policy, ordinal: nat, m: Mutation, nodes: seq<Node>, limit: nat)
    ensures Differ(CapabilityFindings(g, p, ordinal, m, nodes, limit))
    ensures forall f :: f in CapabilityFindings(g, p, ordinal, m, nodes, limit) ==> f.about.Capability?
  {
    if p.capability.Some? {
      var rows := Mapped(g, p.capability.value, nodes, limit);
      FirstLinksDiffer(rows);
      SortedLinksDiffer(FirstLinks(rows));
      EachCapabilityDiffers(ordinal, m, p.capability.value, rows, SortBy(FirstLinks(rows), GroupOrder));
    }
  }

  lemma ClosingFindingsDiffer(ordinal: nat, m: Mutation, rows: seq<SeedRow>, eligible: seq<SeedRow>, nodes: seq<Node>)
    ensures var fs := ClosingFindings(ordinal, m, rows, eligible, nodes);
            Differ(fs) && forall f :: f in fs ==> f.about.Memory? || f.about.Spread?
  {}

  lemma ClosingDiffers(g: Graph, p: Policy, ordinal: nat, m: Mutation, nodes: seq<Node>, limit: nat, rows: seq<SeedRow>,
                       eligible: seq<SeedRow>)
    ensures var fs := CapabilityFindings(g, p, ordinal, m, nodes, limit)
                      + ClosingFindings(ordinal, m, rows, eligible, nodes);
            Differ(fs) && AllClosing(fs)
  {
    CapabilityFindingsDiffer(g, p, ordinal, m, nodes, limit);
    ClosingFindingsDiffer(ordinal, m, rows, eligible, nodes);
    Joined(CapabilityFindings(g, p, ordinal, m, nodes, limit), ClosingFindings(ordinal, m, rows, eligible, nodes));
  }

  /** A node that was reached and a branch that was stopped never rest on one fact. */
  lemma ReachedIsNotStopped(t: Task, seeds: seq<Node>, n: Node, b: StoppedBranch)
    requires FactIdsUnique(t.graph.facts) && forall s :: s in seeds ==> s.depth == 1
    requires n in Expanded(t, seeds).nodes && n.depth > 1 && b in Expanded(t, seeds).stopped
    ensures n.fact.Some? && n.fact != b.fact
  {
    var w := Expanded(t, seeds);
    ExpandedIsSound(t, seeds);
    ExpandedStopsAreSound(t, seeds);
    RootsAreSeeds(seeds);
    var i :| 0 <= i < |w.nodes| && w.nodes[i] == n;
    var roots := Roots(seeds);
    assert forall k :: 0 <= k < |roots| ==> w.nodes[k] == roots[k] && roots[k] in seeds;
    assert GrownAt(t, w.nodes, i);
    var j :| 0 <= j < i && GrownFrom(t, w.nodes[j], n);
    var f, r :| Follows(t, w.nodes[j], n, f, r);
    var m :| m in w.nodes && HaltedFrom(t, m, b);
    var f', r' :| Halts(t, m, b, f', r');
    assert f in t.graph.facts && f' in t.graph.facts;
  }

  lemma NodesApartFromStops(t: Task, seeds: seq<Node>, ordinal: nat)
    requires FactIdsUnique(t.graph.facts) && forall s :: s in seeds ==> s.depth == 1
    ensures var w := Expanded(t, seeds); Apart(NodeFindings(ordinal, w.nodes), StopFindings(ordinal, w.stopped))
  {
    var w := Expanded(t, seeds);
    forall f, h | f in NodeFindings(ordinal, w.nodes) && h in StopFindings(ordinal, w.stopped) ensures !SameKey(f, h) {
      NodeIsFound(ordinal, w.nodes, f);
      var n :| n in w.nodes && n.depth > 1 && f == NodeFinding(ordinal, n);
      var i :| 0 <= i < |w.stopped| && h == StopFinding(ordinal, w.stopped[i]);
      ReachedIsNotStopped(t, seeds, n, w.stopped[i]);
    }
  }

  predicate AllLong(fs: seq<Finding>) {
    forall f :: f in fs ==> Long(f.about)
  }

  predicate AllSeeds(fs: seq<Finding>) {
    forall f :: f in fs ==> f.about.SeedStop? || f.about.SeedDirect?
  }

  lemma {:induction false} IntakeIsSeeds(p: Policy, m: Mutation, ordinal: nat, budget: nat, had: Intake,
                                         rows: seq<SeedRow>)
    requires AllSeeds(had.findings)
    ensures AllSeeds(TakeIn(p, m, ordinal, budget, had, rows).findings)
    decreases |rows|
  {
    if rows != [] {
      var row, f := rows[0], SeedFinding(p, m, ordinal, rows[0]);
      if Verdict(p, row).Some? {
        IntakeIsSeeds(p, m, ordinal, budget, had.(findings := had.findings + [f]), rows[1..]);
      } else if |had.eligible| < budget {
        IntakeIsSeeds(p, m, ordinal, budget, Intake(had.findings + [f], had.eligible + [row], had.limited), rows[1..]);
      }
    }
  }

  lemma WalkIsLong(ordinal: nat, w: Walk)
    ensures AllLong(NodeFindings(ordinal, w.nodes) + StopFindings(ordinal, w.stopped))
  {
    forall f | f in NodeFindings(ordinal, w.nodes) ensures Long(f.about) {
      NodeIsFound(ordinal, w.nodes, f);
    }
  }

  predicate AllClosing(fs: seq<Finding>) {
    forall f :: f in fs ==> f.about.Capability? || f.about.Memory? || f.about.Spread?
  }

  /** Findings of the three kinds never meet. */
  lemma KindsApart(seeds: seq<Finding>, walked: seq<Finding>, closing: seq<Finding>)
    requires AllSeeds(seeds) && AllLong(walked) && AllClosing(closing)
    ensures Apart(seeds, walked) && Apart(seeds + walked, closing)
  {}

  lemma WalkFindingsDiffer(t: Task, seeds: seq<Node>, i: nat)
    requires FactIdsUnique(t.graph.facts) && forall s :: s in seeds ==> s.depth == 1
    ensures var w := Expanded(t, seeds);
            Differ(NodeFindings(i, w.nodes) + StopFindings(i, w.stopped)) <==> StopsDiffer(w.stopped)
  {
    var w := Expanded(t, seeds);
    ExpandedIsSound(t, seeds);
    NodesDiffer(i, w.nodes);
    StopFindingsDiffer(i, w.stopped);
    NodesApartFromStops(t, seeds, i);
    Joined(NodeFindings(i, w.nodes), StopFindings(i, w.stopped));
  }

  lemma ThreeJoined(a: seq<Finding>, b: seq<Finding>, c: seq<Finding>)
    requires AllSeeds(a) && AllLong(b) && AllClosing(c)
    ensures Differ(a + b + c) <==> Differ(a) && Differ(b) && Differ(c)
  {
    KindsApart(a, b, c);
    Joined(a, b);
    Joined(a + b, c);
  }

  lemma AssembledKeys(g: Graph, p: Policy, i: nat, m: Mutation, rows: seq<SeedRow>, intake: Intake, w: Walk, limit: nat)
    requires AllSeeds(intake.findings)
    ensures Differ(Assemble(g, p, i, m, rows, intake, w, limit).findings)
            <==> Differ(intake.findings) && Differ(NodeFindings(i, w.nodes) + StopFindings(i, w.stopped))
  {
    var a, b, c := intake.findings, NodeFindings(i, w.nodes), StopFindings(i, w.stopped);
    var d, e := CapabilityFindings(g, p, i, m, w.nodes, limit), ClosingFindings(i, m, rows, intake.eligible, w.nodes);
    WalkIsLong(i, w);
    ClosingDiffers(g, p, i, m, w.nodes, limit, rows, intake.eligible);
    ThreeJoined(a, b + c, d + e);
    InThree(a, b, c, d, e);
  }

  lemma InThree<T>(a: seq<T>, b: seq<T>, c: seq<T>, d: seq<T>, e: seq<T>)
    ensures a + b + c + d + e == a + (b + c) + (d + e)
  {}

  /** The seed rows that are taken up: all before the first accepted one that finds no room. */
  function Admitted(p: Policy, rows: seq<SeedRow>, room: nat): seq<SeedRow> {
    if rows == [] then []
    else if Verdict(p, rows[0]).Some? then [rows[0]] + Admitted(p, rows[1..], room)
    else if room == 0 then []
    else [rows[0]] + Admitted(p, rows[1..], room - 1)
  }

  function SeedFindings(p: Policy, m: Mutation, ordinal: nat, rows: seq<SeedRow>): (fs: seq<Finding>)
    ensures |fs| == |rows|
    ensures forall i :: 0 <= i < |rows| ==> fs[i] == SeedFinding(p, m, ordinal, rows[i])
  {
    seq(|rows|, i requires 0 <= i < |rows| => SeedFinding(p, m, ordinal, rows[i]))
  }

  lemma SeedFindingsFirst(p: Policy, m: Mutation, ordinal: nat, fs: seq<Finding>, row: SeedRow, rest: seq<SeedRow>)
    ensures fs + SeedFindings(p, m, ordinal, [row] + rest)
            == fs + [SeedFinding(p, m, ordinal, row)] + SeedFindings(p, m, ordinal, rest)
  {
    assert SeedFindings(p, m, ordinal, [row] + rest) == [SeedFinding(p, m, ordinal, row)]
           + SeedFindings(p, m, ordinal, rest);
  }

  lemma {:induction false} TakenAreAdmitted(p: Policy, m: Mutation, ordinal: nat, budget: nat, had: Intake,
                                            rows: seq<SeedRow>)
    requires |had.eligible| <= budget
    ensures TakeIn(p, m, ordinal, budget, had, rows).findings
            == had.findings + SeedFindings(p, m, ordinal, Admitted(p, rows, budget - |had.eligible|))
    decreases |rows|
  {
    if rows != [] {
      var row, room := rows[0], budget - |had.eligible|;
      if Verdict(p, row).Some? {
        TakenAreAdmitted(p, m, ordinal, budget, had.(findings := had.findings + [SeedFinding(p, m, ordinal, row)]),
                         rows[1..]);
        SeedFindingsFirst(p, m, ordinal, had.findings, row, Admitted(p, rows[1..], room));
      } else if room > 0 {
        TakenAreAdmitted(p, m, ordinal, budget,
                         Intake(had.findings + [SeedFinding(p, m, ordinal, row)], had.eligible + [row], had.limited),
                           rows[1..]);
        SeedFindingsFirst(p, m, ordinal, had.findings, row, Admitted(p, rows[1..], room - 1));
      }
    }
  }

  /** No two rows of one fact are both accepted or both refused. */
  predicate SeedsDiffer(p: Policy, rows: seq<SeedRow>) {
    forall i, j :: 0 <= i < j < |rows| && rows[i].fact == rows[j].fact ==>
      Verdict(p, rows[i]).Some? != Verdict(p, rows[j]).Some?
  }

  lemma SameSeedKey(p: Policy, m: Mutation, ordinal: nat, a: SeedRow, b: SeedRow)
    ensures SameKey(SeedFinding(p, m, ordinal, a), SeedFinding(p, m, ordinal, b))
            <==> a.fact == b.fact && Verdict(p, a).Some? == Verdict(p, b).Some?
  {}

  lemma SeedFindingsDiffer(p: Policy, m: Mutation, ordinal: nat, rows: seq<SeedRow>)
    ensures Differ(SeedFindings(p, m, ordinal, rows)) <==> SeedsDiffer(p, rows)
  {
    var fs := SeedFindings(p, m, ordinal, rows);
    forall i, j | 0 <= i < j < |rows|
      ensures SameKey(fs[i], fs[j])
              <==> rows[i].fact == rows[j].fact && Verdict(p, rows[i]).Some? == Verdict(p, rows[j]).Some?
    {
      SameSeedKey(p, m, ordinal, rows[i], rows[j]);
    }
  }

  lemma NothingFirst(fs: seq<Finding>)
    ensures [] + fs == fs
  {}

  lemma TakenFindings(p: Policy, m: Mutation, ordinal: nat, nodes: nat, edges: nat)
    ensures Taken(p, ordinal, m, nodes, edges).findings
            == SeedFindings(p, m, ordinal, Admitted(p, Take(m.seeds, edges), nodes))
  {
    TakenAreAdmitted(p, m, ordinal, nodes, Intake([], [], |m.seeds| > edges), Take(m.seeds, edges));
    NothingFirst(SeedFindings(p, m, ordinal, Admitted(p, Take(m.seeds, edges), nodes)));
  }

  /** The seed findings have keys of their own exactly when the rows taken up do not repeat a fact with one verdict. */
  lemma SeedKeysDiffer(p: Policy, m: Mutation, ordinal: nat, nodes: nat, edges: nat)
    ensures Differ(Taken(p, ordinal, m, nodes, edges).findings)
            <==> SeedsDiffer(p, Admitted(p, Take(m.seeds, edges), nodes))
  {
    var rows := Admitted(p, Take(m.seeds, edges), nodes);
    TakenFindings(p, m, ordinal, nodes, edges);
    SeedFindingsDiffer(p, m, ordinal, rows);
  }

  /** The findings of one mutation have keys of their own exactly when its seed findings and its stops do. */
  lemma OutcomeKeys(g: Graph, p: Policy, i: nat, m: Mutation, nodes: nat, edges: nat)
    requires FactIdsUnique(g.facts)
    ensures var o := Simulate(g, p, i, m, nodes, edges);
            Differ(o.findings) <==> Differ(Taken(p, i, m, nodes, edges).findings) && StopsDiffer(o.walk.stopped)
  {
    var rows, intake := Take(m.seeds, edges), Taken(p, i, m, nodes, edges);
    var seeds := SeedNodes(p, m, intake.eligible);
    var t := Task(g, p, nodes, Left(edges, rows));
    IntakeIsSeeds(p, m, i, nodes, Intake([], [], |m.seeds| > edges), rows);
    WalkFindingsDiffer(t, seeds, i);
    AssembledKeys(g, p, i, m, rows, intake, Expanded(t, seeds), nodes);
  }

  // ---- Across mutations, and into the table

  lemma {:induction false} ResultsDiffer(os: seq<Outcome>)
    requires forall i, f :: 0 <= i < |os| && f in os[i].findings ==> f.ordinal == i
    ensures Differ(Results(os)) <==> forall i :: 0 <= i < |os| ==> Differ(os[i].findings)
    decreases |os|
  {
    if os != [] {
      var n := |os| - 1;
      var front := os[..n];
      forall i, f | 0 <= i < |front| && f in front[i].findings ensures f.ordinal == i { assert front[i] == os[i]; }
      ResultsDiffer(front);
      forall f, h | f in Results(front) && h in os[n].findings ensures !SameKey(f, h) {
        ResultsMembers(front, f);
        var i :| 0 <= i < |front| && f in front[i].findings;
        assert os[i] == front[i];
      }
      Joined(Results(front), os[n].findings);
      assert forall i :: 0 <= i < |front| ==> front[i] == os[i];
    }
  }

  lemma {:induction false} TableKeys(id: nat -> string, fs: seq<Finding>)
    ensures Merge(id, map[], fs).Keys == set f | f in fs :: FindingKey(id, f)
  {
    MergeCovers(id, map[], fs);
    forall k | k in Merge(id, map[], fs) ensures exists f :: f in fs && FindingKey(id, f) == k {
      MergeComesFrom(id, map[], fs, k);
    }
  }

  lemma SortingKeepsRows(id: nat -> string, fs: seq<Finding>)
    ensures |Merge(id, map[], Hashed(id, fs))| == |Merge(id, map[], fs)| && |Hashed(id, fs)| == |fs|
  {
    var order := ByResult(id);
    SortKeepsMembers(fs, order);
    SortPermutes(fs, order);
    TableKeys(id, fs);
    TableKeys(id, Hashed(id, fs));
    assert Merge(id, map[], Hashed(id, fs)).Keys == Merge(id, map[], fs).Keys;
    assert |multiset(Hashed(id, fs))| == |Hashed(id, fs)| && |multiset(fs)| == |fs|;
  }

  /**
   * The findings that are stored are the findings that were hashed, one row each, exactly when in every mutation the
   * seed rows taken up do not repeat a fact with one verdict, and no two stopped branches share relation, fact and
   * entity.
   */
  lemma StoredIsHashed(id: nat -> string, g: Graph, p: Policy, ms: seq<Mutation>, maxNodes: int, maxEdges: int)
    requires Names(id) && FactIdsUnique(g.facts) && ms != []
    ensures var os := Run(g, p, ms, maxNodes, maxEdges);
            var nodes, edges := Share(Effective(maxNodes, p.maxNodes), |ms|),
                Share(Effective(maxEdges, p.maxEdges), |ms|);
            |Merge(id, map[], Hashed(id, Results(os)))| == |Hashed(id, Results(os))|
            <==> forall i :: 0 <= i < |ms| ==>
                   SeedsDiffer(p, Admitted(p, Take(ms[i].seeds, edges), nodes)) && StopsDiffer(os[i].walk.stopped)
  {
    var os := Run(g, p, ms, maxNodes, maxEdges);
    var nodes, edges := Share(Effective(maxNodes, p.maxNodes), |ms|), Share(Effective(maxEdges, p.maxEdges), |ms|);
    SortingKeepsRows(id, Results(os));
    OneRowEach(id, Results(os));
    KeysAreLabels(id, Results(os));
    forall i, f | 0 <= i < |os| && f in os[i].findings ensures f.ordinal == i {
      OrdinalsMatch(g, p, i, ms[i], nodes, edges, f);
    }
    ResultsDiffer(os);
    forall i | 0 <= i < |ms|
      ensures Differ(os[i].findings)
              <==> SeedsDiffer(p, Admitted(p, Take(ms[i].seeds, edges), nodes)) && StopsDiffer(os[i].walk.stopped)
    {
      OutcomeKeys(g, p, i, ms[i], nodes, edges);
      SeedKeysDiffer(p, ms[i], i, nodes, edges);
    }
  }

  // ---- The same as a condition on estate, policy and change set

  lemma {:induction false} UnlimitedAdmitsAll(p: Policy, m: Mutation, ordinal: nat, budget: nat, had: Intake,
                                              rows: seq<SeedRow>)
    requires |had.eligible| <= budget && !TakeIn(p, m, ordinal, budget, had, rows).limited
    ensures Admitted(p, rows, budget - |had.eligible|) == rows
    decreases |rows|
  {
    if rows != [] {
      var row, f := rows[0], SeedFinding(p, m, ordinal, rows[0]);
      assert rows == [row] + rows[1..];
      if Verdict(p, row).Some? {
        UnlimitedAdmitsAll(p, m, ordinal, budget, had.(findings := had.findings + [f]), rows[1..]);
      } else {
        UnlimitedAdmitsAll(p, m, ordinal, budget, Intake(had.findings + [f], had.eligible + [row], had.limited),
                           rows[1..]);
      }
    }
  }

  /**
   * A change set whose findings all keep rows of their own: no repeated seed fact, no two refused edges of one label.
   */
  ghost predicate KeepsApart(g: Graph, p: Policy, m: Mutation) {
    SeedsDiffer(p, m.seeds) && RefusalsDiffer(g, p, Eligible(p, m), 1)
  }

  lemma {:induction false} LimitedStays(p: Policy, m: Mutation, ordinal: nat, budget: nat, had: Intake,
                                        rows: seq<SeedRow>)
    requires had.limited
    ensures TakeIn(p, m, ordinal, budget, had, rows).limited
    decreases |rows|
  {
    if rows != [] {
      var row, f := rows[0], SeedFinding(p, m, ordinal, rows[0]);
      if Verdict(p, row).Some? {
        LimitedStays(p, m, ordinal, budget, had.(findings := had.findings + [f]), rows[1..]);
      } else if |had.eligible| < budget {
        LimitedStays(p, m, ordinal, budget, Intake(had.findings + [f], had.eligible + [row], had.limited), rows[1..]);
      }
    }
  }

  lemma UnlimitedTake(p: Policy, i: nat, m: Mutation, nodes: nat, edges: nat)
    requires !Taken(p, i, m, nodes, edges).limited
    ensures |m.seeds| <= edges && Take(m.seeds, edges) == m.seeds
  {
    if |m.seeds| > edges { LimitedStays(p, m, i, nodes, Intake([], [], true), Take(m.seeds, edges)); }
  }

  lemma UnlimitedRows(p: Policy, i: nat, m: Mutation, nodes: nat, edges: nat)
    requires !Taken(p, i, m, nodes, edges).limited
    ensures Take(m.seeds, edges) == m.seeds
    ensures Took(p, m, i, Intake([], [], false), Taken(p, i, m, nodes, edges), m.seeds)
  {
    UnlimitedTakesAll(p, m, i, nodes, Intake([], [], |m.seeds| > edges), Take(m.seeds, edges));
  }

  lemma UnlimitedAdmits(p: Policy, i: nat, m: Mutation, nodes: nat, edges: nat)
    requires !Taken(p, i, m, nodes, edges).limited
    ensures Admitted(p, Take(m.seeds, edges), nodes) == Take(m.seeds, edges)
  {
    UnlimitedAdmitsAll(p, m, i, nodes, Intake([], [], |m.seeds| > edges), Take(m.seeds, edges));
  }

  lemma UnlimitedIds(p: Policy, i: nat, m: Mutation, nodes: nat, edges: nat)
    requires !Taken(p, i, m, nodes, edges).limited
    ensures Ids(SeedNodes(p, m, Taken(p, i, m, nodes, edges).eligible)) == Eligible(p, m)
  {
    UnlimitedRows(p, i, m, nodes, edges);
    SeedIds(p, m, Taken(p, i, m, nodes, edges).eligible);
  }

  lemma {:induction false} TakenAreRows(p: Policy, m: Mutation, ordinal: nat, budget: nat, had: Intake,
                                        rows: seq<SeedRow>)
    ensures forall r :: r in TakeIn(p, m, ordinal, budget, had, rows).eligible ==> r in had.eligible || r in rows
    decreases |rows|
  {
    if rows != [] {
      var row, f := rows[0], SeedFinding(p, m, ordinal, rows[0]);
      if Verdict(p, row).Some? {
        TakenAreRows(p, m, ordinal, budget, had.(findings := had.findings + [f]), rows[1..]);
      } else if |had.eligible| < budget {
        TakenAreRows(p, m, ordinal, budget, Intake(had.findings + [f], had.eligible + [row], had.limited), rows[1..]);
      }
    }
  }

  lemma SeedsAreWell(g: Graph, p: Policy, i: nat, m: Mutation, nodes: nat, edges: nat)
    requires SeedsInGraph(g, m)
    ensures WellSeeded(g, SeedNodes(p, m, Taken(p, i, m, nodes, edges).eligible), 1)
  {
    TakenAreRows(p, m, i, nodes, Intake([], [], |m.seeds| > edges), Take(m.seeds, edges));
  }

  lemma UnlimitedStops(g: Graph, p: Policy, i: nat, m: Mutation, nodes: nat, edges: nat)
    requires FactsOnce(g.facts) && SeedsInGraph(g, m) && !Simulate(g, p, i, m, nodes, edges).limited
    ensures StopsDiffer(Simulate(g, p, i, m, nodes, edges).walk.stopped) <==> RefusalsDiffer(g, p, Eligible(p, m), 1)
  {
    var seeds := SeedNodes(p, m, Taken(p, i, m, nodes, edges).eligible);
    UnlimitedIds(p, i, m, nodes, edges);
    SeedsAreWell(g, p, i, m, nodes, edges);
    StopsDifferExactly(Task(g, p, nodes, Left(edges, Take(m.seeds, edges))), seeds, 1);
  }

  /**
   * A run that no budget limited stores what it hashed exactly when, for every mutation, no two seed rows of one fact
   * get one verdict, and no two refused edges that the policy meets, from the accepted dependents on, have one
   * relation, one fact or none, and one entity.
   */
  lemma StoredIsHashedExactly(id: nat -> string, g: Graph, p: Policy, ms: seq<Mutation>, maxNodes: int, maxEdges: int)
    requires Names(id) && FactsOnce(g.facts) && ms != [] && forall m :: m in ms ==> SeedsInGraph(g, m)
    requires !AnyLimited(Run(g, p, ms, maxNodes, maxEdges))
    ensures var fs := Hashed(id, Results(Run(g, p, ms, maxNodes, maxEdges)));
            |Merge(id, map[], fs)| == |fs| <==> forall m :: m in ms ==> KeepsApart(g, p, m)
  {
    var os := Run(g, p, ms, maxNodes, maxEdges);
    var nodes, edges := Share(Effective(maxNodes, p.maxNodes), |ms|), Share(Effective(maxEdges, p.maxEdges), |ms|);
    OnceIsUnique(g.facts);
    StoredIsHashed(id, g, p, ms, maxNodes, maxEdges);
    forall i | 0 <= i < |ms|
      ensures SeedsDiffer(p, Admitted(p, Take(ms[i].seeds, edges), nodes)) && StopsDiffer(os[i].walk.stopped)
              <==> KeepsApart(g, p, ms[i])
    {
      assert ms[i] in ms && os[i] in os;
      UnlimitedAdmits(p, i, ms[i], nodes, edges);
      UnlimitedRows(p, i, ms[i], nodes, edges);
      UnlimitedStops(g, p, i, ms[i], nodes, edges);
    }
  }
}
