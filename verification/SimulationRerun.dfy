// Running a change set again over the same estate: exactly when the hash and the stored findings are the same.

module SimulationRerun {
  import opened Ordering
  import opened Estate
  import opened Traversal
  import opened TraversalSound
  import opened TraversalShape
  import opened Findings
  import opened Seeds
  import opened Simulation
  import opened SimulationProofs
  import opened SimulationKeys
  import opened SimulationStored

  // ---- The capability query

  /** No capability is linked to one application at one criticality by two maps. */
  predicate LinksSettled(g: Graph) {
    forall a, b :: a in g.links && b in g.links && a.capability in g.entities && SamePlace(a, b) ==> a == b
  }

  predicate SamePlace(a: Link, b: Link) {
    a.criticality == b.criticality && a.name == b.name && a.capability == b.capability && a.application == b.application
  }

  lemma LinkOrderReads(es: map<EntityId, Entity>, a: Link, b: Link)
    ensures LinkOrder(es)(a) == LinkOrder(es)(b) <==> SamePlace(a, b)
  {
    if LinkOrder(es)(a) == LinkOrder(es)(b) {
      var key := NullableKey(if a.capability in es then es[a.capability].key else None);
      var other := NullableKey(if b.capability in es then es[b.capability].key else None);
      var k, l := LinkOrder(es)(a), LinkOrder(es)(b);
      assert k == [a.criticality] + key + TextKey(a.name) + [a.capability, a.application];
      assert l == [b.criticality] + other + TextKey(b.name) + [b.capability, b.application];
      assert k[|k| - 1] == a.application && l[|l| - 1] == b.application;
      assert k[|k| - 2] == a.capability && l[|l| - 2] == b.capability;
      assert k[0] == a.criticality && l[0] == b.criticality;
      assert k[1 + |key|..|k| - 2] == TextKey(a.name) && l[1 + |key|..|l| - 2] == TextKey(b.name);
      TextKeyInjective(a.name, b.name);
    }
  }

  lemma {:induction false} LinksOfMembers(es: map<EntityId, Entity>, links: seq<Link>, applications: set<EntityId>)
    ensures forall l :: l in LinksOf(es, links, applications)
              <==> l in links && l.application in applications && l.capability in es
  {
    if links != [] {
      LinksOfMembers(es, links[1..], applications);
      assert links == [links[0]] + links[1..];
    }
  }

  lemma {:induction false} OnceMembers(links: seq<Link>)
    ensures NoRepeats(Once(links)) && forall l :: l in Once(links) <==> l in links
    decreases |links|
  {
    if links != [] {
      var front, last := links[..|links| - 1], links[|links| - 1];
      assert links == front + [last];
      OnceMembers(front);
    }
  }

  lemma SameMembers<T>(s: seq<T>, t: seq<T>)
    requires multiset(s) == multiset(t)
    ensures forall x :: x in s <==> x in t
  {
    forall x ensures x in s <==> x in t { assert x in multiset(s) <==> x in multiset(t); }
  }

  lemma SettledLinksForgetStorage(g: Graph, h: Graph, applications: set<EntityId>)
    requires LinksSettled(g) && SameTables(g, h)
    ensures LinkRows(g, applications) == LinkRows(h, applications)
  {
    var a, b := LinksOf(g.entities, g.links, applications), LinksOf(h.entities, h.links, applications);
    SameMembers(g.links, h.links);
    LinksOfMembers(g.entities, g.links, applications);
    LinksOfMembers(h.entities, h.links, applications);
    OnceMembers(a);
    OnceMembers(b);
    SameElementsSameMultiset(Once(a), Once(b));
    forall l, k | l in Once(a) && k in Once(a) && LinkOrder(g.entities)(l) == LinkOrder(g.entities)(k) ensures l == k {
      LinkOrderReads(g.entities, l, k);
    }
    SortForgetsOrder(Once(a), Once(b), LinkOrder(g.entities));
  }

  lemma {:induction false} OnceKeepsFirst(links: seq<Link>, key: Link -> Key, k: Key)
    ensures FirstWith(Once(links), key, k) == FirstWith(links, key, k)
    decreases |links|
  {
    if links != [] {
      var front, last := links[..|links| - 1], links[|links| - 1];
      assert links == front + [last];
      OnceKeepsFirst(front, key, k);
      OnceMembers(front);
      FirstWithJoined(front, [last], key, k);
      FirstWithJoined(Once(front), [last], key, k);
      if last in front { FirstIsThere(front, key, last); }
    }
  }

  lemma {:induction false} FirstIsThere<T>(s: seq<T>, key: T -> Key, x: T)
    requires x in s
    ensures FirstWith(s, key, key(x)).Some?
  {
    if s[0] != x {
      assert x in s[1..];
      FirstIsThere(s[1..], key, x);
    }
  }

  function WithLinks(g: Graph, i: nat): Graph
    requires i < |g.links|
  {
    g.(links := Fronted(g.links, i))
  }

  lemma FirstOfLinks(g: Graph, i: nat)
    requires i < |g.links| && g.links[i].capability in g.entities
    ensures var l := g.links[i];
            && SameTables(g, WithLinks(g, i))
            && FirstWith(LinkRows(WithLinks(g, i), {l.application}), LinkOrder(g.entities), LinkOrder(g.entities)(l))
              == Some(l)
  {
    var l, h := g.links[i], WithLinks(g, i);
    var rows := LinksOf(h.entities, h.links, {l.application});
    assert h.links[0] == l;
    assert rows[0] == l;
    OnceKeepsFirst(rows, LinkOrder(g.entities), LinkOrder(g.entities)(l));
    SortKeepsFirst(Once(rows), LinkOrder(g.entities), LinkOrder(g.entities)(l));
  }

  lemma UnsettledLinksShow(g: Graph, i: nat, j: nat)
    requires i < |g.links| && j < |g.links| && g.links[i] != g.links[j]
    requires g.links[i].capability in g.entities && SamePlace(g.links[i], g.links[j])
    ensures LinkRows(WithLinks(g, i), {g.links[i].application}) != LinkRows(WithLinks(g, j), {g.links[i].application})
  {
    FirstOfLinks(g, i);
    FirstOfLinks(g, j);
    LinkOrderReads(g.entities, g.links[i], g.links[j]);
  }

  /**
   * The capability query has one result, however the tables are stored and whatever applications were reached, exactly
   * when no capability is linked to one application at one criticality by two maps.
   */
  lemma LinksForgetStorageExactly(g: Graph)
    ensures (forall h, applications :: SameTables(g, h) ==> LinkRows(h, applications) == LinkRows(g, applications))
            <==> LinksSettled(g)
  {
    if LinksSettled(g) {
      forall h, applications | SameTables(g, h) ensures LinkRows(h, applications) == LinkRows(g, applications) {
        SettledLinksForgetStorage(g, h, applications);
      }
    } else {
      var a, b :| a in g.links && b in g.links && a.capability in g.entities && SamePlace(a, b) && a != b;
      var i :| 0 <= i < |g.links| && g.links[i] == a;
      var j :| 0 <= j < |g.links| && g.links[j] == b;
      UnsettledLinksShow(g, i, j);
      FirstOfLinks(g, i);
      FirstOfLinks(g, j);
      assert SameTables(g, WithLinks(g, i)) && SameTables(g, WithLinks(g, j));
    }
  }

  // ---- What a run sees of its seed rows: the version of an accepted one only

  /** Whatever registry identities an accepted dependency joins, it has one version. */
  predicate SettledFor(g: Graph, p: Policy, c: Change) {
    forall f, x, y :: f in g.facts && x in g.registry && y in g.registry && Through(g, p, c, f, x)
           && Through(g, p, c, f, y)
                      && Eligibility(f.evidenced, f.confidence, p.minimumConfidence).None?
      ==> VersionOf(f, x) == VersionOf(f, y)
  }

  function Seen(p: Policy): SeedRow -> SeedRow {
    (r: SeedRow) => if Verdict(p, r).Some? then r.(version := "") else r
  }

  function SeenAll(p: Policy, rows: seq<SeedRow>): (seen: seq<SeedRow>)
    ensures |seen| == |rows| && forall i :: 0 <= i < |rows| ==> seen[i] == Seen(p)(rows[i])
  {
    Each(rows, Seen(p))
  }

  lemma SeenSeparates(g: Graph, p: Policy, c: Change)
    requires FactIdsUnique(g.facts) && SettledFor(g, p, c)
    ensures KeysSeparate(SeenAll(p, SeedJoin(g, p, c, g.facts)), SeedOrder)
  {
    var rows := SeedJoin(g, p, c, g.facts);
    var seen := SeenAll(p, rows);
    SeedJoinMembers(g, p, c, g.facts);
    forall r, q | r in seen && q in seen && SeedOrder(r) == SeedOrder(q) ensures r == q {
      OrderNamesFact(r, q);
      var i :| 0 <= i < |seen| && seen[i] == r;
      var j :| 0 <= j < |seen| && seen[j] == q;
      assert rows[i] in rows && rows[j] in rows;
      SeenAlike(g, p, c, rows[i], rows[j]);
    }
  }

  lemma SeenAlike(g: Graph, p: Policy, c: Change, r: SeedRow, q: SeedRow)
    requires FactIdsUnique(g.facts) && SettledFor(g, p, c) && r.fact == q.fact
    requires r in SeedJoin(g, p, c, g.facts) && q in SeedJoin(g, p, c, g.facts)
    ensures Seen(p)(r) == Seen(p)(q)
  {
    SeedJoinMembers(g, p, c, g.facts);
    var f, x :| f in g.facts && x in g.registry && Through(g, p, c, f, x) && r == RowFor(g, f, x);
    var f', y :| f' in g.facts && y in g.registry && Through(g, p, c, f', y) && q == RowFor(g, f', y);
  }

  lemma SeenRows(g: Graph, p: Policy, c: Change)
    ensures SeenAll(p, SeedRows(g, p, c)) == SortBy(SeenAll(p, SeedJoin(g, p, c, g.facts)), SeedOrder)
  {
    forall r ensures SeedOrder(Seen(p)(r)) == SeedOrder(r) {}
    SortEach(SeedJoin(g, p, c, g.facts), SeedOrder, Seen(p));
  }

  /** Stored otherwise, the seed query returns rows a run cannot tell from these. */
  lemma SeenForgetStorage(g: Graph, h: Graph, p: Policy, c: Change)
    requires FactIdsUnique(g.facts) && SettledFor(g, p, c) && SameTables(g, h)
    ensures SeenAll(p, SeedRows(g, p, c)) == SeenAll(p, SeedRows(h, p, c))
  {
    SeenRows(g, p, c);
    SeenRows(h, p, c);
    SeenSeparates(g, p, c);
    SameSeedRows(g, h, p, c);
    EachPermutes(SeedJoin(g, p, c, g.facts), SeedJoin(h, p, c, h.facts), Seen(p));
    SortForgetsOrder(SeenAll(p, SeedJoin(g, p, c, g.facts)), SeenAll(p, SeedJoin(h, p, c, h.facts)), SeedOrder);
  }

  predicate Alike(p: Policy, m: Mutation, m': Mutation) {
    m.subject == m'.subject && m.remembered == m'.remembered && SeenAll(p, m.seeds) == SeenAll(p, m'.seeds)
  }

  lemma SeenFinding(p: Policy, m: Mutation, m': Mutation, ordinal: nat, r: SeedRow, q: SeedRow)
    requires m.subject == m'.subject && Seen(p)(r) == Seen(p)(q)
    ensures SeedFinding(p, m, ordinal, r) == SeedFinding(p, m', ordinal, q)
    ensures Verdict(p, r) == Verdict(p, q) && (Verdict(p, r).None? ==> r == q) && r.fact == q.fact
            && r.evidenced == q.evidenced
  {}

  lemma {:induction false} SeenIntake(p: Policy, m: Mutation, m': Mutation, ordinal: nat, budget: nat, had: Intake,
                                      rows: seq<SeedRow>, rows': seq<SeedRow>)
    requires m.subject == m'.subject && SeenAll(p, rows) == SeenAll(p, rows')
    ensures TakeIn(p, m, ordinal, budget, had, rows) == TakeIn(p, m', ordinal, budget, had, rows')
    decreases |rows|
  {
    assert |rows| == |SeenAll(p, rows)| == |rows'|;
    if rows != [] {
      var row, f := rows[0], SeedFinding(p, m, ordinal, rows[0]);
      SeenTails(p, rows, rows');
      SeenFinding(p, m, m', ordinal, row, rows'[0]);
      if Verdict(p, row).Some? {
        SeenIntake(p, m, m', ordinal, budget, had.(findings := had.findings + [f]), rows[1..], rows'[1..]);
      } else if |had.eligible| < budget {
        SeenIntake(p, m, m', ordinal, budget, Intake(had.findings + [f], had.eligible + [row], had.limited), rows[1..],
                   rows'[1..]);
      }
    }
  }

  lemma SeenTails(p: Policy, rows: seq<SeedRow>, rows': seq<SeedRow>)
    requires SeenAll(p, rows) == SeenAll(p, rows') && rows != []
    ensures rows' != [] && Seen(p)(rows[0]) == Seen(p)(rows'[0])
    ensures SeenAll(p, rows[1..]) == SeenAll(p, rows'[1..])
  {
    assert |rows| == |SeenAll(p, rows)| == |rows'|;
    assert SeenAll(p, rows)[0] == SeenAll(p, rows')[0];
    assert SeenAll(p, rows[1..]) == SeenAll(p, rows)[1..];
    assert SeenAll(p, rows'[1..]) == SeenAll(p, rows')[1..];
  }

  lemma SeenTake(p: Policy, rows: seq<SeedRow>, rows': seq<SeedRow>, limit: nat)
    requires SeenAll(p, rows) == SeenAll(p, rows')
    ensures |rows| == |rows'| && SeenAll(p, Take(rows, limit)) == SeenAll(p, Take(rows', limit))
  {
    assert |rows| == |SeenAll(p, rows)| == |rows'|;
    assert SeenAll(p, Take(rows, limit)) == Take(SeenAll(p, rows), limit);
    assert SeenAll(p, Take(rows', limit)) == Take(SeenAll(p, rows'), limit);
  }

  lemma {:induction false} SeenEvidence(p: Policy, rows: seq<SeedRow>, rows': seq<SeedRow>)
    requires SeenAll(p, rows) == SeenAll(p, rows')
    ensures Evidenced(rows) == Evidenced(rows')
    decreases |rows|
  {
    assert |rows| == |SeenAll(p, rows)| == |rows'|;
    if rows != [] {
      SeenTails(p, rows, rows');
      SeenEvidence(p, rows[1..], rows'[1..]);
    }
  }

  /** An outcome without the rows it was computed from. */
  function Bare(o: Outcome): Outcome {
    o.(rows := [])
  }

  lemma SameWalk(t: Task, u: Task, seeds: seq<Node>)
    requires SameSnapshot(t, u)
    ensures Expanded(t, seeds) == Expanded(u, seeds)
  {
    var w := Start(seeds);
    SameLevels(t, u, w, w.nodes, DeepestOf(w.nodes));
  }

  lemma SameCapabilities(g: Graph, h: Graph, p: Policy, i: nat, m: Mutation, m': Mutation, nodes: seq<Node>, limit: nat)
    requires LinksSettled(g) && SameTables(g, h) && m.subject == m'.subject
    ensures CapabilityFindings(g, p, i, m, nodes, limit) == CapabilityFindings(h, p, i, m', nodes, limit)
    ensures CapabilityLimits(g, p, nodes, limit) == CapabilityLimits(h, p, nodes, limit)
  {
    if p.capability.Some? {
      SettledLinksForgetStorage(g, h, Applications(p.capability.value, nodes));
      var links := Mapped(g, p.capability.value, nodes, limit);
      assert ByCapability(i, m, p.capability.value, links) == ByCapability(i, m', p.capability.value, links);
    }
  }

  lemma SameAssembly(g: Graph, h: Graph, p: Policy, i: nat, m: Mutation, m': Mutation, rows: seq<SeedRow>,
                     rows': seq<SeedRow>, intake: Intake, w: Walk, limit: nat)
    requires LinksSettled(g) && SameTables(g, h) && m.subject == m'.subject && m.remembered == m'.remembered
    requires SeenAll(p, rows) == SeenAll(p, rows')
    ensures Bare(Assemble(g, p, i, m, rows, intake, w, limit)) == Bare(Assemble(h, p, i, m', rows', intake, w, limit))
  {
    assert |rows| == |SeenAll(p, rows)| == |rows'|;
    SameCapabilities(g, h, p, i, m, m', w.nodes, limit);
    SeenEvidence(p, rows, rows');
  }

  lemma SameTaken(p: Policy, i: nat, m: Mutation, m': Mutation, nodes: nat, edges: nat)
    requires Alike(p, m, m')
    ensures Taken(p, i, m, nodes, edges) == Taken(p, i, m', nodes, edges)
    ensures SeenAll(p, Take(m.seeds, edges)) == SeenAll(p, Take(m'.seeds, edges))
    ensures |Take(m.seeds, edges)| == |Take(m'.seeds, edges)|
  {
    var rows, rows' := Take(m.seeds, edges), Take(m'.seeds, edges);
    SeenTake(p, m.seeds, m'.seeds, edges);
    assert |rows| == |SeenAll(p, rows)| == |rows'|;
    SeenIntake(p, m, m', i, nodes, Intake([], [], |m.seeds| > edges), rows, rows');
  }

  /** The walk of a mutation whose seed rows were taken in. */
  function WalkOf(g: Graph, p: Policy, m: Mutation, nodes: nat, edges: nat, eligible: seq<SeedRow>): Walk {
    Expanded(Task(g, p, nodes, Left(edges, Take(m.seeds, edges))), SeedNodes(p, m, eligible))
  }

  lemma SimulateIs(g: Graph, p: Policy, i: nat, m: Mutation, nodes: nat, edges: nat)
    ensures var intake := Taken(p, i, m, nodes, edges);
            Simulate(g, p, i, m, nodes, edges)
            == Assemble(g, p, i, m, Take(m.seeds, edges), intake, WalkOf(g, p, m, nodes, edges, intake.eligible), nodes)
  {}

  lemma SameSeedNodes(p: Policy, m: Mutation, m': Mutation, eligible: seq<SeedRow>)
    requires m.subject == m'.subject
    ensures SeedNodes(p, m, eligible) == SeedNodes(p, m', eligible)
  {}

  lemma SameWalkFrom(g: Graph, h: Graph, p: Policy, nodes: nat, left: nat, seeds: seq<Node>)
    requires FactIdsUnique(g.facts) && SameTables(g, h)
    ensures Expanded(Task(g, p, nodes, left), seeds) == Expanded(Task(h, p, nodes, left), seeds)
  {
    SameWalk(Task(g, p, nodes, left), Task(h, p, nodes, left), seeds);
  }

  lemma SameWalkOf(g: Graph, h: Graph, p: Policy, m: Mutation, m': Mutation, nodes: nat, edges: nat,
                   eligible: seq<SeedRow>)
    requires FactIdsUnique(g.facts) && SameTables(g, h) && m.subject == m'.subject
    requires |Take(m.seeds, edges)| == |Take(m'.seeds, edges)|
    ensures WalkOf(g, p, m, nodes, edges, eligible) == WalkOf(h, p, m', nodes, edges, eligible)
  {
    SameSeedNodes(p, m, m', eligible);
    assert Left(edges, Take(m.seeds, edges)) == Left(edges, Take(m'.seeds, edges));
    SameWalkFrom(g, h, p, nodes, Left(edges, Take(m.seeds, edges)), SeedNodes(p, m, eligible));
  }

  lemma SameAssembled(g: Graph, h: Graph, p: Policy, i: nat, m: Mutation, m': Mutation, nodes: nat, edges: nat,
                      intake: Intake)
    requires FactIdsUnique(g.facts) && LinksSettled(g) && SameTables(g, h) && m.subject == m'.subject
    requires m.remembered == m'.remembered && SeenAll(p, Take(m.seeds, edges)) == SeenAll(p, Take(m'.seeds, edges))
    ensures Bare(Assemble(g, p, i, m, Take(m.seeds, edges), intake, WalkOf(g, p, m, nodes, edges, intake.eligible),
                          nodes))
            == Bare(Assemble(h, p, i, m', Take(m'.seeds, edges), intake,
                             WalkOf(h, p, m', nodes, edges, intake.eligible), nodes))
  {
    var rows, rows' := Take(m.seeds, edges), Take(m'.seeds, edges);
    assert |rows| == |SeenAll(p, rows)| == |rows'|;
    SameWalkOf(g, h, p, m, m', nodes, edges, intake.eligible);
    SameAssembly(g, h, p, i, m, m', rows, rows', intake, WalkOf(g, p, m, nodes, edges, intake.eligible), nodes);
  }

  lemma SameOutcome(g: Graph, h: Graph, p: Policy, i: nat, m: Mutation, m': Mutation, nodes: nat, edges: nat)
    requires FactIdsUnique(g.facts) && LinksSettled(g) && SameTables(g, h) && Alike(p, m, m')
    ensures Bare(Simulate(g, p, i, m, nodes, edges)) == Bare(Simulate(h, p, i, m', nodes, edges))
  {
    SameTaken(p, i, m, m', nodes, edges);
    SimulateIs(g, p, i, m, nodes, edges);
    SimulateIs(h, p, i, m', nodes, edges);
    SameAssembled(g, h, p, i, m, m', nodes, edges, Taken(p, i, m, nodes, edges));
  }

  lemma {:induction false} SameTally(os: seq<Outcome>, os': seq<Outcome>)
    requires |os| == |os'| && forall i :: 0 <= i < |os| ==> Bare(os[i]) == Bare(os'[i])
    ensures TallyOf(os) == TallyOf(os')
    decreases |os|
  {
    if os != [] {
      var n: nat := |os| - 1;
      SameTally(os[..n], os'[..n]);
      TallyNext(os, n);
      TallyNext(os', n);
      assert os[..n + 1] == os && os'[..n + 1] == os';
      assert Bare(os[n]) == Bare(os'[n]);
    }
  }

  lemma SameRuns(g: Graph, h: Graph, p: Policy, cs: seq<Change>, maxNodes: int, maxEdges: int)
    requires cs != [] && FactIdsUnique(g.facts) && LinksSettled(g) && SameTables(g, h)
    requires forall c :: c in cs ==> SettledFor(g, p, c)
    ensures |RunOf(g, p, cs, maxNodes, maxEdges)| == |RunOf(h, p, cs, maxNodes, maxEdges)|
    ensures TallyOf(RunOf(g, p, cs, maxNodes, maxEdges)) == TallyOf(RunOf(h, p, cs, maxNodes, maxEdges))
  {
    var os, os' := RunOf(g, p, cs, maxNodes, maxEdges), RunOf(h, p, cs, maxNodes, maxEdges);
    var nodes, edges := Share(Effective(maxNodes, p.maxNodes), |cs|), Share(Effective(maxEdges, p.maxEdges), |cs|);
    forall i | 0 <= i < |os| ensures Bare(os[i]) == Bare(os'[i]) {
      SeenForgetStorage(g, h, p, cs[i]);
      SameOutcome(g, h, p, i, Resolve(g, p, cs[i]), Resolve(h, p, cs[i]), nodes, edges);
    }
    SameTally(os, os');
  }

  lemma ResultFromTally<H>(id: nat -> string, digest: (seq<Finding>, seq<Limitation>) -> H, os: seq<Outcome>,
                        os': seq<Outcome>, table: map<string, Finding>)
    requires |os| == |os'| && TallyOf(os) == TallyOf(os')
    ensures Result(id, digest, os, table) == Result(id, digest, os', table)
    ensures ResultHash(id, digest, os) == ResultHash(id, digest, os')
  {}

  lemma ResultAgain<H>(id: nat -> string, digest: (seq<Finding>, seq<Limitation>) -> H, os: seq<Outcome>,
                    table: map<string, Finding>)
    ensures var first := Result(id, digest, os, table); Result(id, digest, os, first.table) == first
  {
    ReexecutionAddsNothing(id, table, Hashed(id, Results(os)));
  }

  /**
   * Running a change set again over the same tables, stored in any order, gives the same status, limitations and hash
   * and leaves the findings table as it is, when no accepted dependency joins registry identities of different versions
   * and no capability is linked twice to one application at one criticality.
   */
  lemma ReexecutionIsIdempotent<H>(id: nat -> string, digest: (seq<Finding>, seq<Limitation>) -> H, g: Graph, h: Graph,
                                p: Policy, cs: seq<Change>, maxNodes: int, maxEdges: int, table: map<string, Finding>)
    requires cs != [] && FactIdsUnique(g.facts) && LinksSettled(g) && SameTables(g, h)
    requires forall c :: c in cs ==> SettledFor(g, p, c)
    ensures var first := Result(id, digest, RunOf(g, p, cs, maxNodes, maxEdges), table);
            Result(id, digest, RunOf(h, p, cs, maxNodes, maxEdges), first.table) == first
  {
    var os, os' := RunOf(g, p, cs, maxNodes, maxEdges), RunOf(h, p, cs, maxNodes, maxEdges);
    SameRuns(g, h, p, cs, maxNodes, maxEdges);
    ResultAgain(id, digest, os, table);
    ResultFromTally(id, digest, os, os', Result(id, digest, os, table).table);
  }

  // ---- And otherwise the order of the registry shows

  function Accepted(p: Policy, rows: seq<SeedRow>): nat {
    if rows == [] then 0 else (if Verdict(p, rows[0]).None? then 1 else 0) + Accepted(p, rows[1..])
  }

  lemma {:induction false} TakeInLimited(p: Policy, m: Mutation, ordinal: nat, budget: nat, had: Intake,
                                         rows: seq<SeedRow>)
    requires |had.eligible| <= budget
    ensures TakeIn(p, m, ordinal, budget, had, rows).limited
            <==> had.limited || |had.eligible| + Accepted(p, rows) > budget
    decreases |rows|
  {
    if rows != [] {
      var row, f := rows[0], SeedFinding(p, m, ordinal, rows[0]);
      if Verdict(p, row).Some? {
        TakeInLimited(p, m, ordinal, budget, had.(findings := had.findings + [f]), rows[1..]);
      } else if |had.eligible| < budget {
        TakeInLimited(p, m, ordinal, budget, Intake(had.findings + [f], had.eligible + [row], had.limited), rows[1..]);
      }
    }
  }

  lemma {:induction false} AcceptedIsFlat(p: Policy, rows: seq<SeedRow>, one: SeedRow -> seq<SeedRow>)
    requires forall r :: one(r) == if Verdict(p, r).None? then [r] else []
    ensures Accepted(p, rows) == |Flat(rows, one)|
  {
    if rows != [] { AcceptedIsFlat(p, rows[1..], one); }
  }

  lemma AcceptedPermutes(p: Policy, rows: seq<SeedRow>, rows': seq<SeedRow>)
    requires multiset(rows) == multiset(rows')
    ensures |rows| == |rows'| && Accepted(p, rows) == Accepted(p, rows')
  {
    var one := (r: SeedRow) => if Verdict(p, r).None? then [r] else [];
    AcceptedIsFlat(p, rows, one);
    AcceptedIsFlat(p, rows', one);
    FlatPermutes(rows, rows', one);
    assert |multiset(rows)| == |rows| && |multiset(rows')| == |rows'|;
    assert |multiset(Flat(rows, one))| == |Flat(rows, one)| && |multiset(Flat(rows', one))| == |Flat(rows', one)|;
  }

  /** Stored otherwise, as many rows are found, and as many of them accepted: the budgets cut alike. */
  lemma UnlimitedAlike(g: Graph, h: Graph, p: Policy, c: Change, i: nat, nodes: nat, edges: nat)
    requires SameTables(g, h) && !Taken(p, i, Resolve(g, p, c), nodes, edges).limited
    ensures !Taken(p, i, Resolve(h, p, c), nodes, edges).limited
  {
    var m, m' := Resolve(g, p, c), Resolve(h, p, c);
    SameSeedRows(g, h, p, c);
    AcceptedPermutes(p, m.seeds, m'.seeds);
    UnlimitedTake(p, i, m, nodes, edges);
    TakeInLimited(p, m, i, nodes, Intake([], [], |m.seeds| > edges), m.seeds);
    assert Take(m'.seeds, edges) == m'.seeds;
    TakeInLimited(p, m', i, nodes, Intake([], [], |m'.seeds| > edges), m'.seeds);
  }

  lemma UnlimitedFindings(p: Policy, i: nat, m: Mutation, nodes: nat, edges: nat)
    requires !Taken(p, i, m, nodes, edges).limited
    ensures Taken(p, i, m, nodes, edges).findings == SeedFindings(p, m, i, m.seeds)
  {
    UnlimitedTake(p, i, m, nodes, edges);
    UnlimitedAdmits(p, i, m, nodes, edges);
    TakenFindings(p, m, i, nodes, edges);
  }

  lemma ResultOrderReads(id: nat -> string, f: Finding, h: Finding)
    requires Names(id) && ResultOrder(id, f) == ResultOrder(id, h)
    ensures SameKey(f, h)
  {
    var k, l := ResultOrder(id, f), ResultOrder(id, h);
    assert k[1..] == TextKey(FindingKey(id, f)) && l[1..] == TextKey(FindingKey(id, h));
    TextKeyInjective(FindingKey(id, f), FindingKey(id, h));
    KeyReads(id, f.ordinal, f.about, h.ordinal, h.about);
  }

  /** A row of an accepted dependency and its siblings are in one place of the query's order and have one key. */
  predicate Siblings(p: Policy, rows: seq<SeedRow>, row: SeedRow) {
    forall r :: r in rows && r.fact == row.fact ==> SeedOrder(r) == SeedOrder(row) && Verdict(p, r) == Verdict(p, row)
  }

  lemma SameOrderSameKey(id: nat -> string, p: Policy, m: Mutation, i: nat, r: SeedRow, row: SeedRow)
    requires Names(id) && Verdict(p, row).None?
    requires r.fact == row.fact ==> SeedOrder(r) == SeedOrder(row) && Verdict(p, r) == Verdict(p, row)
    ensures ResultOrder(id, SeedFinding(p, m, i, r)) == ResultOrder(id, SeedFinding(p, m, i, row))
            <==> SeedOrder(r) == SeedOrder(row)
  {
    var f, h := SeedFinding(p, m, i, r), SeedFinding(p, m, i, row);
    if ResultOrder(id, f) == ResultOrder(id, h) { ResultOrderReads(id, f, h); }
    if SeedOrder(r) == SeedOrder(row) { OrderNamesFact(r, row); }
  }

  lemma {:induction false} FirstSeedFinding(id: nat -> string, p: Policy, m: Mutation, i: nat, rows: seq<SeedRow>,
                                            row: SeedRow)
    requires Names(id) && Siblings(p, rows, row) && Verdict(p, row).None?
    requires FirstWith(rows, SeedOrder, SeedOrder(row)) == Some(row)
    ensures var f := SeedFinding(p, m, i, row);
            FirstWith(SeedFindings(p, m, i, rows), ByResult(id), ResultOrder(id, f)) == Some(f)
  {
    var fs := SeedFindings(p, m, i, rows);
    SameOrderSameKey(id, p, m, i, rows[0], row);
    if SeedOrder(rows[0]) != SeedOrder(row) {
      assert fs[1..] == SeedFindings(p, m, i, rows[1..]);
      assert forall r :: r in rows[1..] ==> r in rows;
      FirstSeedFinding(id, p, m, i, rows[1..], row);
    }
  }

  predicate OwnOrdinals(os: seq<Outcome>) {
    forall j, h :: 0 <= j < |os| && h in os[j].findings ==> h.ordinal == j
  }

  lemma OwnOrdinalsBefore(os: seq<Outcome>, n: nat)
    requires OwnOrdinals(os) && n <= |os|
    ensures OwnOrdinals(os[..n])
  {}

  lemma NoneBefore(id: nat -> string, front: seq<Outcome>, f: Finding)
    requires Names(id) && |front| <= f.ordinal && OwnOrdinals(front)
    ensures FirstWith(Results(front), ByResult(id), ResultOrder(id, f)) == None
  {
    forall h | h in Results(front) ensures ByResult(id)(h) != ResultOrder(id, f) {
      ResultsMembers(front, h);
      if ResultOrder(id, h) == ResultOrder(id, f) { ResultOrderReads(id, h, f); }
    }
    NoneWith(Results(front), ByResult(id), ResultOrder(id, f));
  }

  lemma {:induction false} FirstResult(id: nat -> string, os: seq<Outcome>, i: nat, f: Finding)
    requires Names(id) && i < |os| && f.ordinal == i && OwnOrdinals(os)
    requires FirstWith(os[i].findings, ByResult(id), ResultOrder(id, f)) == Some(f)
    ensures FirstWith(Results(os), ByResult(id), ResultOrder(id, f)) == Some(f)
    decreases |os|
  {
    var n: nat := |os| - 1;
    var front := os[..n];
    ResultsNext(os, n);
    assert os[..n + 1] == os;
    FirstWithJoined(Results(front), os[n].findings, ByResult(id), ResultOrder(id, f));
    OwnOrdinalsBefore(os, n);
    if i < n {
      assert front[i] == os[i];
      FirstResult(id, front, i, f);
    } else {
      NoneBefore(id, front, f);
    }
  }

  lemma Regrouped<T>(a: seq<T>, b: seq<T>, c: seq<T>, d: seq<T>, e: seq<T>)
    ensures a + b + c + d + e == a + (b + c + d + e)
  {}

  lemma OutcomeBegins(id: nat -> string, g: Graph, p: Policy, i: nat, m: Mutation, rows: seq<SeedRow>, intake: Intake,
                      w: Walk, limit: nat, k: Key)
    requires FirstWith(intake.findings, ByResult(id), k).Some?
    ensures FirstWith(Assemble(g, p, i, m, rows, intake, w, limit).findings, ByResult(id), k)
            == FirstWith(intake.findings, ByResult(id), k)
  {
    var a, b := NodeFindings(i, w.nodes), StopFindings(i, w.stopped);
    var c, d := CapabilityFindings(g, p, i, m, w.nodes, limit), ClosingFindings(i, m, rows, intake.eligible, w.nodes);
    Regrouped(intake.findings, a, b, c, d);
    FirstWithJoined(intake.findings, a + b + c + d, ByResult(id), k);
  }

  lemma RowsAreSiblings(g: Graph, p: Policy, c: Change, row: SeedRow)
    requires FactIdsUnique(g.facts) && row in SeedRows(g, p, c)
    ensures Siblings(p, SeedRows(g, p, c), row)
  {
    SeedRowsMembers(g, p, c, row);
    forall r | r in SeedRows(g, p, c) && r.fact == row.fact
      ensures SeedOrder(r) == SeedOrder(row) && Verdict(p, r) == Verdict(p, row)
    {
      SeedRowsMembers(g, p, c, r);
    }
  }

  /** With a registry identity stored first, the finding hashed first for the dependency states its version. */
  lemma FirstHashed(id: nat -> string, g: Graph, p: Policy, cs: seq<Change>, maxNodes: int, maxEdges: int, i: nat,
                    f: Fact,
                    q: nat)
    requires Names(id) && FactIdsUnique(g.facts) && i < |cs| && !AnyLimited(RunOf(g, p, cs, maxNodes, maxEdges))
    requires f in g.facts && q < |g.registry| && Through(g, p, cs[i], f, g.registry[q])
    requires Eligibility(f.evidenced, f.confidence, p.minimumConfidence).None?
    ensures var h := WithRegistry(g, q);
            var finding := SeedFinding(p, Resolve(h, p, cs[i]), i, RowFor(g, f, g.registry[q]));
            FirstWith(Hashed(id, Results(RunOf(h, p, cs, maxNodes, maxEdges))), ByResult(id), ResultOrder(id, finding))
            == Some(finding)
  {
    var h, row := WithRegistry(g, q), RowFor(g, f, g.registry[q]);
    var nodes, edges := Share(Effective(maxNodes, p.maxNodes), |cs|), Share(Effective(maxEdges, p.maxEdges), |cs|);
    var m, os := Resolve(h, p, cs[i]), RunOf(h, p, cs, maxNodes, maxEdges);
    var finding := SeedFinding(p, m, i, row);
    RunAt(g, p, Resolved(g, p, cs), maxNodes, maxEdges, i);
    FirstOfRows(g, p, cs[i], f, q);
    UnlimitedAlike(g, h, p, cs[i], i, nodes, edges);
    UnlimitedFindings(p, i, m, nodes, edges);
    FirstIsMember(m.seeds, SeedOrder, SeedOrder(row));
    RowsAreSiblings(h, p, cs[i], row);
    FirstSeedFinding(id, p, m, i, m.seeds, row);
    SimulateIs(h, p, i, m, nodes, edges);
    var intake := Taken(p, i, m, nodes, edges);
    OutcomeBegins(id, h, p, i, m, Take(m.seeds, edges), intake, WalkOf(h, p, m, nodes, edges, intake.eligible), nodes,
                  ResultOrder(id, finding));
    RunOrdinals(h, p, cs, maxNodes, maxEdges);
    FirstResult(id, os, i, finding);
    SortKeepsFirst(Results(os), ByResult(id), ResultOrder(id, finding));
  }

  lemma {:induction false} FirstIsMember<T>(s: seq<T>, key: T -> Key, k: Key)
    requires FirstWith(s, key, k).Some?
    ensures FirstWith(s, key, k).value in s
  {
    if key(s[0]) != k { FirstIsMember(s[1..], key, k); }
  }

  lemma RunOrdinals(g: Graph, p: Policy, cs: seq<Change>, maxNodes: int, maxEdges: int)
    requires cs != []
    ensures var os := RunOf(g, p, cs, maxNodes, maxEdges);
            |os| == |cs| && OwnOrdinals(os)
  {
    var os := RunOf(g, p, cs, maxNodes, maxEdges);
    forall j, h | 0 <= j < |os| && h in os[j].findings ensures h.ordinal == j {
      RunAt(g, p, Resolved(g, p, cs), maxNodes, maxEdges, j);
      OrdinalsMatch(g, p, j, Resolve(g, p, cs[j]), Share(Effective(maxNodes, p.maxNodes), |cs|),
                    Share(Effective(maxEdges, p.maxEdges), |cs|), h);
    }
  }

  /** Two identities that give an accepted dependency two versions: which is stored first is seen in what is hashed. */
  lemma UnsettledRunsDiffer(id: nat -> string, g: Graph, p: Policy, cs: seq<Change>, maxNodes: int, maxEdges: int,
                            i: nat,
                            f: Fact, q: nat, r: nat)
    requires Names(id) && FactIdsUnique(g.facts) && i < |cs| && !AnyLimited(RunOf(g, p, cs, maxNodes, maxEdges))
    requires f in g.facts && q < |g.registry| && r < |g.registry|
    requires Through(g, p, cs[i], f, g.registry[q]) && Through(g, p, cs[i], f, g.registry[r])
    requires Eligibility(f.evidenced, f.confidence, p.minimumConfidence).None?
    requires VersionOf(f, g.registry[q]) != VersionOf(f, g.registry[r])
    ensures Hashed(id, Results(RunOf(WithRegistry(g, q), p, cs, maxNodes, maxEdges)))
            != Hashed(id, Results(RunOf(WithRegistry(g, r), p, cs, maxNodes, maxEdges)))
  {
    FirstHashed(id, g, p, cs, maxNodes, maxEdges, i, f, q);
    FirstHashed(id, g, p, cs, maxNodes, maxEdges, i, f, r);
  }

  /** A digest that tells different results apart. */
  ghost predicate Faithful<H>(digest: (seq<Finding>, seq<Limitation>) -> H) {
    forall fs, gs, ls, ms :: digest(fs, ls) == digest(gs, ms) ==> fs == gs && ls == ms
  }

  /** The run has one hash, in whatever order the tables are stored. */
  ghost predicate OneHash<H>(id: nat -> string, digest: (seq<Finding>, seq<Limitation>) -> H, g: Graph, p: Policy,
                          cs: seq<Change>, maxNodes: int, maxEdges: int)
    requires cs != []
  {
    forall h :: SameTables(g, h) ==>
      ResultHash(id, digest, RunOf(h, p, cs, maxNodes, maxEdges))
        == ResultHash(id, digest, RunOf(g, p, cs, maxNodes, maxEdges))
  }

  lemma OrdersShowInHash<H>(id: nat -> string, digest: (seq<Finding>, seq<Limitation>) -> H, g: Graph, p: Policy,
                         cs: seq<Change>, maxNodes: int, maxEdges: int, h: Graph, h': Graph)
    requires Faithful(digest) && cs != [] && SameTables(g, h) && SameTables(g, h')
    requires Hashed(id, Results(RunOf(h, p, cs, maxNodes, maxEdges))) != Hashed(id,
                                                                                Results(RunOf(h', p, cs, maxNodes,
                                                                                              maxEdges)))
    ensures !OneHash(id, digest, g, p, cs, maxNodes, maxEdges)
  {}

  lemma UnsettledFact(g: Graph, p: Policy, c: Change) returns (f: Fact, q: nat, r: nat)
    requires !SettledFor(g, p, c)
    ensures f in g.facts && q < |g.registry| && r < |g.registry|
    ensures Through(g, p, c, f, g.registry[q]) && Through(g, p, c, f, g.registry[r])
    ensures Eligibility(f.evidenced, f.confidence, p.minimumConfidence).None?
    ensures VersionOf(f, g.registry[q]) != VersionOf(f, g.registry[r])
  {
    var e, x, y :| e in g.facts && x in g.registry && y in g.registry && Through(g, p, c, e, x)
        && Through(g, p, c, e, y)
                   && Eligibility(e.evidenced, e.confidence, p.minimumConfidence).None?
                   && VersionOf(e, x) != VersionOf(e, y);
    f := e;
    q :| q < |g.registry| && g.registry[q] == x;
    r :| r < |g.registry| && g.registry[r] == y;
  }

  lemma UnsettledShowsInHash<H>(id: nat -> string, digest: (seq<Finding>, seq<Limitation>) -> H, g: Graph, p: Policy,
                             cs: seq<Change>, maxNodes: int, maxEdges: int, i: nat)
    requires Names(id) && Faithful(digest) && FactIdsUnique(g.facts) && i < |cs|
    requires !AnyLimited(RunOf(g, p, cs, maxNodes, maxEdges)) && !SettledFor(g, p, cs[i])
    ensures !OneHash(id, digest, g, p, cs, maxNodes, maxEdges)
  {
    var f, q, r := UnsettledFact(g, p, cs[i]);
    UnsettledRunsDiffer(id, g, p, cs, maxNodes, maxEdges, i, f, q, r);
    OrdersShowInHash(id, digest, g, p, cs, maxNodes, maxEdges, WithRegistry(g, q), WithRegistry(g, r));
  }

  /**
   * A run that no budget limited has one hash, in whatever order the tables are stored, exactly when no accepted
   * dependency of its changes joins registry identities of different versions.
   */
  lemma HashForgetsStorageExactly<H>(id: nat -> string, digest: (seq<Finding>, seq<Limitation>) -> H, g: Graph,
                                     p: Policy,
                                  cs: seq<Change>, maxNodes: int, maxEdges: int)
    requires Names(id) && Faithful(digest) && FactIdsUnique(g.facts) && LinksSettled(g)
    requires cs != [] && !AnyLimited(RunOf(g, p, cs, maxNodes, maxEdges))
    ensures OneHash(id, digest, g, p, cs, maxNodes, maxEdges) <==> forall c :: c in cs ==> SettledFor(g, p, c)
  {
    if c :| c in cs && !SettledFor(g, p, c) {
      var i :| 0 <= i < |cs| && cs[i] == c;
      UnsettledShowsInHash(id, digest, g, p, cs, maxNodes, maxEdges, i);
    } else {
      forall h | SameTables(g, h)
        ensures ResultHash(id, digest, RunOf(h, p, cs, maxNodes, maxEdges))
                == ResultHash(id, digest, RunOf(g, p, cs, maxNodes, maxEdges))
      {
        SameRuns(g, h, p, cs, maxNodes, maxEdges);
        ResultFromTally(id, digest, RunOf(h, p, cs, maxNodes, maxEdges), RunOf(g, p, cs, maxNodes, maxEdges), map[]);
      }
    }
  }
}
