// Two readers of one neighbourhood: relationship-unique paths in the graph store, unrestricted walks in recursive SQL.

module Neighbourhood {
  import opened Ordering

  type EntityId = nat
  type FactId = nat

  datatype Edge = Edge(fact: FactId, source: EntityId, target: EntityId, relation: string, confidence: real)
  datatype Topology = Topology(nodes: seq<EntityId>, namespaces: map<EntityId, string>, edges: seq<Edge>)

  /** What a request filters by; an empty list is no filter. */
  datatype Filter = Filter(relations: Option<set<string>>, namespaces: Option<set<string>>, minConfidence: real)

  datatype Hit = Hit(entity: EntityId, depth: nat)
  datatype Answer = Answer(hits: seq<Hit>, facts: seq<FactId>, capped: bool)

  predicate Usable(f: Filter, e: Edge) {
    (f.relations.Some? ==> e.relation in f.relations.value) && e.confidence >= f.minConfidence
  }

  predicate Within(g: Topology, f: Filter, x: EntityId) {
    f.namespaces.Some? ==> x in g.namespaces && g.namespaces[x] in f.namespaces.value
  }

  /** Relationships are followed in both directions. */
  predicate Links(e: Edge, x: EntityId, y: EntityId) {
    (e.source == x && e.target == y) || (e.source == y && e.target == x)
  }

  // ---- The recursive SQL reader: sets of entities, one step at a time

  predicate StepsTo(g: Topology, f: Filter, level: set<EntityId>, y: EntityId) {
    && y in g.nodes && Within(g, f, y)
    && exists i :: 0 <= i < |g.edges| && Usable(f, g.edges[i]) && exists x :: x in level && Links(g.edges[i], x, y)
  }

  function Level(g: Topology, f: Filter, center: EntityId, k: nat): (level: set<EntityId>)
    ensures forall x :: x in level ==> x in g.nodes
  {
    if k == 0 then (if center in g.nodes then {center} else {})
    else
      var before := Level(g, f, center, k - 1);
      set y | y in g.nodes && StepsTo(g, f, before, y)
  }

  /** The least of the first `bound + 1` numbers that passes a test. */
  ghost function First(test: nat -> bool, bound: nat): (k: Option<nat>)
    ensures k.Some? ==> k.value <= bound && test(k.value) && forall j: nat :: j < k.value ==> !test(j)
    ensures k.None? ==> forall j: nat :: j <= bound ==> !test(j)
  {
    if bound > 0 && First(test, bound - 1).Some? then First(test, bound - 1)
    else if test(bound) then Some(bound)
    else None
  }

  ghost function WalkDepth(g: Topology, f: Filter, center: EntityId, depth: nat, y: EntityId): (d: Option<nat>)
    ensures d.Some? ==> d.value <= depth && y in Level(g, f, center, d.value)
                        && forall j: nat :: j < d.value ==> y !in Level(g, f, center, j)
    ensures d.None? ==> forall j: nat :: j <= depth ==> y !in Level(g, f, center, j)
  {
    var test := (k: nat) => y in Level(g, f, center, k);
    assert forall k: nat :: test(k) <==> y in Level(g, f, center, k);
    First(test, depth)
  }

  // ---- The graph-store reader: paths that never use a relationship twice

  /** `edges`, by position, lead through `nodes` from the centre. */
  ghost predicate Path(g: Topology, f: Filter, center: EntityId, nodes: seq<EntityId>, edges: seq<nat>) {
    && |nodes| == |edges| + 1 && nodes[0] == center
    && (forall i :: 0 <= i < |nodes| ==> nodes[i] in g.nodes)
    && (forall i :: 0 <= i < |edges| ==>
          edges[i] < |g.edges| && Usable(f, g.edges[edges[i]]) && Links(g.edges[edges[i]], nodes[i], nodes[i + 1]))
  }

  predicate Trail(edges: seq<nat>) {
    forall i, j :: 0 <= i < j < |edges| ==> edges[i] != edges[j]
  }

  /** Only the entity at the end of the path has to lie in a wanted namespace. */
  ghost predicate TrailTo(g: Topology, f: Filter, center: EntityId, y: EntityId, k: nat) {
    && Within(g, f, y)
    && exists nodes, edges :: Path(g, f, center, nodes, edges) && |edges| == k && nodes[k] == y && Trail(edges)
  }

  ghost function TrailDepth(g: Topology, f: Filter, center: EntityId, depth: nat, y: EntityId): (d: Option<nat>)
    ensures d.Some? ==> d.value <= depth && TrailTo(g, f, center, y, d.value)
                        && forall j: nat :: j < d.value ==> !TrailTo(g, f, center, y, j)
    ensures d.None? ==> forall j: nat :: j <= depth ==> !TrailTo(g, f, center, y, j)
  {
    var test := (k: nat) => TrailTo(g, f, center, y, k);
    assert forall k: nat :: test(k) <==> TrailTo(g, f, center, y, k);
    First(test, depth)
  }

  // ---- What a reader returns: nearest entities first, capped, and the facts between them

  ghost function Hits(nodes: seq<EntityId>, depthOf: EntityId -> Option<nat>): seq<Hit>
    decreases |nodes|
  {
    if nodes == [] then []
    else
      var front, y := Hits(nodes[..|nodes| - 1], depthOf), nodes[|nodes| - 1];
      if depthOf(y).Some? then front + [Hit(y, depthOf(y).value)] else front
  }

  function Nearest(h: Hit): Key {
    [h.depth, h.entity]
  }

  function FactsBetween(g: Topology, f: Filter, hits: seq<Hit>): set<FactId> {
    set e | e in g.edges && Usable(f, e) && (exists h :: h in hits && h.entity == e.source)
            && (exists h :: h in hits && h.entity == e.target) :: e.fact
  }

  ghost predicate Ascending(facts: seq<FactId>, among: set<FactId>) {
    (forall i, j :: 0 <= i < j < |facts| ==> facts[i] < facts[j]) && (forall x :: x in facts <==> x in among)
  }

  /** A reader's answer under a discovery limit; nothing found is no answer. */
  ghost predicate Answers(g: Topology, f: Filter, limit: nat, depthOf: EntityId -> Option<nat>, a: Option<Answer>) {
    var all := SortBy(Hits(g.nodes, depthOf), Nearest);
    if all == [] then a == None
    else
      && a.Some? && a.value.capped == (|all| > limit)
      && a.value.hits == (if |all| > limit then all[..limit] else all)
      && Ascending(a.value.facts, FactsBetween(g, f, a.value.hits))
  }

  ghost function WalkDepths(g: Topology, f: Filter, center: EntityId, depth: nat): EntityId -> Option<nat> {
    (y: EntityId) => WalkDepth(g, f, center, depth, y)
  }

  ghost function TrailDepths(g: Topology, f: Filter, center: EntityId, depth: nat): EntityId -> Option<nat> {
    (y: EntityId) => TrailDepth(g, f, center, depth, y)
  }

  ghost predicate WalkAnswers(g: Topology, f: Filter, center: EntityId, depth: nat, limit: nat, a: Option<Answer>) {
    Answers(g, f, limit, WalkDepths(g, f, center, depth), a)
  }

  /** The graph store is only asked up to three steps away, and only when its projection is not behind. */
  ghost predicate TrailAnswers(g: Topology, f: Filter, center: EntityId, depth: nat, limit: nat, behind: bool,
                               a: Option<Answer>)
    requires 1 <= depth <= 3
  {
    if behind then a == None else Answers(g, f, limit, TrailDepths(g, f, center, depth), a)
  }

  // ---- Walks and levels are the same thing

  ghost predicate Stays(g: Topology, f: Filter, nodes: seq<EntityId>) {
    forall i :: 1 <= i < |nodes| ==> Within(g, f, nodes[i])
  }

  lemma PathExtends(g: Topology, f: Filter, center: EntityId, nodes: seq<EntityId>, edges: seq<nat>, y: EntityId,
                    i: nat)
    requires Path(g, f, center, nodes, edges) && Stays(g, f, nodes) && y in g.nodes && Within(g, f, y)
    requires i < |g.edges| && Usable(f, g.edges[i]) && Links(g.edges[i], nodes[|edges|], y)
    ensures Path(g, f, center, nodes + [y], edges + [i]) && Stays(g, f, nodes + [y])
  {}

  lemma {:induction false} LevelHasPath(g: Topology, f: Filter, center: EntityId, k: nat, y: EntityId)
      returns (nodes: seq<EntityId>, edges: seq<nat>)
    requires y in Level(g, f, center, k)
    ensures Path(g, f, center, nodes, edges) && |edges| == k && nodes[k] == y && Stays(g, f, nodes)
  {
    if k == 0 {
      nodes, edges := [center], [];
    } else {
      var i :| 0 <= i < |g.edges| && Usable(f, g.edges[i])
               && exists x :: x in Level(g, f, center, k - 1) && Links(g.edges[i], x, y);
      var x :| x in Level(g, f, center, k - 1) && Links(g.edges[i], x, y);
      var ns, es := LevelHasPath(g, f, center, k - 1, x);
      nodes, edges := ns + [y], es + [i];
      PathExtends(g, f, center, ns, es, y, i);
    }
  }

  lemma {:induction false} PathIsInLevel(g: Topology, f: Filter, center: EntityId, nodes: seq<EntityId>,
                                         edges: seq<nat>)
    requires Path(g, f, center, nodes, edges) && Stays(g, f, nodes)
    ensures nodes[|edges|] in Level(g, f, center, |edges|)
    decreases |edges|
  {
    var k := |edges|;
    if k > 0 {
      PathIsInLevel(g, f, center, nodes[..k], edges[..k - 1]);
      assert nodes[k - 1] in Level(g, f, center, k - 1) && Links(g.edges[edges[k - 1]], nodes[k - 1], nodes[k]);
      assert nodes[k] in g.nodes;
    }
  }

  // ---- A walk that repeats a relationship can be cut short

  lemma CutPath(g: Topology, f: Filter, center: EntityId, nodes: seq<EntityId>, edges: seq<nat>, i: nat, j: nat)
    requires Path(g, f, center, nodes, edges) && i < j < |nodes| && nodes[i] == nodes[j]
    ensures Path(g, f, center, nodes[..i] + nodes[j..], edges[..i] + edges[j..])
    ensures var shorter := nodes[..i] + nodes[j..]; shorter[|shorter| - 1] == nodes[|nodes| - 1]
  {
    var ns, es := nodes[..i] + nodes[j..], edges[..i] + edges[j..];
    forall k | 0 <= k < |es|
      ensures es[k] < |g.edges| && Usable(f, g.edges[es[k]]) && Links(g.edges[es[k]], ns[k], ns[k + 1])
    {
      if k < i {
        assert es[k] == edges[k] && ns[k] == nodes[k];
        assert ns[k + 1] == nodes[k + 1];
      } else {
        assert es[k] == edges[k - i + j] && ns[k] == nodes[k - i + j] && ns[k + 1] == nodes[k - i + j + 1];
      }
    }
  }

  /** A repeated relationship means a repeated entity. */
  lemma RepeatedEntity(g: Topology, f: Filter, center: EntityId, nodes: seq<EntityId>, edges: seq<nat>, i: nat, j: nat)
      returns (a: nat, b: nat)
    requires Path(g, f, center, nodes, edges) && i < j < |edges| && edges[i] == edges[j]
    ensures a < b < |nodes| && nodes[a] == nodes[b]
  {
    assert Links(g.edges[edges[i]], nodes[i], nodes[i + 1]) && Links(g.edges[edges[j]], nodes[j], nodes[j + 1]);
    a, b := i, if nodes[i] == nodes[j] then j else j + 1;
  }

  /** Every walk can be cut to a trail between the same ends, no longer than it. */
  lemma {:induction false} WalkHasTrail(g: Topology, f: Filter, center: EntityId, nodes: seq<EntityId>, edges: seq<nat>)
      returns (ns: seq<EntityId>, es: seq<nat>)
    requires Path(g, f, center, nodes, edges)
    ensures Path(g, f, center, ns, es) && Trail(es) && |es| <= |edges| && ns[|es|] == nodes[|edges|]
    decreases |edges|
  {
    if Trail(edges) {
      ns, es := nodes, edges;
    } else {
      var i, j :| 0 <= i < j < |edges| && edges[i] == edges[j];
      var a, b := RepeatedEntity(g, f, center, nodes, edges, i, j);
      CutPath(g, f, center, nodes, edges, a, b);
      ns, es := WalkHasTrail(g, f, center, nodes[..a] + nodes[b..], edges[..a] + edges[b..]);
    }
  }

  /** Inside a namespace filter: whatever the walks find, other than the centre, the trails find no farther away. */
  lemma WalksAreTrails(g: Topology, f: Filter, center: EntityId, k: nat, y: EntityId)
    requires y in Level(g, f, center, k) && (y == center ==> Within(g, f, center))
    ensures exists k': nat :: k' <= k && TrailTo(g, f, center, y, k')
  {
    var nodes, edges := LevelHasPath(g, f, center, k, y);
    var ns, es := WalkHasTrail(g, f, center, nodes, edges);
    assert Within(g, f, y) by {
      if k > 0 { assert Within(g, f, nodes[k]); }
    }
    assert TrailTo(g, f, center, y, |es|);
  }

  lemma FilteredWalksInsideTrails(g: Topology, f: Filter, center: EntityId, depth: nat, y: EntityId)
    requires y != center && WalkDepth(g, f, center, depth, y).Some?
    ensures TrailDepth(g, f, center, depth, y).Some?
    ensures TrailDepth(g, f, center, depth, y).value <= WalkDepth(g, f, center, depth, y).value
  {
    var k := WalkDepth(g, f, center, depth, y).value;
    WalksAreTrails(g, f, center, k, y);
    var k': nat :| k' <= k && TrailTo(g, f, center, y, k');
  }

  lemma UnfilteredTrailsAreWalks(g: Topology, f: Filter, center: EntityId, k: nat, y: EntityId)
    requires f.namespaces == None && TrailTo(g, f, center, y, k)
    ensures y in Level(g, f, center, k)
  {
    var nodes, edges :| Path(g, f, center, nodes, edges) && |edges| == k && nodes[k] == y && Trail(edges);
    PathIsInLevel(g, f, center, nodes, edges);
  }

  /** Without a namespace filter both readers see every entity at the same least depth, or not at all. */
  lemma UnfilteredDepthsAgree(g: Topology, f: Filter, center: EntityId, depth: nat, y: EntityId)
    requires f.namespaces == None
    ensures WalkDepth(g, f, center, depth, y) == TrailDepth(g, f, center, depth, y)
  {
    var walk, trail := WalkDepth(g, f, center, depth, y), TrailDepth(g, f, center, depth, y);
    if walk.Some? {
      WalksAreTrails(g, f, center, walk.value, y);
      var k: nat :| k <= walk.value && TrailTo(g, f, center, y, k);
    }
    if trail.Some? {
      UnfilteredTrailsAreWalks(g, f, center, trail.value, y);
    }
  }

  lemma {:induction false} SameHits(nodes: seq<EntityId>, a: EntityId -> Option<nat>, b: EntityId -> Option<nat>)
    requires forall y :: y in nodes ==> a(y) == b(y)
    ensures Hits(nodes, a) == Hits(nodes, b)
    decreases |nodes|
  {
    if nodes != [] {
      assert nodes == nodes[..|nodes| - 1] + [nodes[|nodes| - 1]];
      SameHits(nodes[..|nodes| - 1], a, b);
    }
  }

  lemma BothEmpty(a: seq<FactId>, b: seq<FactId>, among: set<FactId>)
    requires Ascending(a, among) && Ascending(b, among)
    ensures a == [] <==> b == []
  {
    if a != [] { assert a[0] in among; }
    if b != [] { assert b[0] in among; }
  }

  lemma AscendingIsUnique(a: seq<FactId>, b: seq<FactId>, among: set<FactId>)
    requires Ascending(a, among) && Ascending(b, among)
    ensures a == b
    decreases |a|
  {
    BothEmpty(a, b, among);
    if a != [] {
      assert a[0] in among;
      var i :| 0 <= i < |b| && b[i] == a[0];
      assert b[0] in among;
      var j :| 0 <= j < |a| && a[j] == b[0];
      assert a[0] == b[0];
      TailAscends(a, among);
      TailAscends(b, among);
      AscendingIsUnique(a[1..], b[1..], among - {a[0]});
      assert a == [a[0]] + a[1..] && b == [b[0]] + b[1..];
    }
  }

  lemma TailAscends(a: seq<FactId>, among: set<FactId>)
    requires Ascending(a, among) && a != []
    ensures Ascending(a[1..], among - {a[0]})
  {
    var t := a[1..];
    forall x ensures x in t <==> x in among - {a[0]} {
      if x in t {
        var i :| 0 <= i < |t| && t[i] == x;
        assert a[i + 1] == x && x in a;
      }
      if x in among && x != a[0] {
        var i :| 0 <= i < |a| && a[i] == x;
        assert t[i - 1] == x;
      }
    }
  }

  lemma SameDepthsSameAnswer(g: Topology, f: Filter, limit: nat, walk: EntityId -> Option<nat>,
                             trail: EntityId -> Option<nat>,
                             a: Option<Answer>, b: Option<Answer>)
    requires Answers(g, f, limit, walk, a) && Answers(g, f, limit, trail, b)
    requires forall y :: y in g.nodes ==> walk(y) == trail(y)
    ensures a == b
  {
    SameHits(g.nodes, walk, trail);
    if a.Some? {
      AscendingIsUnique(a.value.facts, b.value.facts, FactsBetween(g, f, a.value.hits));
    }
  }

  /**
   * Without a namespace filter, over one edge set and with the projection up to date, the two readers give one answer:
   * the same entities at the same depths in the same order, cut at the same place, with the same facts between them.
   */
  lemma ReadersAgree(g: Topology, f: Filter, center: EntityId, depth: nat, limit: nat, a: Option<Answer>,
                     b: Option<Answer>)
    requires f.namespaces == None && 1 <= depth <= 3
    requires WalkAnswers(g, f, center, depth, limit, a) && TrailAnswers(g, f, center, depth, limit, false, b)
    ensures a == b
  {
    forall y ensures WalkDepth(g, f, center, depth, y) == TrailDepth(g, f, center, depth, y) {
      UnfilteredDepthsAgree(g, f, center, depth, y);
    }
    SameDepthsSameAnswer(g, f, limit, WalkDepths(g, f, center, depth), TrailDepths(g, f, center, depth), a, b);
  }

  // ---- With a filter: exactly when they agree

  function Open(f: Filter): Filter {
    f.(namespaces := None)
  }

  /** How far an entity is from the centre when namespaces are left aside. */
  ghost function Distance(g: Topology, f: Filter, center: EntityId, depth: nat, y: EntityId): Option<nat> {
    WalkDepth(g, Open(f), center, depth, y)
  }

  lemma TrailIgnoresNamespaces(g: Topology, f: Filter, center: EntityId, y: EntityId, k: nat)
    ensures TrailTo(g, f, center, y, k) <==> Within(g, f, y) && TrailTo(g, Open(f), center, y, k)
  {
    if TrailTo(g, f, center, y, k) {
      var nodes, edges :| Path(g, f, center, nodes, edges) && |edges| == k && nodes[k] == y && Trail(edges);
      assert Path(g, Open(f), center, nodes, edges);
    }
    if Within(g, f, y) && TrailTo(g, Open(f), center, y, k) {
      var nodes, edges :| Path(g, Open(f), center, nodes, edges) && |edges| == k && nodes[k] == y && Trail(edges);
      assert Path(g, f, center, nodes, edges);
    }
  }

  /** The trails find exactly the entities of wanted namespaces, each at its distance. */
  lemma TrailDepthIsDistance(g: Topology, f: Filter, center: EntityId, depth: nat, y: EntityId)
    ensures TrailDepth(g, f, center, depth, y) == if Within(g, f, y) then Distance(g, f, center, depth, y) else None
  {
    UnfilteredDepthsAgree(g, Open(f), center, depth, y);
    var d, open := TrailDepth(g, f, center, depth, y), TrailDepth(g, Open(f), center, depth, y);
    if d.Some? { TrailIgnoresNamespaces(g, f, center, y, d.value); }
    if open.Some? { TrailIgnoresNamespaces(g, f, center, y, open.value); }
  }

  /** A path of this length leads to `y` and past the centre never leaves the wanted namespaces. */
  ghost predicate KeptPath(g: Topology, f: Filter, center: EntityId, y: EntityId, d: nat) {
    exists nodes, edges :: Path(g, f, center, nodes, edges) && |edges| == d && nodes[d] == y && Stays(g, f, nodes)
  }

  lemma KeptPathIsLevel(g: Topology, f: Filter, center: EntityId, y: EntityId, d: nat)
    ensures KeptPath(g, f, center, y, d) <==> y in Level(g, f, center, d)
  {
    if KeptPath(g, f, center, y, d) {
      var nodes, edges :| Path(g, f, center, nodes, edges) && |edges| == d && nodes[d] == y && Stays(g, f, nodes);
      PathIsInLevel(g, f, center, nodes, edges);
    }
    if y in Level(g, f, center, d) {
      var nodes, edges := LevelHasPath(g, f, center, d, y);
    }
  }

  /** The filter does not come between the centre and `y`: one of the shortest paths to a wanted entity stays wanted. */
  ghost predicate Undisturbed(g: Topology, f: Filter, center: EntityId, depth: nat, y: EntityId) {
    if y == center then center in g.nodes ==> Within(g, f, center)
    else
      var d := Distance(g, f, center, depth, y);
      Within(g, f, y) && d.Some? ==> KeptPath(g, f, center, y, d.value)
  }

  lemma CentreDepths(g: Topology, f: Filter, center: EntityId, depth: nat)
    ensures WalkDepth(g, f, center, depth, center) == if center in g.nodes then Some(0) else None
    ensures Distance(g, f, center, depth, center) == if center in g.nodes then Some(0) else None
  {
    if center in g.nodes {
      assert center in Level(g, f, center, 0) && center in Level(g, Open(f), center, 0);
    } else {
      forall k: nat ensures center !in Level(g, f, center, k) && center !in Level(g, Open(f), center, k) {}
    }
  }

  /** The two readers see an entity at one depth, or both do not see it, exactly when the filter does not disturb it. */
  lemma DepthsAgreeExactly(g: Topology, f: Filter, center: EntityId, depth: nat, y: EntityId)
    ensures WalkDepth(g, f, center, depth, y) == TrailDepth(g, f, center, depth, y)
            <==> Undisturbed(g, f, center, depth, y)
  {
    var walk, trail := WalkDepth(g, f, center, depth, y), TrailDepth(g, f, center, depth, y);
    TrailDepthIsDistance(g, f, center, depth, y);
    if y == center {
      CentreDepths(g, f, center, depth);
    } else {
      if walk.Some? { FilteredWalksInsideTrails(g, f, center, depth, y); }
      if trail.Some? { KeptPathIsLevel(g, f, center, y, trail.value); }
    }
  }

  ghost predicate AlwaysAgree(g: Topology, f: Filter, center: EntityId, depth: nat)
    requires 1 <= depth <= 3
  {
    forall limit: nat, a, b :: WalkAnswers(g, f, center, depth, limit, a)
           && TrailAnswers(g, f, center, depth, limit, false, b)
      ==> a == b
  }

  lemma {:induction false} HitsMembers(nodes: seq<EntityId>, depthOf: EntityId -> Option<nat>, h: Hit)
    ensures h in Hits(nodes, depthOf) <==> h.entity in nodes && depthOf(h.entity) == Some(h.depth)
    decreases |nodes|
  {
    if nodes != [] {
      assert nodes == nodes[..|nodes| - 1] + [nodes[|nodes| - 1]];
      HitsMembers(nodes[..|nodes| - 1], depthOf, h);
    }
  }

  lemma {:induction false} LeastOf(among: set<FactId>) returns (m: FactId)
    requires among != {}
    ensures m in among && forall x :: x in among ==> m <= x
    decreases |among|
  {
    m :| m in among;
    var rest := among - {m};
    assert among == rest + {m};
    if rest != {} {
      var n := LeastOf(rest);
      if n < m { m := n; }
    }
  }

  lemma {:induction false} AscendingExists(among: set<FactId>) returns (facts: seq<FactId>)
    ensures Ascending(facts, among)
    decreases |among|
  {
    if among == {} {
      facts := [];
    } else {
      var m := LeastOf(among);
      var rest := AscendingExists(among - {m});
      facts := [m] + rest;
      forall i | 0 <= i < |rest| ensures m < rest[i] {
        assert rest[i] in among - {m};
      }
    }
  }

  /** Under a limit that cuts nothing a reader has an answer, and it lists all its hits. */
  lemma AnswerExists(g: Topology, f: Filter, limit: nat, depthOf: EntityId -> Option<nat>) returns (a: Option<Answer>)
    requires |Hits(g.nodes, depthOf)| <= limit
    ensures Answers(g, f, limit, depthOf, a)
    ensures forall h :: h in Hits(g.nodes, depthOf) <==> a.Some? && h in a.value.hits
  {
    var all := SortBy(Hits(g.nodes, depthOf), Nearest);
    SortKeepsMembers(Hits(g.nodes, depthOf), Nearest);
    if all == [] {
      a := None;
    } else {
      var facts := AscendingExists(FactsBetween(g, f, all));
      a := Some(Answer(all, facts, false));
    }
  }

  lemma DisturbedShows(g: Topology, f: Filter, center: EntityId, depth: nat, y: EntityId)
    requires 1 <= depth <= 3 && y in g.nodes && !Undisturbed(g, f, center, depth, y)
    ensures !AlwaysAgree(g, f, center, depth)
  {
    var walk, trail := WalkDepths(g, f, center, depth), TrailDepths(g, f, center, depth);
    var limit := |Hits(g.nodes, walk)| + |Hits(g.nodes, trail)|;
    DepthsAgreeExactly(g, f, center, depth, y);
    assert walk(y) != trail(y);
    var a := AnswerExists(g, f, limit, walk);
    var b := AnswerExists(g, f, limit, trail);
    var h := if walk(y).Some? then Hit(y, walk(y).value) else Hit(y, trail(y).value);
    HitsMembers(g.nodes, walk, h);
    HitsMembers(g.nodes, trail, h);
    assert a != b;
    assert WalkAnswers(g, f, center, depth, limit, a) && TrailAnswers(g, f, center, depth, limit, false, b);
  }

  /** The two readers give one answer under every limit exactly when the filter disturbs no entity of the topology. */
  lemma ReadersAgreeExactly(g: Topology, f: Filter, center: EntityId, depth: nat)
    requires 1 <= depth <= 3
    ensures AlwaysAgree(g, f, center, depth) <==> forall y :: y in g.nodes ==> Undisturbed(g, f, center, depth, y)
  {
    if y :| y in g.nodes && !Undisturbed(g, f, center, depth, y) {
      DisturbedShows(g, f, center, depth, y);
    } else {
      forall limit: nat, a, b | WalkAnswers(g, f, center, depth, limit, a)
             && TrailAnswers(g, f, center, depth, limit, false, b)
        ensures a == b
      {
        forall y | y in g.nodes ensures WalkDepth(g, f, center, depth, y) == TrailDepth(g, f, center, depth, y) {
          DepthsAgreeExactly(g, f, center, depth, y);
        }
        SameDepthsSameAnswer(g, f, limit, WalkDepths(g, f, center, depth), TrailDepths(g, f, center, depth), a, b);
      }
    }
  }

  // ---- With a filter they can differ

  function Chain(): Topology {
    Topology([0, 1, 2], map[0 := "wanted", 1 := "other", 2 := "wanted"],
             [Edge(10, 0, 1, "USES", 1.0), Edge(11, 1, 2, "USES", 1.0)])
  }

  const WANTED := Filter(None, Some({"wanted"}), 0.0)

  /** An entity behind one outside the namespace is found by the trails and lost to the walks. */
  lemma FilteredReadersDiffer()
    ensures TrailTo(Chain(), WANTED, 0, 2, 2) && forall k :: 2 !in Level(Chain(), WANTED, 0, k)
  {
    var nodes, edges: seq<nat> := [0, 1, 2], [0, 1];
    assert Path(Chain(), WANTED, 0, nodes, edges) && nodes[2] == 2;
    forall k ensures 2 !in Level(Chain(), WANTED, 0, k) { ChainLevels(k); }
  }

  lemma {:induction false} ChainLevels(k: nat)
    ensures Level(Chain(), WANTED, 0, k) <= {0}
  {
    if k > 0 {
      ChainLevels(k - 1);
      assert "other"[0] != "wanted"[0];
    }
  }

  /** A centre outside the namespace is always an answer of the walks and never one of the trails. */
  lemma CentreIsFilteredOnlyByTrails(g: Topology, f: Filter, center: EntityId, depth: nat)
    requires center in g.nodes && !Within(g, f, center)
    ensures WalkDepth(g, f, center, depth, center) == Some(0) && TrailDepth(g, f, center, depth, center) == None
  {
    assert center in Level(g, f, center, 0);
  }
}
