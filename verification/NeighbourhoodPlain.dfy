// What the neighbourhood readers answer, in terms of the rows of the topology.

module NeighbourhoodPlain {
  import opened Ordering
  import opened Neighbourhood

  /** Some edge of a wanted relation and enough confidence has these two ends, whichever way it points. */
  predicate Neighbours(g: Topology, f: Filter, x: EntityId, y: EntityId) {
    exists e :: e in g.edges && (f.relations == None || e.relation in f.relations.value)
                && f.minConfidence <= e.confidence && {e.source, e.target} == {x, y}
  }

  predicate Wanted(g: Topology, f: Filter, x: EntityId) {
    f.namespaces == None || (x in g.namespaces && g.namespaces[x] in f.namespaces.value)
  }

  /** Entities of the topology, each a neighbour of the one before and, past the first, in a wanted namespace. */
  predicate Route(g: Topology, f: Filter, nodes: seq<EntityId>) {
    && (forall i :: 0 <= i < |nodes| ==> nodes[i] in g.nodes && (i > 0 ==> Wanted(g, f, nodes[i])))
    && (forall i :: 0 <= i < |nodes| - 1 ==> Neighbours(g, f, nodes[i], nodes[i + 1]))
  }

  predicate RouteTo(g: Topology, f: Filter, nodes: seq<EntityId>, x: EntityId, y: EntityId, k: nat) {
    Route(g, f, nodes) && |nodes| == k + 1 && nodes[0] == x && nodes[k] == y
  }

  ghost predicate Reaches(g: Topology, f: Filter, x: EntityId, y: EntityId, k: nat) {
    exists nodes :: RouteTo(g, f, nodes, x, y, k)
  }

  lemma NeighboursAreLinked(g: Topology, f: Filter, x: EntityId, y: EntityId)
    ensures Neighbours(g, f, x, y)
            <==> exists i :: 0 <= i < |g.edges| && Usable(f, g.edges[i]) && Links(g.edges[i], x, y)
  {
    forall e | e in g.edges ensures {e.source, e.target} == {x, y} <==> Links(e, x, y) {
      EndsAreLinks(e, x, y);
    }
    if i :| 0 <= i < |g.edges| && Usable(f, g.edges[i]) && Links(g.edges[i], x, y) {
      assert g.edges[i] in g.edges;
    }
  }

  lemma EndsAreLinks(e: Edge, x: EntityId, y: EntityId)
    ensures {e.source, e.target} == {x, y} <==> Links(e, x, y)
  {
    if {e.source, e.target} == {x, y} {
      assert e.source in {x, y} && e.target in {x, y} && x in {e.source, e.target} && y in {e.source, e.target};
    }
  }

  lemma {:induction false} LevelIsReach(g: Topology, f: Filter, x: EntityId, y: EntityId, k: nat)
    ensures y in Level(g, f, x, k) <==> Reaches(g, f, x, y, k)
  {
    if y in Level(g, f, x, k) {
      var nodes := LevelHasRoute(g, f, x, y, k);
    }
    if nodes :| RouteTo(g, f, nodes, x, y, k) {
      RouteIsInLevel(g, f, nodes, x, y, k);
    }
  }

  lemma {:induction false} LevelHasRoute(g: Topology, f: Filter, x: EntityId, y: EntityId, k: nat)
      returns (nodes: seq<EntityId>)
    requires y in Level(g, f, x, k)
    ensures RouteTo(g, f, nodes, x, y, k)
    decreases k
  {
    if k == 0 {
      nodes := [x];
    } else {
      var z := Before(g, f, x, y, k);
      var front := LevelHasRoute(g, f, x, z, k - 1);
      NeighboursAreLinked(g, f, z, y);
      nodes := front + [y];
    }
  }

  lemma Before(g: Topology, f: Filter, x: EntityId, y: EntityId, k: nat) returns (z: EntityId)
    requires k > 0 && y in Level(g, f, x, k)
    ensures z in Level(g, f, x, k - 1)
            && exists i :: 0 <= i < |g.edges| && Usable(f, g.edges[i]) && Links(g.edges[i], z, y)
  {
    var i :| 0 <= i < |g.edges| && Usable(f, g.edges[i])
             && exists x' :: x' in Level(g, f, x, k - 1) && Links(g.edges[i], x', y);
    z :| z in Level(g, f, x, k - 1) && Links(g.edges[i], z, y);
  }

  lemma {:induction false} RouteIsInLevel(g: Topology, f: Filter, nodes: seq<EntityId>, x: EntityId, y: EntityId,
                                          k: nat)
    requires RouteTo(g, f, nodes, x, y, k)
    ensures y in Level(g, f, x, k)
    decreases k
  {
    if k > 0 {
      var z := nodes[k - 1];
      assert RouteTo(g, f, nodes[..k], x, z, k - 1);
      RouteIsInLevel(g, f, nodes[..k], x, z, k - 1);
      NeighboursAreLinked(g, f, z, y);
      assert Wanted(g, f, nodes[k]) && nodes[k] in g.nodes;
    }
  }

  /** The recursive reader finds an entity at the length of the shortest route to it, within the depth asked for. */
  lemma WalkDepthIsShortest(g: Topology, f: Filter, x: EntityId, depth: nat, y: EntityId, k: nat)
    ensures WalkDepth(g, f, x, depth, y) == Some(k)
            <==> k <= depth && Reaches(g, f, x, y, k) && forall j: nat :: j < k ==> !Reaches(g, f, x, y, j)
  {
    forall j: nat ensures y in Level(g, f, x, j) <==> Reaches(g, f, x, y, j) { LevelIsReach(g, f, x, y, j); }
  }

  /** The graph store's reader at the shortest of all routes, provided the entity itself is wanted. */
  lemma TrailDepthIsShortest(g: Topology, f: Filter, x: EntityId, depth: nat, y: EntityId, k: nat)
    ensures TrailDepth(g, f, x, depth, y) == Some(k)
            <==> Wanted(g, f, y) && k <= depth && Reaches(g, Open(f), x, y, k)
                 && forall j: nat :: j < k ==> !Reaches(g, Open(f), x, y, j)
  {
    TrailDepthIsDistance(g, f, x, depth, y);
    WalkDepthIsShortest(g, Open(f), x, depth, y, k);
  }

  // ---- Both ways

  function Reversed(s: seq<EntityId>): (r: seq<EntityId>)
    ensures |r| == |s| && forall i :: 0 <= i < |s| ==> r[i] == s[|s| - 1 - i]
  {
    seq(|s|, i requires 0 <= i < |s| => s[|s| - 1 - i])
  }

  lemma RouteReversed(g: Topology, f: Filter, nodes: seq<EntityId>, x: EntityId, y: EntityId, k: nat)
    requires f.namespaces == None && RouteTo(g, f, nodes, x, y, k)
    ensures RouteTo(g, f, Reversed(nodes), y, x, k)
  {
    var back := Reversed(nodes);
    forall i | 0 <= i < |back| ensures back[i] in g.nodes { assert nodes[|nodes| - 1 - i] in g.nodes; }
    forall i | 0 <= i < |back| - 1 ensures Neighbours(g, f, back[i], back[i + 1]) {
      var j := |nodes| - 2 - i;
      assert Neighbours(g, f, nodes[j], nodes[j + 1]);
      NeighboursBack(g, f, nodes[j], nodes[j + 1]);
    }
  }

  lemma NeighboursBack(g: Topology, f: Filter, x: EntityId, y: EntityId)
    requires Neighbours(g, f, x, y)
    ensures Neighbours(g, f, y, x)
  {
    assert {x, y} == {y, x};
  }

  lemma ReachesBack(g: Topology, f: Filter, x: EntityId, y: EntityId, k: nat)
    requires f.namespaces == None && Reaches(g, f, x, y, k)
    ensures Reaches(g, f, y, x, k)
  {
    var nodes :| RouteTo(g, f, nodes, x, y, k);
    RouteReversed(g, f, nodes, x, y, k);
  }

  lemma DepthIsNoLonger(g: Topology, f: Filter, x: EntityId, depth: nat, y: EntityId)
    requires f.namespaces == None && WalkDepth(g, f, x, depth, y).Some?
    ensures WalkDepth(g, f, y, depth, x).Some?
    ensures WalkDepth(g, f, y, depth, x).value <= WalkDepth(g, f, x, depth, y).value
  {
    var k := WalkDepth(g, f, x, depth, y).value;
    LevelIsReach(g, f, x, y, k);
    ReachesBack(g, f, x, y, k);
    LevelIsReach(g, f, y, x, k);
  }

  /** Without a namespace filter an entity sees another as far away as it is seen from it. */
  lemma DepthIsSymmetric(g: Topology, f: Filter, x: EntityId, depth: nat, y: EntityId)
    requires f.namespaces == None
    ensures WalkDepth(g, f, x, depth, y) == WalkDepth(g, f, y, depth, x)
  {
    if WalkDepth(g, f, x, depth, y).Some? { DepthIsNoLonger(g, f, x, depth, y); }
    if WalkDepth(g, f, y, depth, x).Some? { DepthIsNoLonger(g, f, y, depth, x); }
  }

  /** Whichever end of a wanted edge is the centre, the other end is one step away. */
  lemma EdgesReachBothWays(g: Topology, f: Filter, e: Edge, depth: nat)
    requires f.namespaces == None && depth >= 1 && e in g.edges && e.source in g.nodes && e.target in g.nodes
    requires e.source != e.target && e.confidence >= f.minConfidence
    requires f.relations.Some? ==> e.relation in f.relations.value
    ensures WalkDepth(g, f, e.source, depth, e.target) == Some(1)
    ensures WalkDepth(g, f, e.target, depth, e.source) == Some(1)
  {
    var x, y := e.source, e.target;
    assert Neighbours(g, f, x, y);
    assert RouteTo(g, f, [x, y], x, y, 1);
    LevelIsReach(g, f, x, y, 1);
    LevelIsReach(g, f, x, y, 0);
    DepthIsSymmetric(g, f, x, depth, y);
  }

  // ---- The answer

  predicate Nearer(a: Hit, b: Hit) {
    a.depth < b.depth || (a.depth == b.depth && a.entity < b.entity)
  }

  predicate HitOn(hits: seq<Hit>, x: EntityId) {
    exists h :: h in hits && h.entity == x
  }

  /** Every entity seen, or the nearest of them up to the limit; and the wanted facts that join two of those listed. */
  ghost predicate Tells(g: Topology, f: Filter, limit: nat, depthOf: EntityId -> Option<nat>, a: Answer) {
    && (forall h :: h in a.hits ==> h.entity in g.nodes && depthOf(h.entity) == Some(h.depth))
    && (forall i, j :: 0 <= i < j < |a.hits| ==> !Nearer(a.hits[j], a.hits[i]))
    && (a.capped ==> |a.hits| == limit)
    && (forall y :: y in g.nodes && depthOf(y).Some? && !HitOn(a.hits, y) ==>
          a.capped && forall h :: h in a.hits ==> !Nearer(Hit(y, depthOf(y).value), h))
    && (forall i, j :: 0 <= i < j < |a.facts| ==> a.facts[i] < a.facts[j])
    && (forall x :: x in a.facts <==>
          exists e :: e in g.edges && e.fact == x && (f.relations == None || e.relation in f.relations.value)
                      && f.minConfidence <= e.confidence && HitOn(a.hits, e.source) && HitOn(a.hits, e.target))
  }

  lemma NearestReads(a: Hit, b: Hit)
    ensures Less(Nearest(a), Nearest(b)) <==> Nearer(a, b)
  {
    NumberDecides(a.entity, b.entity, [], []);
    NumberDecides(a.depth, b.depth, [a.entity], [b.entity]);
    assert Nearest(a) == [a.depth] + [a.entity] && Nearest(b) == [b.depth] + [b.entity];
  }

  lemma SortedHits(g: Topology, depthOf: EntityId -> Option<nat>)
    ensures var all := SortBy(Hits(g.nodes, depthOf), Nearest);
            && (forall h :: h in all <==> h.entity in g.nodes && depthOf(h.entity) == Some(h.depth))
            && (forall i, j :: 0 <= i < j < |all| ==> !Nearer(all[j], all[i]))
  {
    var hits, all := Hits(g.nodes, depthOf), SortBy(Hits(g.nodes, depthOf), Nearest);
    SortKeepsMembers(hits, Nearest);
    SortSorts(hits, Nearest);
    forall h ensures h in all <==> h.entity in g.nodes && depthOf(h.entity) == Some(h.depth) {
      HitsMembers(g.nodes, depthOf, h);
    }
    forall i, j | 0 <= i < j < |all| ensures !Nearer(all[j], all[i]) { NearestReads(all[j], all[i]); }
  }

  lemma NothingSeen(g: Topology, depthOf: EntityId -> Option<nat>)
    ensures SortBy(Hits(g.nodes, depthOf), Nearest) == [] <==> forall y :: y in g.nodes ==> depthOf(y).None?
  {
    var all := SortBy(Hits(g.nodes, depthOf), Nearest);
    SortedHits(g, depthOf);
    if y :| y in g.nodes && depthOf(y).Some? {
      assert Hit(y, depthOf(y).value) in all;
    }
    if all != [] {
      assert all[0] in all;
    }
  }

  lemma OmittedIsFarther(g: Topology, depthOf: EntityId -> Option<nat>, limit: nat, y: EntityId, h: Hit)
    requires var all := SortBy(Hits(g.nodes, depthOf), Nearest);
             limit < |all| && h in all[..limit] && !HitOn(all[..limit], y) && y in g.nodes && depthOf(y).Some?
    ensures !Nearer(Hit(y, depthOf(y).value), h)
  {
    var all := SortBy(Hits(g.nodes, depthOf), Nearest);
    SortedHits(g, depthOf);
    var i :| 0 <= i < limit && all[i] == h;
    var j :| 0 <= j < |all| && all[j] == Hit(y, depthOf(y).value);
    forall x | 0 <= x < limit ensures all[x].entity != y { assert all[..limit][x] in all[..limit]; }
  }

  lemma FactsAreBetween(g: Topology, f: Filter, hits: seq<Hit>, x: FactId)
    ensures x in FactsBetween(g, f, hits) <==>
            exists e :: e in g.edges && e.fact == x && (f.relations == None || e.relation in f.relations.value)
                        && f.minConfidence <= e.confidence && HitOn(hits, e.source) && HitOn(hits, e.target)
  {
    if x in FactsBetween(g, f, hits) {
      var e :| e in g.edges && Usable(f, e) && (exists h :: h in hits && h.entity == e.source)
               && (exists h :: h in hits && h.entity == e.target) && e.fact == x;
      assert HitOn(hits, e.source) && HitOn(hits, e.target);
    }
  }

  lemma AnswerTells(g: Topology, f: Filter, limit: nat, depthOf: EntityId -> Option<nat>, a: Option<Answer>)
    requires Answers(g, f, limit, depthOf, a)
    ensures a.None? <==> forall y :: y in g.nodes ==> depthOf(y).None?
    ensures a.Some? ==> Tells(g, f, limit, depthOf, a.value)
  {
    var all := SortBy(Hits(g.nodes, depthOf), Nearest);
    SortedHits(g, depthOf);
    NothingSeen(g, depthOf);
    if a.Some? {
      forall y | y in g.nodes && depthOf(y).Some? && !HitOn(a.value.hits, y)
        ensures a.value.capped && forall h :: h in a.value.hits ==> !Nearer(Hit(y, depthOf(y).value), h)
      {
        assert Hit(y, depthOf(y).value) in all;
        forall h | h in a.value.hits ensures !Nearer(Hit(y, depthOf(y).value), h) {
          OmittedIsFarther(g, depthOf, limit, y, h);
        }
      }
      FactsTold(g, f, a.value);
    }
  }

  lemma FactsTold(g: Topology, f: Filter, a: Answer)
    requires Ascending(a.facts, FactsBetween(g, f, a.hits))
    ensures forall x :: x in a.facts <==>
            exists e :: e in g.edges && e.fact == x && (f.relations == None || e.relation in f.relations.value)
                        && f.minConfidence <= e.confidence && HitOn(a.hits, e.source) && HitOn(a.hits, e.target)
  {
    forall x ensures x in a.facts <==>
            exists e :: e in g.edges && e.fact == x && (f.relations == None || e.relation in f.relations.value)
                        && f.minConfidence <= e.confidence && HitOn(a.hits, e.source) && HitOn(a.hits, e.target)
    {
      FactsAreBetween(g, f, a.hits, x);
    }
  }

  /** The recursive reader's answer in those terms. */
  lemma WalkAnswerTells(g: Topology, f: Filter, center: EntityId, depth: nat, limit: nat, a: Option<Answer>)
    requires WalkAnswers(g, f, center, depth, limit, a)
    ensures a.None? <==> center !in g.nodes
    ensures a.Some? ==> Tells(g, f, limit, WalkDepths(g, f, center, depth), a.value)
  {
    AnswerTells(g, f, limit, WalkDepths(g, f, center, depth), a);
    CentreDepths(g, f, center, depth);
    if center !in g.nodes {
      forall y ensures WalkDepths(g, f, center, depth)(y).None? {
        forall k: nat ensures y !in Level(g, f, center, k) { NoCentreNoLevel(g, f, center, k); }
      }
    }
  }

  lemma {:induction false} NoCentreNoLevel(g: Topology, f: Filter, center: EntityId, k: nat)
    requires center !in g.nodes
    ensures Level(g, f, center, k) == {}
  {
    if k > 0 { NoCentreNoLevel(g, f, center, k - 1); }
  }

  /** And the graph store's, which has none while its projection is behind. */
  lemma TrailAnswerTells(g: Topology, f: Filter, center: EntityId, depth: nat, limit: nat, behind: bool,
                         a: Option<Answer>)
    requires 1 <= depth <= 3 && TrailAnswers(g, f, center, depth, limit, behind, a)
    ensures behind ==> a.None?
    ensures a.Some? ==> Tells(g, f, limit, TrailDepths(g, f, center, depth), a.value)
  {
    if !behind { AnswerTells(g, f, limit, TrailDepths(g, f, center, depth), a); }
  }
}
