// When grouping rules by key is harmless: an exact condition on the policy alone.

module TraversalPolicy {
  import opened Ordering
  import opened Estate
  import opened Traversal
  import opened TraversalSound
  import opened TraversalReach
  import opened TraversalBudget

  /** Some rule for this relation and direction takes an entity of `kind` at depth `d` to one of type `target`. */
  predicate Grants(p: Policy, how: Reading, kind: string, d: nat, relation: string, dir: Direction, target: string) {
    exists r :: r in p.edges && r.relation == relation && r.direction == dir && Admits(p, r, kind, d)
                && TypeAllowed(Guard(p, how, r), target)
  }

  /** The types the rules can lead to, one by one, from seeds of any type at depth `d0`. */
  predicate Arises(p: Policy, d0: nat, kind: string, d: nat)
    decreases d
  {
    if d <= d0 then d == d0
    else exists r, k :: r in p.edges && k in r.fromTypes && Admits(p, r, k, d - 1) && TypeAllowed(r, kind)
                        && Arises(p, d0, k, d - 1)
  }

  ghost predicate Agrees(p: Policy, kind: string, d: nat) {
    forall relation: string, dir: Direction, target: string ::
      Grants(p, AsGrouped, kind, d, relation, dir, target) <==> Grants(p, AsWritten, kind, d, relation, dir, target)
  }

  ghost predicate AgreesAt(p: Policy, d0: nat, d: nat) {
    forall kind: string :: Arises(p, d0, kind, d) ==> Agrees(p, kind, d)
  }

  /** Wherever a walk from depth `d0` can get, grouping grants exactly what the rules, read one by one, grant. */
  ghost predicate Coherent(p: Policy, d0: nat) {
    forall d: nat :: AgreesAt(p, d0, d)
  }

  lemma CoherentAgrees(p: Policy, d0: nat, kind: string, d: nat)
    requires Coherent(p, d0) && Arises(p, d0, kind, d)
    ensures Agrees(p, kind, d)
  {
    assert AgreesAt(p, d0, d);
  }

  ghost predicate UniqueKeys(p: Policy) {
    forall r, q :: r in p.edges && q in p.edges && KeyOf(r) == KeyOf(q) ==> r == q
  }

  /** No two rules with one (predicate, direction, classification) key: the usual way to be coherent. */
  lemma UniqueKeysAreCoherent(p: Policy, d0: nat)
    requires UniqueKeys(p)
    ensures Coherent(p, d0)
  {
    forall r | r in p.edges ensures Guard(p, AsGrouped, r) == Guard(p, AsWritten, r) {}
    forall d: nat ensures AgreesAt(p, d0, d) {
      forall kind: string | Arises(p, d0, kind, d) ensures Agrees(p, kind, d) {
        SameGuardsAgree(p, kind, d);
      }
    }
  }

  lemma SameGuardsAgree(p: Policy, kind: string, d: nat)
    requires forall r :: r in p.edges ==> Guard(p, AsGrouped, r) == Guard(p, AsWritten, r)
    ensures Agrees(p, kind, d)
  {
    forall relation, dir, target
      ensures Grants(p, AsGrouped, kind, d, relation, dir, target)
              <==> Grants(p, AsWritten, kind, d, relation, dir, target)
    {
      if Grants(p, AsGrouped, kind, d, relation, dir, target) {
        var r :| r in p.edges && r.relation == relation && r.direction == dir && Admits(p, r, kind, d)
                 && TypeAllowed(Guard(p, AsGrouped, r), target);
        assert TypeAllowed(Guard(p, AsWritten, r), target);
      }
      if Grants(p, AsWritten, kind, d, relation, dir, target) {
        var r :| r in p.edges && r.relation == relation && r.direction == dir && Admits(p, r, kind, d)
                 && TypeAllowed(Guard(p, AsWritten, r), target);
        assert TypeAllowed(Guard(p, AsGrouped, r), target);
      }
    }
  }

  // ---- Coherence can be checked rule by rule

  predicate GrantsAll(p: Policy, how: Reading, kind: string, d: nat, relation: string, dir: Direction) {
    exists r :: r in p.edges && r.relation == relation && r.direction == dir && Admits(p, r, kind, d)
                && Guard(p, how, r).toTypes == {}
  }

  /** Whatever one reading lets this rule lead to, the other lets some rule lead to. */
  predicate Carried(p: Policy, how: Reading, other: Reading, r: Rule, kind: string, d: nat)
    requires r in p.edges
  {
    var to := Guard(p, how, r).toTypes;
    if to == {} then GrantsAll(p, other, kind, d, r.relation, r.direction)
    else forall target :: target in to ==> Grants(p, other, kind, d, r.relation, r.direction, target)
  }

  /** A finite check: every rule, each type it starts from, each depth it is admitted at and that type arises at. */
  predicate Checked(p: Policy, d0: nat) {
    forall r, kind, d: nat | r in p.edges && kind in r.fromTypes && d < r.maxDepth && Admits(p, r, kind, d)
                             && Arises(p, d0, kind, d) ::
      Carried(p, AsGrouped, AsWritten, r, kind, d) && Carried(p, AsWritten, AsGrouped, r, kind, d)
  }

  lemma {:induction false} LengthBound(texts: set<string>) returns (n: nat)
    ensures forall s :: s in texts ==> |s| <= n
    decreases |texts|
  {
    if texts == {} {
      n := 0;
    } else {
      var s :| s in texts;
      var m := LengthBound(texts - {s});
      n := if m < |s| then |s| else m;
    }
  }

  /** Some type is named by no rule. */
  lemma UnnamedType(p: Policy) returns (unnamed: string)
    ensures forall r :: r in p.edges ==> unnamed !in r.toTypes
  {
    var named := set r, target | r in p.edges && target in r.toTypes :: target;
    var n := LengthBound(named);
    unnamed := seq(n + 1, i => 'x');
    assert |unnamed| == n + 1 && unnamed !in named;
  }

  lemma CheckedCarries(p: Policy, d0: nat, how: Reading, other: Reading, kind: string, d: nat, relation: string,
                       dir: Direction, target: string)
    requires Checked(p, d0) && Arises(p, d0, kind, d) && how != other
    requires Grants(p, how, kind, d, relation, dir, target)
    ensures Grants(p, other, kind, d, relation, dir, target)
  {
    var r :| r in p.edges && r.relation == relation && r.direction == dir && Admits(p, r, kind, d)
             && TypeAllowed(Guard(p, how, r), target);
    assert Carried(p, how, other, r, kind, d);
    if Guard(p, how, r).toTypes == {} {
      var q :| q in p.edges && q.relation == relation && q.direction == dir && Admits(p, q, kind, d)
               && Guard(p, other, q).toTypes == {};
      assert TypeAllowed(Guard(p, other, q), target);
    }
  }

  lemma AgreeingCarries(p: Policy, how: Reading, other: Reading, r: Rule, kind: string, d: nat)
    requires Agrees(p, kind, d) && r in p.edges && Admits(p, r, kind, d)
    ensures Carried(p, how, other, r, kind, d)
  {
    var to := Guard(p, how, r).toTypes;
    if to == {} {
      var unnamed := UnnamedType(p);
      assert TypeAllowed(Guard(p, how, r), unnamed);
      assert Grants(p, how, kind, d, r.relation, r.direction, unnamed);
      assert Grants(p, other, kind, d, r.relation, r.direction, unnamed);
      var q :| q in p.edges && q.relation == r.relation && q.direction == r.direction && Admits(p, q, kind, d)
               && TypeAllowed(Guard(p, other, q), unnamed);
      assert Guard(p, other, q) in p.edges;
    } else {
      forall target | target in to ensures Grants(p, other, kind, d, r.relation, r.direction, target) {
        assert TypeAllowed(Guard(p, how, r), target);
        assert Grants(p, how, kind, d, r.relation, r.direction, target);
      }
    }
  }

  lemma CheckedAgrees(p: Policy, d0: nat, kind: string, d: nat)
    requires Checked(p, d0) && Arises(p, d0, kind, d)
    ensures Agrees(p, kind, d)
  {
    forall relation, dir, target
      ensures Grants(p, AsGrouped, kind, d, relation, dir, target)
              <==> Grants(p, AsWritten, kind, d, relation, dir, target)
    {
      if Grants(p, AsGrouped, kind, d, relation, dir, target) {
        CheckedCarries(p, d0, AsGrouped, AsWritten, kind, d, relation, dir, target);
      }
      if Grants(p, AsWritten, kind, d, relation, dir, target) {
        CheckedCarries(p, d0, AsWritten, AsGrouped, kind, d, relation, dir, target);
      }
    }
  }

  /** The finite check decides coherence. */
  lemma CoherenceIsChecked(p: Policy, d0: nat)
    ensures Checked(p, d0) <==> Coherent(p, d0)
  {
    if Checked(p, d0) {
      forall d: nat ensures AgreesAt(p, d0, d) {
        forall kind: string | Arises(p, d0, kind, d) ensures Agrees(p, kind, d) {
          CheckedAgrees(p, d0, kind, d);
        }
      }
    }
    if Coherent(p, d0) {
      forall r, kind, d: nat |
        r in p.edges && kind in r.fromTypes && d < r.maxDepth && Admits(p, r, kind, d) && Arises(p, d0, kind, d)
        ensures Carried(p, AsGrouped, AsWritten, r, kind, d) && Carried(p, AsWritten, AsGrouped, r, kind, d)
      {
        CoherentAgrees(p, d0, kind, d);
        AgreeingCarries(p, AsGrouped, AsWritten, r, kind, d);
        AgreeingCarries(p, AsWritten, AsGrouped, r, kind, d);
      }
    }
  }

  lemma HopIsGrant(g: Graph, p: Policy, how: Reading, x: EntityId, d: nat, y: EntityId, f: Fact, r: Rule)
    requires HopBy(g, p, how, x, d, y, f, r)
    ensures Grants(p, how, g.entities[x].kind, d, r.relation, r.direction, g.entities[y].kind)
  {}

  lemma AgreeingHop(g: Graph, p: Policy, how: Reading, other: Reading, x: EntityId, d: nat, y: EntityId)
    requires Hop(g, p, how, x, d, y) && Agrees(p, g.entities[x].kind, d)
    ensures Hop(g, p, other, x, d, y)
  {
    var f, r :| HopBy(g, p, how, x, d, y, f, r);
    HopIsGrant(g, p, how, x, d, y, f, r);
    assert Grants(p, other, g.entities[x].kind, d, r.relation, r.direction, g.entities[y].kind);
    var q :| q in p.edges && q.relation == r.relation && q.direction == r.direction
             && Admits(p, q, g.entities[x].kind, d) && TypeAllowed(Guard(p, other, q), g.entities[y].kind);
    assert HopBy(g, p, other, x, d, y, f, q);
  }

  lemma HopArises(g: Graph, p: Policy, d0: nat, x: EntityId, d: nat, y: EntityId)
    requires d0 <= d && Hop(g, p, AsWritten, x, d, y) && Arises(p, d0, g.entities[x].kind, d)
    ensures Arises(p, d0, g.entities[y].kind, d + 1)
  {
    var f, r :| HopBy(g, p, AsWritten, x, d, y, f, r);
    assert Admits(p, r, g.entities[x].kind, d + 1 - 1);
  }

  lemma CoherentStep(g: Graph, p: Policy, how: Reading, other: Reading, d0: nat, x: EntityId, d: nat, y: EntityId)
    requires Coherent(p, d0) && d0 <= d && Hop(g, p, how, x, d, y) && Arises(p, d0, g.entities[x].kind, d)
    ensures Hop(g, p, other, x, d, y) && Arises(p, d0, g.entities[y].kind, d + 1)
  {
    CoherentAgrees(p, d0, g.entities[x].kind, d);
    AgreeingHop(g, p, how, other, x, d, y);
    AgreeingHop(g, p, how, AsWritten, x, d, y);
    HopArises(g, p, d0, x, d, y);
  }

  /** Both readings reach the same entities at the same depths, and only at depths at which their types arise. */
  lemma {:induction false} CoherentReach(g: Graph, p: Policy, how: Reading, other: Reading, roots: set<EntityId>,
                                         d0: nat, x: EntityId, d: nat)
    requires Coherent(p, d0) && Reach(g, p, how, roots, d0, x, d)
    ensures Reach(g, p, other, roots, d0, x, d)
    ensures x in g.entities ==> Arises(p, d0, g.entities[x].kind, d)
    decreases d
  {
    if d > d0 {
      var y, e: nat :| e + 1 == d && Reach(g, p, how, roots, d0, y, e) && Hop(g, p, how, y, e, x);
      CoherentReach(g, p, how, other, roots, d0, y, e);
      CoherentStep(g, p, how, other, d0, y, e, x);
    }
  }

  /** The engine meets the policy as written whenever the policy is coherent from the depth of the seeds. */
  lemma CoherentWalkMeetsPolicy(t: Task, seeds: seq<Node>, d0: nat)
    requires Coherent(t.policy, d0) && WellSeeded(t.graph, seeds, d0) && !Expanded(t, seeds).truncated
    ensures ListsReachable(t.graph, t.policy, AsWritten, seeds, d0, Expanded(t, seeds).nodes)
  {
    var nodes := Expanded(t, seeds).nodes;
    UncappedWalkIsGroupedReach(t, seeds, d0);
    forall n | n in nodes ensures Reach(t.graph, t.policy, AsWritten, Ids(seeds), d0, n.id, n.depth) {
      CoherentReach(t.graph, t.policy, AsGrouped, AsWritten, Ids(seeds), d0, n.id, n.depth);
    }
    forall x, d | Reach(t.graph, t.policy, AsWritten, Ids(seeds), d0, x, d) ensures Covers(nodes, x, d) {
      CoherentReach(t.graph, t.policy, AsWritten, AsGrouped, Ids(seeds), d0, x, d);
    }
  }

  // ---- The converse: an incoherent policy is walked wrongly on a chain of entities

  datatype Way = Way(relation: string, dir: Direction)

  function FactAlong(p: Policy, i: nat, w: Way): Fact {
    if w.dir.Inbound? then Fact(i, i + 1, w.relation, i, p.minimumConfidence, true, Details(None, None, ""))
    else Fact(i, i, w.relation, i + 1, p.minimumConfidence, true, Details(None, None, ""))
  }

  /** Entities 0, 1, 2, ... of the given types, each joined to the next the given way. */
  function Chain(p: Policy, kinds: seq<string>, ways: seq<Way>): Graph {
    Graph(map i: nat | i < |kinds| :: i := Entity(kinds[i], None),
          seq(|ways|, i requires 0 <= i < |ways| => FactAlong(p, i, ways[i])), [], [])
  }

  predicate GrantsWay(p: Policy, how: Reading, kinds: seq<string>, ways: seq<Way>, d0: nat, i: nat)
    requires i < |ways| < |kinds|
  {
    Grants(p, how, kinds[i], d0 + i, ways[i].relation, ways[i].dir, kinds[i + 1])
  }

  lemma ChainHop(p: Policy, how: Reading, kinds: seq<string>, ways: seq<Way>, d0: nat, i: nat)
    requires i < |ways| < |kinds| && GrantsWay(p, how, kinds, ways, d0, i)
    ensures Hop(Chain(p, kinds, ways), p, how, i, d0 + i, i + 1)
  {
    var g := Chain(p, kinds, ways);
    var r :| r in p.edges && r.relation == ways[i].relation && r.direction == ways[i].dir
             && Admits(p, r, kinds[i], d0 + i) && TypeAllowed(Guard(p, how, r), kinds[i + 1]);
    assert g.facts[i] == FactAlong(p, i, ways[i]);
    assert HopBy(g, p, how, i, d0 + i, i + 1, g.facts[i], r);
  }

  lemma {:induction false} ChainIsReached(p: Policy, how: Reading, kinds: seq<string>, ways: seq<Way>, d0: nat, n: nat)
    requires n <= |ways| < |kinds| && forall i: nat :: i < n ==> GrantsWay(p, how, kinds, ways, d0, i)
    ensures Reach(Chain(p, kinds, ways), p, how, {0}, d0, n, d0 + n)
  {
    if n > 0 {
      ChainIsReached(p, how, kinds, ways, d0, n - 1);
      ChainHop(p, how, kinds, ways, d0, n - 1);
      assert d0 + (n - 1) + 1 == d0 + n;
    }
  }

  /** A hop along the chain advances by one place at most, and by one only along the way the chain was built. */
  lemma ChainAdvances(p: Policy, how: Reading, kinds: seq<string>, ways: seq<Way>, x: EntityId, d: nat, y: EntityId)
    requires |ways| < |kinds| && Hop(Chain(p, kinds, ways), p, how, x, d, y)
    ensures x < |kinds| && y <= x + 1
    ensures y == x + 1 ==> x < |ways| && Grants(p, how, kinds[x], d, ways[x].relation, ways[x].dir, kinds[x + 1])
  {
    var g := Chain(p, kinds, ways);
    var f, r :| HopBy(g, p, how, x, d, y, f, r);
    var i :| 0 <= i < |ways| && f == g.facts[i];
    assert f == FactAlong(p, i, ways[i]);
    HopIsGrant(g, p, how, x, d, y, f, r);
    assert x == i || x == i + 1;
  }

  lemma {:induction false} ChainTakesTime(p: Policy, how: Reading, kinds: seq<string>, ways: seq<Way>, d0: nat,
                                          x: EntityId, d: nat)
    requires |ways| < |kinds| && Reach(Chain(p, kinds, ways), p, how, {0}, d0, x, d)
    ensures d0 + x <= d
    ensures d == d0 + x && x > 0 ==> x <= |ways| && GrantsWay(p, how, kinds, ways, d0, x - 1)
    decreases d
  {
    if d > d0 {
      var y, e: nat :| e + 1 == d && Reach(Chain(p, kinds, ways), p, how, {0}, d0, y, e)
                       && Hop(Chain(p, kinds, ways), p, how, y, e, x);
      ChainTakesTime(p, how, kinds, ways, d0, y, e);
      ChainAdvances(p, how, kinds, ways, y, e, x);
    }
  }

  /** A type that arises does so along a chain of types, each granted as written. */
  lemma {:induction false} ArisesAlongChain(p: Policy, d0: nat, kind: string, d: nat)
    returns (kinds: seq<string>, ways: seq<Way>)
    requires Arises(p, d0, kind, d)
    ensures d == d0 + |ways| && |kinds| == |ways| + 1 && kinds[|ways|] == kind
    ensures forall i: nat | i < |ways| ::
              Arises(p, d0, kinds[i], d0 + i) && GrantsWay(p, AsWritten, kinds, ways, d0, i)
    decreases d
  {
    if d == d0 {
      kinds, ways := [kind], [];
    } else {
      var r, k :| r in p.edges && k in r.fromTypes && Admits(p, r, k, d - 1) && TypeAllowed(r, kind)
                  && Arises(p, d0, k, d - 1);
      var ks, ws := ArisesAlongChain(p, d0, k, d - 1);
      kinds, ways := ks + [kind], ws + [Way(r.relation, r.direction)];
      assert TypeAllowed(Guard(p, AsWritten, r), kind);
      forall i: nat | i < |ways|
        ensures Arises(p, d0, kinds[i], d0 + i) && GrantsWay(p, AsWritten, kinds, ways, d0, i)
      {
        if i < |ws| { assert GrantsWay(p, AsWritten, ks, ws, d0, i); }
      }
    }
  }

  lemma {:induction false} FirstDisagreement(p: Policy, d0: nat, d: nat) returns (least: nat)
    requires !AgreesAt(p, d0, d)
    ensures !AgreesAt(p, d0, least) && forall e: nat :: e < least ==> AgreesAt(p, d0, e)
    decreases d
  {
    if e: nat :| e < d && !AgreesAt(p, d0, e) {
      least := FirstDisagreement(p, d0, e);
    } else {
      least := d;
    }
  }

  lemma Disagreement(p: Policy, d0: nat) returns (kind: string, d: nat, w: Way, target: string)
    requires !Coherent(p, d0)
    ensures Arises(p, d0, kind, d) && forall e: nat :: e < d ==> AgreesAt(p, d0, e)
    ensures Grants(p, AsGrouped, kind, d, w.relation, w.dir, target)
            != Grants(p, AsWritten, kind, d, w.relation, w.dir, target)
  {
    var some: nat :| !AgreesAt(p, d0, some);
    d := FirstDisagreement(p, d0, some);
    kind :| Arises(p, d0, kind, d) && !Agrees(p, kind, d);
    var relation, dir, to :|
      Grants(p, AsGrouped, kind, d, relation, dir, to) != Grants(p, AsWritten, kind, d, relation, dir, to);
    w, target := Way(relation, dir), to;
  }

  lemma EarlierWaysAgree(p: Policy, kinds: seq<string>, ways: seq<Way>, d0: nat, kind: string, w: Way)
    requires |kinds| == |ways| + 1 && forall e: nat :: e < d0 + |ways| ==> AgreesAt(p, d0, e)
    requires forall i: nat | i < |ways| ::
               Arises(p, d0, kinds[i], d0 + i) && GrantsWay(p, AsWritten, kinds, ways, d0, i)
    ensures forall i: nat, how: Reading :: i < |ways| ==> GrantsWay(p, how, kinds + [kind], ways + [w], d0, i)
  {
    forall i: nat, how: Reading | i < |ways| ensures GrantsWay(p, how, kinds + [kind], ways + [w], d0, i) {
      AgreeingWay(p, kinds, ways, d0, i, how);
      LongerChain(p, how, kinds, ways, d0, i, kind, w);
    }
  }

  /** Where the readings first disagree they disagree about the last entity of a chain. */
  lemma DisagreementShows(p: Policy, d0: nat) returns (kinds: seq<string>, ways: seq<Way>)
    requires !Coherent(p, d0)
    ensures |kinds| == |ways| + 1 > 1
    ensures forall i: nat, how: Reading :: i < |ways| - 1 ==> GrantsWay(p, how, kinds, ways, d0, i)
    ensures GrantsWay(p, AsGrouped, kinds, ways, d0, |ways| - 1)
            != GrantsWay(p, AsWritten, kinds, ways, d0, |ways| - 1)
  {
    var kind, d, w, target := Disagreement(p, d0);
    var ks, ws := ArisesAlongChain(p, d0, kind, d);
    kinds, ways := ks + [target], ws + [w];
    EarlierWaysAgree(p, ks, ws, d0, target, w);
    LastWay(p, AsGrouped, ks, ws, d0, target, w);
    LastWay(p, AsWritten, ks, ws, d0, target, w);
  }

  lemma LastWay(p: Policy, how: Reading, kinds: seq<string>, ways: seq<Way>, d0: nat, kind: string, w: Way)
    requires |kinds| == |ways| + 1
    ensures GrantsWay(p, how, kinds + [kind], ways + [w], d0, |ways|)
            == Grants(p, how, kinds[|ways|], d0 + |ways|, w.relation, w.dir, kind)
  {}

  lemma AgreeingWay(p: Policy, kinds: seq<string>, ways: seq<Way>, d0: nat, i: nat, how: Reading)
    requires i < |ways| < |kinds| && AgreesAt(p, d0, d0 + i) && Arises(p, d0, kinds[i], d0 + i)
    requires GrantsWay(p, AsWritten, kinds, ways, d0, i)
    ensures GrantsWay(p, how, kinds, ways, d0, i)
  {
    assert Agrees(p, kinds[i], d0 + i);
  }

  lemma LongerChain(p: Policy, how: Reading, kinds: seq<string>, ways: seq<Way>, d0: nat, i: nat, kind: string, w: Way)
    requires i < |ways| && |kinds| == |ways| + 1 && GrantsWay(p, how, kinds, ways, d0, i)
    ensures GrantsWay(p, how, kinds + [kind], ways + [w], d0, i)
  {}

  function OneSeed(kind: string, d: nat): seq<Node> {
    [Node(0, kind, None, d, Direct, 1.0, None, None, None, 1.0, [0])]
  }

  lemma LastIsReached(p: Policy, how: Reading, kinds: seq<string>, ways: seq<Way>, d0: nat, d: nat)
    requires |kinds| == |ways| + 1 > 1 && d <= d0 + |ways|
    requires forall i: nat :: i < |ways| - 1 ==> GrantsWay(p, how, kinds, ways, d0, i)
    ensures Reach(Chain(p, kinds, ways), p, how, {0}, d0, |ways|, d)
            <==> d == d0 + |ways| && GrantsWay(p, how, kinds, ways, d0, |ways| - 1)
  {
    if Reach(Chain(p, kinds, ways), p, how, {0}, d0, |ways|, d) {
      ChainTakesTime(p, how, kinds, ways, d0, |ways|, d);
    }
    if GrantsWay(p, how, kinds, ways, d0, |ways| - 1) {
      ChainIsReached(p, how, kinds, ways, d0, |ways|);
    }
  }

  lemma IncoherentPolicyMisleads(p: Policy, d0: nat) returns (t: Task, seeds: seq<Node>)
    requires !Coherent(p, d0)
    ensures t.policy == p && WellSeeded(t.graph, seeds, d0) && !Expanded(t, seeds).truncated
    ensures !ListsReachable(t.graph, p, AsWritten, seeds, d0, Expanded(t, seeds).nodes)
  {
    var kinds, ways := DisagreementShows(p, d0);
    var g, last := Chain(p, kinds, ways), |ways|;
    seeds := OneSeed(kinds[0], d0);
    t := Task(g, p, |g.entities.Keys|, EnoughEdges(g, p, d0));
    assert seeds[0].id == 0 && Ids(seeds) == {0};
    EnoughBudgetSuffices(t, seeds, d0);
    UncappedWalkIsGroupedReach(t, seeds, d0);
    var nodes := Expanded(t, seeds).nodes;
    LastIsReached(p, AsGrouped, kinds, ways, d0, d0 + last);
    LastIsReached(p, AsWritten, kinds, ways, d0, d0 + last);
    if ListsReachable(g, p, AsWritten, seeds, d0, nodes) {
      assert Covers(nodes, last, d0 + last);
      var n :| n in nodes && n.id == last && n.depth <= d0 + last;
      LastIsReached(p, AsGrouped, kinds, ways, d0, n.depth);
      LastIsReached(p, AsWritten, kinds, ways, d0, n.depth);
    }
  }

  /**
   * Exactly the policies coherent from a depth are walked as they are written, on every graph, from all seeds at that
   * depth and with every sufficient budget.
   */
  lemma CoherenceIsExact(p: Policy, d0: nat)
    ensures Coherent(p, d0) <==>
      forall t: Task, seeds: seq<Node> ::
        t.policy == p && WellSeeded(t.graph, seeds, d0) && !Expanded(t, seeds).truncated
        ==> ListsReachable(t.graph, p, AsWritten, seeds, d0, Expanded(t, seeds).nodes)
  {
    if Coherent(p, d0) {
      forall t: Task, seeds: seq<Node> |
        t.policy == p && WellSeeded(t.graph, seeds, d0) && !Expanded(t, seeds).truncated
        ensures ListsReachable(t.graph, p, AsWritten, seeds, d0, Expanded(t, seeds).nodes) {
        CoherentWalkMeetsPolicy(t, seeds, d0);
      }
    } else {
      var t, seeds := IncoherentPolicyMisleads(p, d0);
    }
  }

  /** Two rules that share a key but not a target type: the second one's targets are lost. */
  lemma SharedKeyLosesTargets()
    ensures var rule := (to: string) => Rule("CONTAINS", Outbound, {"Application"}, {to}, Transitive, 3, 0.8);
            !Coherent(Policy(4, 0, 0, 0.8, Direct, [rule("Service"), rule("Component")], {}, None, {}), 1)
  {
    var rule := (to: string) => Rule("CONTAINS", Outbound, {"Application"}, {to}, Transitive, 3, 0.8);
    var p := Policy(4, 0, 0, 0.8, Direct, [rule("Service"), rule("Component")], {}, None, {});
    assert p.edges[1] in p.edges && TypeAllowed(Guard(p, AsWritten, p.edges[1]), "Component");
    assert Grants(p, AsWritten, "Application", 1, "CONTAINS", Outbound, "Component");
    forall r | r in p.edges ensures !TypeAllowed(Guard(p, AsGrouped, r), "Component") {
      assert KeyOf(r) == KeyOf(p.edges[0]);
      assert Guard(p, AsGrouped, r) == p.edges[0];
      assert "Service"[0] != "Component"[0];
    }
    assert !Grants(p, AsGrouped, "Application", 1, "CONTAINS", Outbound, "Component");
    assert Arises(p, 1, "Application", 1) && !Agrees(p, "Application", 1) && !AgreesAt(p, 1, 1);
  }
}
