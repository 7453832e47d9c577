// The fact graph, the persisted impact policy, and the edge query that joins them.

module Estate {
  import opened Ordering

  type EntityId = nat
  type FactId = nat

  datatype Direction = Inbound | Outbound
  datatype Classification = Direct | Transitive | Context | Stop | Informational

  datatype Entity = Entity(kind: string, key: Option<string>)

  /**
   * What only a dependency states: where in its repository, the version its lockfile resolved, the version declared.
   */
  datatype Details = Details(path: Option<string>, resolved: Option<string>, declared: string)

  /** A current fact assertion of the tenant, with the EXISTS test over its evidence. */
  datatype Fact = Fact(id: FactId, subject: EntityId, relation: string, target: EntityId,
                       confidence: real, evidenced: bool, details: Details)

  /** A registry identity of a package entity: case-folded name and version. One entity may have several. */
  datatype Registered = Registered(entity: EntityId, name: string, version: Option<string>)

  /** A row of the curated maps: an application delivers a capability of this name; `source` is the map's revision. */
  datatype Link = Link(capability: EntityId, name: string, application: EntityId, criticality: int, source: nat)

  /** The estate's tables, in the order they happen to be stored in. */
  datatype Graph = Graph(entities: map<EntityId, Entity>, facts: seq<Fact>, registry: seq<Registered>, links: seq<Link>)

  datatype Rule = Rule(relation: string, direction: Direction, fromTypes: set<string>, toTypes: set<string>,
                       classification: Classification, maxDepth: int, weight: real)
  datatype CapabilityRule = CapabilityRule(fromTypes: set<string>, maxDepth: int, classification: Classification)
  datatype Policy = Policy(maxDepth: int, maxNodes: int, maxEdges: int, minimumConfidence: real,
                           seedClassification: Classification, edges: seq<Rule>, stopConditions: set<string>,
                           capability: Option<CapabilityRule>, seedTypes: set<string>)

  datatype RuleKey = RuleKey(relation: string, direction: Direction, classification: Classification)

  datatype Row = Row(fact: FactId, confidence: real, evidenced: bool, origin: EntityId, originKey: Option<string>,
                     id: EntityId, kind: string, key: Option<string>)

  datatype StopReason = MissingEvidence | LowConfidence

  function KeyOf(r: Rule): RuleKey {
    RuleKey(r.relation, r.direction, r.classification)
  }

  /** The order Python gives the tuples of strings that name a rule. */
  function RuleOrder(k: RuleKey): Key {
    TextKey(k.relation)
    + [if k.direction.Inbound? then 0 else 1]
    + [match k.classification
       case Context => 0
       case Direct => 1
       case Informational => 2
       case Stop => 3
       case Transitive => 4]
  }

  function RowOrder(r: Row): Key {
    NullableKey(r.originKey) + NullableKey(r.key) + [r.id, r.fact]
  }

  /** Whether a rule may expand an entity of this type at this depth. */
  predicate Admits(p: Policy, r: Rule, kind: string, depth: nat) {
    kind in r.fromTypes && depth + 1 <= r.maxDepth && depth + 1 <= p.maxDepth
  }

  function RulesFor(p: Policy, kind: string, depth: nat): seq<Rule> {
    RulesAmong(p, p.edges, kind, depth)
  }

  function RulesAmong(p: Policy, edges: seq<Rule>, kind: string, depth: nat): (rs: seq<Rule>)
    ensures forall r :: r in rs <==> r in edges && Admits(p, r, kind, depth)
  {
    if edges == [] then []
    else
      var rest := RulesAmong(p, edges[1..], kind, depth);
      assert edges == [edges[0]] + edges[1..];
      if Admits(p, edges[0], kind, depth) then [edges[0]] + rest else rest
  }

  predicate HasKey(edges: seq<Rule>, k: RuleKey) {
    exists r :: r in edges && KeyOf(r) == k
  }

  /** The engine keeps only the first rule that carries a key, and filters by that one. */
  function FirstRule(edges: seq<Rule>, k: RuleKey): (r: Rule)
    requires HasKey(edges, k)
    ensures r in edges && KeyOf(r) == k
  {
    if KeyOf(edges[0]) == k then edges[0] else FirstRule(edges[1..], k)
  }

  function Anchor(d: Direction, f: Fact): EntityId {
    if d.Inbound? then f.target else f.subject
  }

  function Reached(d: Direction, f: Fact): EntityId {
    if d.Inbound? then f.subject else f.target
  }

  predicate TypeAllowed(r: Rule, kind: string) {
    r.toTypes == {} || kind in r.toTypes
  }

  predicate Joins(es: map<EntityId, Entity>, r: Rule, origins: set<EntityId>, f: Fact) {
    var a, b := Anchor(r.direction, f), Reached(r.direction, f);
    f.relation == r.relation && a in origins && a in es && b in es && a != b && TypeAllowed(r, es[b].kind)
  }

  function RowOf(es: map<EntityId, Entity>, r: Rule, origins: set<EntityId>, f: Fact): Row
    requires Joins(es, r, origins, f)
  {
    var a, b := Anchor(r.direction, f), Reached(r.direction, f);
    Row(f.id, f.confidence, f.evidenced, a, es[a].key, b, es[b].kind, es[b].key)
  }

  function Join(es: map<EntityId, Entity>, facts: seq<Fact>, r: Rule, origins: set<EntityId>): (rows: seq<Row>)
    ensures |rows| <= |facts|
  {
    if facts == [] then []
    else
      var rest := Join(es, facts[1..], r, origins);
      if Joins(es, r, origins, facts[0]) then [RowOf(es, r, origins, facts[0])] + rest else rest
  }

  /** Every row of the edge query in its ORDER BY, before LIMIT. */
  function AllRows(g: Graph, r: Rule, origins: set<EntityId>): (rows: seq<Row>)
    ensures |rows| <= |g.facts|
  {
    SortBy(Join(g.entities, g.facts, r, origins), RowOrder)
  }

  function Take<T>(s: seq<T>, limit: int): (t: seq<T>)
    ensures t <= s
    ensures forall x :: x in t ==> x in s
  {
    if limit <= 0 then [] else if limit < |s| then s[..limit] else s
  }

  function Fetch(g: Graph, r: Rule, origins: set<EntityId>, limit: nat): seq<Row> {
    Take(AllRows(g, r, origins), limit)
  }

  function Eligibility(evidenced: bool, confidence: real, minimum: real): Option<StopReason> {
    if !evidenced then Some(MissingEvidence)
    else if confidence < minimum then Some(LowConfidence)
    else None
  }

  lemma {:induction false} JoinMembers(es: map<EntityId, Entity>, facts: seq<Fact>, r: Rule, origins: set<EntityId>)
    ensures forall row :: row in Join(es, facts, r, origins) <==>
      exists f :: f in facts && Joins(es, r, origins, f) && row == RowOf(es, r, origins, f)
  {
    if facts != [] {
      JoinMembers(es, facts[1..], r, origins);
      assert facts == [facts[0]] + facts[1..];
    }
  }

  /** A row is in the ordered result exactly when some fact joins to it. */
  lemma AllRowsMembers(g: Graph, r: Rule, origins: set<EntityId>)
    ensures forall row :: row in AllRows(g, r, origins) <==>
      exists f :: f in g.facts && Joins(g.entities, r, origins, f) && row == RowOf(g.entities, r, origins, f)
  {
    JoinMembers(g.entities, g.facts, r, origins);
    SortKeepsMembers(Join(g.entities, g.facts, r, origins), RowOrder);
  }

  // ---- The query does not depend on the order facts are stored in

  ghost predicate FactIdsUnique(facts: seq<Fact>) {
    forall f, h :: f in facts && h in facts && f.id == h.id ==> f == h
  }

  /** Fact ids are a primary key. */
  predicate FactsOnce(facts: seq<Fact>) {
    forall i, j :: 0 <= i < j < |facts| ==> facts[i].id != facts[j].id
  }

  lemma OnceIsUnique(facts: seq<Fact>)
    requires FactsOnce(facts)
    ensures FactIdsUnique(facts)
  {}

  lemma {:induction false} JoinConcat(es: map<EntityId, Entity>, a: seq<Fact>, b: seq<Fact>, r: Rule,
                                      origins: set<EntityId>)
    ensures Join(es, a + b, r, origins) == Join(es, a, r, origins) + Join(es, b, r, origins)
  {
    if a == [] {
      assert a + b == b;
    } else {
      assert (a + b)[1..] == a[1..] + b;
      JoinConcat(es, a[1..], b, r, origins);
    }
  }

  lemma JoinTakeOut(es: map<EntityId, Entity>, a: seq<Fact>, i: nat, r: Rule, origins: set<EntityId>)
    requires i < |a|
    ensures multiset(Join(es, a, r, origins))
         == multiset(Join(es, [a[i]], r, origins)) + multiset(Join(es, a[..i] + a[i+1..], r, origins))
  {
    var front, back := a[..i], a[i+1..];
    assert a == front + ([a[i]] + back);
    JoinConcat(es, front, [a[i]] + back, r, origins);
    JoinConcat(es, [a[i]], back, r, origins);
    JoinConcat(es, front, back, r, origins);
  }

  lemma {:induction false} JoinPermutes(es: map<EntityId, Entity>, a: seq<Fact>, b: seq<Fact>, r: Rule,
                                        origins: set<EntityId>)
    requires multiset(a) == multiset(b)
    ensures multiset(Join(es, a, r, origins)) == multiset(Join(es, b, r, origins))
    decreases |a|
  {
    assert |a| == |multiset(a)| == |b|;
    if a != [] {
      assert a[0] in multiset(b);
      var i :| 0 <= i < |b| && b[i] == a[0];
      RemoveFromBoth(a, b, 0, i);
      JoinTakeOut(es, a, 0, r, origins);
      JoinTakeOut(es, b, i, r, origins);
      JoinPermutes(es, a[..0] + a[1..], b[..i] + b[i+1..], r, origins);
    }
  }

  lemma RowsSeparated(es: map<EntityId, Entity>, facts: seq<Fact>, r: Rule, origins: set<EntityId>)
    requires FactIdsUnique(facts)
    ensures KeysSeparate(Join(es, facts, r, origins), RowOrder)
  {
    var rows := Join(es, facts, r, origins);
    JoinMembers(es, facts, r, origins);
    forall x, y | x in rows && y in rows && RowOrder(x) == RowOrder(y) ensures x == y {
      var kx, ky := RowOrder(x), RowOrder(y);
      assert kx[|kx| - 1] == x.fact && ky[|ky| - 1] == y.fact;
    }
  }

  lemma QueryForgetsStorageOrder(g: Graph, h: Graph, r: Rule, origins: set<EntityId>)
    requires g.entities == h.entities && multiset(g.facts) == multiset(h.facts)
    requires FactIdsUnique(g.facts)
    ensures AllRows(g, r, origins) == AllRows(h, r, origins)
  {
    JoinPermutes(g.entities, g.facts, h.facts, r, origins);
    RowsSeparated(g.entities, g.facts, r, origins);
    SortForgetsOrder(Join(g.entities, g.facts, r, origins), Join(h.entities, h.facts, r, origins), RowOrder);
  }

  lemma TextKeyInjective(s: string, t: string)
    requires TextKey(s) == TextKey(t)
    ensures s == t
    decreases |s|
  {
    if s != [] && t != [] {
      assert TextKey(s)[1..] == TextKey(s[1..]) && TextKey(t)[1..] == TextKey(t[1..]);
      TextKeyInjective(s[1..], t[1..]);
      assert s == [s[0]] + s[1..] && t == [t[0]] + t[1..];
    }
  }

  lemma RuleOrderInjective(a: RuleKey, b: RuleKey)
    requires RuleOrder(a) == RuleOrder(b)
    ensures a == b
  {
    var ka, kb := RuleOrder(a), RuleOrder(b);
    var n := |TextKey(a.relation)|;
    assert |ka| == n + 2 && |kb| == |TextKey(b.relation)| + 2;
    assert ka[..n] == TextKey(a.relation) && kb[..n] == TextKey(b.relation);
    TextKeyInjective(a.relation, b.relation);
    assert ka[n] == kb[n] && ka[n + 1] == kb[n + 1];
  }
}
