// The seed query of a change: the dependencies on a package, found by name, and when its result is determined.

module Seeds {
  import opened Ordering
  import opened Estate
  import ChangeScopes

  /** A dependent of the package, as the seed query returns it. */
  datatype SeedRow = SeedRow(fact: FactId, entity: EntityId, kind: string, key: Option<string>,
                             path: Option<string>, version: string, confidence: real, evidenced: bool)

  /** A persisted mutation: its subject, the subject's package name, its scope, and whether outcomes are remembered. */
  datatype Change = Change(subject: EntityId, package: string, scope: ChangeScopes.Scope, remembered: bool)

  function VersionOf(f: Fact, x: Registered): string {
    if f.details.resolved.Some? then f.details.resolved.value
    else if x.version.Some? then x.version.value
    else f.details.declared
  }

  function PathOf(f: Fact): string {
    if f.details.path.Some? then f.details.path.value else ""
  }

  /** A current dependency, in scope, of an entity of a type the policy starts from. */
  predicate Declares(g: Graph, p: Policy, c: Change, f: Fact) {
    && f.relation == "DEPENDS_ON" && f.subject in g.entities && g.entities[f.subject].kind in p.seedTypes
    && ChangeScopes.Covers(c.scope, ChangeScopes.Dependent(f.id, f.subject, PathOf(f), ""))
  }

  predicate NamedBy(c: Change, f: Fact, x: Registered) {
    x.entity == f.target && x.name == c.package
  }

  function RowFor(g: Graph, f: Fact, x: Registered): SeedRow
    requires f.subject in g.entities
  {
    var e := g.entities[f.subject];
    SeedRow(f.id, f.subject, e.kind, e.key, f.details.path, VersionOf(f, x), f.confidence, f.evidenced)
  }

  /** The rows of one dependency: one for each registry identity of that name its package entity has. */
  function RowsOf(g: Graph, c: Change, f: Fact, registry: seq<Registered>): seq<SeedRow>
    requires f.subject in g.entities
  {
    if registry == [] then []
    else (if NamedBy(c, f, registry[0]) then [RowFor(g, f, registry[0])] else []) + RowsOf(g, c, f, registry[1..])
  }

  function SeedJoin(g: Graph, p: Policy, c: Change, facts: seq<Fact>): seq<SeedRow> {
    if facts == [] then []
    else
      var rows := if Declares(g, p, c, facts[0]) then RowsOf(g, c, facts[0], g.registry) else [];
      rows + SeedJoin(g, p, c, facts[1..])
  }

  function SeedOrder(r: SeedRow): Key {
    NullableKey(r.key) + NullableKey(r.path) + [r.fact]
  }

  /** Every row of the seed query, before its LIMIT. */
  function SeedRows(g: Graph, p: Policy, c: Change): seq<SeedRow> {
    SortBy(SeedJoin(g, p, c, g.facts), SeedOrder)
  }

  // ---- What the rows are

  predicate Through(g: Graph, p: Policy, c: Change, f: Fact, x: Registered) {
    Declares(g, p, c, f) && NamedBy(c, f, x)
  }

  lemma {:induction false} RowsOfMembers(g: Graph, c: Change, f: Fact, registry: seq<Registered>)
    requires f.subject in g.entities
    ensures forall row :: row in RowsOf(g, c, f, registry)
              <==> exists x :: x in registry && NamedBy(c, f, x) && row == RowFor(g, f, x)
  {
    if registry != [] {
      RowsOfMembers(g, c, f, registry[1..]);
      assert registry == [registry[0]] + registry[1..];
    }
  }

  lemma {:induction false} SeedJoinMembers(g: Graph, p: Policy, c: Change, facts: seq<Fact>)
    ensures forall row :: row in SeedJoin(g, p, c, facts)
              <==> exists f, x :: f in facts && x in g.registry && Through(g, p, c, f, x) && row == RowFor(g, f, x)
  {
    if facts != [] {
      SeedJoinMembers(g, p, c, facts[1..]);
      assert facts == [facts[0]] + facts[1..];
      if Declares(g, p, c, facts[0]) { RowsOfMembers(g, c, facts[0], g.registry); }
    }
  }

  /** A row is returned exactly when a dependency in scope joins a registry identity of the package's name. */
  lemma SeedRowsMembers(g: Graph, p: Policy, c: Change, row: SeedRow)
    ensures row in SeedRows(g, p, c)
            <==> exists f, x :: f in g.facts && x in g.registry && Through(g, p, c, f, x) && row == RowFor(g, f, x)
  {
    SeedJoinMembers(g, p, c, g.facts);
    SortKeepsMembers(SeedJoin(g, p, c, g.facts), SeedOrder);
  }

  // ---- When the result is determined: the order leaves ties, between the registry identities of one dependency

  /** Whatever registry identities a dependency joins, it has one version. */
  predicate Settled(g: Graph, p: Policy, c: Change) {
    forall f, x, y :: f in g.facts && x in g.registry && y in g.registry && Through(g, p, c, f, x)
           && Through(g, p, c, f, y)
      ==> VersionOf(f, x) == VersionOf(f, y)
  }

  /** The same tables, stored in any order. */
  ghost predicate SameTables(g: Graph, h: Graph) {
    && g.entities == h.entities && multiset(g.facts) == multiset(h.facts)
    && multiset(g.registry) == multiset(h.registry) && multiset(g.links) == multiset(h.links)
  }

  lemma OrderNamesFact(r: SeedRow, q: SeedRow)
    requires SeedOrder(r) == SeedOrder(q)
    ensures r.fact == q.fact
  {
    var a, b := SeedOrder(r), SeedOrder(q);
    assert a[|a| - 1] == r.fact && b[|b| - 1] == q.fact;
  }

  lemma SettledSeparates(g: Graph, p: Policy, c: Change)
    requires FactIdsUnique(g.facts) && Settled(g, p, c)
    ensures KeysSeparate(SeedJoin(g, p, c, g.facts), SeedOrder)
  {
    var rows := SeedJoin(g, p, c, g.facts);
    SeedJoinMembers(g, p, c, g.facts);
    forall r, q | r in rows && q in rows && SeedOrder(r) == SeedOrder(q) ensures r == q {
      OrderNamesFact(r, q);
      var f, x :| f in g.facts && x in g.registry && Through(g, p, c, f, x) && r == RowFor(g, f, x);
      var f', y :| f' in g.facts && y in g.registry && Through(g, p, c, f', y) && q == RowFor(g, f', y);
    }
  }

  /** What one registry identity contributes to a dependency's rows, as a function of it. */
  function Contribution(g: Graph, c: Change, f: Fact): Registered -> seq<SeedRow>
    requires f.subject in g.entities
  {
    (x: Registered) => if NamedBy(c, f, x) then [RowFor(g, f, x)] else []
  }

  lemma {:induction false} RowsAreFlat(g: Graph, c: Change, f: Fact, registry: seq<Registered>)
    requires f.subject in g.entities
    ensures RowsOf(g, c, f, registry) == Flat(registry, Contribution(g, c, f))
  {
    if registry != [] { RowsAreFlat(g, c, f, registry[1..]); }
  }

  lemma RowsOfPermutes(g: Graph, c: Change, f: Fact, a: seq<Registered>, b: seq<Registered>)
    requires f.subject in g.entities && multiset(a) == multiset(b)
    ensures multiset(RowsOf(g, c, f, a)) == multiset(RowsOf(g, c, f, b))
  {
    RowsAreFlat(g, c, f, a);
    RowsAreFlat(g, c, f, b);
    FlatPermutes(a, b, Contribution(g, c, f));
  }

  lemma {:induction false} SameRowsOf(g: Graph, h: Graph, c: Change, f: Fact, registry: seq<Registered>)
    requires g.entities == h.entities && f.subject in g.entities
    ensures RowsOf(g, c, f, registry) == RowsOf(h, c, f, registry)
  {
    if registry != [] { SameRowsOf(g, h, c, f, registry[1..]); }
  }

  lemma {:induction false} JoinForgetsRegistry(g: Graph, h: Graph, p: Policy, c: Change, facts: seq<Fact>)
    requires g.entities == h.entities && multiset(g.registry) == multiset(h.registry)
    ensures multiset(SeedJoin(g, p, c, facts)) == multiset(SeedJoin(h, p, c, facts))
  {
    if facts != [] {
      JoinForgetsRegistry(g, h, p, c, facts[1..]);
      if Declares(g, p, c, facts[0]) {
        RowsOfPermutes(g, c, facts[0], g.registry, h.registry);
        SameRowsOf(g, h, c, facts[0], h.registry);
      }
    }
  }

  function Declarations(g: Graph, p: Policy, c: Change): Fact -> seq<SeedRow> {
    (f: Fact) => if Declares(g, p, c, f) then RowsOf(g, c, f, g.registry) else []
  }

  lemma {:induction false} JoinIsFlat(g: Graph, p: Policy, c: Change, facts: seq<Fact>)
    ensures SeedJoin(g, p, c, facts) == Flat(facts, Declarations(g, p, c))
  {
    if facts != [] { JoinIsFlat(g, p, c, facts[1..]); }
  }

  lemma JoinForgetsFacts(g: Graph, p: Policy, c: Change, a: seq<Fact>, b: seq<Fact>)
    requires multiset(a) == multiset(b)
    ensures multiset(SeedJoin(g, p, c, a)) == multiset(SeedJoin(g, p, c, b))
  {
    JoinIsFlat(g, p, c, a);
    JoinIsFlat(g, p, c, b);
    FlatPermutes(a, b, Declarations(g, p, c));
  }

  /** Stored otherwise, the query finds the same rows, though perhaps in another order. */
  lemma SameSeedRows(g: Graph, h: Graph, p: Policy, c: Change)
    requires SameTables(g, h)
    ensures multiset(SeedJoin(g, p, c, g.facts)) == multiset(SeedJoin(h, p, c, h.facts))
    ensures multiset(SeedRows(g, p, c)) == multiset(SeedRows(h, p, c))
  {
    JoinForgetsRegistry(g, h, p, c, g.facts);
    JoinForgetsFacts(h, p, c, g.facts, h.facts);
    SortPermutes(SeedJoin(g, p, c, g.facts), SeedOrder);
    SortPermutes(SeedJoin(h, p, c, h.facts), SeedOrder);
  }

  lemma SettledForgetsStorage(g: Graph, h: Graph, p: Policy, c: Change)
    requires FactIdsUnique(g.facts) && Settled(g, p, c) && SameTables(g, h)
    ensures SeedRows(g, p, c) == SeedRows(h, p, c)
  {
    SettledSeparates(g, p, c);
    SameSeedRows(g, h, p, c);
    SortForgetsOrder(SeedJoin(g, p, c, g.facts), SeedJoin(h, p, c, h.facts), SeedOrder);
  }

  lemma OtherFactsApart(g: Graph, c: Change, f: Fact, e: Fact, r: SeedRow)
    requires e.subject in g.entities && e.id != r.fact
    ensures FirstWith(RowsOf(g, c, e, g.registry), SeedOrder, SeedOrder(r)) == None
  {
    RowsOfMembers(g, c, e, g.registry);
    forall q | q in RowsOf(g, c, e, g.registry) ensures SeedOrder(q) != SeedOrder(r) {
      if SeedOrder(q) == SeedOrder(r) { OrderNamesFact(q, r); }
    }
    NoneWith(RowsOf(g, c, e, g.registry), SeedOrder, SeedOrder(r));
  }

  /** The row of a dependency that comes first is that of the registry identity stored first. */
  lemma {:induction false} FirstOfJoin(g: Graph, p: Policy, c: Change, facts: seq<Fact>, f: Fact, x: Registered)
    requires f in facts && FactIdsUnique(facts) && g.registry != [] && g.registry[0] == x && Through(g, p, c, f, x)
    ensures FirstWith(SeedJoin(g, p, c, facts), SeedOrder, SeedOrder(RowFor(g, f, x))) == Some(RowFor(g, f, x))
  {
    var row, e := RowFor(g, f, x), facts[0];
    var block := if Declares(g, p, c, e) then RowsOf(g, c, e, g.registry) else [];
    FirstWithJoined(block, SeedJoin(g, p, c, facts[1..]), SeedOrder, SeedOrder(row));
    if e != f {
      assert f in facts[1..] && e.id != f.id;
      if Declares(g, p, c, e) { OtherFactsApart(g, c, f, e, row); }
      FirstOfJoin(g, p, c, facts[1..], f, x);
    }
  }

  function WithRegistry(g: Graph, i: nat): Graph
    requires i < |g.registry|
  {
    g.(registry := Fronted(g.registry, i))
  }

  /** With a registry identity stored first, its version is the one the dependency's first row carries. */
  lemma FirstOfRows(g: Graph, p: Policy, c: Change, f: Fact, i: nat)
    requires FactIdsUnique(g.facts) && f in g.facts && i < |g.registry| && Through(g, p, c, f, g.registry[i])
    ensures SameTables(g, WithRegistry(g, i))
    ensures var row := RowFor(g, f, g.registry[i]);
            FirstWith(SeedRows(WithRegistry(g, i), p, c), SeedOrder, SeedOrder(row)) == Some(row)
  {
    var h := WithRegistry(g, i);
    FirstOfJoin(h, p, c, h.facts, f, g.registry[i]);
    SortKeepsFirst(SeedJoin(h, p, c, h.facts), SeedOrder, SeedOrder(RowFor(g, f, g.registry[i])));
  }

  lemma UnsettledShows(g: Graph, p: Policy, c: Change, f: Fact, i: nat, j: nat)
    requires FactIdsUnique(g.facts) && f in g.facts && i < |g.registry| && j < |g.registry|
    requires Through(g, p, c, f, g.registry[i]) && Through(g, p, c, f, g.registry[j])
    requires VersionOf(f, g.registry[i]) != VersionOf(f, g.registry[j])
    ensures SeedRows(WithRegistry(g, i), p, c) != SeedRows(WithRegistry(g, j), p, c)
  {
    FirstOfRows(g, p, c, f, i);
    FirstOfRows(g, p, c, f, j);
  }

  /**
   * The seed query has one result, however the tables are stored, exactly when no dependency in scope joins two
   * registry identities that give it different versions.
   */
  lemma SeedsForgetStorageExactly(g: Graph, p: Policy, c: Change)
    requires FactIdsUnique(g.facts)
    ensures (forall h :: SameTables(g, h) ==> SeedRows(h, p, c) == SeedRows(g, p, c)) <==> Settled(g, p, c)
  {
    if Settled(g, p, c) {
      forall h | SameTables(g, h) ensures SeedRows(h, p, c) == SeedRows(g, p, c) {
        SettledForgetsStorage(g, h, p, c);
      }
    } else {
      var f, x, y :| f in g.facts && x in g.registry && y in g.registry && Through(g, p, c, f, x)
          && Through(g, p, c, f, y)
                     && VersionOf(f, x) != VersionOf(f, y);
      var i :| 0 <= i < |g.registry| && g.registry[i] == x;
      var j :| 0 <= j < |g.registry| && g.registry[j] == y;
      UnsettledShows(g, p, c, f, i, j);
      assert SameTables(g, WithRegistry(g, i)) && SameTables(g, WithRegistry(g, j));
    }
  }

  // ---- When no fact appears twice among the rows

  predicate FactsApart(rows: seq<SeedRow>) {
    forall i, j :: 0 <= i < j < |rows| ==> rows[i].fact != rows[j].fact
  }

  /** No dependency in scope joins two registry identities. */
  predicate RegisteredOnce(g: Graph, p: Policy, c: Change) {
    forall f, i, j :: f in g.facts && 0 <= i < j < |g.registry| && Through(g, p, c, f, g.registry[i]) ==>
      !Through(g, p, c, f, g.registry[j])
  }

  predicate FactsDisjoint(a: seq<SeedRow>, b: seq<SeedRow>) {
    forall r, q :: r in a && q in b ==> r.fact != q.fact
  }

  lemma FactsApartJoined(a: seq<SeedRow>, b: seq<SeedRow>)
    ensures FactsApart(a + b) <==> FactsApart(a) && FactsApart(b) && FactsDisjoint(a, b)
  {
    var s := a + b;
    if FactsApart(s) {
      forall i, j | 0 <= i < j < |a| ensures a[i].fact != a[j].fact { assert s[i] == a[i] && s[j] == a[j]; }
      forall i, j | 0 <= i < j < |b| ensures b[i].fact != b[j].fact {
        assert s[|a| + i] == b[i] && s[|a| + j] == b[j];
      }
      forall r, q | r in a && q in b ensures r.fact != q.fact {
        var i :| 0 <= i < |a| && a[i] == r;
        var j :| 0 <= j < |b| && b[j] == q;
        assert s[i] == r && s[|a| + j] == q;
      }
    }
    if FactsApart(a) && FactsApart(b) && FactsDisjoint(a, b) {
      forall i, j | 0 <= i < j < |s| ensures s[i].fact != s[j].fact {
        if i < |a| <= j { assert s[i] in a && s[j] in b; }
      }
    }
  }

  lemma InsertMembers(x: SeedRow, s: seq<SeedRow>)
    ensures forall r :: r in Insert(x, s, SeedOrder) <==> r == x || r in s
  {
    InsertPermutes(x, s, SeedOrder);
    forall r ensures r in Insert(x, s, SeedOrder) <==> r == x || r in s {
      assert r in multiset(Insert(x, s, SeedOrder)) <==> r in multiset([x]) + multiset(s);
    }
  }

  lemma {:induction false} InsertKeepsApart(x: SeedRow, s: seq<SeedRow>)
    ensures FactsApart(Insert(x, s, SeedOrder)) <==> FactsApart(s) && FactsDisjoint([x], s)
  {
    if s != [] && Less(SeedOrder(s[0]), SeedOrder(x)) {
      var head, rest := s[0], s[1..];
      assert s == [head] + rest;
      InsertKeepsApart(x, rest);
      InsertMembers(x, rest);
      FactsApartJoined([head], Insert(x, rest, SeedOrder));
      FactsApartJoined([head], rest);
    } else {
      FactsApartJoined([x], s);
    }
  }

  lemma {:induction false} SortKeepsApart(s: seq<SeedRow>)
    ensures FactsApart(SortBy(s, SeedOrder)) <==> FactsApart(s)
  {
    if s != [] {
      SortKeepsApart(s[1..]);
      SortKeepsMembers(s[1..], SeedOrder);
      InsertKeepsApart(s[0], SortBy(s[1..], SeedOrder));
      FactsApartJoined([s[0]], s[1..]);
      assert s == [s[0]] + s[1..];
    }
  }

  predicate NamedOnce(c: Change, f: Fact, registry: seq<Registered>) {
    forall i, j :: 0 <= i < j < |registry| && NamedBy(c, f, registry[i]) ==> !NamedBy(c, f, registry[j])
  }

  lemma NamedOnceFirst(c: Change, f: Fact, x: Registered, rest: seq<Registered>)
    ensures NamedOnce(c, f, [x] + rest)
            <==> NamedOnce(c, f, rest) && (NamedBy(c, f, x) ==> forall y :: y in rest ==> !NamedBy(c, f, y))
  {
    var all := [x] + rest;
    if NamedOnce(c, f, all) {
      forall i, j | 0 <= i < j < |rest| && NamedBy(c, f, rest[i]) ensures !NamedBy(c, f, rest[j]) {
        assert all[i + 1] == rest[i] && all[j + 1] == rest[j];
      }
      forall y | y in rest && NamedBy(c, f, x) ensures !NamedBy(c, f, y) {
        var j :| 0 <= j < |rest| && rest[j] == y;
        assert all[0] == x && all[j + 1] == y;
      }
    }
  }

  lemma {:induction false} BlockApart(g: Graph, c: Change, f: Fact, registry: seq<Registered>)
    requires f.subject in g.entities
    ensures FactsApart(RowsOf(g, c, f, registry)) <==> NamedOnce(c, f, registry)
  {
    if registry != [] {
      var x, rest := registry[0], registry[1..];
      var head := if NamedBy(c, f, x) then [RowFor(g, f, x)] else [];
      assert registry == [x] + rest;
      BlockApart(g, c, f, rest);
      NamedOnceFirst(c, f, x, rest);
      FactsApartJoined(head, RowsOf(g, c, f, rest));
      RowsOfMembers(g, c, f, rest);
      if NamedBy(c, f, x) {
        if y :| y in rest && NamedBy(c, f, y) {
          assert RowFor(g, f, y) in RowsOf(g, c, f, rest) && RowFor(g, f, x) in head;
        }
      }
    }
  }

  lemma BlockDisjoint(g: Graph, p: Policy, c: Change, f: Fact, rest: seq<Fact>)
    requires f.subject in g.entities && FactsOnce([f] + rest)
    ensures FactsDisjoint(RowsOf(g, c, f, g.registry), SeedJoin(g, p, c, rest))
  {
    RowsOfMembers(g, c, f, g.registry);
    SeedJoinMembers(g, p, c, rest);
    forall r, q | r in RowsOf(g, c, f, g.registry) && q in SeedJoin(g, p, c, rest) ensures r.fact != q.fact {
      var e, x :| e in rest && x in g.registry && Through(g, p, c, e, x) && q == RowFor(g, e, x);
      var i :| 0 <= i < |rest| && rest[i] == e;
      assert ([f] + rest)[0] == f && ([f] + rest)[i + 1] == e;
    }
  }

  lemma {:induction false} JoinApart(g: Graph, p: Policy, c: Change, facts: seq<Fact>)
    requires FactsOnce(facts)
    ensures FactsApart(SeedJoin(g, p, c, facts))
            <==> forall f :: f in facts && Declares(g, p, c, f) ==> NamedOnce(c, f, g.registry)
  {
    if facts != [] {
      var f, rest := facts[0], facts[1..];
      assert facts == [f] + rest;
      JoinApart(g, p, c, rest);
      if Declares(g, p, c, f) {
        BlockApart(g, c, f, g.registry);
        BlockDisjoint(g, p, c, f, rest);
        FactsApartJoined(RowsOf(g, c, f, g.registry), SeedJoin(g, p, c, rest));
      } else {
        assert SeedJoin(g, p, c, facts) == SeedJoin(g, p, c, rest);
      }
      assert forall e :: e in facts <==> e == f || e in rest;
    }
  }

  /** A fact appears twice among the seed rows exactly when a dependency in scope joins two registry identities. */
  lemma FactsApartExactly(g: Graph, p: Policy, c: Change)
    requires FactsOnce(g.facts)
    ensures FactsApart(SeedRows(g, p, c)) <==> RegisteredOnce(g, p, c)
  {
    SortKeepsApart(SeedJoin(g, p, c, g.facts));
    JoinApart(g, p, c, g.facts);
  }

  // ---- A row in plain terms

  predicate InScope(s: ChangeScopes.Scope, f: Fact) {
    match s
    case Estate => true
    case Repository(r) => f.subject == r
    case Component(r, path) => f.subject == r && (f.details.path == Some(path)
                                                  || (f.details.path == None && path == ""))
  }

  /** The lockfile's version if there is one, else the registry's if it has one, else what the manifest declares. */
  predicate Versioned(f: Fact, x: Registered, version: string) {
    && (f.details.resolved.Some? ==> version == f.details.resolved.value)
    && (f.details.resolved.None? && x.version.Some? ==> version == x.version.value)
    && (f.details.resolved.None? && x.version.None? ==> version == f.details.declared)
  }

  predicate Tells(g: Graph, p: Policy, c: Change, f: Fact, x: Registered, row: SeedRow) {
    && f in g.facts && x in g.registry && f.relation == "DEPENDS_ON" && f.subject in g.entities
    && g.entities[f.subject].kind in p.seedTypes && InScope(c.scope, f) && x.entity == f.target && x.name == c.package
    && row.fact == f.id && row.entity == f.subject && row.kind == g.entities[f.subject].kind
    && row.key == g.entities[f.subject].key && row.path == f.details.path && row.confidence == f.confidence
    && row.evidenced == f.evidenced && Versioned(f, x, row.version)
  }

  /** By the dependent's key, then by component, absent ones last, then by fact. */
  predicate RowBefore(a: SeedRow, b: SeedRow) {
    NullableBefore(a.key, b.key) || (a.key == b.key && (NullableBefore(a.path, b.path)
                                                        || (a.path == b.path && a.fact < b.fact)))
  }

  lemma SeedOrderReads(a: SeedRow, b: SeedRow)
    ensures Less(SeedOrder(a), SeedOrder(b)) <==> RowBefore(a, b)
  {
    NumberDecides(a.fact, b.fact, [], []);
    NullableDecides(a.path, b.path, [a.fact], [b.fact]);
    NullableDecides(a.key, b.key, NullableKey(a.path) + [a.fact], NullableKey(b.path) + [b.fact]);
    SeedOrderSplits(a);
    SeedOrderSplits(b);
  }

  lemma SeedOrderSplits(a: SeedRow)
    ensures SeedOrder(a) == NullableKey(a.key) + (NullableKey(a.path) + [a.fact])
  {}

  /** The seed query returns, in order, exactly the rows that a dependency in scope and a registry identity give. */
  lemma SeedRowsTell(g: Graph, p: Policy, c: Change)
    ensures forall row :: row in SeedRows(g, p, c) <==> exists f, x :: Tells(g, p, c, f, x, row)
    ensures var rows := SeedRows(g, p, c); forall i, j :: 0 <= i < j < |rows| ==> !RowBefore(rows[j], rows[i])
  {
    forall row ensures row in SeedRows(g, p, c) <==> exists f, x :: Tells(g, p, c, f, x, row) {
      SeedRowsMembers(g, p, c, row);
      forall f, x ensures Tells(g, p, c, f, x, row)
                          <==> f in g.facts && x in g.registry && Through(g, p, c, f, x) && row == RowFor(g, f, x)
      {
        TellsReads(g, p, c, f, x, row);
      }
    }
    SortSorts(SeedJoin(g, p, c, g.facts), SeedOrder);
    var rows := SeedRows(g, p, c);
    forall i, j | 0 <= i < j < |rows| ensures !RowBefore(rows[j], rows[i]) { SeedOrderReads(rows[j], rows[i]); }
  }

  lemma TellsReads(g: Graph, p: Policy, c: Change, f: Fact, x: Registered, row: SeedRow)
    ensures Tells(g, p, c, f, x, row)
            <==> f in g.facts && x in g.registry && Through(g, p, c, f, x) && row == RowFor(g, f, x)
  {}
}
