// Partitioning a package's dependents into scopes: what the counts add up to, and which scopes overlap.

module ChangeScopes {
  import opened Ordering
  import opened ChangeConflicts

  /** A dependency on the package: the fact, the repository that declares it, and where in it (empty for its root). */
  datatype Dependent = Dependent(fact: FactId, repo: Id, path: string, version: Version)

  datatype Scope = Estate | Repository(repo: Id) | Component(repo: Id, path: string)

  datatype ScopeRow = ScopeRow(scope: Scope, count: nat, distribution: map<Version, nat>, facts: set<FactId>)

  predicate Covers(s: Scope, d: Dependent) {
    match s
    case Estate => true
    case Repository(r) => d.repo == r
    case Component(r, p) => d.repo == r && d.path == p
  }

  function Select(rows: seq<Dependent>, s: Scope): (picked: seq<Dependent>)
    ensures forall d :: d in picked <==> d in rows && Covers(s, d)
    decreases |rows|
  {
    if rows == [] then []
    else
      var front, d := rows[..|rows| - 1], rows[|rows| - 1];
      assert rows == front + [d];
      if Covers(s, d) then Select(front, s) + [d] else Select(front, s)
  }

  function Occurrences(rows: seq<Dependent>, v: Version): nat
    decreases |rows|
  {
    if rows == [] then 0
    else Occurrences(rows[..|rows| - 1], v) + if rows[|rows| - 1].version == v then 1 else 0
  }

  ghost predicate IsTally(counts: map<Version, nat>, rows: seq<Dependent>) {
    && (forall v :: v in counts <==> exists d :: d in rows && d.version == v)
    && (forall v :: v in counts ==> counts[v] == Occurrences(rows, v))
  }

  function Facts(rows: seq<Dependent>): set<FactId> {
    set d | d in rows :: d.fact
  }

  /** What the row of a scope must say about the dependents it covers. */
  ghost predicate Describes(row: ScopeRow, rows: seq<Dependent>, s: Scope) {
    var picked := Select(rows, s);
    row.scope == s && row.count == |picked| && IsTally(row.distribution, picked) && row.facts == Facts(picked)
  }

  // ---- The scopes offered: the estate, then repositories and components in order of appearance

  function Repositories(rows: seq<Dependent>): (scopes: seq<Scope>)
    ensures forall s :: s in scopes <==> s.Repository? && exists d :: d in rows && d.repo == s.repo
    ensures forall i, j :: 0 <= i < j < |scopes| ==> scopes[i] != scopes[j]
    decreases |rows|
  {
    if rows == [] then []
    else
      var front, d := Repositories(rows[..|rows| - 1]), rows[|rows| - 1];
      assert rows == rows[..|rows| - 1] + [d];
      if Repository(d.repo) in front then front else front + [Repository(d.repo)]
  }

  function Components(rows: seq<Dependent>): (scopes: seq<Scope>)
    ensures forall s :: s in scopes
              <==> s.Component? && s.path != "" && exists d :: d in rows && d.repo == s.repo && d.path == s.path
    ensures forall i, j :: 0 <= i < j < |scopes| ==> scopes[i] != scopes[j]
    decreases |rows|
  {
    if rows == [] then []
    else
      var front, d := Components(rows[..|rows| - 1]), rows[|rows| - 1];
      assert rows == rows[..|rows| - 1] + [d];
      if d.path == "" || Component(d.repo, d.path) in front then front else front + [Component(d.repo, d.path)]
  }

  function Scopes(rows: seq<Dependent>): seq<Scope> {
    if rows == [] then [] else [Estate] + Repositories(rows) + Components(rows)
  }

  // ---- Building them

  method BuildScope(rows: seq<Dependent>, s: Scope, subset: seq<Dependent>) returns (row: ScopeRow)
    requires subset == Select(rows, s)
    ensures Describes(row, rows, s)
  {
    var counts: map<Version, nat> := map[];
    for i := 0 to |subset|
      invariant IsTally(counts, subset[..i])
    {
      var v := subset[i].version;
      TallyNext(counts, subset, i);
      counts := counts[v := (if v in counts then counts[v] else 0) + 1];
    }
    assert subset[..|subset|] == subset;
    row := ScopeRow(s, |subset|, counts, Facts(subset));
  }

  lemma TallyNext(counts: map<Version, nat>, rows: seq<Dependent>, n: nat)
    requires n < |rows| && IsTally(counts, rows[..n])
    ensures var v := rows[n].version; IsTally(counts[v := (if v in counts then counts[v] else 0) + 1], rows[..n + 1])
  {
    var before, d := rows[..n], rows[n];
    assert rows[..n + 1] == before + [d] && rows[..n + 1][..n] == before;
    if d.version !in counts {
      NotOccurring(before, d.version);
    }
  }

  lemma {:induction false} NotOccurring(rows: seq<Dependent>, v: Version)
    requires forall d :: d in rows ==> d.version != v
    ensures Occurrences(rows, v) == 0
    decreases |rows|
  {
    if rows != [] {
      assert rows[|rows| - 1] in rows;
      NotOccurring(rows[..|rows| - 1], v);
    }
  }

  /** One pass groups the dependents by repository and by component; a second builds a row for each group. */
  method BuildScopes(rows: seq<Dependent>) returns (scopes: seq<ScopeRow>)
    ensures DescribesAll(scopes, rows, Scopes(rows))
  {
    if rows == [] { return []; }
    var repositories, byEntity, components, byComponent := Group(rows);
    EverythingIsInTheEstate(rows);
    var estate := BuildScope(rows, Estate, rows);
    var ofRepositories := BuildAll(rows, repositories, byEntity);
    var ofComponents := BuildAll(rows, components, byComponent);
    DescribedJoin([estate], ofRepositories, rows, [Estate], repositories);
    DescribedJoin([estate] + ofRepositories, ofComponents, rows, [Estate] + repositories, components);
    scopes := [estate] + ofRepositories + ofComponents;
  }

  ghost predicate DescribesAll(described: seq<ScopeRow>, rows: seq<Dependent>, scopes: seq<Scope>) {
    |described| == |scopes| && forall i :: 0 <= i < |scopes| ==> Describes(described[i], rows, scopes[i])
  }

  lemma DescribedJoin(a: seq<ScopeRow>, b: seq<ScopeRow>, rows: seq<Dependent>, first: seq<Scope>, rest: seq<Scope>)
    requires DescribesAll(a, rows, first) && DescribesAll(b, rows, rest)
    ensures DescribesAll(a + b, rows, first + rest)
  {}

  /** The groups filed so far hold what their scopes cover. */
  ghost predicate Filed(groups: map<Scope, seq<Dependent>>, known: seq<Scope>, rows: seq<Dependent>) {
    forall s :: s in known ==> s in groups && groups[s] == Select(rows, s)
  }

  method BuildAll(rows: seq<Dependent>, known: seq<Scope>, groups: map<Scope, seq<Dependent>>)
      returns (scopes: seq<ScopeRow>)
    requires Filed(groups, known, rows)
    ensures DescribesAll(scopes, rows, known)
  {
    scopes := [];
    for i := 0 to |known|
      invariant |scopes| == i && forall k :: 0 <= k < i ==> Describes(scopes[k], rows, known[k])
    {
      var row := BuildScope(rows, known[i], groups[known[i]]);
      scopes := scopes + [row];
    }
  }

  method Group(rows: seq<Dependent>)
      returns (repositories: seq<Scope>, byEntity: map<Scope, seq<Dependent>>,
               components: seq<Scope>, byComponent: map<Scope, seq<Dependent>>)
    ensures repositories == Repositories(rows) && Filed(byEntity, repositories, rows)
    ensures components == Components(rows) && Filed(byComponent, components, rows)
  {
    repositories, components, byEntity, byComponent := [], [], map[], map[];
    for i := 0 to |rows|
      invariant repositories == Repositories(rows[..i]) && Filed(byEntity, repositories, rows[..i])
      invariant components == Components(rows[..i]) && Filed(byComponent, components, rows[..i])
    {
      assert rows[..i + 1][..i] == rows[..i];
      repositories, byEntity := FileRepository(rows, i, repositories, byEntity);
      components, byComponent := FileComponent(rows, i, components, byComponent);
    }
    assert rows[..|rows|] == rows;
  }

  method FileRepository(rows: seq<Dependent>, i: nat, repositories: seq<Scope>, byEntity: map<Scope, seq<Dependent>>)
      returns (repositories': seq<Scope>, byEntity': map<Scope, seq<Dependent>>)
    requires i < |rows| && repositories == Repositories(rows[..i]) && Filed(byEntity, repositories, rows[..i])
    ensures repositories' == Repositories(rows[..i + 1]) && Filed(byEntity', repositories', rows[..i + 1])
  {
    var s := Repository(rows[i].repo);
    assert rows[..i + 1][..i] == rows[..i];
    FileUnder(byEntity, repositories, rows, i, s);
    byEntity' := byEntity[s := (if s in repositories then byEntity[s] else []) + [rows[i]]];
    repositories' := if s in repositories then repositories else repositories + [s];
  }

  method FileComponent(rows: seq<Dependent>, i: nat, components: seq<Scope>, byComponent: map<Scope, seq<Dependent>>)
      returns (components': seq<Scope>, byComponent': map<Scope, seq<Dependent>>)
    requires i < |rows| && components == Components(rows[..i]) && Filed(byComponent, components, rows[..i])
    ensures components' == Components(rows[..i + 1]) && Filed(byComponent', components', rows[..i + 1])
  {
    var s := Component(rows[i].repo, rows[i].path);
    assert rows[..i + 1][..i] == rows[..i];
    components', byComponent' := components, byComponent;
    if rows[i].path == "" {
      FileNothing(byComponent, components, rows, i);
    } else {
      FileUnder(byComponent, components, rows, i, s);
      byComponent' := byComponent[s := (if s in components then byComponent[s] else []) + [rows[i]]];
      components' := if s in components then components else components + [s];
    }
  }

  lemma FileUnder(groups: map<Scope, seq<Dependent>>, known: seq<Scope>, rows: seq<Dependent>, n: nat, s: Scope)
    requires n < |rows| && Filed(groups, known, rows[..n]) && Covers(s, rows[n])
    requires forall x :: x in known && Covers(x, rows[n]) ==> x == s
    requires s !in known ==> forall d :: d in rows[..n] ==> !Covers(s, d)
    ensures Filed(groups[s := (if s in known then groups[s] else []) + [rows[n]]],
                  if s in known then known else known + [s], rows[..n + 1])
  {
    assert rows[..n + 1][..n] == rows[..n];
    if s !in known {
      NothingSelected(rows[..n], s);
    }
  }

  lemma FileNothing(groups: map<Scope, seq<Dependent>>, known: seq<Scope>, rows: seq<Dependent>, n: nat)
    requires n < |rows| && Filed(groups, known, rows[..n]) && forall x :: x in known ==> !Covers(x, rows[n])
    ensures Filed(groups, known, rows[..n + 1])
  {
    assert rows[..n + 1][..n] == rows[..n];
  }

  lemma {:induction false} NothingSelected(rows: seq<Dependent>, s: Scope)
    requires forall d :: d in rows ==> !Covers(s, d)
    ensures Select(rows, s) == []
    decreases |rows|
  {
    if rows != [] {
      assert rows[|rows| - 1] in rows;
      NothingSelected(rows[..|rows| - 1], s);
    }
  }

  lemma {:induction false} EverythingIsInTheEstate(rows: seq<Dependent>)
    ensures Select(rows, Estate) == rows
    decreases |rows|
  {
    if rows != [] {
      EverythingIsInTheEstate(rows[..|rows| - 1]);
      assert rows == rows[..|rows| - 1] + [rows[|rows| - 1]];
    }
  }

  // ---- Conservation

  function Sum(counts: seq<nat>): nat
    decreases |counts|
  {
    if counts == [] then 0 else Sum(counts[..|counts| - 1]) + counts[|counts| - 1]
  }

  /** The sizes of what some scopes cover. */
  function Sizes(rows: seq<Dependent>, scopes: seq<Scope>): (sizes: seq<nat>)
    ensures |sizes| == |scopes|
  {
    seq(|scopes|, i requires 0 <= i < |scopes| => |Select(rows, scopes[i])|)
  }

  /** How often a version occurs under each of some scopes. */
  function Shares(rows: seq<Dependent>, scopes: seq<Scope>, v: Version): (shares: seq<nat>)
    ensures |shares| == |scopes|
  {
    seq(|scopes|, i requires 0 <= i < |scopes| => Occurrences(Select(rows, scopes[i]), v))
  }

  function Hits(scopes: seq<Scope>, d: Dependent): nat
    decreases |scopes|
  {
    if scopes == [] then 0 else Hits(scopes[..|scopes| - 1], d) + if Covers(scopes[|scopes| - 1], d) then 1 else 0
  }

  lemma {:induction false} SizesNext(front: seq<Dependent>, d: Dependent, scopes: seq<Scope>, v: Version)
    ensures Sum(Sizes(front + [d], scopes)) == Sum(Sizes(front, scopes)) + Hits(scopes, d)
    ensures Sum(Shares(front + [d], scopes, v))
         == Sum(Shares(front, scopes, v)) + if d.version == v then Hits(scopes, d) else 0
    decreases |scopes|
  {
    if scopes != [] {
      var n := |scopes| - 1;
      var rows, s := front + [d], scopes[n];
      assert rows[..|front|] == front;
      SizesNext(front, d, scopes[..n], v);
      assert Sizes(rows, scopes)[..n] == Sizes(rows, scopes[..n])
             && Sizes(front, scopes)[..n] == Sizes(front, scopes[..n]);
      assert Shares(rows, scopes, v)[..n] == Shares(rows, scopes[..n], v);
      assert Shares(front, scopes, v)[..n] == Shares(front, scopes[..n], v);
      if Covers(s, d) {
        assert Select(rows, s) == Select(front, s) + [d];
        assert (Select(front, s) + [d])[..|Select(front, s)|] == Select(front, s);
      } else {
        assert Select(rows, s) == Select(front, s);
      }
    }
  }

  lemma {:induction false} SumOfZeros(counts: seq<nat>)
    requires forall i :: 0 <= i < |counts| ==> counts[i] == 0
    ensures Sum(counts) == 0
    decreases |counts|
  {
    if counts != [] { SumOfZeros(counts[..|counts| - 1]); }
  }

  /** A dependent that exactly one of some different scopes covers is hit once. */
  lemma {:induction false} HitOnce(scopes: seq<Scope>, d: Dependent, s: Scope)
    requires forall i, j :: 0 <= i < j < |scopes| ==> scopes[i] != scopes[j]
    requires forall x :: x in scopes && Covers(x, d) ==> x == s
    ensures Hits(scopes, d) == if s in scopes && Covers(s, d) then 1 else 0
    decreases |scopes|
  {
    if scopes != [] {
      var front, last := scopes[..|scopes| - 1], scopes[|scopes| - 1];
      assert scopes == front + [last];
      forall i | 0 <= i < |front| ensures front[i] != last { assert scopes[i] != scopes[|front|]; }
      HitOnce(front, d, s);
    }
  }

  /** Repositories partition the estate: their counts, and their counts of each version, add up to the estate's. */
  lemma {:induction false} RepositoriesPartition(rows: seq<Dependent>, scopes: seq<Scope>, v: Version)
    requires forall i, j :: 0 <= i < j < |scopes| ==> scopes[i] != scopes[j]
    requires forall s :: s in scopes ==> s.Repository?
    requires forall d :: d in rows ==> Repository(d.repo) in scopes
    ensures Sum(Sizes(rows, scopes)) == |rows| && Sum(Shares(rows, scopes, v)) == Occurrences(rows, v)
    decreases |rows|
  {
    if rows == [] {
      SumOfZeros(Sizes(rows, scopes));
      SumOfZeros(Shares(rows, scopes, v));
    } else {
      var front, d := rows[..|rows| - 1], rows[|rows| - 1];
      assert rows == front + [d];
      RepositoriesPartition(front, scopes, v);
      SizesNext(front, d, scopes, v);
      HitOnce(scopes, d, Repository(d.repo));
    }
  }

  /** The estate's count and version distribution are the sums of the repositories'. */
  lemma EstateIsTheSum(rows: seq<Dependent>, v: Version)
    ensures |Select(rows, Estate)| == Sum(Sizes(rows, Repositories(rows)))
    ensures Occurrences(Select(rows, Estate), v) == Sum(Shares(rows, Repositories(rows), v))
  {
    EverythingIsInTheEstate(rows);
    RepositoriesPartition(rows, Repositories(rows), v);
  }

  function ComponentsOf(rows: seq<Dependent>, repo: Id): (scopes: seq<Scope>)
    ensures forall s :: s in scopes <==> s in Components(rows) && s.repo == repo
    ensures forall i, j :: 0 <= i < j < |scopes| ==> scopes[i] != scopes[j]
  {
    Among(Components(rows), repo)
  }

  function Among(scopes: seq<Scope>, repo: Id): (picked: seq<Scope>)
    requires forall s :: s in scopes ==> s.Component?
    requires forall i, j :: 0 <= i < j < |scopes| ==> scopes[i] != scopes[j]
    ensures forall s :: s in picked <==> s in scopes && s.repo == repo
    ensures forall i, j :: 0 <= i < j < |picked| ==> picked[i] != picked[j]
    decreases |scopes|
  {
    if scopes == [] then []
    else
      var front, last := scopes[..|scopes| - 1], scopes[|scopes| - 1];
      assert scopes == front + [last];
      if last.repo == repo then Among(front, repo) + [last] else Among(front, repo)
  }

  /** The rows of a repository that lie in no component. */
  function Rootless(rows: seq<Dependent>, repo: Id): nat {
    |Select(rows, Component(repo, ""))|
  }

  lemma {:induction false} ComponentsPartition(rows: seq<Dependent>, scopes: seq<Scope>, repo: Id)
    requires forall i, j :: 0 <= i < j < |scopes| ==> scopes[i] != scopes[j]
    requires forall s :: s in scopes ==> s.Component? && s.repo == repo && s.path != ""
    requires forall d :: d in rows && d.repo == repo && d.path != "" ==> Component(repo, d.path) in scopes
    ensures Sum(Sizes(rows, scopes)) + Rootless(rows, repo) == |Select(rows, Repository(repo))|
    decreases |rows|
  {
    if rows == [] {
      SumOfZeros(Sizes(rows, scopes));
    } else {
      var front, d := rows[..|rows| - 1], rows[|rows| - 1];
      assert rows == front + [d];
      ComponentsPartition(front, scopes, repo);
      SizesNext(front, d, scopes, "");
      HitOnce(scopes, d, Component(repo, d.path));
    }
  }

  /** A repository's components count at most what it counts, and as much exactly when every row names a component. */
  lemma ComponentsFillRepository(rows: seq<Dependent>, repo: Id)
    ensures Sum(Sizes(rows, ComponentsOf(rows, repo))) <= |Select(rows, Repository(repo))|
    ensures Sum(Sizes(rows, ComponentsOf(rows, repo))) == |Select(rows, Repository(repo))|
            <==> forall d :: d in rows && d.repo == repo ==> d.path != ""
  {
    ComponentsPartition(rows, ComponentsOf(rows, repo), repo);
    var rootless := Select(rows, Component(repo, ""));
    if d :| d in rows && d.repo == repo && d.path == "" {
      assert d in rootless;
    }
    if rootless != [] { assert rootless[0] in rootless; }
  }

  function Counts(distribution: map<Version, nat>, versions: seq<Version>): (counts: seq<nat>)
    requires forall v :: v in versions ==> v in distribution
    ensures |counts| == |versions|
  {
    seq(|versions|, i requires 0 <= i < |versions| => distribution[versions[i]])
  }

  function Occurring(rows: seq<Dependent>, versions: seq<Version>): (counts: seq<nat>)
    ensures |counts| == |versions|
  {
    seq(|versions|, i requires 0 <= i < |versions| => Occurrences(rows, versions[i]))
  }

  lemma {:induction false} OccurringNext(front: seq<Dependent>, d: Dependent, versions: seq<Version>)
    requires forall i, j :: 0 <= i < j < |versions| ==> versions[i] != versions[j]
    ensures Sum(Occurring(front + [d], versions)) == Sum(Occurring(front, versions)) + if d.version in versions then 1
            else 0
    decreases |versions|
  {
    if versions != [] {
      var n := |versions| - 1;
      assert (front + [d])[..|front|] == front;
      OccurringNext(front, d, versions[..n]);
      assert Occurring(front + [d], versions)[..n] == Occurring(front + [d], versions[..n]);
      assert Occurring(front, versions)[..n] == Occurring(front, versions[..n]);
      assert versions == versions[..n] + [versions[n]];
      forall i | 0 <= i < n ensures versions[..n][i] != versions[n] {}
    }
  }

  lemma {:induction false} OccurrencesSum(rows: seq<Dependent>, versions: seq<Version>)
    requires forall i, j :: 0 <= i < j < |versions| ==> versions[i] != versions[j]
    requires forall d :: d in rows ==> d.version in versions
    ensures Sum(Occurring(rows, versions)) == |rows|
    decreases |rows|
  {
    if rows == [] {
      SumOfZeros(Occurring(rows, versions));
    } else {
      var front, d := rows[..|rows| - 1], rows[|rows| - 1];
      assert rows == front + [d];
      OccurrencesSum(front, versions);
      OccurringNext(front, d, versions);
    }
  }

  /** The version distribution of every scope row sums to its count, in whatever order the versions are listed. */
  lemma DistributionSumsToCount(row: ScopeRow, rows: seq<Dependent>, s: Scope, versions: seq<Version>)
    requires Describes(row, rows, s)
    requires forall i, j :: 0 <= i < j < |versions| ==> versions[i] != versions[j]
    requires forall v :: v in versions <==> v in row.distribution
    ensures Sum(Counts(row.distribution, versions)) == row.count
  {
    var picked := Select(rows, s);
    assert Counts(row.distribution, versions) == Occurring(picked, versions);
    OccurrencesSum(picked, versions);
  }

  // ---- Overlap

  /** Scopes that can share a dependent although their ids differ. */
  predicate Nested(a: Scope, b: Scope) {
    a.Estate? || b.Estate? || (a.Repository? != b.Repository? && a.repo == b.repo)
  }

  ghost predicate Overlap(a: Scope, b: Scope) {
    exists d :: Covers(a, d) && Covers(b, d)
  }

  /** Two scopes with different ids share a dependent in some estate exactly when one is nested in the other. */
  lemma OverlapIsNesting(a: Scope, b: Scope)
    requires a != b
    ensures Overlap(a, b) <==> Nested(a, b)
  {
    if Nested(a, b) {
      var repo := if !a.Estate? then a.repo else if !b.Estate? then b.repo else 0;
      var path := if a.Component? then a.path else if b.Component? then b.path else "";
      var d := Dependent(0, repo, path, "");
      assert Covers(a, d) && Covers(b, d);
    }
  }

  // ---- Which change sets have one effect in every order

  /**
   * Dependents are found by package name, and one dependency can be found under several names. `shared` says which
   * names may be names of one package; a fact has one repository and one path whatever it is found under.
   */
  ghost predicate WellFormed(rows: string -> seq<Dependent>, shared: (string, string) -> bool) {
    forall n, m, d, e :: d in rows(n) && e in rows(m) && d.fact == e.fact ==>
      d.repo == e.repo && d.path == e.path && shared(n, m)
  }

  /** What a draft covers: the dependents of its subject's name inside its scope. */
  ghost function Coverage(rows: string -> seq<Dependent>, name: Id -> string, decode: string -> Scope)
    : (Id, string) -> set<FactId>
  {
    (subject, scope) => Facts(Select(rows(name(subject)), decode(scope)))
  }

  /** Two drafts that can meet: their subjects' names can be one package's, and their scopes are the same or nested. */
  predicate CanMeet(shared: (string, string) -> bool, name: Id -> string, decode: string -> Scope, a: Draft, b: Draft) {
    && Resolved(a) && Resolved(b) && shared(name(a.subject.value), name(b.subject.value))
    && (decode(a.scope.value) == decode(b.scope.value) || Nested(decode(a.scope.value), decode(b.scope.value)))
  }

  /** Drafts that can meet ask for one version. */
  predicate Agreeing(shared: (string, string) -> bool, name: Id -> string, decode: string -> Scope, ds: seq<Draft>) {
    forall a, b :: a in ds && b in ds && CanMeet(shared, name, decode, a, b) ==> a.target == b.target
  }

  ghost predicate OrderFreeEverywhere(shared: (string, string) -> bool, name: Id -> string, decode: string -> Scope,
                                      ds: seq<Draft>) {
    forall rows: string -> seq<Dependent>, versions: map<FactId, Version> ::
      WellFormed(rows, shared) ==> OrderFree(Coverage(rows, name, decode), versions, ds)
  }

  lemma DependentOf(rows: seq<Dependent>, s: Scope, f: FactId) returns (d: Dependent)
    requires f in Facts(Select(rows, s))
    ensures d in rows && d.fact == f && Covers(s, d)
  {
    d :| d in Select(rows, s) && d.fact == f;
  }

  lemma SamePlace(rows: string -> seq<Dependent>, shared: (string, string) -> bool, n: string, m: string,
                  d: Dependent, e: Dependent)
    requires WellFormed(rows, shared) && d in rows(n) && e in rows(m) && d.fact == e.fact
    ensures d.repo == e.repo && d.path == e.path && shared(n, m)
  {
  }

  lemma SharedFactMeets(rows: string -> seq<Dependent>, shared: (string, string) -> bool, name: Id -> string,
                        decode: string -> Scope, a: Draft, b: Draft, f: FactId)
    requires WellFormed(rows, shared) && Resolved(a) && Resolved(b)
    requires f in Facts(Select(rows(name(a.subject.value)), decode(a.scope.value)))
    requires f in Facts(Select(rows(name(b.subject.value)), decode(b.scope.value)))
    ensures CanMeet(shared, name, decode, a, b)
  {
    var n, m, s, t := name(a.subject.value), name(b.subject.value), decode(a.scope.value), decode(b.scope.value);
    var d := DependentOf(rows(n), s, f);
    var e := DependentOf(rows(m), t, f);
    SamePlace(rows, shared, n, m, d, e);
    if s != t {
      assert Covers(t, d);
      assert Overlap(s, t);
      OverlapIsNesting(s, t);
    }
  }

  lemma AgreeingIsOrderFree(rows: string -> seq<Dependent>, shared: (string, string) -> bool, name: Id -> string,
                            decode: string -> Scope, versions: map<FactId, Version>, ds: seq<Draft>)
    requires WellFormed(rows, shared) && Agreeing(shared, name, decode, ds)
    ensures OrderFree(Coverage(rows, name, decode), versions, ds)
  {
    var covers := Coverage(rows, name, decode);
    forall a, b, f | a in ds && b in ds && f in versions && f in Covered(covers, a) && f in Covered(covers, b)
      ensures a.target == b.target
    {
      SharedFactMeets(rows, shared, name, decode, a, b, f);
    }
    CompatibleIsOrderFree(covers, versions, ds);
  }

  /** A dependent that two overlapping scopes both cover. */
  lemma Meeting(s: Scope, t: Scope) returns (d: Dependent)
    requires s == t || Nested(s, t)
    ensures Covers(s, d) && Covers(t, d) && d.fact == 0
  {
    var repo := if !s.Estate? then s.repo else if !t.Estate? then t.repo else 0;
    var path := if s.Component? then s.path else if t.Component? then t.path else "";
    d := Dependent(0, repo, path, "");
  }

  /** Two drafts of a set that move one dependency to different versions: the order in which they apply shows. */
  lemma SharingShows(covers: (Id, string) -> set<FactId>, versions: map<FactId, Version>, ds: seq<Draft>,
                     a: Draft, b: Draft, f: FactId)
    requires a in ds && b in ds
    requires f in versions && f in Covered(covers, a) && f in Covered(covers, b) && a.target != b.target
    ensures !OrderFree(covers, versions, ds)
  {
    assert !Compatible(covers, versions, ds);
    OrderFreeExactly(covers, versions, ds);
  }

  /** An estate of one dependency, found under two names. */
  function Found(n: string, m: string, d: Dependent): string -> seq<Dependent> {
    (x: string) => if x == n || x == m then [d] else []
  }

  lemma FoundIsWellFormed(n: string, m: string, d: Dependent, shared: (string, string) -> bool)
    requires shared(n, n) && shared(m, m) && shared(n, m) && shared(m, n)
    ensures WellFormed(Found(n, m, d), shared)
  {
  }

  lemma FoundIsCovered(n: string, m: string, d: Dependent, name: Id -> string, decode: string -> Scope, a: Draft)
    requires Resolved(a) && Covers(decode(a.scope.value), d)
             && (name(a.subject.value) == n || name(a.subject.value) == m)
    ensures d.fact in Covered(Coverage(Found(n, m, d), name, decode), a)
  {
    var rows := Found(n, m, d);
    assert rows(name(a.subject.value)) == [d];
    assert d in Select(rows(name(a.subject.value)), decode(a.scope.value));
  }

  /**
   * Two disagreeing drafts that can meet do meet in some estate of a single dependency, and there the order matters.
   */
  lemma MeetingShows(shared: (string, string) -> bool, name: Id -> string, decode: string -> Scope, ds: seq<Draft>,
                     a: Draft, b: Draft)
    requires (forall n :: shared(n, n)) && (forall n, m :: shared(n, m) ==> shared(m, n))
    requires a in ds && b in ds && CanMeet(shared, name, decode, a, b) && a.target != b.target
    ensures !OrderFreeEverywhere(shared, name, decode, ds)
  {
    var n, m := name(a.subject.value), name(b.subject.value);
    var d := Meeting(decode(a.scope.value), decode(b.scope.value));
    FoundIsWellFormed(n, m, d, shared);
    FoundIsCovered(n, m, d, name, decode, a);
    FoundIsCovered(n, m, d, name, decode, b);
    SharingShows(Coverage(Found(n, m, d), name, decode), map[d.fact := ""], ds, a, b, d.fact);
  }

  /**
   * A change set has one effect in every order, in every estate, exactly when those of its drafts that can meet ask for
   * one version. Whether two drafts can meet is seen from the drafts: by the names of their subjects and their scopes.
   */
  lemma OrderFreeExactlyWhenAgreeing(shared: (string, string) -> bool, name: Id -> string, decode: string -> Scope,
                                     ds: seq<Draft>)
    requires (forall n :: shared(n, n)) && (forall n, m :: shared(n, m) ==> shared(m, n))
    ensures OrderFreeEverywhere(shared, name, decode, ds) <==> Agreeing(shared, name, decode, ds)
  {
    if Agreeing(shared, name, decode, ds) {
      forall rows: string -> seq<Dependent>, versions: map<FactId, Version> | WellFormed(rows, shared)
        ensures OrderFree(Coverage(rows, name, decode), versions, ds)
      {
        AgreeingIsOrderFree(rows, shared, name, decode, versions, ds);
      }
    } else {
      var a, b :| a in ds && b in ds && CanMeet(shared, name, decode, a, b) && a.target != b.target;
      MeetingShows(shared, name, decode, ds, a, b);
    }
  }

  /** Drafts of names that may be one package's, with different subjects or scopes, have scopes that are not nested. */
  predicate Unnested(shared: (string, string) -> bool, name: Id -> string, decode: string -> Scope, ds: seq<Draft>) {
    forall a, b :: a in ds && b in ds && CanMeet(shared, name, decode, a, b)
           ==> a.subject == b.subject && a.scope == b.scope
  }

  /** What the check does ensure: without a reported conflict, drafts that meet only on one subject and scope agree. */
  lemma UnnestedIsOrderFree(rows: string -> seq<Dependent>, shared: (string, string) -> bool, name: Id -> string,
                            decode: string -> Scope, versions: map<FactId, Version>, ds: seq<Draft>)
    requires WellFormed(rows, shared) && Unnested(shared, name, decode, ds) && !Clashes(ds)
    ensures OrderFree(Coverage(rows, name, decode), versions, ds)
  {
    forall a, b | a in ds && b in ds && CanMeet(shared, name, decode, a, b) ensures a.target == b.target {
      var i :| 0 <= i < |ds| && ds[i] == a;
      var j :| 0 <= j < |ds| && ds[j] == b;
      if a.target != b.target {
        assert Clash(a, b) && Clash(b, a);
        assert Clashes(ds);
      }
    }
    AgreeingIsOrderFree(rows, shared, name, decode, versions, ds);
  }

  const ESTATE_MOVE := Draft("x", Some(1), Some("estate"), Some("2.0"))
  const TWIN_MOVE := Draft("z", Some(2), Some("estate"), Some("3.0"))
  const REPOSITORY_MOVE := Draft("y", Some(1), Some("repository:7"), Some("3.0"))

  lemma TwinsDoNotClash()
    ensures var ds := [ESTATE_MOVE, TWIN_MOVE]; !Repeats(ds) && !Clashes(ds) && ESTATE_MOVE.target != TWIN_MOVE.target
  {
    assert "2.0"[0] != "3.0"[0] && "x"[0] != "z"[0];
    assert !Clash(ESTATE_MOVE, TWIN_MOVE);
  }

  lemma NestedDoNotClash()
    ensures var ds := [ESTATE_MOVE, REPOSITORY_MOVE];
            !Repeats(ds) && !Clashes(ds) && ESTATE_MOVE.target != REPOSITORY_MOVE.target
  {
    assert "estate"[0] != "repository:7"[0] && "2.0"[0] != "3.0"[0] && "x"[0] != "y"[0];
    assert !Clash(ESTATE_MOVE, REPOSITORY_MOVE);
  }

  lemma RowIsCovered(rows: string -> seq<Dependent>, name: Id -> string, decode: string -> Scope, a: Draft,
                     d: Dependent)
    requires Resolved(a) && d in rows(name(a.subject.value)) && Covers(decode(a.scope.value), d)
    ensures d.fact in Covered(Coverage(rows, name, decode), a)
  {
    assert d in Select(rows(name(a.subject.value)), decode(a.scope.value));
  }

  /**
   * Two package entities of one name, such as two version entities or one name in two ecosystems, moved to different
   * versions in one scope: the check compares entities and reports nothing, yet wherever the name has a dependent the
   * order matters.
   */
  lemma SameNameEscapesTheCheck(rows: string -> seq<Dependent>, name: Id -> string, decode: string -> Scope,
                                versions: map<FactId, Version>, d: Dependent)
    requires name(1) == name(2) && d in rows(name(1)) && Covers(decode("estate"), d) && d.fact in versions
    ensures var ds := [ESTATE_MOVE, TWIN_MOVE];
            !Repeats(ds) && !Clashes(ds) && !OrderFree(Coverage(rows, name, decode), versions, ds)
  {
    TwinsDoNotClash();
    RowIsCovered(rows, name, decode, ESTATE_MOVE, d);
    RowIsCovered(rows, name, decode, TWIN_MOVE, d);
    PairShows(Coverage(rows, name, decode), versions, ESTATE_MOVE, TWIN_MOVE, d.fact);
  }

  /**
   * The whole estate to one version and a repository of it to another: no conflict is reported, yet wherever the
   * repository declares the package the order matters.
   */
  lemma NestedScopesEscapeTheCheck(covers: (Id, string) -> set<FactId>, versions: map<FactId, Version>, f: FactId)
    requires f in versions && f in covers(1, "estate") && f in covers(1, "repository:7")
    ensures var ds := [ESTATE_MOVE, REPOSITORY_MOVE];
            !Repeats(ds) && !Clashes(ds) && !OrderFree(covers, versions, ds)
  {
    NestedDoNotClash();
    PairShows(covers, versions, ESTATE_MOVE, REPOSITORY_MOVE, f);
  }

  lemma PairShows(covers: (Id, string) -> set<FactId>, versions: map<FactId, Version>, a: Draft, b: Draft, f: FactId)
    requires f in versions && f in Covered(covers, a) && f in Covered(covers, b) && a.target != b.target
    ensures !OrderFree(covers, versions, [a, b])
  {
    var ds := [a, b];
    assert ds[0] == a && ds[1] == b;
    SharingShows(covers, versions, ds, a, b, f);
  }
}
