// What the scope rows say, told by the places of the dependents they count.

module ChangeTally {
  import opened Ordering
  import opened ChangeConflicts
  import opened ChangeScopes

  /** The places of the dependents that lie in a scope: everywhere, in a repository, or at a path of it. */
  ghost function Places(rows: seq<Dependent>, s: Scope): set<nat> {
    set k: nat | k < |rows| && (s.Estate? || (rows[k].repo == s.repo && (s.Component? ==> rows[k].path == s.path)))
  }

  ghost function PlacesOf(rows: seq<Dependent>, s: Scope, v: Version): set<nat> {
    set k | k in Places(rows, s) && rows[k].version == v
  }

  lemma PlacesNext(front: seq<Dependent>, d: Dependent, s: Scope, v: Version)
    ensures Places(front + [d], s) == Places(front, s) + if Covers(s, d) then {|front|} else {}
    ensures PlacesOf(front + [d], s, v)
         == PlacesOf(front, s, v) + if Covers(s, d) && d.version == v then {|front|} else {}
  {
    var rows := front + [d];
    assert forall k :: 0 <= k < |front| ==> rows[k] == front[k];
  }

  lemma {:induction false} SelectedArePlaced(rows: seq<Dependent>, s: Scope, v: Version)
    ensures |Select(rows, s)| == |Places(rows, s)| && Occurrences(Select(rows, s), v) == |PlacesOf(rows, s, v)|
    decreases |rows|
  {
    if rows == [] {
      assert Places(rows, s) == {} && PlacesOf(rows, s, v) == {};
    } else {
      var front, d := rows[..|rows| - 1], rows[|rows| - 1];
      assert rows == front + [d];
      SelectedArePlaced(front, s, v);
      PlacesNext(front, d, s, v);
      if Covers(s, d) {
        assert (Select(front, s) + [d])[..|Select(front, s)|] == Select(front, s);
      }
    }
  }

  /**
   * A scope's row counts the dependents that lie in it, each place once, tallies the places of each version, and lists
   * the facts found there.
   */
  lemma RowsAreTold(row: ScopeRow, rows: seq<Dependent>, s: Scope, v: Version)
    requires Describes(row, rows, s)
    ensures row.scope == s && row.count == |Places(rows, s)|
    ensures v in row.distribution <==> PlacesOf(rows, s, v) != {}
    ensures v in row.distribution ==> row.distribution[v] == |PlacesOf(rows, s, v)|
    ensures row.facts == set k | k in Places(rows, s) :: rows[k].fact
  {
    SelectedArePlaced(rows, s, v);
    var picked := Select(rows, s);
    forall d ensures d in picked <==> exists k :: k in Places(rows, s) && rows[k] == d {
      if d in picked {
        var k :| 0 <= k < |rows| && rows[k] == d;
        assert k in Places(rows, s);
      }
    }
    if k :| k in PlacesOf(rows, s, v) {
      assert rows[k] in picked;
    }
    if d :| d in picked && d.version == v {
      var k :| k in Places(rows, s) && rows[k] == d;
      assert k in PlacesOf(rows, s, v);
    }
  }

  /** A scope is met before another: one of its dependents comes with none of the other's up to it. */
  ghost predicate MetBefore(rows: seq<Dependent>, s: Scope, t: Scope) {
    exists k :: k in Places(rows, s) && forall l :: l in Places(rows, t) ==> k < l
  }

  lemma MetStays(front: seq<Dependent>, d: Dependent, s: Scope, t: Scope)
    requires MetBefore(front, s, t)
    ensures MetBefore(front + [d], s, t)
  {
    var k :| k in Places(front, s) && forall l :: l in Places(front, t) ==> k < l;
    PlacesNext(front, d, s, "");
    PlacesNext(front, d, t, "");
    assert k in Places(front + [d], s);
  }

  lemma LastIsMet(front: seq<Dependent>, d: Dependent, s: Scope, t: Scope)
    requires Places(front, s) != {} && Places(front, t) == {}
    ensures MetBefore(front + [d], s, t)
  {
    var k :| k in Places(front, s);
    PlacesNext(front, d, s, "");
    PlacesNext(front, d, t, "");
    assert k in Places(front + [d], s);
  }

  ghost predicate InOrder(rows: seq<Dependent>, scopes: seq<Scope>) {
    forall i, j :: 0 <= i < j < |scopes| ==> MetBefore(rows, scopes[i], scopes[j])
  }

  /** Appending the scope of a new dependent keeps the order, if it was unknown. */
  lemma OrderNext(front: seq<Dependent>, d: Dependent, scopes: seq<Scope>, s: Scope)
    requires InOrder(front, scopes) && forall x :: x in scopes ==> Places(front, x) != {}
    requires Places(front, s) == {}
    ensures InOrder(front + [d], scopes) && InOrder(front + [d], scopes + [s])
  {
    forall i, j | 0 <= i < j < |scopes| ensures MetBefore(front + [d], scopes[i], scopes[j]) {
      MetStays(front, d, scopes[i], scopes[j]);
    }
    forall i | 0 <= i < |scopes| ensures MetBefore(front + [d], scopes[i], s) {
      LastIsMet(front, d, scopes[i], s);
    }
  }

  lemma OrderStays(front: seq<Dependent>, d: Dependent, scopes: seq<Scope>)
    requires InOrder(front, scopes)
    ensures InOrder(front + [d], scopes)
  {
    forall i, j | 0 <= i < j < |scopes| ensures MetBefore(front + [d], scopes[i], scopes[j]) {
      MetStays(front, d, scopes[i], scopes[j]);
    }
  }

  lemma Inhabited(rows: seq<Dependent>, s: Scope, d: Dependent)
    requires d in rows && Covers(s, d)
    ensures Places(rows, s) != {}
  {
    var k :| 0 <= k < |rows| && rows[k] == d;
    assert k in Places(rows, s);
  }

  lemma {:induction false} RepositoriesInOrder(rows: seq<Dependent>)
    ensures InOrder(rows, Repositories(rows))
    decreases |rows|
  {
    if rows != [] {
      var front, d := rows[..|rows| - 1], rows[|rows| - 1];
      assert rows == front + [d];
      var known, s := Repositories(front), Repository(d.repo);
      RepositoriesInOrder(front);
      forall x | x in known ensures Places(front, x) != {} {
        var e :| e in front && e.repo == x.repo;
        Inhabited(front, x, e);
      }
      OrderStays(front, d, known);
      if s !in known {
        assert forall e :: e in front ==> e.repo != d.repo;
        OrderNext(front, d, known, s);
      }
    }
  }

  lemma {:induction false} ComponentsInOrder(rows: seq<Dependent>)
    ensures InOrder(rows, Components(rows))
    decreases |rows|
  {
    if rows != [] {
      var front, d := rows[..|rows| - 1], rows[|rows| - 1];
      assert rows == front + [d];
      var known, s := Components(front), Component(d.repo, d.path);
      ComponentsInOrder(front);
      forall x | x in known ensures Places(front, x) != {} {
        var e :| e in front && e.repo == x.repo && e.path == x.path;
        Inhabited(front, x, e);
      }
      OrderStays(front, d, known);
      if d.path != "" && s !in known {
        assert forall e :: e in front ==> !(e.repo == d.repo && e.path == d.path);
        OrderNext(front, d, known, s);
      }
    }
  }

  lemma OneIn(rows: seq<Dependent>, s: Scope) returns (d: Dependent)
    requires s in Scopes(rows)
    ensures d in rows && Covers(s, d)
  {
    match s
    case Estate => d := rows[0];
    case Repository(r) => d :| d in rows && d.repo == r;
    case Component(r, p) => d :| d in rows && d.repo == r && d.path == p;
  }

  lemma PlacedIsCovered(rows: seq<Dependent>, s: Scope, k: nat)
    requires k in Places(rows, s)
    ensures rows[k] in rows && Covers(s, rows[k])
  {}

  /** A scope is offered exactly when a dependent lies in it, except that the root of a repository is no component. */
  lemma OfferedExactly(rows: seq<Dependent>, s: Scope)
    ensures s in Scopes(rows) <==> Places(rows, s) != {} && (s.Component? ==> s.path != "")
  {
    if s in Scopes(rows) {
      var d := OneIn(rows, s);
      Inhabited(rows, s, d);
    } else if k :| k in Places(rows, s) {
      PlacedIsCovered(rows, s, k);
    }
  }

  lemma ScopeAt(rows: seq<Dependent>, k: nat)
    requires k < |Scopes(rows)|
    ensures var s, n := Scopes(rows)[k], |Repositories(rows)| + 1;
            && (k == 0 ==> s == Estate)
            && (1 <= k < n ==> s.Repository? && s == Repositories(rows)[k - 1])
            && (n <= k ==> k - n < |Components(rows)| && s.Component? && s == Components(rows)[k - n])
  {
    var n := |Repositories(rows)| + 1;
    if 1 <= k < n {
      assert Repositories(rows)[k - 1] in Repositories(rows);
    } else if n <= k {
      assert Components(rows)[k - n] in Components(rows);
    }
  }

  /** The estate is offered first, then the repositories, then the components, each kind as its members are met. */
  lemma OfferedInOrder(rows: seq<Dependent>, i: nat, j: nat)
    requires i < j < |Scopes(rows)|
    ensures var a, b := Scopes(rows)[i], Scopes(rows)[j];
            && !b.Estate? && (i == 0 <==> a.Estate?) && !(a.Component? && b.Repository?)
            && (a.Repository? == b.Repository? ==> i == 0 || MetBefore(rows, a, b))
  {
    ScopeAt(rows, i);
    ScopeAt(rows, j);
    if 1 <= i && j <= |Repositories(rows)| {
      RepositoriesInOrder(rows);
    } else if |Repositories(rows)| < i {
      ComponentsInOrder(rows);
    }
  }
}
