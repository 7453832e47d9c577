// Change set conflicts, and what they say about the order in which mutations are applied.

module ChangeConflicts {
  import opened Ordering

  type Id = nat
  type FactId = nat
  type Version = string

  /** A compiled mutation; a part that did not resolve is absent. */
  datatype Draft = Draft(fingerprint: string, subject: Option<Id>, scope: Option<string>, target: Option<Version>)

  datatype Reason = DuplicateMutation | ConflictingMutations

  predicate Resolved(d: Draft) {
    d.subject.Some? && d.scope.Some? && d.target.Some?
  }

  predicate Repeats(ds: seq<Draft>) {
    exists i, j :: 0 <= i < j < |ds| && ds[i].fingerprint == ds[j].fingerprint
  }

  /** Two drafts move one subject in one scope to different targets. */
  predicate Clash(a: Draft, b: Draft) {
    Resolved(a) && Resolved(b) && a.subject == b.subject && a.scope == b.scope && a.target != b.target
  }

  predicate Clashes(ds: seq<Draft>) {
    exists i, j :: 0 <= i < j < |ds| && Clash(ds[i], ds[j])
  }

  /** The targets asked for under one subject and scope. */
  predicate Asks(ds: seq<Draft>, key: (Id, string), v: Version) {
    exists i :: 0 <= i < |ds| && Resolved(ds[i]) && (ds[i].subject.value, ds[i].scope.value) == key
      && ds[i].target.value == v
  }

  predicate Reflects(bySubject: map<(Id, string), set<Version>>, ds: seq<Draft>, k: (Id, string), v: Version) {
    (k in bySubject && v in bySubject[k]) <==> Asks(ds, k, v)
  }

  ghost predicate Mirrors(bySubject: map<(Id, string), set<Version>>, ds: seq<Draft>) {
    && (forall k, v :: Reflects(bySubject, ds, k, v))
    && (forall k :: k in bySubject ==> bySubject[k] != {})
  }

  lemma AsksNext(ds: seq<Draft>, n: nat, k: (Id, string), v: Version)
    requires n < |ds|
    ensures Asks(ds[..n + 1], k, v)
            <==> Asks(ds[..n], k, v)
                 || (Resolved(ds[n]) && (ds[n].subject.value, ds[n].scope.value) == k && ds[n].target.value == v)
  {
    assert ds[..n + 1][n] == ds[n];
    if Asks(ds[..n], k, v) {
      var i :| 0 <= i < n && Resolved(ds[i]) && (ds[i].subject.value, ds[i].scope.value) == k
          && ds[i].target.value == v;
      assert ds[..n + 1][i] == ds[i];
    }
  }

  lemma MirrorsNext(before: map<(Id, string), set<Version>>, ds: seq<Draft>, n: nat)
    requires n < |ds| && Mirrors(before, ds[..n]) && Resolved(ds[n])
    ensures var k, v := (ds[n].subject.value, ds[n].scope.value), ds[n].target.value;
            Mirrors(before[k := (if k in before then before[k] else {}) + {v}], ds[..n + 1])
  {
    var k, v := (ds[n].subject.value, ds[n].scope.value), ds[n].target.value;
    var after := before[k := (if k in before then before[k] else {}) + {v}];
    var next := ds[..n + 1];
    forall k', v' ensures Reflects(after, next, k', v') {
      AsksNext(ds, n, k', v');
      assert Reflects(before, ds[..n], k', v');
    }
    assert v in after[k];
  }

  lemma MirrorsSkip(before: map<(Id, string), set<Version>>, ds: seq<Draft>, n: nat)
    requires n < |ds| && Mirrors(before, ds[..n]) && !Resolved(ds[n])
    ensures Mirrors(before, ds[..n + 1])
  {
    var next := ds[..n + 1];
    forall k, v ensures Reflects(before, next, k, v) {
      AsksNext(ds, n, k, v);
      assert Reflects(before, ds[..n], k, v);
    }
  }

  /** Two targets under one key are two drafts that clash. */
  lemma TwoTargetsClash(bySubject: map<(Id, string), set<Version>>, ds: seq<Draft>)
    requires Mirrors(bySubject, ds)
    ensures (exists k :: k in bySubject && |bySubject[k]| > 1) <==> Clashes(ds)
  {
    if k :| k in bySubject && |bySubject[k]| > 1 {
      var v :| v in bySubject[k];
      assert |bySubject[k] - {v}| > 0;
      var u :| u in bySubject[k] - {v};
      assert Reflects(bySubject, ds, k, u) && Reflects(bySubject, ds, k, v);
      var i :| 0 <= i < |ds| && Resolved(ds[i]) && (ds[i].subject.value, ds[i].scope.value) == k
          && ds[i].target.value == u;
      var j :| 0 <= j < |ds| && Resolved(ds[j]) && (ds[j].subject.value, ds[j].scope.value) == k
          && ds[j].target.value == v;
      if i < j { assert Clash(ds[i], ds[j]); } else { assert Clash(ds[j], ds[i]); }
    }
    if Clashes(ds) {
      var i, j :| 0 <= i < j < |ds| && Clash(ds[i], ds[j]);
      var k := (ds[i].subject.value, ds[i].scope.value);
      assert Reflects(bySubject, ds, k, ds[i].target.value) && Reflects(bySubject, ds, k, ds[j].target.value);
      assert {ds[i].target.value, ds[j].target.value} <= bySubject[k];
      TwoOrMore(bySubject[k], ds[i].target.value, ds[j].target.value);
    }
  }

  lemma TwoOrMore(s: set<Version>, u: Version, v: Version)
    requires u in s && v in s && u != v
    ensures |s| > 1
  {
    assert v in s - {u};
    assert |s - {u}| == |s| - 1;
  }

  /** The check the compiler runs over a set: one pass, a dictionary of sets, and a set of fingerprints. */
  method Conflicts(ds: seq<Draft>) returns (reasons: seq<Reason>)
    ensures reasons == (if Repeats(ds) then [DuplicateMutation] else [])
            + (if Clashes(ds) then [ConflictingMutations] else [])
  {
    var bySubject: map<(Id, string), set<Version>> := map[];
    var seen: set<string> := {};
    var duplicated := false;
    for i := 0 to |ds|
      invariant Mirrors(bySubject, ds[..i])
      invariant forall x :: x in seen <==> exists k :: 0 <= k < i && ds[k].fingerprint == x
      invariant duplicated <==> Repeats(ds[..i])
    {
      var d := ds[i];
      assert ds[..i + 1][i] == d;
      assert forall k :: 0 <= k < i ==> ds[..i + 1][k] == ds[..i][k];
      if d.fingerprint in seen {
        duplicated := true;
      }
      seen := seen + {d.fingerprint};
      if Resolved(d) {
        var key := (d.subject.value, d.scope.value);
        MirrorsNext(bySubject, ds, i);
        bySubject := bySubject[key := (if key in bySubject then bySubject[key] else {}) + {d.target.value}];
      } else {
        MirrorsSkip(bySubject, ds, i);
      }
    }
    assert ds[..|ds|] == ds;
    TwoTargetsClash(bySubject, ds);
    reasons := [];
    if duplicated { reasons := reasons + [DuplicateMutation]; }
    if exists k :: k in bySubject && |bySubject[k]| > 1 { reasons := reasons + [ConflictingMutations]; }
  }

  // ---- Applying a set: every draft moves the dependencies its scope covers

  /** The dependencies a draft covers, given which ones a subject has in a scope. */
  ghost function Covered(covers: (Id, string) -> set<FactId>, d: Draft): set<FactId> {
    if Resolved(d) then covers(d.subject.value, d.scope.value) else {}
  }

  ghost function Apply(covers: (Id, string) -> set<FactId>, versions: map<FactId, Version>,
                       ds: seq<Draft>): map<FactId, Version>
    decreases |ds|
  {
    if ds == [] then versions
    else
      var before, d := Apply(covers, versions, ds[..|ds| - 1]), ds[|ds| - 1];
      map f | f in before :: if f in Covered(covers, d) then d.target.value else before[f]
  }

  /** Two drafts that touch one dependency ask for one version. */
  ghost predicate Compatible(covers: (Id, string) -> set<FactId>, versions: map<FactId, Version>, ds: seq<Draft>) {
    forall a, b, f :: a in ds && b in ds && f in versions && f in Covered(covers, a) && f in Covered(covers, b)
           ==> a.target == b.target
  }

  ghost predicate OrderFree(covers: (Id, string) -> set<FactId>, versions: map<FactId, Version>, ds: seq<Draft>) {
    forall other: seq<Draft> :: multiset(other) == multiset(ds)
           ==> Apply(covers, versions, other) == Apply(covers, versions, ds)
  }

  lemma {:induction false} AppliedVersion(covers: (Id, string) -> set<FactId>, versions: map<FactId, Version>,
                                          ds: seq<Draft>, f: FactId)
    requires Compatible(covers, versions, ds) && f in versions
    ensures f in Apply(covers, versions, ds)
    ensures forall d :: d in ds && f in Covered(covers, d) ==> Apply(covers, versions, ds)[f] == d.target.value
    ensures (forall d :: d in ds ==> f !in Covered(covers, d)) ==> Apply(covers, versions, ds)[f] == versions[f]
    decreases |ds|
  {
    if ds != [] {
      var front, last := ds[..|ds| - 1], ds[|ds| - 1];
      assert ds == front + [last];
      assert last in ds && forall d :: d in front ==> d in ds;
      AppliedVersion(covers, versions, front, f);
    }
  }

  lemma {:induction false} ApplyKeys(covers: (Id, string) -> set<FactId>, versions: map<FactId, Version>,
                                     ds: seq<Draft>)
    ensures Apply(covers, versions, ds).Keys == versions.Keys
    decreases |ds|
  {
    if ds != [] { ApplyKeys(covers, versions, ds[..|ds| - 1]); }
  }

  lemma CompatibleIsOrderFree(covers: (Id, string) -> set<FactId>, versions: map<FactId, Version>, ds: seq<Draft>)
    requires Compatible(covers, versions, ds)
    ensures OrderFree(covers, versions, ds)
  {
    forall other: seq<Draft> | multiset(other) == multiset(ds)
      ensures Apply(covers, versions, other) == Apply(covers, versions, ds)
    {
      SameMembers(other, ds);
      ApplyKeys(covers, versions, ds);
      ApplyKeys(covers, versions, other);
      forall f | f in versions ensures Apply(covers, versions, other)[f] == Apply(covers, versions, ds)[f] {
        AppliedVersion(covers, versions, ds, f);
        AppliedVersion(covers, versions, other, f);
      }
    }
  }

  lemma SameMembers(a: seq<Draft>, b: seq<Draft>)
    requires multiset(a) == multiset(b)
    ensures forall d :: d in a <==> d in b
  {
    forall d ensures d in a <==> d in b {
      assert d in a <==> d in multiset(a);
      assert d in b <==> d in multiset(b);
    }
  }

  /** The draft applied last decides the version of what it covers. */
  lemma LastWins(covers: (Id, string) -> set<FactId>, versions: map<FactId, Version>, ds: seq<Draft>, d: Draft,
                 f: FactId)
    requires f in versions && f in Covered(covers, d)
    ensures f in Apply(covers, versions, ds + [d]) && Apply(covers, versions, ds + [d])[f] == d.target.value
  {
    assert (ds + [d])[..|ds|] == ds;
    ApplyKeys(covers, versions, ds);
  }

  lemma MoveToEnd(ds: seq<Draft>, i: nat)
    requires i < |ds|
    ensures multiset(ds[..i] + ds[i + 1..] + [ds[i]]) == multiset(ds)
  {
    assert ds == ds[..i] + ([ds[i]] + ds[i + 1..]);
  }

  /** The effect of a set is the same in every order exactly when no two of its drafts disagree about a dependency. */
  lemma OrderFreeExactly(covers: (Id, string) -> set<FactId>, versions: map<FactId, Version>, ds: seq<Draft>)
    ensures OrderFree(covers, versions, ds) <==> Compatible(covers, versions, ds)
  {
    if Compatible(covers, versions, ds) {
      CompatibleIsOrderFree(covers, versions, ds);
    } else {
      var a, b, f :| a in ds && b in ds && f in versions && f in Covered(covers, a) && f in Covered(covers, b)
          && a.target != b.target;
      var first := EndsWith(covers, versions, ds, a, f);
      var second := EndsWith(covers, versions, ds, b, f);
      assert Apply(covers, versions, first) != Apply(covers, versions, second);
    }
  }

  /** Some order of the set ends with a given draft, which then decides the versions it covers. */
  lemma EndsWith(covers: (Id, string) -> set<FactId>, versions: map<FactId, Version>, ds: seq<Draft>, d: Draft,
                 f: FactId)
      returns (other: seq<Draft>)
    requires d in ds && f in versions && f in Covered(covers, d)
    ensures multiset(other) == multiset(ds)
    ensures f in Apply(covers, versions, other) && Apply(covers, versions, other)[f] == d.target.value
  {
    var i :| 0 <= i < |ds| && ds[i] == d;
    MoveToEnd(ds, i);
    other := ds[..i] + ds[i + 1..] + [d];
    LastWins(covers, versions, ds[..i] + ds[i + 1..], d, f);
  }

  /** Whatever two drafts share a dependency, they share subject and scope. */
  ghost predicate ScopesApart(covers: (Id, string) -> set<FactId>, versions: map<FactId, Version>, ds: seq<Draft>) {
    forall a, b, f :: a in ds && b in ds && f in versions && f in Covered(covers, a) && f in Covered(covers, b)
                      ==> a.subject == b.subject && a.scope == b.scope
  }

  /** A set without a conflict, whose different scopes share no dependency, has one effect in every order. */
  lemma NoConflictIsOrderFree(covers: (Id, string) -> set<FactId>, versions: map<FactId, Version>, ds: seq<Draft>)
    requires !Clashes(ds) && ScopesApart(covers, versions, ds)
    ensures OrderFree(covers, versions, ds)
  {
    forall a, b, f | a in ds && b in ds && f in versions && f in Covered(covers, a) && f in Covered(covers, b)
      ensures a.target == b.target
    {
      var i :| 0 <= i < |ds| && ds[i] == a;
      var j :| 0 <= j < |ds| && ds[j] == b;
      if a.target != b.target {
        assert Clash(a, b) && Clash(b, a);
        assert Clashes(ds);
      }
    }
    CompatibleIsOrderFree(covers, versions, ds);
  }

  // ---- The two reasons in plain terms

  function Fingerprints(ds: seq<Draft>): set<string> {
    set d | d in ds :: d.fingerprint
  }

  lemma FingerprintsNext(front: seq<Draft>, last: Draft)
    ensures Fingerprints(front + [last]) == Fingerprints(front) + {last.fingerprint}
  {
    forall d | d in front + [last] ensures d in front || d == last {}
    forall d | d in front || d == last ensures d in front + [last] {}
  }

  lemma RepeatsNext(front: seq<Draft>, last: Draft)
    ensures Repeats(front + [last]) <==> Repeats(front) || last.fingerprint in Fingerprints(front)
  {
    var ds := front + [last];
    if i, j :| 0 <= i < j < |front| && front[i].fingerprint == front[j].fingerprint {
      assert ds[i].fingerprint == ds[j].fingerprint;
    }
    if last.fingerprint in Fingerprints(front) {
      var i :| 0 <= i < |front| && front[i].fingerprint == last.fingerprint;
      assert ds[i].fingerprint == ds[|front|].fingerprint;
    }
    if i, j :| 0 <= i < j < |ds| && ds[i].fingerprint == ds[j].fingerprint {
      if j == |front| { assert front[i] in front; } else { assert front[i].fingerprint == front[j].fingerprint; }
    }
  }

  /** A fingerprint repeats exactly when there are fewer fingerprints than drafts. */
  lemma {:induction false} RepeatsAreFewer(ds: seq<Draft>)
    ensures |Fingerprints(ds)| <= |ds| && (Repeats(ds) <==> |Fingerprints(ds)| < |ds|)
    decreases |ds|
  {
    if ds != [] {
      var front, last := ds[..|ds| - 1], ds[|ds| - 1];
      assert ds == front + [last];
      RepeatsAreFewer(front);
      FingerprintsNext(front, last);
      RepeatsNext(front, last);
    }
  }

  /** Drafts clash exactly when two of them resolve one subject and one scope to different versions. */
  lemma ClashesRead(ds: seq<Draft>)
    ensures Clashes(ds) <==>
            exists a, b :: a in ds && b in ds && a.subject.Some? && a.subject == b.subject && a.scope.Some?
                           && a.scope == b.scope && a.target.Some? && b.target.Some? && a.target != b.target
  {
    if a, b :| a in ds && b in ds && a.subject.Some? && a.subject == b.subject && a.scope.Some?
               && a.scope == b.scope && a.target.Some? && b.target.Some? && a.target != b.target {
      var i :| 0 <= i < |ds| && ds[i] == a;
      var j :| 0 <= j < |ds| && ds[j] == b;
      if i < j { assert Clash(ds[i], ds[j]); } else { assert Clash(ds[j], ds[i]); }
    }
  }
}
