// In what order a run reports its limitations, and which of several of one code it keeps.

module SimulationLimits {
  import opened Ordering
  import opened Estate
  import opened Traversal
  import opened Findings
  import opened Seeds
  import opened Simulation
  import opened SimulationProofs
  import SimulationClosing
  import SimulationStored
  import TraversalPlain

  function Rank(c: Code): nat {
    match c
    case OfWalk(TraversalBudget) => 0
    case OfWalk(MaxDepth) => 1
    case NoCapabilityPath => 2
    case CapabilityNotMapped => 2
    case NoEligiblePath => 3
  }

  /** No code twice, and they come in the order of their ranks. */
  predicate InCodeOrder(ls: seq<Limitation>) {
    forall i, j :: 0 <= i < j < |ls| ==> Rank(ls[i].code) < Rank(ls[j].code)
  }

  predicate Between(ls: seq<Limitation>, low: nat, high: nat) {
    forall l :: l in ls ==> low <= Rank(l.code) <= high
  }

  lemma InOrderJoined(a: seq<Limitation>, b: seq<Limitation>, low: nat, mid: nat, next: nat, high: nat)
    requires InCodeOrder(a) && InCodeOrder(b) && Between(a, low, mid) && Between(b, next, high)
    requires low <= mid < next <= high
    ensures InCodeOrder(a + b) && Between(a + b, low, high)
  {
    var ls := a + b;
    forall i, j | 0 <= i < j < |ls| ensures Rank(ls[i].code) < Rank(ls[j].code) {
      if i < |a| <= j { assert a[i] in a && b[j - |a|] in b; }
    }
  }

  lemma LastIsNew(front: seq<Limitation>, last: Limitation)
    requires InCodeOrder(front + [last])
    ensures InCodeOrder(front) && !HasCode(front, last.code)
    ensures forall l :: l in front ==> Rank(l.code) < Rank(last.code)
  {
    var more := front + [last];
    assert forall i :: 0 <= i < |front| ==> more[i] == front[i];
    assert more[|front|] == last;
  }

  lemma OneMore(added: seq<Limitation>, last: Limitation)
    requires InCodeOrder(added) && forall l :: l in added ==> Rank(l.code) < Rank(last.code)
    ensures InCodeOrder(added + [last])
  {}

  /** Noting more limitations adds, in their order, those whose code is not there yet. */
  lemma {:induction false} NotedAllAdds(ls: seq<Limitation>, more: seq<Limitation>) returns (added: seq<Limitation>)
    requires InCodeOrder(more)
    ensures NotedAll(ls, more) == ls + added && InCodeOrder(added)
    ensures forall l :: l in added <==> l in more && !HasCode(ls, l.code)
    decreases |more|
  {
    if more == [] {
      added := [];
    } else {
      var front, last := more[..|more| - 1], more[|more| - 1];
      assert more == front + [last];
      LastIsNew(front, last);
      added := NotedAllAdds(ls, front);
      SimulationStored.NotedAllHas(ls, front, last.code);
      if !HasCode(ls, last.code) {
        OneMore(added, last);
        added := added + [last];
      }
    }
  }

  // ---- One mutation

  lemma WalkLimitsInOrder(codes: seq<Limit>)
    requires TraversalPlain.InNotedOrder(codes)
    ensures InCodeOrder(WalkLimits(codes)) && Between(WalkLimits(codes), 0, 1)
  {}

  lemma BudgetThenWalk(limited: bool, codes: seq<Limit>)
    requires TraversalPlain.InNotedOrder(codes)
    ensures var budget := if limited then [Limitation(OfWalk(TraversalBudget), [])] else [];
            InCodeOrder(NotedAll(budget, WalkLimits(codes))) && Between(NotedAll(budget, WalkLimits(codes)), 0, 1)
  {
    var budget := if limited then [Limitation(OfWalk(TraversalBudget), [])] else [];
    WalkLimitsInOrder(codes);
    var added := NotedAllAdds(budget, WalkLimits(codes));
    forall l | l in added ensures limited ==> Rank(l.code) == 1 {
      if limited { SimulationClosing.OneCode(budget, OfWalk(TraversalBudget)); }
    }
    if limited {
      assert Between(budget, 0, 0) && Between(added, 1, 1);
      InOrderJoined(budget, added, 0, 0, 1, 1);
    } else {
      assert budget + added == added;
    }
  }

  lemma ThreeInOrder(walked: seq<Limitation>, mapped: seq<Limitation>, closing: seq<Limitation>)
    requires InCodeOrder(walked) && InCodeOrder(mapped) && InCodeOrder(closing)
    requires Between(walked, 0, 1) && Between(mapped, 2, 2) && Between(closing, 3, 3)
    ensures InCodeOrder(walked + mapped + closing)
  {
    InOrderJoined(walked, mapped, 0, 1, 2, 2);
    InOrderJoined(walked + mapped, closing, 0, 2, 3, 3);
  }

  lemma CapabilityLimitsInOrder(g: Graph, p: Policy, nodes: seq<Node>, limit: nat)
    ensures InCodeOrder(CapabilityLimits(g, p, nodes, limit)) && Between(CapabilityLimits(g, p, nodes, limit), 2, 2)
  {}

  lemma PartsInOrder(g: Graph, p: Policy, rows: seq<SeedRow>, intake: Intake, w: Walk, limit: nat)
    requires TraversalPlain.InNotedOrder(w.limitations)
    ensures InCodeOrder(Limitations(g, p, rows, intake, w, limit))
  {
    var budget := if intake.limited then [Limitation(OfWalk(TraversalBudget), [])] else [];
    var closing := if intake.eligible == [] then [Limitation(NoEligiblePath, Evidenced(rows))] else [];
    BudgetThenWalk(intake.limited, w.limitations);
    CapabilityLimitsInOrder(g, p, w.nodes, limit);
    ThreeInOrder(NotedAll(budget, WalkLimits(w.limitations)), CapabilityLimits(g, p, w.nodes, limit), closing);
  }

  /** A mutation reports each limitation once: the budget, the depth bound, the capabilities, the lack of dependents. */
  lemma MutationNotesInOrder(g: Graph, p: Policy, i: nat, m: Mutation, nodes: nat, edges: nat)
    ensures InCodeOrder(Simulate(g, p, i, m, nodes, edges).limitations)
  {
    var rows, intake := Take(m.seeds, edges), Taken(p, i, m, nodes, edges);
    var seeds := SeedNodes(p, m, intake.eligible);
    TraversalPlain.DepthBoundIsNoted(Task(g, p, nodes, Left(edges, rows)), seeds, 1);
    PartsInOrder(g, p, rows, intake, Expanded(Task(g, p, nodes, Left(edges, rows)), seeds), nodes);
  }

  /** The places of the rows that have evidence. */
  function Evident(rows: seq<SeedRow>): set<nat> {
    set k: nat | k < |rows| && rows[k].evidenced
  }

  lemma EvidentNext(front: seq<SeedRow>, last: SeedRow)
    ensures Evident(front + [last]) == Evident(front) + if last.evidenced then {|front|} else {}
    ensures |Evident(front + [last])| == |Evident(front)| + if last.evidenced then 1 else 0
  {
    var rows := front + [last];
    assert forall k :: 0 <= k < |front| ==> rows[k] == front[k];
    assert Evident(rows) == Evident(front) + if last.evidenced then {|front|} else {};
  }

  lemma {:induction false} EvidencedNext(front: seq<SeedRow>, last: SeedRow)
    ensures Evidenced(front + [last]) == Evidenced(front) + if last.evidenced then [last.fact] else []
  {
    if front != [] {
      assert (front + [last])[1..] == front[1..] + [last];
      EvidencedNext(front[1..], last);
    }
  }

  lemma {:induction false} EvidencedCount(rows: seq<SeedRow>)
    ensures |Evidenced(rows)| == |Evident(rows)|
    decreases |rows|
  {
    if rows == [] {
      assert Evident(rows) == {};
    } else {
      var front, last := rows[..|rows| - 1], rows[|rows| - 1];
      assert rows == front + [last];
      EvidencedCount(front);
      EvidentNext(front, last);
      EvidencedNext(front, last);
    }
  }

  /** A row with evidence is cited at the place that the number of such rows before it gives. */
  predicate CitedAt(rows: seq<SeedRow>, evidence: seq<FactId>, r: nat)
    requires r < |rows|
  {
    var n := |Evident(rows[..r])|;
    n < |evidence| && evidence[n] == rows[r].fact
  }

  lemma {:induction false} EvidencedAt(rows: seq<SeedRow>, r: nat)
    requires r < |rows| && rows[r].evidenced
    ensures CitedAt(rows, Evidenced(rows), r)
    decreases |rows|
  {
    var front, last := rows[..|rows| - 1], rows[|rows| - 1];
    assert rows == front + [last];
    EvidencedNext(front, last);
    EvidencedCount(front);
    if r < |front| {
      EvidencedAt(front, r);
      assert rows[..r] == front[..r];
    }
  }

  /** Where no dependency was accepted, the limitation cites those found that have evidence, in the order found. */
  lemma RefusedAreCitedInOrder(g: Graph, p: Policy, i: nat, m: Mutation, nodes: nat, edges: nat)
      returns (l: Limitation)
    requires Simulate(g, p, i, m, nodes, edges).eligible == []
    ensures var o := Simulate(g, p, i, m, nodes, edges);
            && l in o.limitations && l.code == NoEligiblePath && |l.evidence| == |Evident(o.rows)|
            && forall r: nat :: r < |o.rows| && o.rows[r].evidenced ==> CitedAt(o.rows, l.evidence, r)
  {
    var o := Simulate(g, p, i, m, nodes, edges);
    l := Limitation(NoEligiblePath, Evidenced(o.rows));
    assert o.limitations[|o.limitations| - 1] == l;
    EvidencedCount(o.rows);
    forall r: nat | r < |o.rows| && o.rows[r].evidenced ensures CitedAt(o.rows, l.evidence, r) {
      EvidencedAt(o.rows, r);
    }
  }

  // ---- The run

  /** Mutation `k` is the first to report a limitation of this code, and this is what it reports. */
  ghost predicate NotedAt(os: seq<Outcome>, k: nat, l: Limitation) {
    k < |os| && l in os[k].limitations && forall j :: 0 <= j < k ==> !HasCode(os[j].limitations, l.code)
  }

  /** `a` was reported before `b`: by an earlier mutation, or by the same one with the lower rank. */
  ghost predicate NotedBefore(os: seq<Outcome>, a: Limitation, b: Limitation) {
    exists j: nat, k: nat :: NotedAt(os, j, a) && NotedAt(os, k, b)
      && (j < k || (j == k && Rank(a.code) < Rank(b.code)))
  }

  ghost predicate Reports(os: seq<Outcome>, ls: seq<Limitation>) {
    && (forall l :: l in ls <==> exists k: nat :: NotedAt(os, k, l))
    && (forall a, b :: 0 <= a < b < |ls| ==> NotedBefore(os, ls[a], ls[b]))
  }

  lemma NotedEarlier(front: seq<Outcome>, last: Outcome, k: nat, l: Limitation)
    ensures NotedAt(front + [last], k, l)
            <==> NotedAt(front, k, l)
                 || (k == |front| && l in last.limitations
                     && forall o :: o in front ==> !HasCode(o.limitations, l.code))
  {
    var os := front + [last];
    assert forall j :: 0 <= j < |front| ==> os[j] == front[j] && front[j] in front;
  }

  lemma ReportsNext(front: seq<Outcome>, last: Outcome, ls: seq<Limitation>, added: seq<Limitation>)
    requires Reports(front, ls) && InCodeOrder(added)
    requires forall c :: HasCode(ls, c) <==> exists o :: o in front && HasCode(o.limitations, c)
    requires forall l :: l in added <==> l in last.limitations && !HasCode(ls, l.code)
    ensures Reports(front + [last], ls + added)
  {
    var os, all := front + [last], ls + added;
    forall l, k: nat ensures NotedAt(os, k, l) <==> NotedAt(front, k, l) || (k == |front| && l in added) {
      NotedEarlier(front, last, k, l);
    }
    forall l ensures l in all <==> exists k: nat :: NotedAt(os, k, l) {
      if l in added { assert NotedAt(os, |front|, l); }
      if k: nat :| NotedAt(front, k, l) { assert NotedAt(os, k, l); }
    }
    forall a, b | 0 <= a < b < |all| ensures NotedBefore(os, all[a], all[b]) {
      if b < |ls| {
        assert NotedBefore(front, ls[a], ls[b]);
        var j: nat, k: nat :| NotedAt(front, j, ls[a]) && NotedAt(front, k, ls[b])
                              && (j < k || (j == k && Rank(ls[a].code) < Rank(ls[b].code)));
        assert NotedAt(os, j, all[a]) && NotedAt(os, k, all[b]);
      } else {
        assert all[b] in added && NotedAt(os, |front|, all[b]);
        if a < |ls| {
          assert ls[a] in ls;
          var j: nat :| NotedAt(front, j, ls[a]);
          assert NotedAt(os, j, all[a]) && j < |front|;
        } else {
          assert all[a] in added && NotedAt(os, |front|, all[a]);
        }
      }
    }
  }

  lemma {:induction false} MergedAreFirst(os: seq<Outcome>)
    requires forall o :: o in os ==> InCodeOrder(o.limitations)
    ensures Reports(os, RunLimitations(os))
    decreases |os|
  {
    if os != [] {
      var front, last := os[..|os| - 1], os[|os| - 1];
      assert os == front + [last];
      MergedAreFirst(front);
      forall c ensures HasCode(RunLimitations(front), c) <==> exists o :: o in front && HasCode(o.limitations, c) {
        SimulationStored.RunHas(front, c);
      }
      var added := NotedAllAdds(RunLimitations(front), last.limitations);
      ReportsNext(front, last, RunLimitations(front), added);
    }
  }

  /** A run reports, of each code, what the first mutation to note it noted, in the order they were noted. */
  lemma RunReportsFirst(g: Graph, p: Policy, ms: seq<Mutation>, maxNodes: int, maxEdges: int)
    requires ms != []
    ensures var os := Run(g, p, ms, maxNodes, maxEdges); Reports(os, RunLimitations(os))
  {
    var os := Run(g, p, ms, maxNodes, maxEdges);
    forall o | o in os ensures InCodeOrder(o.limitations) {
      var i :| 0 <= i < |os| && os[i] == o;
      RunAt(g, p, ms, maxNodes, maxEdges, i);
      MutationNotesInOrder(g, p, i, ms[i], Share(Effective(maxNodes, p.maxNodes), |ms|),
                           Share(Effective(maxEdges, p.maxEdges), |ms|));
    }
    MergedAreFirst(os);
  }
}
