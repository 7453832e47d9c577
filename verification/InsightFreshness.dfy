// How old and how stale a served insight can be, over every interleaving of requests, changes and invalidations.

module InsightFreshness {
  import opened Ordering
  import opened InsightCache

  function At(s0: Service, acts: seq<Action>, n: nat): Service
    requires n <= |acts|
  {
    Exec(s0, acts[..n])
  }

  lemma AtNext(s0: Service, acts: seq<Action>, n: nat)
    requires n < |acts|
    ensures At(s0, acts, n + 1) == Step(At(s0, acts, n), acts[n])
  {
    assert acts[..n + 1][..n] == acts[..n];
  }

  lemma {:induction false} MomentsAreSteps(s0: Service, acts: seq<Action>, n: nat)
    requires Initial(s0) && n <= |acts|
    ensures At(s0, acts, n).moment == n
    decreases n
  {
    if n > 0 {
      MomentsAreSteps(s0, acts, n - 1);
      AtNext(s0, acts, n - 1);
    }
  }

  lemma {:induction false} ClockAdvances(s0: Service, acts: seq<Action>, m: nat, n: nat)
    requires m <= n <= |acts|
    ensures At(s0, acts, m).clock <= At(s0, acts, n).clock
    decreases n
  {
    if m < n {
      ClockAdvances(s0, acts, m, n - 1);
      AtNext(s0, acts, n - 1);
    }
  }

  // ---- What a fill has read

  /** Moments in order, each before step `n`, each a read of request `id`. */
  predicate Reading(acts: seq<Action>, n: nat, id: nat, moments: seq<nat>) {
    && n <= |acts|
    && (forall i :: 0 <= i < |moments| ==> moments[i] < n && acts[moments[i]] == Fetch(id))
    && (forall i, j :: 0 <= i < j < |moments| ==> moments[i] < moments[j])
  }

  /** The tenant's estate at each of the moments. */
  function Reads(s0: Service, acts: seq<Action>, tenant: Tenant, moments: seq<nat>): (seen: seq<Estate>)
    requires forall i :: 0 <= i < |moments| ==> moments[i] <= |acts|
    ensures |seen| == |moments|
  {
    seq(|moments|, i requires 0 <= i < |moments| => At(s0, acts, moments[i]).estates(tenant))
  }

  lemma ReadsNext(s0: Service, acts: seq<Action>, tenant: Tenant, moments: seq<nat>, n: nat)
    requires (forall i :: 0 <= i < |moments| ==> moments[i] <= |acts|) && n <= |acts|
    ensures Reads(s0, acts, tenant, moments + [n]) == Reads(s0, acts, tenant, moments)
            + [At(s0, acts, n).estates(tenant)]
  {}

  predicate Spared(acts: seq<Action>, tenant: Tenant, m: nat, n: nat) {
    forall k :: m <= k < n && k < |acts| ==> acts[k] != Invalidate(tenant)
  }

  ghost predicate StartedBy(s0: Service, acts: seq<Action>, n: nat, start: nat, moments: seq<nat>) {
    && n <= |acts| && start <= At(s0, acts, n).clock
    && (moments != [] ==> moments[0] <= |acts| && start <= At(s0, acts, moments[0]).clock)
  }

  /** The rows so far are what the rules so far found, each in the estate as it was when its query ran. */
  ghost predicate Collected(s0: Service, acts: seq<Action>, n: nat, id: nat, f: Flight)
    requires f.Filling?
  {
    && Reading(acts, n, id, f.moments) && |f.moments| <= |f.policies|
    && f.rows == Gather(Reads(s0, acts, f.tenant, f.moments), f.policies[..|f.moments|], f.request.rule)
  }

  ghost predicate IsEvaluation(s0: Service, acts: seq<Action>, n: nat, id: nat, tenant: Tenant, policies: Policies,
                               only: Option<Rule>, insights: seq<Insight>, moments: seq<nat>) {
    && Reading(acts, n, id, moments) && |moments| == |policies| + 1
    && insights == Evaluation(Reads(s0, acts, tenant, moments), policies, only)
  }

  ghost predicate FlightHolds(s0: Service, acts: seq<Action>, n: nat, id: nat, f: Flight) {
    match f
    case Ready(_, _, _) => true
    case Filling(_, _, _, start, _, moments) => StartedBy(s0, acts, n, start, moments) && Collected(s0, acts, n, id, f)
    case Evaluated(t, p, q, start, insights, moments) =>
      StartedBy(s0, acts, n, start, moments) && IsEvaluation(s0, acts, n, id, t, p, q.rule, insights, moments)
  }

  /**
   * The entry was put in the cache when its fill finished, after its last read, and survived every invalidation
   * since.
   */
  ghost predicate EntryHolds(s0: Service, acts: seq<Action>, n: nat, k: (Tenant, Policies), e: Entry) {
    && e.fill.stored < n <= |acts| && acts[e.fill.stored] == Finish(e.fill.id)
    && IsEvaluation(s0, acts, e.fill.stored, e.fill.id, k.0, k.1, None, e.insights, e.fill.moments)
    && e.expires <= At(s0, acts, e.fill.moments[0]).clock + TTL
    && Spared(acts, k.0, e.fill.stored, n)
  }

  ghost predicate CacheHolds(s0: Service, acts: seq<Action>, n: nat) {
    n <= |acts| && forall k :: k in At(s0, acts, n).cache ==> EntryHolds(s0, acts, n, k, At(s0, acts, n).cache[k])
  }

  ghost predicate FlightsHold(s0: Service, acts: seq<Action>, n: nat) {
    n <= |acts| && forall i :: i in At(s0, acts, n).flights ==> FlightHolds(s0, acts, n, i, At(s0, acts, n).flights[i])
  }

  // ---- Each step keeps them

  lemma EntryStays(s0: Service, acts: seq<Action>, n: nat, k: (Tenant, Policies), e: Entry)
    requires n < |acts| && EntryHolds(s0, acts, n, k, e) && acts[n] != Invalidate(k.0)
    ensures EntryHolds(s0, acts, n + 1, k, e)
  {}

  lemma StoredEntryHolds(s0: Service, acts: seq<Action>, n: nat, id: nat, f: Flight)
    requires n < |acts| && FlightHolds(s0, acts, n, id, f) && f.Evaluated? && f.request.rule == None
             && acts[n] == Finish(id)
    ensures EntryHolds(s0, acts, n + 1, (f.tenant, f.policies),
                       Entry(f.start + TTL, f.insights, Fill(id, f.moments, n)))
  {}

  predicate Kept(s: Service, a: Action, k: (Tenant, Policies), e: Entry) {
    k in s.cache && s.cache[k] == e && a != Invalidate(k.0)
  }

  predicate Filled(s: Service, a: Action, k: (Tenant, Policies), e: Entry) {
    && a.Finish? && a.id in s.flights && s.flights[a.id].Evaluated?
    && var f := s.flights[a.id];
       f.request.rule == None && k == (f.tenant, f.policies)
         && e == Entry(f.start + TTL, f.insights, Fill(a.id, f.moments, s.moment))
  }

  /** An entry is there because it was before, or because a fill has just ended. */
  lemma EntryComesFrom(s: Service, a: Action, k: (Tenant, Policies))
    requires k in Step(s, a).cache
    ensures Kept(s, a, k, Step(s, a).cache[k]) || Filled(s, a, k, Step(s, a).cache[k])
  {}

  lemma CacheStepHolds(s0: Service, acts: seq<Action>, n: nat)
    requires Initial(s0) && n < |acts| && CacheHolds(s0, acts, n) && FlightsHold(s0, acts, n)
    ensures CacheHolds(s0, acts, n + 1)
  {
    var s, a := At(s0, acts, n), acts[n];
    AtNext(s0, acts, n);
    MomentsAreSteps(s0, acts, n);
    var cache := Step(s, a).cache;
    forall k | k in cache ensures EntryHolds(s0, acts, n + 1, k, cache[k]) {
      EntryComesFrom(s, a, k);
      if Kept(s, a, k, cache[k]) {
        EntryStays(s0, acts, n, k, cache[k]);
      } else {
        StoredEntryHolds(s0, acts, n, a.id, s.flights[a.id]);
      }
    }
  }

  lemma ReadingStays(acts: seq<Action>, m: nat, n: nat, id: nat, moments: seq<nat>)
    requires Reading(acts, m, id, moments) && m <= n <= |acts|
    ensures Reading(acts, n, id, moments)
  {}

  lemma ReadingGrows(acts: seq<Action>, n: nat, id: nat, moments: seq<nat>)
    requires n < |acts| && Reading(acts, n, id, moments) && acts[n] == Fetch(id)
    ensures Reading(acts, n + 1, id, moments + [n])
  {}

  lemma FlightStays(s0: Service, acts: seq<Action>, n: nat, id: nat, f: Flight)
    requires n < |acts| && FlightHolds(s0, acts, n, id, f)
    ensures FlightHolds(s0, acts, n + 1, id, f)
  {
    ClockAdvances(s0, acts, n, n + 1);
    if !f.Ready? { ReadingStays(acts, n, n + 1, id, f.moments); }
  }

  lemma MissedFlightHolds(s0: Service, acts: seq<Action>, n: nat, id: nat, f: Flight)
    requires n < |acts|
    ensures FlightHolds(s0, acts, n + 1, id, Filling(f.tenant, f.policies, f.request, At(s0, acts, n).clock, [], []))
  {
    ClockAdvances(s0, acts, n, n + 1);
  }

  lemma StartStays(s0: Service, acts: seq<Action>, n: nat, start: nat, moments: seq<nat>)
    requires n < |acts| && StartedBy(s0, acts, n, start, moments)
    ensures StartedBy(s0, acts, n + 1, start, moments + [n])
  {
    ClockAdvances(s0, acts, n, n + 1);
    if moments != [] { assert (moments + [n])[0] == moments[0]; }
  }

  /** One rule more: gathered over one read more. */
  lemma GatherNext(seen: seq<Estate>, estate: Estate, policies: Policies, only: Option<Rule>)
    requires |seen| < |policies|
    ensures var n := |seen|;
            var (rule, p) := policies[n];
            var had := Gather(seen, policies[..n], only);
            Gather(seen + [estate], policies[..n + 1], only)
            == if Evaluates(p, rule, only) then had + Rows(estate, rule, p) else had
  {
    var n := |seen|;
    assert policies[..n + 1][..n] == policies[..n] && (seen + [estate])[..n] == seen;
  }

  lemma RuleReadHolds(s0: Service, acts: seq<Action>, n: nat, id: nat, f: Flight)
    requires n < |acts| && f.Filling? && FlightHolds(s0, acts, n, id, f) && acts[n] == Fetch(id)
             && |f.moments| < |f.policies|
    ensures FlightHolds(s0, acts, n + 1, id, NextRead(f, At(s0, acts, n).estates(f.tenant), n))
  {
    ReadingGrows(acts, n, id, f.moments);
    StartStays(s0, acts, n, f.start, f.moments);
    ReadsNext(s0, acts, f.tenant, f.moments, n);
    GatherNext(Reads(s0, acts, f.tenant, f.moments), At(s0, acts, n).estates(f.tenant), f.policies, f.request.rule);
  }

  lemma ContextReadHolds(s0: Service, acts: seq<Action>, n: nat, id: nat, f: Flight)
    requires n < |acts| && f.Filling? && FlightHolds(s0, acts, n, id, f) && acts[n] == Fetch(id)
             && |f.moments| >= |f.policies|
    ensures FlightHolds(s0, acts, n + 1, id, NextRead(f, At(s0, acts, n).estates(f.tenant), n))
  {
    var had := Reads(s0, acts, f.tenant, f.moments);
    ReadingGrows(acts, n, id, f.moments);
    StartStays(s0, acts, n, f.start, f.moments);
    ReadsNext(s0, acts, f.tenant, f.moments, n);
    assert (had + [At(s0, acts, n).estates(f.tenant)])[..|f.policies|] == had
           && f.policies[..|f.policies|] == f.policies;
  }

  lemma FlightStepHolds(s0: Service, acts: seq<Action>, n: nat)
    requires Initial(s0) && n < |acts| && FlightsHold(s0, acts, n)
    ensures FlightsHold(s0, acts, n + 1)
  {
    var s, a := At(s0, acts, n), acts[n];
    AtNext(s0, acts, n);
    MomentsAreSteps(s0, acts, n);
    var s' := Step(s, a);
    forall i | i in s'.flights ensures FlightHolds(s0, acts, n + 1, i, s'.flights[i]) {
      if i in s.flights && s'.flights[i] == s.flights[i] {
        FlightStays(s0, acts, n, i, s.flights[i]);
      } else if a.LookUp? {
        MissedFlightHolds(s0, acts, n, i, s.flights[i]);
      } else if a.Fetch? {
        if |s.flights[i].moments| < |s.flights[i].policies| {
          RuleReadHolds(s0, acts, n, i, s.flights[i]);
        } else {
          ContextReadHolds(s0, acts, n, i, s.flights[i]);
        }
      }
    }
  }

  lemma {:induction false} RunsHold(s0: Service, acts: seq<Action>, n: nat)
    requires Initial(s0) && n <= |acts|
    ensures CacheHolds(s0, acts, n) && FlightsHold(s0, acts, n)
    decreases n
  {
    if n > 0 {
      RunsHold(s0, acts, n - 1);
      CacheStepHolds(s0, acts, n - 1);
      FlightStepHolds(s0, acts, n - 1);
    }
  }

  // ---- The step that gave a reply

  /** Request `id` was asked at step `m`, under the policies its tenant had then. */
  ghost predicate AskedAt(s0: Service, acts: seq<Action>, m: nat, id: nat, tenant: Tenant, policies: Policies,
                          q: Request) {
    m < |acts| && acts[m] == Ask(id, tenant, q) && id !in At(s0, acts, m).flights
      && policies == At(s0, acts, m).policies(tenant)
  }

  /** The request was in flight all the while between two steps. */
  ghost predicate Pending(s0: Service, acts: seq<Action>, m: nat, n: nat, id: nat)
    requires n <= |acts|
  {
    forall k :: m < k <= n ==> id in At(s0, acts, k).flights
  }

  lemma StepFlights(s: Service, a: Action, id: nat)
    requires id in Step(s, a).flights
    ensures var f := Step(s, a).flights[id];
            if id in s.flights
            then f.tenant == s.flights[id].tenant && f.policies == s.flights[id].policies
              && f.request == s.flights[id].request
            else a == Ask(id, f.tenant, f.request) && f.policies == s.policies(f.tenant)
  {}

  lemma PendingOnce(s0: Service, acts: seq<Action>, m: nat, n: nat, id: nat)
    requires n < |acts| && Pending(s0, acts, m, n, id) && id in At(s0, acts, n + 1).flights
    ensures Pending(s0, acts, m, n + 1, id)
  {}

  /** A flight was there a step before, for the same request, or that step asked it. */
  lemma FlightBefore(s0: Service, acts: seq<Action>, n: nat, id: nat)
    requires n < |acts| && id in At(s0, acts, n + 1).flights
    ensures var f := At(s0, acts, n + 1).flights[id];
            if id in At(s0, acts, n).flights
            then var g := At(s0, acts, n).flights[id];
                 f.tenant == g.tenant && f.policies == g.policies && f.request == g.request
            else AskedAt(s0, acts, n, id, f.tenant, f.policies, f.request)
  {
    AtNext(s0, acts, n);
    StepFlights(At(s0, acts, n), acts[n], id);
  }

  lemma {:induction false} FlightWasAsked(s0: Service, acts: seq<Action>, n: nat, id: nat) returns (m: nat)
    requires Initial(s0) && n <= |acts| && id in At(s0, acts, n).flights
    ensures m < n && Pending(s0, acts, m, n, id)
    ensures var f := At(s0, acts, n).flights[id]; AskedAt(s0, acts, m, id, f.tenant, f.policies, f.request)
    decreases n
  {
    var before: nat := n - 1;
    FlightBefore(s0, acts, before, id);
    if id in At(s0, acts, before).flights {
      m := FlightWasAsked(s0, acts, before, id);
      PendingOnce(s0, acts, m, before, id);
    } else {
      m := before;
    }
  }

  /**
   * Step `at` gave reply `i`: it resumed a request of the reply's tenant, policies and text, asked before, and either
   * looked it up in the cache or finished its own fill.
   */
  ghost predicate GivenAt(s0: Service, acts: seq<Action>, at: nat, i: nat, r: Reply) {
    && at < |acts| && |At(s0, acts, at).replies| == i && At(s0, acts, at + 1).replies == At(s0, acts, at).replies + [r]
    && (if r.cached then acts[at].LookUp? else acts[at] == Finish(r.fill.id) && at == r.fill.stored)
    && exists m: nat :: m < at && Pending(s0, acts, m, at, acts[at].id)
                        && AskedAt(s0, acts, m, acts[at].id, r.tenant, r.policies, r.request)
  }

  /** The reply a lookup gives from the cache. */
  predicate Hits(s: Service, a: Action, r: Reply) {
    && a.LookUp? && a.id in s.flights && s.flights[a.id].Ready?
    && var f := s.flights[a.id];
       && (f.tenant, f.policies) in Unexpired(s.cache, s.clock)
       && var e := s.cache[(f.tenant, f.policies)];
          r == Reply(f.tenant, f.policies, f.request, Serve(e.insights, f.request), true, e.fill)
  }

  /** The reply a request gives at the end of its own fill. */
  predicate Fills(s: Service, a: Action, r: Reply) {
    && a.Finish? && a.id in s.flights && s.flights[a.id].Evaluated?
    && var f := s.flights[a.id];
       r == Reply(f.tenant, f.policies, f.request, Serve(f.insights, f.request), false, Fill(a.id, f.moments, s.moment))
  }

  lemma StepReplies(s: Service, a: Action)
    ensures var replies := Step(s, a).replies;
            || replies == s.replies
            || (replies == s.replies + [replies[|s.replies|]]
                && (Hits(s, a, replies[|s.replies|]) || Fills(s, a, replies[|s.replies|])))
  {}

  lemma {:induction false} ReplyWasGiven(s0: Service, acts: seq<Action>, n: nat, i: nat) returns (at: nat)
    requires Initial(s0) && n <= |acts| && i < |At(s0, acts, n).replies|
    ensures at < n && |At(s0, acts, at).replies| == i
    ensures var r := At(s0, acts, n).replies[i];
            && At(s0, acts, at + 1).replies == At(s0, acts, at).replies + [r]
            && (Hits(At(s0, acts, at), acts[at], r) || Fills(At(s0, acts, at), acts[at], r))
    decreases n
  {
    AtNext(s0, acts, n - 1);
    StepReplies(At(s0, acts, n - 1), acts[n - 1]);
    if i < |At(s0, acts, n - 1).replies| {
      at := ReplyWasGiven(s0, acts, n - 1, i);
    } else {
      at := n - 1;
    }
  }

  /**
   * The reply that step `at` gave serves a full evaluation of the tenant's estate, read rule by rule at the moments on
   * record. From the cache it does so under thirty seconds after the first of them, and with no invalidation of the
   * tenant since that evaluation was put in the cache; otherwise it serves what its own request has just read.
   */
  ghost predicate ReplyHolds(s0: Service, acts: seq<Action>, at: nat, r: Reply) {
    && r.fill.stored <= at < |acts| && acts[r.fill.stored] == Finish(r.fill.id)
    && Reading(acts, r.fill.stored, r.fill.id, r.fill.moments) && |r.fill.moments| == |r.policies| + 1
    && r.view == Serve(Evaluation(Reads(s0, acts, r.tenant, r.fill.moments), r.policies, None), r.request)
    && (r.cached ==>
          && r.fill.stored < at && At(s0, acts, at).clock < At(s0, acts, r.fill.moments[0]).clock + 30
          && Spared(acts, r.tenant, r.fill.stored, at))
  }

  lemma HitHolds(s0: Service, acts: seq<Action>, at: nat, r: Reply)
    requires at < |acts| && CacheHolds(s0, acts, at) && Hits(At(s0, acts, at), acts[at], r)
    ensures ReplyHolds(s0, acts, at, r)
  {
    var s := At(s0, acts, at);
    var f := s.flights[acts[at].id];
    assert EntryHolds(s0, acts, at, (f.tenant, f.policies), s.cache[(f.tenant, f.policies)]);
  }

  lemma MissHolds(s0: Service, acts: seq<Action>, at: nat, r: Reply)
    requires Initial(s0) && at < |acts| && FlightsHold(s0, acts, at) && Fills(At(s0, acts, at), acts[at], r)
    ensures ReplyHolds(s0, acts, at, r) && at == r.fill.stored
  {
    var f := At(s0, acts, at).flights[acts[at].id];
    MomentsAreSteps(s0, acts, at);
    assert FlightHolds(s0, acts, at, acts[at].id, f);
    EitherWayTheSame(Reads(s0, acts, f.tenant, f.moments), f.policies, f.request);
  }

  /**
   * Every reply in every run, cached or not and for one rule or for all, was given by one step to a request asked
   * before, and serves the full evaluation that one request read, rule by rule and the context last, at the moments of
   * its own reads; given from the cache, under thirty seconds after the first of them and after every invalidation that
   * followed the fill.
   */
  lemma RepliesAreEvaluations(s0: Service, acts: seq<Action>, i: nat) returns (at: nat)
    requires Initial(s0) && i < |Exec(s0, acts).replies|
    ensures GivenAt(s0, acts, at, i, Exec(s0, acts).replies[i]) && ReplyHolds(s0, acts, at, Exec(s0, acts).replies[i])
  {
    assert acts[..|acts|] == acts;
    var r := Exec(s0, acts).replies[i];
    at := ReplyWasGiven(s0, acts, |acts|, i);
    RunsHold(s0, acts, at);
    if Hits(At(s0, acts, at), acts[at], r) { HitHolds(s0, acts, at, r); } else { MissHolds(s0, acts, at, r); }
    var m := FlightWasAsked(s0, acts, at, acts[at].id);
  }

  /** Where the tenant's estate stood still from the first read to the last, the reply serves that estate. */
  lemma UndisturbedReplyIsOneEstate(s0: Service, acts: seq<Action>, i: nat, estate: Estate)
    requires Initial(s0) && i < |Exec(s0, acts).replies|
    requires var r := Exec(s0, acts).replies[i];
             forall m: nat :: m in r.fill.moments && m <= |acts| ==> At(s0, acts, m).estates(r.tenant) == estate
    ensures var r := Exec(s0, acts).replies[i]; r.view == Serve(Evaluate(estate, r.policies, None), r.request)
  {
    var r := Exec(s0, acts).replies[i];
    var at := RepliesAreEvaluations(s0, acts, i);
    var moments := r.fill.moments;
    assert forall i :: 0 <= i < |moments| ==> moments[i] in moments;
    assert Reads(s0, acts, r.tenant, moments) == Repeated(estate, |r.policies| + 1);
  }

  /**
   * A cached reply of any run was given by a lookup at step `at`, after the fill that it serves was put in the cache.
   * What that fill read by its `j`-th read is fresher than the tenant's last invalidation before that lookup exactly
   * when none fell between that read and the end of the fill.
   */
  lemma CachedReplyIsFreshExactly(s0: Service, acts: seq<Action>, i: nat, j: nat) returns (at: nat)
    requires Initial(s0) && i < |Exec(s0, acts).replies|
    requires Exec(s0, acts).replies[i].cached && j < |Exec(s0, acts).replies[i].fill.moments|
    ensures var r := Exec(s0, acts).replies[i];
            && GivenAt(s0, acts, at, i, r) && r.fill.stored < at && acts[r.fill.stored] == Finish(r.fill.id)
            && r.fill.moments[j] < r.fill.stored && acts[r.fill.moments[j]] == Fetch(r.fill.id)
            && (Spared(acts, r.tenant, r.fill.moments[j], at)
                <==> Spared(acts, r.tenant, r.fill.moments[j], r.fill.stored))
  {
    at := RepliesAreEvaluations(s0, acts, i);
  }

  // ---- The fill that an invalidation misses

  const ALL := Request(None, None, 100)

  function Fetched(s: Service, id: nat, k: nat): Service {
    if k == 0 then s else Step(Fetched(s, id, k - 1), Fetch(id))
  }

  /** A reader misses, reads everything, and is overtaken by a change of the estate and its invalidation. */
  function Overtaken(s: Service, t: Tenant, after: Estate): Service {
    var missed := Step(Step(s, Ask(1, t, ALL)), LookUp(1));
    Step(Step(Fetched(missed, 1, |s.policies(t)| + 1), ChangeEstate(t, after)), Invalidate(t))
  }

  function Counting(from: nat, k: nat): seq<nat> {
    seq(k, i requires 0 <= i < k => from + i)
  }

  /** The service after `k` reads of one request, alone. */
  ghost predicate Read(s: Service, s': Service, t: Tenant, p: Policies, k: nat)
    requires k <= |p|
  {
    && s'.clock == s.clock && s'.moment == s.moment + k && s'.estates == s.estates && s'.policies == s.policies
    && s'.cache == s.cache && s'.replies == s.replies
    && s'.flights == map[1 := Filling(t, p, ALL, s.clock, Gather(Repeated(s.estates(t), k), p[..k], None),
                                      Counting(s.moment, k))]
  }

  lemma NextRuleRead(f: Flight, estate: Estate, k: nat, from: nat)
    requires f.Filling? && k < |f.policies| && f.request == ALL
    requires f.rows == Gather(Repeated(estate, k), f.policies[..k], None) && f.moments == Counting(from, k)
    ensures NextRead(f, estate, from + k)
            == f.(rows := Gather(Repeated(estate, k + 1), f.policies[..k + 1], None), moments := Counting(from, k + 1))
  {
    GatherNext(Repeated(estate, k), estate, f.policies, None);
    assert Repeated(estate, k) + [estate] == Repeated(estate, k + 1);
    assert Counting(from, k) + [from + k] == Counting(from, k + 1);
  }

  lemma ReadOnce(s: Service, s1: Service, t: Tenant, p: Policies, k: nat)
    requires k < |p| && Read(s, s1, t, p, k)
    ensures Read(s, Step(s1, Fetch(1)), t, p, k + 1)
  {
    NextRuleRead(s1.flights[1], s.estates(t), k, s.moment);
  }

  lemma {:induction false} RulesAreRead(s: Service, t: Tenant, p: Policies, k: nat)
    requires k <= |p| && s.flights == map[1 := Filling(t, p, ALL, s.clock, [], [])]
    ensures Read(s, Fetched(s, 1, k), t, p, k)
    decreases k
  {
    if k == 0 {
      assert Counting(s.moment, 0) == [];
    } else {
      RulesAreRead(s, t, p, k - 1);
      ReadOnce(s, Fetched(s, 1, k - 1), t, p, k - 1);
    }
  }

  lemma AllIsRead(s: Service, t: Tenant, p: Policies)
    requires s.flights == map[1 := Filling(t, p, ALL, s.clock, [], [])]
    ensures var s', n := Fetched(s, 1, |p| + 1), |p|;
            && s'.clock == s.clock && s'.estates == s.estates && s'.policies == s.policies
            && s'.cache == s.cache && s'.replies == s.replies
            && s'.flights == map[1 := Evaluated(t, p, ALL, s.clock, Evaluate(s.estates(t), p, None),
                                                Counting(s.moment, n + 1))]
  {
    var n := |p|;
    RulesAreRead(s, t, p, n);
    assert p[..n] == p && Repeated(s.estates(t), n + 1)[..n] == Repeated(s.estates(t), n);
    assert Counting(s.moment, n) + [s.moment + n] == Counting(s.moment, n + 1);
  }

  lemma OvertakenHolds(s: Service, t: Tenant, after: Estate)
    requires Initial(s)
    ensures var p, s' := s.policies(t), Overtaken(s, t, after);
            && s'.clock == s.clock && s'.policies == s.policies && s'.estates(t) == after && s'.cache == map[]
              && s'.replies == []
            && s'.flights == map[1 := Evaluated(t, p, ALL, s.clock, Evaluate(s.estates(t), p, None),
                                                Counting(2, |p| + 1))]
  {
    var p := s.policies(t);
    var s1 := Step(s, Ask(1, t, ALL));
    assert s1.flights == map[1 := Ready(t, p, ALL)];
    var s2 := Step(s1, LookUp(1));
    assert s2.cache == map[] && s2.flights == map[1 := Filling(t, p, ALL, s.clock, [], [])];
    AllIsRead(s2, t, p);
  }

  /** The overtaken reader stores what it read, and the next reader is served it. */
  lemma StaleIsServed(s: Service, t: Tenant, p: Policies, stale: seq<Insight>, moments: seq<nat>)
    requires s.cache == map[] && s.flights == map[1 := Evaluated(t, p, ALL, s.clock, stale, moments)]
             && s.policies(t) == p
    ensures var served := Step(Step(Step(s, Finish(1)), Ask(2, t, ALL)), LookUp(2));
            && served.estates == s.estates && |served.replies| == |s.replies| + 2
            && served.replies[|s.replies| + 1] == Reply(t, p, ALL, Serve(stale, ALL), true, Fill(1, moments, s.moment))
  {
    var s1 := Step(s, Finish(1));
    assert s1.cache == map[(t, p) := Entry(s.clock + TTL, stale, Fill(1, moments, s.moment))] && s1.flights == map[];
    var s2 := Step(s1, Ask(2, t, ALL));
    assert s2.flights == map[2 := Ready(t, p, ALL)];
    assert (t, p) in Unexpired(s2.cache, s2.clock);
  }

  /**
   * An invalidation that falls inside a fill is lost: whatever the estate became, a request made after the invalidation
   * is served the evaluation of the estate as it was before.
   */
  lemma InvalidationInsideAFillIsLost(s: Service, t: Tenant, after: Estate)
    requires Initial(s)
    ensures var served := Step(Step(Step(Overtaken(s, t, after), Finish(1)), Ask(2, t, ALL)), LookUp(2));
            && served.estates(t) == after && |served.replies| == 2
            && served.replies[1].cached && served.replies[1].view
              == Serve(Evaluate(s.estates(t), s.policies(t), None), ALL)
  {
    var p := s.policies(t);
    OvertakenHolds(s, t, after);
    StaleIsServed(Overtaken(s, t, after), t, p, Evaluate(s.estates(t), p, None), Counting(2, |p| + 1));
  }
}
