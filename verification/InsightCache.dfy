// The insight cache: evaluation of the rules, the cached full evaluation, and what a reader is served.

module InsightCache {
  import opened Ordering

  type Tenant = nat
  type EntityId = nat
  type Rule = string

  datatype Insight = Insight(rule: Rule, id: nat, title: string, priority: int, subject: EntityId,
                             repositories: set<EntityId>, scopes: set<EntityId>, affected: nat)
  datatype RulePolicy = RulePolicy(enabled: bool, minimum: nat)
  /** Rules in catalogue order, each with its policy. */
  type Policies = seq<(Rule, RulePolicy)>
  /**
   * A tenant's estate as the queries see it: what each rule's query finds, and what the deployment and business context
   * adds to the priority of each insight.
   */
  datatype Estate = Estate(found: map<Rule, seq<Insight>>, context: map<nat, int>)

  datatype Request = Request(rule: Option<Rule>, scope: Option<EntityId>, limit: nat)
  datatype View = View(page: seq<Insight>, total: nat, more: bool)

  // ---- Evaluation

  function Found(estate: Estate, rule: Rule): seq<Insight> {
    if rule in estate.found then estate.found[rule] else []
  }

  function Labelled(rule: Rule, found: seq<Insight>): (insights: seq<Insight>)
    ensures |insights| == |found|
  {
    seq(|found|, i requires 0 <= i < |found| => found[i].(rule := rule))
  }

  function AtLeast(insights: seq<Insight>, minimum: nat): seq<Insight>
    decreases |insights|
  {
    if insights == [] then []
    else
      var front, last := AtLeast(insights[..|insights| - 1], minimum), insights[|insights| - 1];
      if last.affected >= minimum then front + [last] else front
  }

  predicate Evaluates(p: RulePolicy, rule: Rule, only: Option<Rule>) {
    p.enabled && (only == None || only == Some(rule))
  }

  /** What one rule contributes. */
  function Rows(estate: Estate, rule: Rule, p: RulePolicy): seq<Insight> {
    AtLeast(Labelled(rule, Found(estate, rule)), p.minimum)
  }

  /** Every enabled rule, or just one of them, each over the estate its own query read. */
  function Gather(seen: seq<Estate>, policies: Policies, only: Option<Rule>): seq<Insight>
    requires |seen| == |policies|
    decreases |policies|
  {
    if policies == [] then []
    else
      var n := |policies| - 1;
      var front := Gather(seen[..n], policies[..n], only);
      var (rule, p) := policies[n];
      if Evaluates(p, rule, only) then front + Rows(seen[n], rule, p) else front
  }

  function Rate(i: Insight, context: map<nat, int>): Insight {
    i.(priority := i.priority + if i.id in context then context[i.id] else 0)
  }

  function RateAll(insights: seq<Insight>, context: map<nat, int>): (rated: seq<Insight>)
    ensures |rated| == |insights| && forall i :: 0 <= i < |insights| ==> rated[i] == Rate(insights[i], context)
  {
    seq(|insights|, i requires 0 <= i < |insights| => Rate(insights[i], context))
  }

  /** An evaluation: one read of the estate for each rule, and a last one for the context. */
  function Evaluation(seen: seq<Estate>, policies: Policies, only: Option<Rule>): seq<Insight>
    requires |seen| == |policies| + 1
  {
    RateAll(Gather(seen[..|policies|], policies, only), seen[|policies|].context)
  }

  function Repeated(estate: Estate, n: nat): (seen: seq<Estate>)
    ensures |seen| == n && forall i :: 0 <= i < n ==> seen[i] == estate
  {
    seq(n, i => estate)
  }

  /** The evaluation of an estate that stands still. */
  function Evaluate(estate: Estate, policies: Policies, only: Option<Rule>): seq<Insight> {
    Evaluation(Repeated(estate, |policies| + 1), policies, only)
  }

  function OfRule(insights: seq<Insight>, only: Option<Rule>): seq<Insight>
    decreases |insights|
  {
    if only == None then insights
    else if insights == [] then []
    else
      var front, last := OfRule(insights[..|insights| - 1], only), insights[|insights| - 1];
      if last.rule == only.value then front + [last] else front
  }

  predicate Touches(i: Insight, scope: Option<EntityId>) {
    scope == None || i.subject == scope.value || scope.value in i.repositories || scope.value in i.scopes
  }

  function InScope(insights: seq<Insight>, scope: Option<EntityId>): seq<Insight>
    decreases |insights|
  {
    if insights == [] then []
    else
      var front, last := InScope(insights[..|insights| - 1], scope), insights[|insights| - 1];
      if Touches(last, scope) then front + [last] else front
  }

  function Order(i: Insight): Key {
    [-i.priority] + TextKey(i.title) + [i.id]
  }

  /** Filter by rule and scope, sort, and cut a page. */
  function Serve(insights: seq<Insight>, q: Request): View {
    var sorted := SortBy(InScope(OfRule(insights, q.rule), q.scope), Order);
    View(if |sorted| > q.limit then sorted[..q.limit] else sorted, |sorted|, |sorted| > q.limit)
  }

  // ---- One rule alone is the full evaluation filtered

  lemma {:induction false} OfRuleJoins(a: seq<Insight>, b: seq<Insight>, only: Option<Rule>)
    ensures OfRule(a + b, only) == OfRule(a, only) + OfRule(b, only)
    decreases |b|
  {
    if b == [] {
      assert a + b == a;
    } else {
      assert (a + b)[..|a + b| - 1] == a + b[..|b| - 1];
      OfRuleJoins(a, b[..|b| - 1], only);
    }
  }

  lemma {:induction false} OneRuleOnly(rule: Rule, insights: seq<Insight>, only: Option<Rule>)
    requires forall i :: i in insights ==> i.rule == rule
    ensures OfRule(insights, only) == if only == None || only == Some(rule) then insights else []
    decreases |insights|
  {
    if insights != [] {
      var front, last := insights[..|insights| - 1], insights[|insights| - 1];
      assert insights == front + [last];
      OneRuleOnly(rule, front, only);
    }
  }

  lemma {:induction false} AtLeastMembers(insights: seq<Insight>, minimum: nat)
    ensures forall i :: i in AtLeast(insights, minimum) ==> i in insights
    decreases |insights|
  {
    if insights != [] { AtLeastMembers(insights[..|insights| - 1], minimum); }
  }

  lemma {:induction false} OneRuleIsGathered(seen: seq<Estate>, policies: Policies, only: Option<Rule>)
    requires |seen| == |policies|
    ensures Gather(seen, policies, only) == OfRule(Gather(seen, policies, None), only)
    decreases |policies|
  {
    if policies != [] {
      var n := |policies| - 1;
      var (rule, p) := policies[n];
      OneRuleIsGathered(seen[..n], policies[..n], only);
      AtLeastMembers(Labelled(rule, Found(seen[n], rule)), p.minimum);
      OneRuleOnly(rule, Rows(seen[n], rule, p), only);
      OfRuleJoins(Gather(seen[..n], policies[..n], None), Rows(seen[n], rule, p), only);
    }
  }

  lemma {:induction false} RatingKeepsRules(insights: seq<Insight>, context: map<nat, int>, only: Option<Rule>)
    ensures OfRule(RateAll(insights, context), only) == RateAll(OfRule(insights, only), context)
    decreases |insights|
  {
    if only.Some? && insights != [] {
      var front, last := insights[..|insights| - 1], insights[|insights| - 1];
      RatingKeepsRules(front, context, only);
      assert RateAll(insights, context)[..|front|] == RateAll(front, context);
      assert RateAll(OfRule(front, only) + [last], context) == RateAll(OfRule(front, only), context)
             + [Rate(last, context)];
    }
  }

  /** Evaluating one rule alone is evaluating all and keeping that rule, whatever the estate does between the reads. */
  lemma OneRuleIsFiltered(seen: seq<Estate>, policies: Policies, only: Option<Rule>)
    requires |seen| == |policies| + 1
    ensures Evaluation(seen, policies, only) == OfRule(Evaluation(seen, policies, None), only)
  {
    OneRuleIsGathered(seen[..|policies|], policies, only);
    RatingKeepsRules(Gather(seen[..|policies|], policies, None), seen[|policies|].context, only);
  }

  lemma {:induction false} OfRuleAgain(insights: seq<Insight>, only: Option<Rule>)
    ensures OfRule(OfRule(insights, only), only) == OfRule(insights, only)
    decreases |insights|
  {
    if only.Some? && insights != [] {
      var front, last := insights[..|insights| - 1], insights[|insights| - 1];
      OfRuleAgain(front, only);
      OfRuleJoins(OfRule(front, only), [last], only);
    }
  }

  /** A request is served the same from one rule's evaluation as from the full one that is cached. */
  lemma EitherWayTheSame(seen: seq<Estate>, policies: Policies, q: Request)
    requires |seen| == |policies| + 1
    ensures Serve(Evaluation(seen, policies, q.rule), q) == Serve(Evaluation(seen, policies, None), q)
  {
    OneRuleIsFiltered(seen, policies, q.rule);
    OfRuleAgain(Evaluation(seen, policies, None), q.rule);
  }

  // ---- The cache and the requests in flight

  const TTL := 30

  /**
   * What a fill leaves on record: the request that filled, the moments of its seen, one a rule and one for the context,
   * and the moment its result was put in the cache.
   */
  datatype Fill = Fill(id: nat, moments: seq<nat>, stored: nat)

  datatype Entry = Entry(expires: nat, insights: seq<Insight>, fill: Fill)

  /** A request past its policy read, then past its lookup and reading rule by rule, then evaluated. */
  datatype Flight =
    | Ready(tenant: Tenant, policies: Policies, request: Request)
    | Filling(tenant: Tenant, policies: Policies, request: Request, start: nat, rows: seq<Insight>, moments: seq<nat>)
    | Evaluated(tenant: Tenant, policies: Policies, request: Request, start: nat, insights: seq<Insight>,
                moments: seq<nat>)

  datatype Reply = Reply(tenant: Tenant, policies: Policies, request: Request, view: View, cached: bool, fill: Fill)

  /** `moment` counts the steps taken; `clock` is the monotonic clock in seconds. */
  datatype Service = Service(moment: nat, clock: nat, estates: Tenant -> Estate, policies: Tenant -> Policies,
                             cache: map<(Tenant, Policies), Entry>, flights: map<nat, Flight>, replies: seq<Reply>)

  datatype Action =
    | Wait(seconds: nat)
    | ChangeEstate(tenant: Tenant, estate: Estate)
    | ChangePolicies(tenant: Tenant, policies: Policies)
    | Invalidate(tenant: Tenant)
    | Ask(id: nat, tenant: Tenant, request: Request)
    | LookUp(id: nat)
    | Fetch(id: nat)
    | Finish(id: nat)

  function Unexpired(cache: map<(Tenant, Policies), Entry>, now: nat): map<(Tenant, Policies), Entry> {
    map k | k in cache && cache[k].expires > now :: cache[k]
  }

  function Without(cache: map<(Tenant, Policies), Entry>, tenant: Tenant): map<(Tenant, Policies), Entry> {
    map k | k in cache && k.0 != tenant :: cache[k]
  }

  function LookUpStep(s: Service, id: nat): Service {
    if id !in s.flights || !s.flights[id].Ready? then s
    else
      var f := s.flights[id];
      var cache := Unexpired(s.cache, s.clock);
      if (f.tenant, f.policies) in cache then
        var e := cache[(f.tenant, f.policies)];
        s.(cache := cache, flights := s.flights - {id},
           replies := s.replies + [Reply(f.tenant, f.policies, f.request, Serve(e.insights, f.request), true, e.fill)])
      else s.(cache := cache, flights := s.flights[id := Filling(f.tenant, f.policies, f.request, s.clock, [], [])])
  }

  /** The next read of a fill: the next rule's query, or after the last rule the context. */
  function NextRead(f: Flight, estate: Estate, moment: nat): Flight
    requires f.Filling?
  {
    var n := |f.moments|;
    if n < |f.policies| then
      var (rule, p) := f.policies[n];
      f.(rows := if Evaluates(p, rule, f.request.rule) then f.rows + Rows(estate, rule, p) else f.rows,
         moments := f.moments + [moment])
    else Evaluated(f.tenant, f.policies, f.request, f.start, RateAll(f.rows, estate.context), f.moments + [moment])
  }

  function FetchStep(s: Service, id: nat): Service {
    if id !in s.flights || !s.flights[id].Filling? then s
    else s.(flights := s.flights[id := NextRead(s.flights[id], s.estates(s.flights[id].tenant), s.moment)])
  }

  /** Only a full evaluation is cached, for thirty seconds from the lookup that missed. */
  function FinishStep(s: Service, id: nat): Service {
    if id !in s.flights || !s.flights[id].Evaluated? then s
    else
      var f := s.flights[id];
      var fill := Fill(id, f.moments, s.moment);
      s.(cache := if f.request.rule == None
                  then s.cache[(f.tenant, f.policies) := Entry(f.start + TTL, f.insights, fill)] else s.cache,
         flights := s.flights - {id},
         replies := s.replies + [Reply(f.tenant, f.policies, f.request, Serve(f.insights, f.request), false, fill)])
  }

  function Effect(s: Service, a: Action): Service {
    match a
    case Wait(seconds) => s.(clock := s.clock + seconds)
    case ChangeEstate(t, estate) => s.(estates := (x: Tenant) => if x == t then estate else s.estates(x))
    case ChangePolicies(t, policies) => s.(policies := (x: Tenant) => if x == t then policies else s.policies(x))
    case Invalidate(t) => s.(cache := Without(s.cache, t))
    case Ask(id, t, q) => if id in s.flights then s else s.(flights := s.flights[id := Ready(t, s.policies(t), q)])
    case LookUp(id) => LookUpStep(s, id)
    case Fetch(id) => FetchStep(s, id)
    case Finish(id) => FinishStep(s, id)
  }

  function Step(s: Service, a: Action): Service {
    var after := Effect(s, a);
    after.(moment := s.moment + 1)
  }

  function Exec(s: Service, acts: seq<Action>): Service
    decreases |acts|
  {
    if acts == [] then s else Step(Exec(s, acts[..|acts| - 1]), acts[|acts| - 1])
  }

  predicate Initial(s: Service) {
    s.moment == 0 && s.cache == map[] && s.flights == map[] && s.replies == []
  }

  // ---- What a page is

  predicate Matches(i: Insight, q: Request) {
    && (q.rule == None || i.rule == q.rule.value)
    && (q.scope == None || q.scope.value == i.subject || q.scope.value in i.repositories || q.scope.value in i.scopes)
  }

  /** Higher priority first, then by title, then by id. */
  predicate Ahead(a: Insight, b: Insight) {
    a.priority > b.priority
    || (a.priority == b.priority && (TextBefore(a.title, b.title) || (a.title == b.title && a.id < b.id)))
  }

  lemma OrderReads(a: Insight, b: Insight)
    ensures Less(Order(a), Order(b)) <==> Ahead(a, b)
  {
    NumberDecides(a.id, b.id, [], []);
    TextDecides(a.title, b.title, [a.id], [b.id]);
    NumberDecides(-a.priority, -b.priority, TextKey(a.title) + [a.id], TextKey(b.title) + [b.id]);
    assert Order(a) == [-a.priority] + (TextKey(a.title) + [a.id]);
    assert Order(b) == [-b.priority] + (TextKey(b.title) + [b.id]);
  }

  /** How often an insight is listed. */
  function Times(insights: seq<Insight>, i: Insight): nat {
    multiset(insights)[i]
  }

  lemma {:induction false} OfRuleCounts(insights: seq<Insight>, only: Option<Rule>, i: Insight)
    ensures Times(OfRule(insights, only), i)
            == if only == None || i.rule == only.value then Times(insights, i) else 0
    decreases |insights|
  {
    if only.Some? && insights != [] {
      var front, last := insights[..|insights| - 1], insights[|insights| - 1];
      assert insights == front + [last];
      OfRuleCounts(front, only, i);
    }
  }

  lemma {:induction false} InScopeCounts(insights: seq<Insight>, scope: Option<EntityId>, i: Insight)
    ensures Times(InScope(insights, scope), i) == if Touches(i, scope) then Times(insights, i) else 0
    decreases |insights|
  {
    if insights != [] {
      var front, last := insights[..|insights| - 1], insights[|insights| - 1];
      assert insights == front + [last];
      InScopeCounts(front, scope, i);
    }
  }

  function Served(insights: seq<Insight>, q: Request): seq<Insight> {
    SortBy(InScope(OfRule(insights, q.rule), q.scope), Order)
  }

  /** Everything that matches, as often as it was found, in order. */
  lemma ServedReads(insights: seq<Insight>, q: Request)
    ensures forall i :: Times(Served(insights, q), i) == if Matches(i, q) then Times(insights, i) else 0
    ensures forall m, n :: 0 <= m < n < |Served(insights, q)| ==> !Ahead(Served(insights, q)[n], Served(insights, q)[m])
  {
    var picked := InScope(OfRule(insights, q.rule), q.scope);
    SortPermutes(picked, Order);
    SortSorts(picked, Order);
    forall i ensures Times(Served(insights, q), i) == if Matches(i, q) then Times(insights, i) else 0 {
      OfRuleCounts(insights, q.rule, i);
      InScopeCounts(OfRule(insights, q.rule), q.scope, i);
    }
    var s := Served(insights, q);
    forall m, n | 0 <= m < n < |s| ensures !Ahead(s[n], s[m]) { OrderReads(s[n], s[m]); }
  }

  lemma CountsSplit(s: seq<Insight>, n: nat, i: Insight)
    requires n <= |s|
    ensures Times(s[..n], i) + Times(s[n..], i) == Times(s, i)
  {
    assert s == s[..n] + s[n..];
  }

  lemma LaterIsNotAhead(s: seq<Insight>, n: nat, i: Insight, j: Insight)
    requires n <= |s| && i in s[..n] && j in s[n..]
    requires forall a, b :: 0 <= a < b < |s| ==> !Ahead(s[b], s[a])
    ensures !Ahead(j, i)
  {
    var a :| 0 <= a < n && s[a] == i;
    var b :| 0 <= b < |s[n..]| && s[n..][b] == j;
    assert s[n + b] == j;
  }

  /** `page` and `rest` are together what matches, `page` in order and nothing of `rest` ahead of anything in it. */
  ghost predicate Divides(insights: seq<Insight>, q: Request, page: seq<Insight>, rest: seq<Insight>) {
    && (forall i :: Times(page, i) + Times(rest, i) == if Matches(i, q) then Times(insights, i) else 0)
    && (forall a, b :: 0 <= a < b < |page| ==> !Ahead(page[b], page[a]))
    && (forall i, j :: i in page && j in rest ==> !Ahead(j, i))
  }

  lemma ServedDivides(insights: seq<Insight>, q: Request, n: nat)
    requires n <= |Served(insights, q)|
    ensures Divides(insights, q, Served(insights, q)[..n], Served(insights, q)[n..])
  {
    var s := Served(insights, q);
    ServedReads(insights, q);
    forall i ensures Times(s[..n], i) + Times(s[n..], i) == if Matches(i, q) then Times(insights, i) else 0 {
      CountsSplit(s, n, i);
    }
    forall i, j | i in s[..n] && j in s[n..] ensures !Ahead(j, i) { LaterIsNotAhead(s, n, i, j); }
  }

  /**
   * A page lists, in order, as many of the matching insights as its limit allows, and none that it leaves out is
   * ahead of one it lists.
   */
  lemma PageIsTop(insights: seq<Insight>, q: Request) returns (rest: seq<Insight>)
    ensures var v := Serve(insights, q);
            && Divides(insights, q, v.page, rest)
            && v.total == |v.page| + |rest| && (v.more <==> rest != []) && (v.more ==> |v.page| == q.limit)
            && |v.page| <= q.limit
  {
    var s, n := Served(insights, q), |Serve(insights, q).page|;
    rest := s[n..];
    ServedDivides(insights, q, n);
    assert Serve(insights, q).page == s[..n];
  }
}
