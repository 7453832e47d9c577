// What holds of every decision in the log, over every run of the authorization desk.

module AuthorizationSafety {
  import opened Ordering
  import opened Envelope
  import opened Authorization

  function At(acts: seq<Action>, n: nat): Desk
    requires n <= |acts|
  {
    Exec(EMPTY, acts[..n])
  }

  lemma AtNext(acts: seq<Action>, n: nat)
    requires n < |acts|
    ensures At(acts, n + 1) == Step(At(acts, n), acts[n])
  {
    assert acts[..n + 1][..n] == acts[..n];
  }

  lemma AtPrefix(acts: seq<Action>, m: nat, n: nat)
    requires n <= m <= |acts|
    ensures At(acts[..m], n) == At(acts, n)
  {
    assert acts[..m][..n] == acts[..n];
  }

  // ---- Approvals belong to escalated operations, one each, and are decided once

  ghost predicate ApprovalInv(grants: map<Id, Grant>, bands: map<(Id, string), Band>, a: Approval) {
    && a.envelope in grants && a.expiresAt == grants[a.envelope].validUntil && a.requestedBy == grants[a.envelope].actor
    && (a.envelope, a.key) in bands && bands[(a.envelope, a.key)] == Escalate
    && match a.status
       case Pending => a.version == 1 && a.decidedBy == None
       case Approved => a.version == 2 && a.decidedBy.Some?
       case Rejected => a.version == 2 && a.decidedBy.Some?
       case Expired => false
  }

  predicate AtMostOne(approvals: seq<Approval>) {
    forall i, j :: 0 <= i < j < |approvals| ==>
      approvals[i].envelope != approvals[j].envelope || approvals[i].key != approvals[j].key
  }

  ghost predicate Inv(s: Desk) {
    && (forall e, k :: (e, k) in s.bands ==> e in s.grants)
    && (forall a :: a in s.approvals ==> ApprovalInv(s.grants, s.bands, a))
    && AtMostOne(s.approvals)
  }

  lemma {:induction false} BandsCover(bands: map<(Id, string), Band>, envelope: Id, rows: seq<Row>)
    requires UniqueKeys(rows)
    ensures var after := Bands(bands, envelope, rows);
            && (forall r :: r in rows ==> (envelope, r.key) in after && after[(envelope, r.key)] == r.band)
            && (forall e, k :: (e, k) in bands && e != envelope ==> (e, k) in after && after[(e, k)] == bands[(e, k)])
            && (forall e, k :: (e, k) in after ==> (e, k) in bands || e == envelope)
    decreases |rows|
  {
    if rows != [] {
      var front, last := rows[..|rows| - 1], rows[|rows| - 1];
      BandsCover(bands, envelope, front);
      assert rows == front + [last];
      forall r | r in front ensures r.key != last.key {}
    }
  }

  lemma {:induction false} OpenedAreEscalated(envelope: Id, actor: string, until: Time, rows: seq<Row>)
    requires UniqueKeys(rows)
    ensures var asked := Opened(envelope, actor, until, rows);
            && AtMostOne(asked)
            && (forall a :: a in asked ==> a == Approval(envelope, a.key, Pending, actor, None, 1, until)
                                            && exists r :: r in rows && r.key == a.key && r.band == Escalate)
    decreases |rows|
  {
    if rows != [] {
      var front, last := rows[..|rows| - 1], rows[|rows| - 1];
      OpenedAreEscalated(envelope, actor, until, front);
      assert rows == front + [last];
      var before := Opened(envelope, actor, until, front);
      forall a | a in before ensures a.key != last.key {
        var r :| r in front && r.key == a.key;
        var i :| 0 <= i < |front| && front[i] == r;
        assert rows[i] == r && rows[|front|] == last;
      }
    }
  }

  lemma IssueKeepsInv(s: Desk, envelope: Id, actor: string, verdict: Verdict, until: Time, rows: seq<Row>)
    requires Inv(s)
    ensures Inv(IssueStep(s, envelope, actor, verdict, until, rows))
  {
    var s' := IssueStep(s, envelope, actor, verdict, until, rows);
    if s' != s {
      BandsCover(s.bands, envelope, rows);
      OpenedAreEscalated(envelope, actor, until, rows);
      var asked := Opened(envelope, actor, until, rows);
      forall a | a in s'.approvals ensures ApprovalInv(s'.grants, s'.bands, a) {
        if a in asked {
          var r :| r in rows && r.key == a.key && r.band == Escalate;
        } else {
          assert a in s.approvals && ApprovalInv(s.grants, s.bands, a);
        }
      }
      OneEach(s.approvals, asked, envelope);
    }
  }

  lemma OneEach(before: seq<Approval>, asked: seq<Approval>, envelope: Id)
    requires AtMostOne(before) && AtMostOne(asked)
    requires (forall a :: a in before ==> a.envelope != envelope) && (forall a :: a in asked ==> a.envelope == envelope)
    ensures AtMostOne(before + asked)
  {
    var all := before + asked;
    forall i, j | 0 <= i < j < |all| ensures all[i].envelope != all[j].envelope || all[i].key != all[j].key {
      if i < |before| <= j {
        assert all[i] in before && all[j] in asked;
      }
    }
  }

  lemma StepKeepsInv(s: Desk, a: Action)
    requires Inv(s)
    ensures Inv(Step(s, a))
  {
    if a.Issue? {
      IssueKeepsInv(s, a.envelope, a.actor, a.verdict, a.validUntil, a.rows);
    } else if a.DecideApproval? && DecideError(s, a.approval, a.expected, a.now) == None {
      var s' := Step(s, a);
      assert s.approvals[a.approval] in s.approvals;
      forall x | x in s'.approvals ensures ApprovalInv(s'.grants, s'.bands, x) {
        if x != s'.approvals[a.approval] {
          assert x in s.approvals;
        }
      }
    }
  }

  lemma {:induction false} ReachableInv(acts: seq<Action>)
    ensures Inv(Exec(EMPTY, acts))
    decreases |acts|
  {
    if acts != [] {
      ReachableInv(acts[..|acts| - 1]);
      StepKeepsInv(Exec(EMPTY, acts[..|acts| - 1]), acts[|acts| - 1]);
    }
  }

  /** The expiry mark never reaches the table: in no run is an approval stored as EXPIRED. */
  lemma ExpiryIsNeverStored(acts: seq<Action>, i: nat)
    requires i < |Exec(EMPTY, acts).approvals|
    ensures Exec(EMPTY, acts).approvals[i].status != Expired
  {
    ReachableInv(acts);
    assert Exec(EMPTY, acts).approvals[i] in Exec(EMPTY, acts).approvals;
  }

  /** The search for the latest approval finds the one approval there is. */
  lemma {:induction false} LatestIsTheOne(approvals: seq<Approval>, i: nat)
    requires AtMostOne(approvals) && i < |approvals|
    ensures Latest(approvals, approvals[i].envelope, approvals[i].key) == Some(i)
    decreases |approvals|
  {
    var n := |approvals| - 1;
    if i != n {
      LatestIsTheOne(approvals[..n], i);
    }
  }

  // ---- Rows that only move forward

  ghost predicate Forward(s: Desk, s': Desk) {
    && (forall e :: e in s.grants ==> e in s'.grants && s'.grants[e] == s.grants[e])
    && (forall k :: k in s.bands ==> k in s'.bands && s'.bands[k] == s.bands[k])
    && |s.approvals| <= |s'.approvals|
    && (forall i :: 0 <= i < |s.approvals| ==> Kept(s.approvals[i], s'.approvals[i]))
    && s.log <= s'.log
  }

  /** A decided approval never changes again; a pending one keeps its terms. */
  predicate Kept(a: Approval, a': Approval) {
    && a'.envelope == a.envelope && a'.key == a.key && a'.expiresAt == a.expiresAt && a'.requestedBy == a.requestedBy
    && (a.status != Pending ==> a' == a)
  }

  lemma IssueForward(s: Desk, envelope: Id, actor: string, verdict: Verdict, until: Time, rows: seq<Row>)
    requires Inv(s)
    ensures Forward(s, IssueStep(s, envelope, actor, verdict, until, rows))
  {
    if envelope !in s.grants && UniqueKeys(rows) {
      BandsCover(s.bands, envelope, rows);
      forall k | k in s.bands ensures k.0 != envelope { assert k == (k.0, k.1); }
    }
  }

  lemma StepForward(s: Desk, a: Action)
    requires Inv(s)
    ensures Forward(s, Step(s, a))
  {
    if a.Issue? {
      IssueForward(s, a.envelope, a.actor, a.verdict, a.validUntil, a.rows);
    } else if a.DecideApproval? {
    } else {
    }
  }

  lemma ForwardTransitive(s: Desk, t: Desk, u: Desk)
    requires Forward(s, t) && Forward(t, u)
    ensures Forward(s, u)
  {
    forall i | 0 <= i < |s.approvals| ensures Kept(s.approvals[i], u.approvals[i]) {
      assert Kept(s.approvals[i], t.approvals[i]) && Kept(t.approvals[i], u.approvals[i]);
    }
  }

  lemma {:induction false} RunsForward(acts: seq<Action>, m: nat, n: nat)
    requires m <= n <= |acts|
    ensures Forward(At(acts, m), At(acts, n))
    decreases n
  {
    if m < n {
      RunsForward(acts, m, n - 1);
      ReachableInv(acts[..n - 1]);
      AtNext(acts, n - 1);
      StepForward(At(acts, n - 1), acts[n - 1]);
      ForwardTransitive(At(acts, m), At(acts, n - 1), At(acts, n));
    } else {
      ForwardItself(At(acts, m));
    }
  }

  lemma ForwardItself(s: Desk)
    ensures Forward(s, s)
  {}

  lemma ApprovalKept(acts: seq<Action>, m: nat, n: nat, k: nat)
    requires m <= n <= |acts| && k < |At(acts, m).approvals|
    ensures k < |At(acts, n).approvals| && Kept(At(acts, m).approvals[k], At(acts, n).approvals[k])
  {
    RunsForward(acts, m, n);
  }

  lemma BandKept(acts: seq<Action>, n: nat, envelope: Id, key: string)
    requires n <= |acts| && (envelope, key) in At(acts, n).bands
    ensures BandIn(Exec(EMPTY, acts), envelope, key) == Some(At(acts, n).bands[(envelope, key)])
  {
    assert acts[..|acts|] == acts;
    RunsForward(acts, n, |acts|);
  }

  lemma LogKept(acts: seq<Action>, m: nat, n: nat)
    requires m <= n <= |acts|
    ensures At(acts, m).log <= At(acts, n).log
  {
    RunsForward(acts, m, n);
  }

  // ---- Where a log entry, a request and an approval came from

  /** Entry `i` of the log was written by action `n`. */
  predicate WrittenBy(acts: seq<Action>, n: nat, i: nat, entry: Entry) {
    && n < |acts| && acts[n].Answer?
    && var s := At(acts, n);
       && |s.log| == i && acts[n].ask in s.asks && s.asks[acts[n].ask].envelope in s.grants
       && entry == EntryFor(s, s.asks[acts[n].ask])
  }

  lemma StepWrites(s: Desk, a: Action)
    ensures var log := Step(s, a).log;
            log == s.log || (a.Answer? && a.ask in s.asks && s.asks[a.ask].envelope in s.grants
                             && log == s.log + [EntryFor(s, s.asks[a.ask])])
  {}

  lemma {:induction false} EntryWasWritten(acts: seq<Action>, i: nat) returns (n: nat)
    requires i < |Exec(EMPTY, acts).log|
    ensures WrittenBy(acts, n, i, Exec(EMPTY, acts).log[i])
    decreases |acts|
  {
    var last := |acts| - 1;
    var front := acts[..last];
    assert acts[..|acts|] == acts;
    AtNext(acts, last);
    StepWrites(At(acts, last), acts[last]);
    if i < |At(acts, last).log| {
      assert front[..|front|] == front;
      n := EntryWasWritten(front, i);
      AtPrefix(acts, last, n);
    } else {
      n := last;
    }
  }

  function AskOf(s: Desk, a: Action): Ask
    requires a.Read?
  {
    Ask(a.envelope, a.key, a.actor, s.flag, a.now)
  }

  lemma StepAsks(s: Desk, a: Action, id: Id)
    requires id in Step(s, a).asks
    ensures if id in s.asks then Step(s, a).asks[id] == s.asks[id]
            else a.Read? && a.ask == id && Step(s, a).asks[id] == AskOf(s, a)
  {}

  lemma {:induction false} AskWasRead(acts: seq<Action>, n: nat, id: Id) returns (m: nat)
    requires n <= |acts| && id in At(acts, n).asks
    ensures m < n && acts[m].Read? && acts[m].ask == id && id !in At(acts, m).asks
    ensures At(acts, n).asks[id] == AskOf(At(acts, m), acts[m])
    decreases n
  {
    assert n > 0;
    AtNext(acts, n - 1);
    StepAsks(At(acts, n - 1), acts[n - 1], id);
    if id in At(acts, n - 1).asks {
      m := AskWasRead(acts, n - 1, id);
    } else {
      m := n - 1;
    }
  }

  /** The decision that approved, the only one ever accepted for that approval. */
  predicate ApprovedBy(acts: seq<Action>, d: nat, i: nat) {
    && d < |acts| && acts[d].DecideApproval? && acts[d].approval == i && acts[d].approve
    && DecideError(At(acts, d), i, acts[d].expected, acts[d].now) == None
  }

  lemma {:induction false} ApprovalWasGiven(acts: seq<Action>, n: nat, i: nat) returns (d: nat)
    requires n <= |acts| && i < |At(acts, n).approvals| && At(acts, n).approvals[i].status == Approved
    ensures d < n && ApprovedBy(acts, d, i)
    decreases n
  {
    assert n > 0;
    var s := At(acts, n - 1);
    ReachableInv(acts[..n - 1]);
    AtNext(acts, n - 1);
    if i < |s.approvals| && s.approvals[i].status == Approved {
      d := ApprovalWasGiven(acts, n - 1, i);
    } else {
      d := n - 1;
      if acts[d].Issue? {
        NewApprovalsArePending(s, acts[d], i);
      }
    }
  }

  lemma NewApprovalsArePending(s: Desk, a: Action, i: nat)
    requires a.Issue? && |s.approvals| <= i < |Step(s, a).approvals|
    ensures Step(s, a).approvals[i].status == Pending
  {
    OpenedAreEscalated(a.envelope, a.actor, a.validUntil, a.rows);
    var asked := Opened(a.envelope, a.actor, a.validUntil, a.rows);
    assert Step(s, a).approvals[i] == asked[i - |s.approvals|];
    assert asked[i - |s.approvals|] in asked;
  }

  /** Once an approval is decided, every other attempt to decide it is refused, whenever and by whomever. */
  lemma DecidedOnce(acts: seq<Action>, d: nat, d': nat, i: nat)
    requires ApprovedBy(acts, d, i) && d < d' < |acts| && acts[d'].DecideApproval? && acts[d'].approval == i
    ensures DecideError(At(acts, d'), i, acts[d'].expected, acts[d'].now) == Some(ApprovalTerminal)
  {
    AtNext(acts, d);
    ApprovalKept(acts, d + 1, d', i);
  }

  // ---- Safety of the decision log

  predicate Permitted(e: Entry) {
    e.decision == Allow || e.decision == Constrain
  }

  /** The entry cites an approval of its own operation, unexpired, given before it and decided by nobody else. */
  ghost predicate ApprovalStands(acts: seq<Action>, n: nat, e: Entry)
    requires n < |acts|
  {
    && e.approval.Some? && e.approval.value < |At(acts, n).approvals|
    && var k, a := e.approval.value, At(acts, n).approvals[e.approval.value];
       && a.envelope == e.envelope && a.key == e.key && a.status == Approved && e.decidedAt < a.expiresAt
       && exists d: nat :: d < n && ApprovedBy(acts, d, k) && OnlyDecision(acts, d, k)
  }

  /** No other attempt to decide approval `k`, in the whole run, is accepted. */
  ghost predicate OnlyDecision(acts: seq<Action>, d: nat, k: nat) {
    forall x :: 0 <= x < |acts| && x != d && acts[x].DecideApproval? && acts[x].approval == k ==>
      DecideError(At(acts, x), k, acts[x].expected, acts[x].now).Some?
  }

  lemma DecisionIsOnly(acts: seq<Action>, d: nat, k: nat)
    requires ApprovedBy(acts, d, k)
    ensures OnlyDecision(acts, d, k)
  {
    forall x | 0 <= x < |acts| && x != d && acts[x].DecideApproval? && acts[x].approval == k
      ensures DecideError(At(acts, x), k, acts[x].expected, acts[x].now).Some?
    {
      if d < x {
        DecidedOnce(acts, d, x, k);
      } else if DecideError(At(acts, x), k, acts[x].expected, acts[x].now) == None {
        EarlierDecisionStands(acts, x, d, k);
      }
    }
  }

  /** An accepted decision, either way, leaves the approval decided at every later moment. */
  lemma EarlierDecisionStands(acts: seq<Action>, x: nat, n: nat, k: nat)
    requires x < n < |acts| && acts[x].DecideApproval? && acts[x].approval == k
    requires DecideError(At(acts, x), k, acts[x].expected, acts[x].now) == None
    ensures k < |At(acts, n).approvals| && At(acts, n).approvals[k].status != Pending
  {
    AtNext(acts, x);
    ApprovalKept(acts, x + 1, n, k);
  }

  /** Step `m` read the request that step `n` answered, and the answer is entry `i` of the log. */
  ghost predicate ReadAndAnswered(acts: seq<Action>, m: nat, n: nat, i: nat, e: Entry) {
    && m < n && WrittenBy(acts, n, i, e)
    && acts[m].Read? && acts[m].ask == acts[n].ask && acts[m].ask !in At(acts, m).asks
    && At(acts, n).asks[acts[n].ask] == AskOf(At(acts, m), acts[m])
  }

  /** Everything that had to be in place, and when, for a mutating operation to be permitted. */
  ghost predicate Controlled(acts: seq<Action>, m: nat, n: nat, i: nat, e: Entry) {
    && ReadAndAnswered(acts, m, n, i, e) && At(acts, m).flag
    && acts[m].envelope == e.envelope && acts[m].key == e.key && acts[m].actor == e.actor && acts[m].now == e.decidedAt
    && var s := At(acts, n);
       && s.switch.Some? && !s.switch.value.engaged
       && e.envelope in s.grants && s.grants[e.envelope].actor == e.actor
       && e.decidedAt < s.grants[e.envelope].validUntil
       && (e.envelope, e.key) in s.bands
       && var band := s.bands[(e.envelope, e.key)];
          && (band == Execute || band == Escalate)
          && (band == Escalate ==> ApprovalStands(acts, n, e))
  }

  /**
   * Every permitted mutation in every run was asked for by the envelope's own actor before it expired, with execution
   * switched on at the step that read the request and the kill switch present and off at the step that wrote the entry;
   * and an escalated operation only under an unexpired approval of that very operation, given once and before.
   */
  lemma MutationsAreControlled(acts: seq<Action>, i: nat)
    requires i < |Exec(EMPTY, acts).log| && Permitted(Exec(EMPTY, acts).log[i])
    requires var s := Exec(EMPTY, acts); BandIn(s, s.log[i].envelope, s.log[i].key) != Some(Band.Read)
    ensures exists m: nat, n: nat :: Controlled(acts, m, n, i, Exec(EMPTY, acts).log[i])
  {
    var e := Exec(EMPTY, acts).log[i];
    var n := EntryWasWritten(acts, i);
    var s := At(acts, n);
    ReachableInv(acts[..n]);
    if (e.envelope, e.key) in s.bands { BandKept(acts, n, e.envelope, e.key); }
    var m := AskWasRead(acts, n, acts[n].ask);
    if e.cause == ApprovalVerified {
      VerifiedApprovalStands(acts, n, e);
    }
    assert Controlled(acts, m, n, i, e);
  }

  /**
   * What had to be in place for any operation, reads included: the envelope's own actor asked before it expired, and
   * the operation is stored in the envelope and not prohibited there.
   */
  ghost predicate Warranted(acts: seq<Action>, m: nat, n: nat, i: nat, e: Entry) {
    && ReadAndAnswered(acts, m, n, i, e)
    && acts[m].envelope == e.envelope && acts[m].key == e.key && acts[m].actor == e.actor && acts[m].now == e.decidedAt
    && var s := At(acts, n);
       && e.envelope in s.grants && s.grants[e.envelope].actor == e.actor
       && e.decidedAt < s.grants[e.envelope].validUntil
       && (e.envelope, e.key) in s.bands && s.bands[(e.envelope, e.key)] != Prohibited
  }

  lemma PermissionIsWarranted(acts: seq<Action>, i: nat)
    requires i < |Exec(EMPTY, acts).log| && Permitted(Exec(EMPTY, acts).log[i])
    ensures exists m: nat, n: nat :: Warranted(acts, m, n, i, Exec(EMPTY, acts).log[i])
  {
    var n := EntryWasWritten(acts, i);
    var m := AskWasRead(acts, n, acts[n].ask);
    assert Warranted(acts, m, n, i, Exec(EMPTY, acts).log[i]);
  }

  // ---- The decision, in terms of the stored rows

  /** The envelope lists the operation in this band, for this actor, and has not expired. */
  predicate Offers(s: Desk, a: Ask, band: Band) {
    && a.envelope in s.grants && s.grants[a.envelope].actor == a.actor && a.now < s.grants[a.envelope].validUntil
    && (a.envelope, a.key) in s.bands && s.bands[(a.envelope, a.key)] == band
  }

  predicate Running(s: Desk, a: Ask) {
    a.flag && s.switch.Some? && !s.switch.value.engaged
  }

  predicate ApprovedNow(s: Desk, a: Ask) {
    exists x :: x in s.approvals && x.envelope == a.envelope && x.key == a.key && x.status == Approved
                && a.now < x.expiresAt
  }

  lemma LatestIsApproved(s: Desk, a: Ask)
    requires Inv(s)
    ensures Permits(s.approvals, Latest(s.approvals, a.envelope, a.key), a.now) <==> ApprovedNow(s, a)
  {
    if x :| x in s.approvals && x.envelope == a.envelope && x.key == a.key && x.status == Approved
            && a.now < x.expiresAt {
      var k :| 0 <= k < |s.approvals| && s.approvals[k] == x;
      LatestIsTheOne(s.approvals, k);
    }
  }

  /**
   * A request is allowed exactly when the envelope offers the operation to its actor and, unless it only reads,
   * execution is on, the switch off, and an escalated operation approved; what lacks nothing but approval is
   * deferred; all else is denied.
   */
  lemma DecisionIsExact(acts: seq<Action>, a: Ask)
    requires a.envelope in Exec(EMPTY, acts).grants
    ensures var s := Exec(EMPTY, acts); var decision := EntryFor(s, a).decision;
            && (decision == Allow
                <==> Offers(s, a, Band.Read)
                     || (Running(s, a) && (Offers(s, a, Execute) || (Offers(s, a, Escalate) && ApprovedNow(s, a)))))
            && (decision == Defer
                <==> Running(s, a) && (Offers(s, a, Conditional) || (Offers(s, a, Escalate) && !ApprovedNow(s, a))))
            && decision != Constrain
  {
    var s := Exec(EMPTY, acts);
    ReachableInv(acts);
    LatestIsApproved(s, a);
    if Offers(s, a, Conditional) {
      forall x | x in s.approvals ensures x.envelope != a.envelope || x.key != a.key {
        assert ApprovalInv(s.grants, s.bands, x);
      }
    }
  }

  /** What a denial says was so: the cause recorded is that of the first check to fail. */
  lemma CauseIsTheFirst(s: Desk, a: Ask)
    requires a.envelope in s.grants
    ensures var cause := CauseOf(s, a);
            && (cause == ActorMismatch <==> s.grants[a.envelope].actor != a.actor)
            && (cause == EnvelopeInactive
                <==> s.grants[a.envelope].actor == a.actor && s.grants[a.envelope].validUntil <= a.now)
            && (cause == OperationNotInEnvelope
                <==> s.grants[a.envelope].actor == a.actor && a.now < s.grants[a.envelope].validUntil
                     && (a.envelope, a.key) !in s.bands)
            && (cause == ProhibitedOperation <==> Offers(s, a, Prohibited))
            && (cause == ExecutionDisabled
                <==> !a.flag && (Offers(s, a, Execute) || Offers(s, a, Conditional) || Offers(s, a, Escalate)))
            && (cause == KillSwitchEngaged
                <==> a.flag && !(s.switch.Some? && !s.switch.value.engaged)
                     && (Offers(s, a, Execute) || Offers(s, a, Conditional) || Offers(s, a, Escalate)))
            && (cause == ActorMismatch || cause == EnvelopeInactive || cause == OperationNotInEnvelope
                || cause == ProhibitedOperation || cause == ExecutionDisabled || cause == KillSwitchEngaged
                ==> EntryFor(s, a).decision == Deny)
  {}

  /** The envelope's own actor may always read what it lists, whatever flag, switch and approvals say. */
  lemma OwnReadIsPermitted(s: Desk, ask: Id, envelope: Id, key: string, now: Time)
    requires ask !in s.asks && envelope in s.grants && now < s.grants[envelope].validUntil
    requires (envelope, key) in s.bands && s.bands[(envelope, key)] == Band.Read
    ensures var actor := s.grants[envelope].actor;
            Step(Step(s, Action.Read(ask, envelope, key, actor, now)), Answer(ask)).log
            == s.log + [Entry(envelope, key, Allow, NoObjection, None, actor, now)]
  {}

  lemma VerifiedApprovalStands(acts: seq<Action>, n: nat, e: Entry)
    requires n < |acts| && acts[n].Answer? && acts[n].ask in At(acts, n).asks
    requires At(acts, n).asks[acts[n].ask].envelope in At(acts, n).grants
    requires e == EntryFor(At(acts, n), At(acts, n).asks[acts[n].ask]) && e.cause == ApprovalVerified
    ensures ApprovalStands(acts, n, e)
    ensures (e.envelope, e.key) in At(acts, n).bands && At(acts, n).bands[(e.envelope, e.key)] == Escalate
  {
    var s := At(acts, n);
    var k := Latest(s.approvals, e.envelope, e.key).value;
    ReachableInv(acts[..n]);
    assert s.approvals[k] in s.approvals;
    var d := ApprovalWasGiven(acts, n, k);
    DecisionIsOnly(acts, d, k);
  }

  /** A conditional operation is never permitted: nothing ever opens the approval it would need. */
  lemma ConditionalIsNeverPermitted(acts: seq<Action>, i: nat)
    requires i < |Exec(EMPTY, acts).log|
    ensures var s := Exec(EMPTY, acts);
            s.log[i].decision != Constrain
            && (BandIn(s, s.log[i].envelope, s.log[i].key) == Some(Conditional) ==> !Permitted(s.log[i]))
  {
    var e := Exec(EMPTY, acts).log[i];
    var n := EntryWasWritten(acts, i);
    var s := At(acts, n);
    ReachableInv(acts[..n]);
    if (e.envelope, e.key) in s.bands { BandKept(acts, n, e.envelope, e.key); }
    if e.cause == ApprovalVerified {
      var k := Latest(s.approvals, e.envelope, e.key).value;
      assert s.approvals[k] in s.approvals;
    }
  }

  /** A rejected operation is never permitted afterwards in that envelope, whatever else happens. */
  lemma RejectionIsFinal(acts: seq<Action>, m: nat, k: nat, i: nat)
    requires m <= |acts| && k < |At(acts, m).approvals| && At(acts, m).approvals[k].status == Rejected
    requires |At(acts, m).log| <= i < |Exec(EMPTY, acts).log|
    requires Exec(EMPTY, acts).log[i].envelope == At(acts, m).approvals[k].envelope
    requires Exec(EMPTY, acts).log[i].key == At(acts, m).approvals[k].key
    ensures !Permitted(Exec(EMPTY, acts).log[i])
  {
    var n := EntryWasWritten(acts, i);
    WrittenLater(acts, m, n, i, Exec(EMPTY, acts).log[i]);
    ApprovalKept(acts, m, n, k);
    ReachableInv(acts[..n]);
    RejectedIsNotPermitted(At(acts, n), k, At(acts, n).asks[acts[n].ask]);
  }

  lemma RejectedIsNotPermitted(s: Desk, k: nat, a: Ask)
    requires Inv(s) && k < |s.approvals| && s.approvals[k].status == Rejected && a.envelope in s.grants
    requires a.envelope == s.approvals[k].envelope && a.key == s.approvals[k].key
    ensures !Permitted(EntryFor(s, a))
  {
    assert s.approvals[k] in s.approvals;
    LatestIsTheOne(s.approvals, k);
  }

  lemma WrittenLater(acts: seq<Action>, m: nat, n: nat, i: nat, e: Entry)
    requires m <= |acts| && |At(acts, m).log| <= i && WrittenBy(acts, n, i, e)
    ensures m <= n
  {
    if n < m {
      AtNext(acts, n);
      LogKept(acts, n + 1, m);
    }
  }

  // ---- The kill switch

  predicate Releases(a: Action) {
    a.TurnSwitch? && !a.engaged
  }

  predicate Stopped(s: Desk) {
    s.switch == None || s.switch.value.engaged
  }

  lemma {:induction false} StaysStopped(acts: seq<Action>, m: nat, n: nat)
    requires m <= n <= |acts| && Stopped(At(acts, m))
    requires forall j :: m <= j < n ==> !Releases(acts[j])
    ensures Stopped(At(acts, n))
    decreases n
  {
    if m < n {
      StaysStopped(acts, m, n - 1);
      AtNext(acts, n - 1);
    }
  }

  /** While nobody releases the kill switch no mutating operation is permitted, not even one asked for earlier. */
  lemma KillSwitchStopsEverything(acts: seq<Action>, m: nat, i: nat)
    requires m <= |acts| && Stopped(At(acts, m)) && forall j :: m <= j < |acts| ==> !Releases(acts[j])
    requires |At(acts, m).log| <= i < |Exec(EMPTY, acts).log| && Permitted(Exec(EMPTY, acts).log[i])
    ensures var s := Exec(EMPTY, acts); BandIn(s, s.log[i].envelope, s.log[i].key) == Some(Band.Read)
  {
    var n := EntryWasWritten(acts, i);
    WrittenLater(acts, m, n, i, Exec(EMPTY, acts).log[i]);
    StaysStopped(acts, m, n);
    StoppedPermitsOnlyReads(At(acts, n), At(acts, n).asks[acts[n].ask]);
    BandKept(acts, n, Exec(EMPTY, acts).log[i].envelope, Exec(EMPTY, acts).log[i].key);
  }

  lemma StoppedPermitsOnlyReads(s: Desk, a: Ask)
    requires Stopped(s) && a.envelope in s.grants && Permitted(EntryFor(s, a))
    ensures (a.envelope, a.key) in s.bands && s.bands[(a.envelope, a.key)] == Band.Read
  {}

  /** How many turns of the switch a run accepted. */
  function Turns(acts: seq<Action>): nat
    decreases |acts|
  {
    if acts == [] then 0
    else
      var n, a := |acts| - 1, acts[|acts| - 1];
      Turns(acts[..n]) + if a.TurnSwitch? && a.expected == Turns(acts[..n]) then 1 else 0
  }

  predicate Counts(s: Desk, n: nat) {
    if n == 0 then s.switch.None? else s.switch.Some? && s.switch.value.version == n
  }

  lemma TurnCounts(s: Desk, a: Action, n: nat)
    requires Counts(s, n)
    ensures if a.TurnSwitch? && a.expected == n
            then Counts(Step(s, a), n + 1) && Step(s, a).switch.value.engaged == a.engaged
            else Step(s, a).switch == s.switch
  {}

  /** In every run the switch's version is how many turns were accepted: each that named how many were before it. */
  lemma {:induction false} TurnsAreCounted(acts: seq<Action>)
    ensures Counts(Exec(EMPTY, acts), Turns(acts))
    decreases |acts|
  {
    if acts != [] {
      var n := |acts| - 1;
      TurnsAreCounted(acts[..n]);
      TurnCounts(Exec(EMPTY, acts[..n]), acts[n], Turns(acts[..n]));
    }
  }

  /** And an accepted turn leaves the switch as it asked. */
  lemma LastTurnHolds(acts: seq<Action>, a: Action)
    requires a.TurnSwitch? && a.expected == Turns(acts)
    ensures Exec(EMPTY, acts + [a]).switch == Some(Switch(a.engaged, Turns(acts) + 1))
  {
    TurnsAreCounted(acts);
    TurnCounts(Exec(EMPTY, acts), a, Turns(acts));
    assert (acts + [a])[..|acts|] == acts;
  }

  /**
   * What each refusal to decide an approval says is so; it is decided exactly when none is, by anyone, and for good.
   */
  lemma DecisionIsRefused(s: Desk, i: nat, actor: string, approve: bool, expected: nat, now: Time)
    ensures var error := DecideError(s, i, expected, now);
            && (error == Some(ApprovalNotFound) <==> i >= |s.approvals|)
            && (i < |s.approvals| ==>
                  var a := s.approvals[i];
                  && (error == Some(ApprovalTerminal) <==> a.status != Pending)
                  && (error == Some(VersionConflict) <==> a.status == Pending && a.version != expected)
                  && (error == Some(ApprovalExpired)
                      <==> a.status == Pending && a.version == expected && now >= a.expiresAt)
                  && (error == None <==> a.status == Pending && a.version == expected && now < a.expiresAt)
                  && Step(s, DecideApproval(i, actor, approve, expected, now)).approvals[i]
                     == if error.Some? then a
                        else Approval(a.envelope, a.key, if approve then Approved else Rejected, a.requestedBy,
                                      Some(actor), a.version + 1, a.expiresAt))
  {}
}
