// The agent control transactions over their stored rows, and two runs that show what they leave open.

module AgentDesk {
  import opened Ordering
  import opened Envelope
  import opened Authorization

  class Service {
    var flag: bool
    var grants: map<Id, Grant>
    var bands: map<(Id, string), Band>
    var approvals: seq<Approval>
    var switch: Option<Switch>
    var asks: map<Id, Ask>
    var log: seq<Entry>

    constructor ()
      ensures State() == EMPTY
    {
      flag, grants, bands, approvals, switch, asks, log := false, map[], map[], [], None, map[], [];
    }

    function State(): Desk
      reads this
    {
      Desk(flag, grants, bands, approvals, switch, asks, log)
    }

    /** The transaction that stores an envelope, its operations and the approvals they open. */
    method Store(envelope: Id, actor: string, verdict: Verdict, validUntil: Time, rows: seq<Row>)
      requires envelope !in grants && UniqueKeys(rows)
      modifies `grants, `bands, `approvals
      ensures State() == Step(old(State()), Action.Issue(envelope, actor, verdict, validUntil, rows))
    {
      grants := grants[envelope := Grant(actor, verdict, validUntil)];
      for i := 0 to |rows|
        invariant grants == old(grants)[envelope := Grant(actor, verdict, validUntil)]
        invariant bands == Bands(old(bands), envelope, rows[..i])
        invariant approvals == old(approvals) + Opened(envelope, actor, validUntil, rows[..i])
      {
        assert rows[..i + 1][..i] == rows[..i];
        bands := bands[(envelope, rows[i].key) := rows[i].band];
        if rows[i].band == Escalate {
          approvals := approvals + [Approval(envelope, rows[i].key, Pending, actor, None, 1, validUntil)];
        }
      }
      assert rows[..|rows|] == rows;
    }

    method Issue(envelope: Id, p: Policy, c: Context, ops: seq<Operation>, actor: string, validUntil: Time)
        returns (verdict: Verdict)
      requires envelope !in grants && forall i, j :: 0 <= i < j < |ops| ==> ops[i].key != ops[j].key
      modifies `grants, `bands, `approvals
      ensures Decides(verdict, Rows(p, c, ops), c.evidence)
      ensures State() == Step(old(State()), Action.Issue(envelope, actor, verdict, validUntil, Rows(p, c, ops)))
    {
      var rows;
      rows, verdict := Compile(p, c, ops);
      assert forall i :: 0 <= i < |rows| ==> rows[i].key == ops[i].key;
      Store(envelope, actor, verdict, validUntil, rows);
    }

    /** Before its transaction an authorization reads the execution flag and the clock. */
    method BeginAuthorize(ask: Id, envelope: Id, key: string, actor: string, now: Time)
      requires ask !in asks
      modifies `asks
      ensures State() == Step(old(State()), Action.Read(ask, envelope, key, actor, now))
    {
      asks := asks[ask := Ask(envelope, key, actor, flag, now)];
    }

    method FindLatest(envelope: Id, key: string) returns (found: Option<nat>)
      ensures found == Latest(approvals, envelope, key)
    {
      var i := |approvals|;
      assert approvals[..i] == approvals;
      while i > 0
        invariant 0 <= i <= |approvals|
        invariant Latest(approvals, envelope, key) == Latest(approvals[..i], envelope, key)
      {
        i := i - 1;
        assert approvals[..i + 1][..i] == approvals[..i];
        if approvals[i].envelope == envelope && approvals[i].key == key { return Some(i); }
      }
      found := None;
    }

    /** The authorization transaction: look at everything, write one decision. */
    method FinishAuthorize(ask: Id) returns (decision: Option<Verdict>)
      requires ask in asks
      modifies `asks, `log
      ensures State() == Step(old(State()), Action.Answer(ask))
      ensures decision.Some? <==> old(asks)[ask].envelope in grants
      ensures decision.Some? ==> |log| > 0 && log[|log| - 1].decision == decision.value
    {
      var a := asks[ask];
      asks := asks - {ask};
      if a.envelope !in grants { return None; }
      var grant := grants[a.envelope];
      var verdict, cause, approval := Allow, NoObjection, None;
      var stored := (a.envelope, a.key) in bands;
      if grant.actor != a.actor {
        verdict, cause := Deny, ActorMismatch;
      } else if grant.validUntil <= a.now {
        verdict, cause := Deny, EnvelopeInactive;
      } else if !stored {
        verdict, cause := Deny, OperationNotInEnvelope;
      } else if bands[(a.envelope, a.key)] == Prohibited {
        verdict, cause := Deny, ProhibitedOperation;
      } else if bands[(a.envelope, a.key)] != Band.Read && !a.flag {
        verdict, cause := Deny, ExecutionDisabled;
      } else if bands[(a.envelope, a.key)] != Band.Read && (switch == None || switch.value.engaged) {
        verdict, cause := Deny, KillSwitchEngaged;
      } else if bands[(a.envelope, a.key)] == Escalate || bands[(a.envelope, a.key)] == Conditional {
        var found := FindLatest(a.envelope, a.key);
        if found == None || approvals[found.value].status != Approved || approvals[found.value].expiresAt <= a.now {
          verdict, cause := Defer, HumanApprovalRequired;
        } else {
          approval := found;
          verdict := if bands[(a.envelope, a.key)] == Conditional then Constrain else Allow;
          cause := ApprovalVerified;
        }
      }
      log := log + [Entry(a.envelope, a.key, verdict, cause, approval, a.actor, a.now)];
      decision := Some(verdict);
    }

    /** Deciding an approval; an expired one raises, and the transaction takes its EXPIRED mark back. */
    method DecideApproval(i: nat, actor: string, approve: bool, expected: nat, now: Time) returns (error: Option<Error>)
      modifies `approvals
      ensures error == DecideError(old(State()), i, expected, now)
      ensures State() == Step(old(State()), Action.DecideApproval(i, actor, approve, expected, now))
    {
      if i >= |approvals| { return Some(ApprovalNotFound); }
      var row := approvals[i];
      if row.status != Pending { return Some(ApprovalTerminal); }
      if row.version != expected { return Some(VersionConflict); }
      if row.expiresAt <= now {
        var before := approvals;
        approvals := approvals[i := row.(status := Expired, version := row.version + 1)];
        approvals := before;
        return Some(ApprovalExpired);
      }
      approvals := approvals[i := row.(status := if approve then Approved else Rejected, decidedBy := Some(actor),
                                       version := row.version + 1)];
      error := None;
    }

    method UpdateKillSwitch(engaged: bool, expected: nat) returns (error: Option<Error>)
      modifies `switch
      ensures error == if SwitchVersion(old(State())) == expected then None else Some(VersionConflict)
      ensures State() == Step(old(State()), Action.TurnSwitch(engaged, expected))
    {
      var version := if switch.Some? then switch.value.version else 0;
      if version != expected { return Some(VersionConflict); }
      switch := Some(Switch(engaged, version + 1));
      error := None;
    }
  }

  // ---- What the desk leaves open

  lemma {:induction false} ExecJoins(s: Desk, first: seq<Action>, a: Action)
    ensures Exec(s, first + [a]) == Step(Exec(s, first), a)
  {
    assert (first + [a])[..|first|] == first;
  }

  /** Two grants that differ at most in the verdict they were compiled to. */
  predicate AlikeGrants(g: map<Id, Grant>, g': map<Id, Grant>) {
    g.Keys == g'.Keys && forall e :: e in g ==> g'[e] == g[e].(verdict := g'[e].verdict)
  }

  predicate AlikeDesks(s: Desk, s': Desk) {
    AlikeGrants(s.grants, s'.grants) && s' == s.(grants := s'.grants)
  }

  /** Two actions that differ at most in the verdict of an envelope being issued. */
  predicate AlikeActions(a: Action, a': Action) {
    a == a' || (a.Issue? && a'.Issue? && a' == a.(verdict := a'.verdict))
  }

  /** Every decision on every request is the same whatever verdict the envelope was compiled to. */
  lemma EntryIgnoresVerdict(s: Desk, s': Desk, a: Ask)
    requires AlikeDesks(s, s') && a.envelope in s.grants
    ensures EntryFor(s', a) == EntryFor(s, a)
  {
    assert s'.grants[a.envelope] == s.grants[a.envelope].(verdict := s'.grants[a.envelope].verdict);
  }

  lemma IssueIgnoresVerdict(s: Desk, s': Desk, envelope: Id, actor: string, verdict: Verdict, verdict': Verdict,
                            until: Time, rows: seq<Row>)
    requires AlikeDesks(s, s')
    ensures AlikeDesks(IssueStep(s, envelope, actor, verdict, until, rows),
                       IssueStep(s', envelope, actor, verdict', until, rows))
  {}

  lemma AnswerIgnoresVerdict(s: Desk, s': Desk, a: Action)
    requires AlikeDesks(s, s') && a.Answer?
    ensures AlikeDesks(Step(s, a), Step(s', a))
  {
    if a.ask in s.asks && s.asks[a.ask].envelope in s.grants {
      EntryIgnoresVerdict(s, s', s.asks[a.ask]);
    }
  }

  lemma StepIgnoresVerdict(s: Desk, s': Desk, a: Action, a': Action)
    requires AlikeDesks(s, s') && AlikeActions(a, a')
    ensures AlikeDesks(Step(s, a), Step(s', a'))
  {
    if a.Answer? {
      AnswerIgnoresVerdict(s, s', a);
    } else if a.Issue? {
      IssueIgnoresVerdict(s, s', a.envelope, a.actor, a.verdict, a'.verdict, a.validUntil, a.rows);
    }
  }

  /**
   * Authorization never consults the verdict of an envelope: two runs that differ in nothing but the verdicts their
   * envelopes were compiled to record the same decisions, approvals and operations.
   */
  lemma {:induction false} VerdictIsNotConsulted(acts: seq<Action>, acts': seq<Action>)
    requires |acts| == |acts'| && forall i :: 0 <= i < |acts| ==> AlikeActions(acts[i], acts'[i])
    ensures AlikeDesks(Exec(EMPTY, acts), Exec(EMPTY, acts'))
    ensures Exec(EMPTY, acts').log == Exec(EMPTY, acts).log
    decreases |acts|
  {
    if acts != [] {
      var n := |acts| - 1;
      VerdictIsNotConsulted(acts[..n], acts'[..n]);
      StepIgnoresVerdict(Exec(EMPTY, acts[..n]), Exec(EMPTY, acts'[..n]), acts[n], acts'[n]);
    }
  }

  lemma ExecutableIsAllowed(s: Desk, ask: Id, envelope: Id, key: string, now: Time)
    requires ask !in s.asks && envelope in s.grants && now < s.grants[envelope].validUntil
    requires (envelope, key) in s.bands && s.bands[(envelope, key)] == Execute
    requires s.flag && s.switch.Some? && !s.switch.value.engaged
    ensures var actor := s.grants[envelope].actor;
            Step(Step(s, Action.Read(ask, envelope, key, actor, now)), Answer(ask)).log
            == s.log + [Entry(envelope, key, Allow, NoObjection, None, actor, now)]
  {}

  const ROWS := [Row("disable_audit", Prohibited, false, [OperationProhibited]), Row("file.write", Execute, false, [])]

  /** A run whose envelope was compiled to DENY and whose executable operation is allowed all the same. */
  lemma DeniedEnvelopeStillExecutes(evidence: set<Id>)
    ensures Decides(Deny, ROWS, evidence)
    ensures Exec(EMPTY, [Issue(1, "bot", Deny, 100, ROWS), SetFlag(true), TurnSwitch(false, 0),
                         Action.Read(7, 1, "file.write", "bot", 0), Answer(7)]).log
            == [Entry(1, "file.write", Allow, NoObjection, None, "bot", 0)]
  {
    assert ROWS[0] in ROWS;
    var a, b, c, d, e := Issue(1, "bot", Deny, 100, ROWS), SetFlag(true), TurnSwitch(false, 0),
                         Action.Read(7, 1, "file.write", "bot", 0), Answer(7);
    var s := Step(EMPTY, a);
    assert s.bands[(1, "file.write")] == Execute && s.grants == map[1 := Grant("bot", Deny, 100)] by {
      assert ROWS[..1][..0] == [] && ROWS[..2] == ROWS;
    }
    ExecutableIsAllowed(Step(Step(s, b), c), 7, 1, "file.write", 0);
    RunFive(a, b, c, d, e);
  }

  lemma RunFive(a: Action, b: Action, c: Action, d: Action, e: Action)
    ensures Exec(EMPTY, [a, b, c, d, e]) == Step(Step(Step(Step(Step(EMPTY, a), b), c), d), e)
  {
    assert [a, b, c, d, e] == [] + [a] + [b] + [c] + [d] + [e];
    ExecJoins(EMPTY, [], a);
    ExecJoins(EMPTY, [] + [a], b);
    ExecJoins(EMPTY, [] + [a] + [b], c);
    ExecJoins(EMPTY, [] + [a] + [b] + [c], d);
    ExecJoins(EMPTY, [] + [a] + [b] + [c] + [d], e);
  }

  lemma {:induction false} LatestIgnoresDecision(approvals: seq<Approval>, i: nat, row: Approval, envelope: Id,
                                                 key: string)
    requires i < |approvals| && row.envelope == approvals[i].envelope && row.key == approvals[i].key
    ensures Latest(approvals[i := row], envelope, key) == Latest(approvals, envelope, key)
    decreases |approvals|
  {
    var n, approvals' := |approvals| - 1, approvals[i := row];
    assert approvals'[n].envelope == approvals[n].envelope && approvals'[n].key == approvals[n].key;
    if i < n {
      assert approvals'[..n] == approvals[..n][i := row];
      LatestIgnoresDecision(approvals[..n], i, row, envelope, key);
    } else {
      assert approvals'[..n] == approvals[..n];
    }
  }

  /** Unlike a promotion, an escalated operation may be approved by the very actor that asked for it, and then runs. */
  lemma SelfApprovalIsPermitted(s: Desk, i: nat, ask: Id, now: Time)
    requires s.flag && s.switch.Some? && !s.switch.value.engaged && ask !in s.asks
    requires i < |s.approvals| && s.approvals[i].status == Pending && now < s.approvals[i].expiresAt
    requires Latest(s.approvals, s.approvals[i].envelope, s.approvals[i].key) == Some(i)
    requires (s.approvals[i].envelope, s.approvals[i].key) in s.bands
    requires s.bands[(s.approvals[i].envelope, s.approvals[i].key)] == Escalate
    requires s.approvals[i].envelope in s.grants && now < s.grants[s.approvals[i].envelope].validUntil
    requires s.grants[s.approvals[i].envelope].actor == s.approvals[i].requestedBy
    ensures var a := s.approvals[i];
            var s' := Step(s, DecideApproval(i, a.requestedBy, true, a.version, now));
            Step(Step(s', Action.Read(ask, a.envelope, a.key, a.requestedBy, now)), Answer(ask)).log
            == s.log + [Entry(a.envelope, a.key, Allow, ApprovalVerified, Some(i), a.requestedBy, now)]
  {
    var a := s.approvals[i];
    var s' := Step(s, DecideApproval(i, a.requestedBy, true, a.version, now));
    LatestIgnoresDecision(s.approvals, i, s'.approvals[i], a.envelope, a.key);
    assert s'.approvals == s.approvals[i := s'.approvals[i]];
  }

  lemma OneEscalatedRow(actor: string, key: string, rows: seq<Row>)
    requires rows == [Row(key, Escalate, false, [ExplicitEscalation])]
    ensures var s := Step(EMPTY, Issue(1, actor, Defer, 100, rows));
            s == EMPTY.(grants := map[1 := Grant(actor, Defer, 100)], bands := map[(1, key) := Escalate],
                        approvals := [Approval(1, key, Pending, actor, None, 1, 100)])
  {
    assert rows[..|rows| - 1] == [] && UniqueKeys(rows);
    var blank: map<(Id, string), Band> := map[];
    assert Bands(blank, 1, []) == blank && Opened(1, actor, 100, []) == [];
    assert Bands(blank, 1, rows) == map[(1, key) := Escalate];
    assert EMPTY.approvals + Opened(1, actor, 100, rows) == Opened(1, actor, 100, rows);
    assert Opened(1, actor, 100, rows) == [Approval(1, key, Pending, actor, None, 1, 100)];
  }

  /** A run in which the requester of an escalated operation approves it and is allowed to execute it. */
  lemma ActorMayApproveItself(actor: string, key: string)
    ensures Exec(EMPTY, [Issue(1, actor, Defer, 100, [Row(key, Escalate, false, [ExplicitEscalation])]), SetFlag(true),
                         TurnSwitch(false, 0), DecideApproval(0, actor, true, 1, 0),
                         Action.Read(7, 1, key, actor, 0), Answer(7)]).log
            == [Entry(1, key, Allow, ApprovalVerified, Some(0), actor, 0)]
  {
    var rows := [Row(key, Escalate, false, [ExplicitEscalation])];
    var a, b, c, d, e := Issue(1, actor, Defer, 100, rows), SetFlag(true), TurnSwitch(false, 0),
                         DecideApproval(0, actor, true, 1, 0), Action.Read(7, 1, key, actor, 0);
    var s := Step(EMPTY, a);
    OneEscalatedRow(actor, key, rows);
    SelfApprovalIsPermitted(Step(Step(s, b), c), 0, 7, 0);
    RunFive(a, b, c, d, e);
    ExecJoins(EMPTY, [a, b, c, d, e], Answer(7));
    assert [a, b, c, d, e] + [Answer(7)] == [a, b, c, d, e, Answer(7)];
  }
}
