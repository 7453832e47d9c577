// The authorization desk: envelopes, approvals, the kill switch and the decision log, one transaction at a time.

module Authorization {
  import opened Ordering
  import opened Envelope

  type Time = int

  datatype ApprovalStatus = Pending | Approved | Rejected | Expired
  datatype Approval = Approval(envelope: Id, key: string, status: ApprovalStatus, requestedBy: string,
                               decidedBy: Option<string>, version: nat, expiresAt: Time)
  datatype Grant = Grant(actor: string, verdict: Verdict, validUntil: Time)
  datatype Switch = Switch(engaged: bool, version: nat)

  datatype Cause =
    | ActorMismatch | EnvelopeInactive | OperationNotInEnvelope | ProhibitedOperation | ExecutionDisabled
    | KillSwitchEngaged | HumanApprovalRequired | ApprovalVerified | NoObjection
  datatype Entry = Entry(envelope: Id, key: string, decision: Verdict, cause: Cause, approval: Option<nat>,
                         actor: string, decidedAt: Time)

  /** An authorization request whose flag and clock were read, and whose transaction has not run yet. */
  datatype Ask = Ask(envelope: Id, key: string, actor: string, flag: bool, now: Time)

  /** Approvals are in order of creation; the log is in order of decision. */
  datatype Desk = Desk(flag: bool, grants: map<Id, Grant>, bands: map<(Id, string), Band>, approvals: seq<Approval>,
                       switch: Option<Switch>, asks: map<Id, Ask>, log: seq<Entry>)

  datatype Action =
    | SetFlag(on: bool)
    | Issue(envelope: Id, actor: string, verdict: Verdict, validUntil: Time, rows: seq<Row>)
    | Read(ask: Id, envelope: Id, key: string, actor: string, now: Time)
    | Answer(ask: Id)
    | DecideApproval(approval: nat, actor: string, approve: bool, expected: nat, now: Time)
    | TurnSwitch(engaged: bool, expected: nat)

  datatype Error = ApprovalNotFound | ApprovalTerminal | VersionConflict | ApprovalExpired | EnvelopeNotFound
                 | InvalidRequest

  // ---- Issuing an envelope

  /** The request's validator: operation keys are unique. */
  predicate UniqueKeys(rows: seq<Row>) {
    forall i, j :: 0 <= i < j < |rows| ==> rows[i].key != rows[j].key
  }

  function Bands(bands: map<(Id, string), Band>, envelope: Id, rows: seq<Row>): map<(Id, string), Band>
    decreases |rows|
  {
    if rows == [] then bands
    else Bands(bands, envelope, rows[..|rows| - 1])[(envelope, rows[|rows| - 1].key) := rows[|rows| - 1].band]
  }

  /** Only an escalated operation opens an approval. */
  function Opened(envelope: Id, actor: string, validUntil: Time, rows: seq<Row>): seq<Approval>
    decreases |rows|
  {
    if rows == [] then []
    else
      var before := Opened(envelope, actor, validUntil, rows[..|rows| - 1]);
      var row := rows[|rows| - 1];
      if row.band == Escalate then before + [Approval(envelope, row.key, Pending, actor, None, 1, validUntil)]
        else before
  }

  function IssueStep(s: Desk, envelope: Id, actor: string, verdict: Verdict, validUntil: Time, rows: seq<Row>): Desk {
    if envelope in s.grants || !UniqueKeys(rows) then s
    else s.(grants := s.grants[envelope := Grant(actor, verdict, validUntil)],
            bands := Bands(s.bands, envelope, rows),
            approvals := s.approvals + Opened(envelope, actor, validUntil, rows))
  }

  // ---- Authorizing an operation

  /** The most recently created approval for an operation of an envelope. */
  function Latest(approvals: seq<Approval>, envelope: Id, key: string): (found: Option<nat>)
    ensures found.Some? ==> found.value < |approvals| && approvals[found.value].envelope == envelope
                            && approvals[found.value].key == key
    decreases |approvals|
  {
    if approvals == [] then None
    else
      var n := |approvals| - 1;
      if approvals[n].envelope == envelope && approvals[n].key == key then Some(n)
        else Latest(approvals[..n], envelope, key)
  }

  predicate Permits(approvals: seq<Approval>, found: Option<nat>, now: Time)
    requires found.Some? ==> found.value < |approvals|
  {
    found.Some? && approvals[found.value].status == Approved && now < approvals[found.value].expiresAt
  }

  /** The cause that settles a request, in the order in which they are looked at. */
  function CauseOf(s: Desk, a: Ask): Cause
    requires a.envelope in s.grants
  {
    var grant := s.grants[a.envelope];
    if grant.actor != a.actor then ActorMismatch
    else if grant.validUntil <= a.now then EnvelopeInactive
    else if (a.envelope, a.key) !in s.bands then OperationNotInEnvelope
    else
      var band := s.bands[(a.envelope, a.key)];
      if band == Prohibited then ProhibitedOperation
      else if band == Band.Read then NoObjection
      else if !a.flag then ExecutionDisabled
      else if s.switch == None || s.switch.value.engaged then KillSwitchEngaged
      else if band == Execute then NoObjection
      else if Permits(s.approvals, Latest(s.approvals, a.envelope, a.key), a.now) then ApprovalVerified
      else HumanApprovalRequired
  }

  function VerdictFor(cause: Cause, band: Option<Band>): Verdict {
    match cause
    case NoObjection => Allow
    case ApprovalVerified => if band == Some(Conditional) then Constrain else Allow
    case HumanApprovalRequired => Defer
    case _ => Deny
  }

  function BandIn(s: Desk, envelope: Id, key: string): Option<Band> {
    if (envelope, key) in s.bands then Some(s.bands[(envelope, key)]) else None
  }

  function EntryFor(s: Desk, a: Ask): Entry
    requires a.envelope in s.grants
  {
    var cause := CauseOf(s, a);
    Entry(a.envelope, a.key, VerdictFor(cause, BandIn(s, a.envelope, a.key)), cause,
          if cause == ApprovalVerified then Latest(s.approvals, a.envelope, a.key) else None, a.actor, a.now)
  }

  function AnswerStep(s: Desk, id: Id): Desk {
    if id !in s.asks then s
    else if s.asks[id].envelope !in s.grants then s.(asks := s.asks - {id})
    else s.(asks := s.asks - {id}, log := s.log + [EntryFor(s, s.asks[id])])
  }

  // ---- Approvals and the switch

  /** An expired approval is marked and then the transaction raises, so the mark is rolled back with it. */
  function DecideError(s: Desk, i: nat, expected: nat, now: Time): Option<Error> {
    if i >= |s.approvals| then Some(ApprovalNotFound)
    else if s.approvals[i].status != Pending then Some(ApprovalTerminal)
    else if s.approvals[i].version != expected then Some(VersionConflict)
    else if s.approvals[i].expiresAt <= now then Some(ApprovalExpired)
    else None
  }

  function DecideStep(s: Desk, i: nat, actor: string, approve: bool, expected: nat, now: Time): Desk {
    if DecideError(s, i, expected, now).Some? then s
    else
      var row := s.approvals[i];
      s.(approvals := s.approvals[i := row.(status := if approve then Approved else Rejected, decidedBy := Some(actor),
                                            version := row.version + 1)])
  }

  function SwitchVersion(s: Desk): nat {
    if s.switch.Some? then s.switch.value.version else 0
  }

  function TurnStep(s: Desk, engaged: bool, expected: nat): Desk {
    if SwitchVersion(s) != expected then s else s.(switch := Some(Switch(engaged, expected + 1)))
  }

  function Step(s: Desk, a: Action): Desk {
    match a
    case SetFlag(on) => s.(flag := on)
    case Issue(envelope, actor, verdict, validUntil, rows) => IssueStep(s, envelope, actor, verdict, validUntil, rows)
    case Read(id, envelope, key, actor, now) =>
      if id in s.asks then s else s.(asks := s.asks[id := Ask(envelope, key, actor, s.flag, now)])
    case Answer(id) => AnswerStep(s, id)
    case DecideApproval(i, actor, approve, expected, now) => DecideStep(s, i, actor, approve, expected, now)
    case TurnSwitch(engaged, expected) => TurnStep(s, engaged, expected)
  }

  function Exec(s: Desk, acts: seq<Action>): Desk
    decreases |acts|
  {
    if acts == [] then s else Step(Exec(s, acts[..|acts| - 1]), acts[|acts| - 1])
  }

  const EMPTY := Desk(false, map[], map[], [], None, map[], [])
}
