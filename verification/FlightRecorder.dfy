// The flight recorder: a hash chain of events, its audit, and what the audit proves about any run.

module FlightRecorder {
  import opened Ordering

  type Id = nat
  type Digest = string

  datatype Kind = Objective | Context | Tool | Call | Decided | Acted | Asset | Verification | Result
  datatype Status = Active | Succeeded | Failed | Aborted

  /** A point in time as a client writes it: the instant and the offset it is written with. */
  datatype Stamp = Stamp(instant: int, offset: int)

  /** What is hashed. */
  datatype Content = Content(record: Id, sequence: nat, kind: Kind, boundary: string, payload: string,
                             previous: Option<Digest>, occurred: Stamp)

  datatype Event = Event(sequence: nat, kind: Kind, boundary: string, payload: string, previous: Option<Digest>,
                         hash: Digest, occurred: Stamp)
  datatype Record = Record(status: Status, count: nat, head: Option<Digest>)
  datatype Submission = Submission(kind: Kind, boundary: string, payload: string, occurred: Stamp)

  /** The digest, and what the database gives back for a stored payload and a stored point in time. */
  datatype World = World(hash: Content -> Digest, jsonb: string -> string, zone: int -> int)

  ghost predicate Injective(w: World) {
    forall a, b :: w.hash(a) == w.hash(b) ==> a == b
  }

  datatype Recorder = Recorder(records: map<Id, Record>, events: map<Id, seq<Event>>)

  datatype Action =
    | Create(id: Id)
    | Append(id: Id, submission: Submission, now: int)
    | Finalize(id: Id, status: Status)

  datatype Error = RecordNotFound | RecordTerminal | EventTimeInvalid | VerificationRequired | InvalidRequest

  const FIVE_MINUTES := 300

  // ---- Steps

  function CreateStep(s: Recorder, id: Id): Recorder {
    if id in s.records then s
    else Recorder(s.records[id := Record(Active, 0, None)], s.events[id := []])
  }

  function AppendError(s: Recorder, id: Id, x: Submission, now: int): Option<Error> {
    if x.occurred.instant > now + FIVE_MINUTES then Some(EventTimeInvalid)
    else if id !in s.records || id !in s.events then Some(RecordNotFound)
    else if s.records[id].status != Active then Some(RecordTerminal)
    else None
  }

  /** The event as a reader gets it back: hashed as submitted, stored as the database renders it. */
  function EventOf(w: World, id: Id, sequence: nat, previous: Option<Digest>, x: Submission): Event {
    Event(sequence, x.kind, x.boundary, w.jsonb(x.payload), previous,
          w.hash(Content(id, sequence, x.kind, x.boundary, x.payload, previous, x.occurred)),
          Stamp(x.occurred.instant, w.zone(x.occurred.instant)))
  }

  function AppendStep(w: World, s: Recorder, id: Id, x: Submission, now: int): Recorder {
    if AppendError(s, id, x, now).Some? then s
    else
      var record := s.records[id];
      var event := EventOf(w, id, record.count + 1, record.head, x);
      Recorder(s.records[id := record.(count := record.count + 1, head := Some(event.hash))],
               s.events[id := s.events[id] + [event]])
  }

  predicate Verified(events: seq<Event>) {
    exists e :: e in events && e.kind == Verification
  }

  function FinalizeError(s: Recorder, id: Id, status: Status): Option<Error> {
    if status == Active then Some(InvalidRequest)
    else if id !in s.records || id !in s.events then Some(RecordNotFound)
    else if s.records[id].status != Active then Some(RecordTerminal)
    else if status == Succeeded && !Verified(s.events[id]) then Some(VerificationRequired)
    else None
  }

  function FinalizeStep(s: Recorder, id: Id, status: Status): Recorder {
    if FinalizeError(s, id, status).Some? then s
    else s.(records := s.records[id := s.records[id].(status := status)])
  }

  function Step(w: World, s: Recorder, a: Action): Recorder {
    match a
    case Create(id) => CreateStep(s, id)
    case Append(id, x, now) => AppendStep(w, s, id, x, now)
    case Finalize(id, status) => FinalizeStep(s, id, status)
  }

  function Exec(w: World, acts: seq<Action>): Recorder
    decreases |acts|
  {
    if acts == [] then Recorder(map[], map[]) else Step(w, Exec(w, acts[..|acts| - 1]), acts[|acts| - 1])
  }

  // ---- The audit

  /** The content an auditor rebuilds from a stored event. */
  function Rebuilt(id: Id, e: Event, previous: Option<Digest>): Content {
    Content(id, e.sequence, e.kind, e.boundary, e.payload, previous, e.occurred)
  }

  function Last(events: seq<Event>): Option<Digest> {
    if events == [] then None else Some(events[|events| - 1].hash)
  }

  predicate Links(w: World, id: Id, events: seq<Event>)
    decreases |events|
  {
    events == []
    || (var front, e := events[..|events| - 1], events[|events| - 1];
        Links(w, id, front) && e.previous == Last(front) && e.hash == w.hash(Rebuilt(id, e, Last(front))))
  }

  predicate AuditPasses(w: World, id: Id, record: Record, events: seq<Event>) {
    Links(w, id, events) && record.count == |events| && record.head == Last(events)
  }

  // ---- The chain a run builds

  /** The submissions a run accepted for a record, in order. */
  function Accepted(w: World, acts: seq<Action>, id: Id): seq<Submission>
    decreases |acts|
  {
    if acts == [] then []
    else
      var before, a := acts[..|acts| - 1], acts[|acts| - 1];
      if a.Append? && a.id == id && AppendError(Exec(w, before), id, a.submission, a.now) == None
      then Accepted(w, before, id) + [a.submission] else Accepted(w, before, id)
  }

  function Chain(w: World, id: Id, xs: seq<Submission>): (events: seq<Event>)
    ensures |events| == |xs|
    decreases |xs|
  {
    if xs == [] then []
    else
      var front := Chain(w, id, xs[..|xs| - 1]);
      front + [EventOf(w, id, |xs|, Last(front), xs[|xs| - 1])]
  }

  /** A record is the chain of what was accepted for it, and its row counts and heads that chain. */
  ghost predicate Holds(w: World, s: Recorder, id: Id, xs: seq<Submission>) {
    && (id in s.records <==> id in s.events)
    && (if id in s.records
        then s.events[id] == Chain(w, id, xs) && s.records[id].count == |xs| && s.records[id].head == Last(s.events[id])
        else xs == [])
  }

  lemma StepHolds(w: World, s: Recorder, a: Action, id: Id, xs: seq<Submission>)
    requires Holds(w, s, id, xs) && !(a.Append? && a.id == id)
    ensures Holds(w, Step(w, s, a), id, xs)
  {}

  lemma AppendHolds(w: World, s: Recorder, id: Id, xs: seq<Submission>, x: Submission, now: int)
    requires Holds(w, s, id, xs) && AppendError(s, id, x, now) == None
    ensures Holds(w, AppendStep(w, s, id, x, now), id, xs + [x])
  {
    assert (xs + [x])[..|xs|] == xs;
  }

  lemma {:induction false} RunsBuildChains(w: World, acts: seq<Action>, id: Id)
    ensures Holds(w, Exec(w, acts), id, Accepted(w, acts, id))
    decreases |acts|
  {
    if acts != [] {
      var before, a := acts[..|acts| - 1], acts[|acts| - 1];
      RunsBuildChains(w, before, id);
      var s, xs := Exec(w, before), Accepted(w, before, id);
      if !(a.Append? && a.id == id) {
        StepHolds(w, s, a, id, xs);
      } else if AppendError(s, id, a.submission, a.now) == None {
        AppendHolds(w, s, id, xs, a.submission, a.now);
      }
    }
  }

  lemma {:induction false} ChainAt(w: World, id: Id, xs: seq<Submission>, i: nat)
    requires i < |xs|
    ensures Chain(w, id, xs)[i] == EventOf(w, id, i + 1, Last(Chain(w, id, xs)[..i]), xs[i])
    decreases |xs|
  {
    var front := xs[..|xs| - 1];
    assert Chain(w, id, xs)[..|front|] == Chain(w, id, front);
    if i < |front| {
      ChainAt(w, id, front, i);
      assert Chain(w, id, xs)[..i] == Chain(w, id, front)[..i];
    }
  }

  /** No two events of a record ever carry one digest, so the table's key on it never refuses an append. */
  lemma DigestsNeverRepeat(w: World, acts: seq<Action>, id: Id, i: nat, j: nat)
    requires Injective(w) && id in Exec(w, acts).records && id in Exec(w, acts).events
    requires i < j < |Exec(w, acts).events[id]|
    ensures Exec(w, acts).events[id][i].hash != Exec(w, acts).events[id][j].hash
  {
    RunsBuildChains(w, acts, id);
    var xs := Accepted(w, acts, id);
    ChainAt(w, id, xs, i);
    ChainAt(w, id, xs, j);
    var chain := Chain(w, id, xs);
    var x, y := xs[i], xs[j];
    var a := Content(id, i + 1, x.kind, x.boundary, x.payload, Last(chain[..i]), x.occurred);
    var b := Content(id, j + 1, y.kind, y.boundary, y.payload, Last(chain[..j]), y.occurred);
    assert a != b && chain[i].hash == w.hash(a) && chain[j].hash == w.hash(b);
  }

  // ---- When the audit passes

  /** A submission the database gives back exactly as it was hashed. */
  predicate Stable(w: World, x: Submission) {
    w.jsonb(x.payload) == x.payload && w.zone(x.occurred.instant) == x.occurred.offset
  }

  lemma LinkIsStable(w: World, id: Id, n: nat, previous: Option<Digest>, x: Submission)
    requires Injective(w)
    ensures var e := EventOf(w, id, n, previous, x); e.hash == w.hash(Rebuilt(id, e, previous)) <==> Stable(w, x)
  {
    var e := EventOf(w, id, n, previous, x);
    var submitted := Content(id, n, x.kind, x.boundary, x.payload, previous, x.occurred);
    assert e.hash == w.hash(submitted);
  }

  lemma LinksNext(w: World, id: Id, front: seq<Event>, e: Event)
    ensures Links(w, id, front + [e])
            <==> Links(w, id, front) && e.previous == Last(front) && e.hash == w.hash(Rebuilt(id, e, Last(front)))
  {
    assert (front + [e])[..|front|] == front;
  }

  lemma ChainNext(w: World, id: Id, front: seq<Submission>, x: Submission)
    ensures Chain(w, id, front + [x]) == Chain(w, id, front)
            + [EventOf(w, id, |front| + 1, Last(Chain(w, id, front)), x)]
  {
    assert (front + [x])[..|front|] == front;
  }

  lemma {:induction false} ChainLinks(w: World, id: Id, xs: seq<Submission>)
    requires Injective(w)
    ensures Links(w, id, Chain(w, id, xs)) <==> forall x :: x in xs ==> Stable(w, x)
    decreases |xs|
  {
    if xs != [] {
      var front, x := xs[..|xs| - 1], xs[|xs| - 1];
      assert xs == front + [x];
      ChainLinks(w, id, front);
      ChainNext(w, id, front, x);
      LinksNext(w, id, Chain(w, id, front), EventOf(w, id, |front| + 1, Last(Chain(w, id, front)), x));
      LinkIsStable(w, id, |front| + 1, Last(Chain(w, id, front)), x);
    }
  }

  /**
   * After any run the audit of a record passes exactly when every accepted event comes back from the database as it was
   * written: its payload unchanged by storage and its time written with the offset the session renders.
   */
  lemma AuditIsExact(w: World, acts: seq<Action>, id: Id)
    requires Injective(w) && id in Exec(w, acts).records
    ensures id in Exec(w, acts).events
    ensures AuditPasses(w, id, Exec(w, acts).records[id], Exec(w, acts).events[id])
            <==> forall x :: x in Accepted(w, acts, id) ==> Stable(w, x)
  {
    RunsBuildChains(w, acts, id);
    ChainLinks(w, id, Accepted(w, acts, id));
  }

  /** Created and appended to once, with a time written under another offset than the session renders. */
  function OffsetRun(id: Id, x: Submission): seq<Action> {
    [Create(id), Append(id, x, x.occurred.instant)]
  }

  /** A run nobody tampered with whose audit fails: one event, written with another offset than the session's. */
  lemma UntouchedRecordFailsAudit(w: World, id: Id, x: Submission)
    requires Injective(w) && x.occurred.offset != w.zone(x.occurred.instant)
    ensures var s := Exec(w, OffsetRun(id, x));
            id in s.records && id in s.events && !AuditPasses(w, id, s.records[id], s.events[id])
  {
    var acts := OffsetRun(id, x);
    assert acts[..1] == [Create(id)] && acts[..1][..0] == [];
    var created := Exec(w, acts[..1]);
    assert created == CreateStep(Exec(w, []), id);
    assert AppendError(created, id, x, x.occurred.instant) == None;
    assert Accepted(w, acts, id) == Accepted(w, acts[..1], id) + [x];
    assert x in Accepted(w, acts, id) && !Stable(w, x);
    AuditIsExact(w, acts, id);
  }

  // ---- Tamper evidence

  /** An event that says exactly what was submitted, at this place in the chain. */
  predicate Says(w: World, id: Id, e: Event, n: nat, previous: Option<Digest>, x: Submission) {
    && e == Event(n, x.kind, x.boundary, x.payload, previous,
                  w.hash(Content(id, n, x.kind, x.boundary, x.payload, previous, x.occurred)), x.occurred)
  }

  /** The contents hashed into one head are the same. */
  lemma SameHeadSameEvent(w: World, id: Id, events: seq<Event>, e: Event, front: seq<Submission>, x: Submission)
    requires Injective(w) && Links(w, id, events + [e]) && |events| == |front|
    requires e.hash == EventOf(w, id, |front| + 1, Last(Chain(w, id, front)), x).hash
    ensures Links(w, id, events) && Last(events) == Last(Chain(w, id, front))
    ensures Says(w, id, e, |front| + 1, Last(Chain(w, id, front)), x)
  {
    LinksNext(w, id, events, e);
    var submitted := Content(id, |front| + 1, x.kind, x.boundary, x.payload, Last(Chain(w, id, front)), x.occurred);
    assert w.hash(Rebuilt(id, e, Last(events))) == w.hash(submitted);
  }

  lemma FrontOfChain(w: World, id: Id, front: seq<Submission>, x: Submission, i: nat)
    requires i <= |front|
    ensures |Chain(w, id, front)| == |front| && |Chain(w, id, front + [x])| == |front| + 1
    ensures Chain(w, id, front + [x])[..i] == Chain(w, id, front)[..i]
    ensures i == |front| ==> Chain(w, id, front + [x])[..i] == Chain(w, id, front)
  {
    ChainNext(w, id, front, x);
  }

  /** Two chains with the same head and length hold the same contents, place by place, all the way down. */
  lemma {:induction false} SameHeadSameChain(w: World, id: Id, events: seq<Event>, xs: seq<Submission>, i: nat)
    requires Injective(w) && Links(w, id, events) && |events| == |xs| && Last(events) == Last(Chain(w, id, xs))
             && i < |xs|
    ensures Says(w, id, events[i], i + 1, Last(Chain(w, id, xs)[..i]), xs[i])
    decreases |xs|
  {
    var n := |xs| - 1;
    var front, x := xs[..n], xs[n];
    assert xs == front + [x] && events == events[..n] + [events[n]];
    FrontOfChain(w, id, front, x, i);
    ChainNext(w, id, front, x);
    SameHeadSameEvent(w, id, events[..n], events[n], front, x);
    if i < n {
      SameHeadSameChain(w, id, events[..n], front, i);
    }
  }

  /**
   * No edit, reorder, insertion or truncation survives the audit: in any run, whatever events are put in place of a
   * record's own, they pass only if they are, field by field, what was submitted.
   */
  lemma TamperingIsEvident(w: World, acts: seq<Action>, id: Id, events: seq<Event>)
    requires Injective(w) && id in Exec(w, acts).records
    requires AuditPasses(w, id, Exec(w, acts).records[id], events)
    ensures var xs := Accepted(w, acts, id);
            |events| == |xs| && forall i :: 0 <= i < |xs| ==>
              Says(w, id, events[i], i + 1, Last(Chain(w, id, xs)[..i]), xs[i])
  {
    RunsBuildChains(w, acts, id);
    var xs := Accepted(w, acts, id);
    forall i | 0 <= i < |xs| ensures Says(w, id, events[i], i + 1, Last(Chain(w, id, xs)[..i]), xs[i]) {
      SameHeadSameChain(w, id, events, xs, i);
    }
  }

  /** At most one list of events passes the audit of a record. */
  lemma OnlyOneHistoryPasses(w: World, acts: seq<Action>, id: Id, events: seq<Event>, events': seq<Event>)
    requires Injective(w) && id in Exec(w, acts).records
    requires AuditPasses(w, id, Exec(w, acts).records[id], events)
             && AuditPasses(w, id, Exec(w, acts).records[id], events')
    ensures events == events'
  {
    TamperingIsEvident(w, acts, id, events);
    TamperingIsEvident(w, acts, id, events');
    var xs := Accepted(w, acts, id);
    forall i | 0 <= i < |xs| ensures events[i] == events'[i] {
      assert Says(w, id, events[i], i + 1, Last(Chain(w, id, xs)[..i]), xs[i]);
      assert Says(w, id, events'[i], i + 1, Last(Chain(w, id, xs)[..i]), xs[i]);
    }
  }

  // ---- Terminal records

  ghost predicate TerminalInv(s: Recorder) {
    forall id :: id in s.records ==> id in s.events && (s.records[id].status == Succeeded ==> Verified(s.events[id]))
  }

  lemma {:induction false} SuccessWasVerified(w: World, acts: seq<Action>)
    ensures TerminalInv(Exec(w, acts))
    decreases |acts|
  {
    if acts != [] {
      SuccessWasVerified(w, acts[..|acts| - 1]);
    }
  }

  /** A finished record keeps its row and its events through every later action. */
  lemma {:induction false} FinishedIsFrozen(w: World, acts: seq<Action>, m: nat, id: Id)
    requires m <= |acts| && id in Exec(w, acts[..m]).records && Exec(w, acts[..m]).records[id].status != Active
    ensures id in Exec(w, acts).records && Exec(w, acts).records[id] == Exec(w, acts[..m]).records[id]
    ensures id in Exec(w, acts[..m]).events && id in Exec(w, acts).events
    ensures Exec(w, acts).events[id] == Exec(w, acts[..m]).events[id]
    decreases |acts|
  {
    SuccessWasVerified(w, acts[..m]);
    if m < |acts| {
      var before := acts[..|acts| - 1];
      assert before[..m] == acts[..m];
      FinishedIsFrozen(w, before, m, id);
    } else {
      assert acts[..m] == acts;
    }
  }

  // ---- The recorder as the program runs it

  class Service {
    const w: World
    var records: map<Id, Record>
    var events: map<Id, seq<Event>>

    constructor (w: World)
      ensures this.w == w && State() == Exec(w, [])
    {
      this.w := w;
      records, events := map[], map[];
    }

    function State(): Recorder
      reads this
    {
      Recorder(records, events)
    }

    method CreateRecord(id: Id)
      requires id !in records
      modifies this
      ensures State() == Step(w, old(State()), Create(id))
    {
      records := records[id := Record(Active, 0, None)];
      events := events[id := []];
    }

    method AppendEvent(id: Id, x: Submission, now: int) returns (error: Option<Error>)
      modifies this
      ensures error == AppendError(old(State()), id, x, now)
      ensures State() == Step(w, old(State()), Append(id, x, now))
    {
      if x.occurred.instant > now + FIVE_MINUTES { return Some(EventTimeInvalid); }
      if id !in records || id !in events { return Some(RecordNotFound); }
      var record := records[id];
      if record.status != Active { return Some(RecordTerminal); }
      var sequence, previous := record.count + 1, record.head;
      var hash := w.hash(Content(id, sequence, x.kind, x.boundary, x.payload, previous, x.occurred));
      var stored := Event(sequence, x.kind, x.boundary, w.jsonb(x.payload), previous, hash,
                          Stamp(x.occurred.instant, w.zone(x.occurred.instant)));
      events := events[id := events[id] + [stored]];
      records := records[id := record.(count := sequence, head := Some(hash))];
      error := None;
    }

    method FinalizeRecord(id: Id, status: Status) returns (error: Option<Error>)
      modifies `records
      ensures error == FinalizeError(old(State()), id, status)
      ensures State() == Step(w, old(State()), Finalize(id, status))
    {
      if status == Active { return Some(InvalidRequest); }
      if id !in records || id !in events { return Some(RecordNotFound); }
      if records[id].status != Active { return Some(RecordTerminal); }
      if status == Succeeded {
        var i := 0;
        while i < |events[id]| && events[id][i].kind != Verification
          invariant i <= |events[id]| && forall k :: 0 <= k < i ==> events[id][k].kind != Verification
        {
          i := i + 1;
        }
        if i == |events[id]| { return Some(VerificationRequired); }
        assert events[id][i] in events[id];
      }
      records := records[id := records[id].(status := status)];
      error := None;
    }

    /** The audit drill: walk the chain, recompute every digest, compare count and head. */
    method Audit(id: Id) returns (valid: bool)
      requires id in records && id in events
      ensures valid <==> AuditPasses(w, id, records[id], events[id])
    {
      var previous: Option<Digest> := None;
      valid := true;
      for i := 0 to |events[id]|
        invariant previous == Last(events[id][..i])
        invariant valid <==> Links(w, id, events[id][..i])
      {
        var e := events[id][i];
        assert events[id][..i + 1][..i] == events[id][..i];
        var expected := w.hash(Content(id, e.sequence, e.kind, e.boundary, e.payload, previous, e.occurred));
        valid := valid && e.previous == previous && e.hash == expected;
        previous := Some(e.hash);
      }
      assert events[id][..|events[id]|] == events[id];
      valid := valid && records[id].count == |events[id]| && records[id].head == previous;
    }
  }

  // ---- What each refusal says

  /** An event is taken up by an active record unless it lies more than five minutes ahead. */
  lemma AppendIsRefused(w: World, acts: seq<Action>, id: Id, x: Submission, now: int)
    ensures var s := Exec(w, acts);
            var error := AppendError(s, id, x, now);
            && (error == Some(EventTimeInvalid) <==> x.occurred.instant > now + 300)
            && (error == Some(RecordNotFound) <==> x.occurred.instant <= now + 300 && id !in s.records)
            && (id in s.records && x.occurred.instant <= now + 300 ==>
                  && (error == Some(RecordTerminal) <==> s.records[id].status != Active)
                  && (error == None <==> s.records[id].status == Active))
  {
    RunsBuildChains(w, acts, id);
  }

  /** A record is finished once, and as a success only after a verification. */
  lemma FinishIsRefused(w: World, acts: seq<Action>, id: Id, status: Status)
    requires status != Active
    ensures var s := Exec(w, acts);
            var error := FinalizeError(s, id, status);
            && (error == Some(RecordNotFound) <==> id !in s.records)
            && (id in s.records ==>
                  && id in s.events
                  && (error == Some(RecordTerminal) <==> s.records[id].status != Active)
                  && (error == Some(VerificationRequired)
                      <==> s.records[id].status == Active && status == Succeeded
                           && forall e :: e in s.events[id] ==> e.kind != Verification)
                  && (error == None
                      <==> s.records[id].status == Active
                           && (status == Succeeded ==> exists e :: e in s.events[id] && e.kind == Verification)))
  {
    RunsBuildChains(w, acts, id);
  }
}
