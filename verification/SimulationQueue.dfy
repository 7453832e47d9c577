// The simulation queue: workers, cancellations and crashes interleaved one database transaction at a time.

module SimulationQueue {
  import opened Ordering

  type RunId = nat
  type WorkerId = nat
  type CancelId = nat

  datatype Status = Queued | Running | Succeeded | Limited | NotSimulatable | Failed | Cancelled

  predicate Terminal(s: Status) {
    s != Queued && s != Running
  }

  predicate Result(s: Status) {
    s == Succeeded || s == Limited || s == NotSimulatable
  }

  datatype Run = Run(status: Status, attempt: nat, maxAttempts: nat, leasedBy: Option<WorkerId>,
                     resultHash: Option<string>, findings: seq<string>, interpreted: bool)

  /** Where a worker stands inside `run_next_simulation`, with the row it claimed as RETURNING gave it. */
  datatype Phase =
    | Idle
    | Executing(run: RunId, attempt: nat, maxAttempts: nat)
    | Interpreting(run: RunId, attempt: nat, maxAttempts: nat)
    | Handling(run: RunId, attempt: nat, maxAttempts: nat)
    | Escaped

  /** `claims` counts how often each run was ever claimed. */
  datatype System = System(runs: map<RunId, Run>, workers: map<WorkerId, Phase>, cancels: map<CancelId, RunId>,
                           claims: map<RunId, nat>)

  datatype Action =
    | Submit(r: RunId, max: nat)
    | Claim(w: WorkerId, r: RunId, leaseExpired: bool)
    | Commit(w: WorkerId, status: Status, hash: string, findings: seq<string>)
    | Fail(w: WorkerId)
    | Interpret(w: WorkerId)
    | Handle(w: WorkerId)
    | Crash(w: WorkerId)
    | CancelRead(c: CancelId, r: RunId)
    | CancelWrite(c: CancelId)

  function PhaseOf(s: System, w: WorkerId): Phase {
    if w in s.workers then s.workers[w] else Idle
  }

  predicate OnRun(p: Phase) {
    p.Executing? || p.Interpreting? || p.Handling?
  }

  predicate Active(s: System, w: WorkerId, r: RunId) {
    OnRun(PhaseOf(s, w)) && PhaseOf(s, w).run == r
  }

  /** Whether the immutability triggers refuse to touch the row. */
  predicate Refuses(guarded: bool, run: Run) {
    guarded && Terminal(run.status)
  }

  function Enter(s: System, w: WorkerId, p: Phase): System {
    s.(workers := s.workers[w := p])
  }

  function Write(s: System, r: RunId, run: Run): System {
    s.(runs := s.runs[r := run])
  }

  function SubmitStep(s: System, r: RunId, max: nat): System {
    if r in s.runs || max == 0 then s
    else Write(s, r, Run(Queued, 0, max, None, None, [], false)).(claims := s.claims[r := 0])
  }

  predicate Claimable(run: Run, leaseExpired: bool) {
    run.status == Queued && (run.leasedBy == None || leaseExpired)
  }

  function ClaimStep(s: System, w: WorkerId, r: RunId, leaseExpired: bool): System {
    if PhaseOf(s, w) != Idle || r !in s.runs || !Claimable(s.runs[r], leaseExpired) then s
    else
      var run := s.runs[r].(status := Running, leasedBy := Some(w), attempt := s.runs[r].attempt + 1);
      Enter(Write(s, r, run), w, Executing(r, run.attempt, run.maxAttempts))
      .(claims := s.claims[r := (if r in s.claims then s.claims[r] else 0) + 1])
  }

  /** Findings and the terminal status in one transaction; a refusing trigger rolls all of it back. */
  function CommitStep(guarded: bool, s: System, w: WorkerId, status: Status, hash: string,
                      findings: seq<string>): System {
    var p := PhaseOf(s, w);
    if !p.Executing? || p.run !in s.runs || !Result(status) then s
    else if Refuses(guarded, s.runs[p.run]) then Enter(s, w, Handling(p.run, p.attempt, p.maxAttempts))
    else
      var run := s.runs[p.run].(status := status, leasedBy := None, resultHash := Some(hash),
                               findings := Merge(s.runs[p.run].findings, findings));
      Enter(Write(s, p.run, run), w, Interpreting(p.run, p.attempt, p.maxAttempts))
  }

  /** INSERT ... ON CONFLICT DO NOTHING, finding by finding. */
  function Merge(stored: seq<string>, added: seq<string>): seq<string>
    decreases |added|
  {
    if added == [] then stored
    else Merge(if added[0] in stored then stored else stored + [added[0]], added[1..])
  }

  function FailStep(s: System, w: WorkerId): System {
    var p := PhaseOf(s, w);
    if p.Executing? || p.Interpreting? then Enter(s, w, Handling(p.run, p.attempt, p.maxAttempts)) else s
  }

  function InterpretStep(guarded: bool, s: System, w: WorkerId): System {
    var p := PhaseOf(s, w);
    if !p.Interpreting? || p.run !in s.runs then s
    else if Refuses(guarded, s.runs[p.run]) then Enter(s, w, Handling(p.run, p.attempt, p.maxAttempts))
    else Enter(Write(s, p.run, s.runs[p.run].(interpreted := true)), w, Idle)
  }

  /** The except branch: fail for good or put the run back, unless the trigger raises a second time. */
  function HandleStep(guarded: bool, s: System, w: WorkerId): System {
    var p := PhaseOf(s, w);
    if !p.Handling? || p.run !in s.runs then s
    else if Refuses(guarded, s.runs[p.run]) then Enter(s, w, Escaped)
    else
      var status := if p.attempt >= p.maxAttempts then Failed else Queued;
      Enter(Write(s, p.run, s.runs[p.run].(status := status, leasedBy := None)), w, Idle)
  }

  function CrashStep(s: System, w: WorkerId): System {
    if OnRun(PhaseOf(s, w)) then Enter(s, w, Escaped) else s
  }

  function CancelReadStep(s: System, c: CancelId, r: RunId): System {
    if c in s.cancels || r !in s.runs || Terminal(s.runs[r].status) then s
    else s.(cancels := s.cancels[c := r])
  }

  function CancelWriteStep(guarded: bool, s: System, c: CancelId): System {
    if c !in s.cancels || s.cancels[c] !in s.runs then s
    else
      var r, done := s.cancels[c], s.(cancels := s.cancels - {c});
      if Refuses(guarded, s.runs[r]) then done
      else Write(done, r, s.runs[r].(status := Cancelled))
  }

  function Step(guarded: bool, s: System, a: Action): System {
    match a
    case Submit(r, max) => SubmitStep(s, r, max)
    case Claim(w, r, leaseExpired) => ClaimStep(s, w, r, leaseExpired)
    case Commit(w, status, hash, findings) => CommitStep(guarded, s, w, status, hash, findings)
    case Fail(w) => FailStep(s, w)
    case Interpret(w) => InterpretStep(guarded, s, w)
    case Handle(w) => HandleStep(guarded, s, w)
    case Crash(w) => CrashStep(s, w)
    case CancelRead(c, r) => CancelReadStep(s, c, r)
    case CancelWrite(c) => CancelWriteStep(guarded, s, c)
  }

  function Exec(guarded: bool, s: System, acts: seq<Action>): System
    decreases |acts|
  {
    if acts == [] then s else Exec(guarded, Step(guarded, s, acts[0]), acts[1..])
  }

  const EMPTY := System(map[], map[], map[], map[])

  // ---- Mutual exclusion and bounded retries, triggers or not

  ghost predicate RunInv(s: System, r: RunId)
    requires r in s.runs
  {
    var run := s.runs[r];
    && r in s.claims && s.claims[r] == run.attempt && run.attempt <= run.maxAttempts
    && (run.status == Queued ==> run.attempt < run.maxAttempts && run.leasedBy == None)
  }

  ghost predicate WorkerInv(s: System, w: WorkerId) {
    var p := PhaseOf(s, w);
    OnRun(p) ==> p.run in s.runs && s.runs[p.run].status != Queued
                 && p.attempt == s.runs[p.run].attempt && p.maxAttempts == s.runs[p.run].maxAttempts
  }

  ghost predicate Exclusive(s: System, w: WorkerId, v: WorkerId) {
    OnRun(PhaseOf(s, w)) && OnRun(PhaseOf(s, v)) && PhaseOf(s, w).run == PhaseOf(s, v).run ==> w == v
  }

  ghost predicate Inv(s: System) {
    && (forall r :: r in s.runs ==> RunInv(s, r))
    && (forall w: WorkerId :: WorkerInv(s, w))
    && (forall w: WorkerId, v: WorkerId :: Exclusive(s, w, v))
  }

  /** Rewriting run `r` and moving its one worker keeps the invariant for everything else. */
  lemma OneRunMoves(s: System, s': System, r: RunId, w: WorkerId)
    requires Inv(s) && r in s'.runs && RunInv(s', r)
    requires forall q :: q in s'.runs && q != r ==>
               q in s.runs && s'.runs[q] == s.runs[q] && q in s'.claims && q in s.claims && s'.claims[q] == s.claims[q]
    requires forall q :: q in s.runs ==> q in s'.runs
    requires forall v: WorkerId :: v != w ==> PhaseOf(s', v) == PhaseOf(s, v)
    requires forall v: WorkerId :: v != w ==> !Active(s, v, r)
    requires OnRun(PhaseOf(s', w)) ==> PhaseOf(s', w).run == r
    requires WorkerInv(s', w)
    ensures Inv(s')
  {
    forall q | q in s'.runs ensures RunInv(s', q) {
      if q != r { assert RunInv(s, q); }
    }
    forall v: WorkerId ensures WorkerInv(s', v) {
      if v != w { assert WorkerInv(s, v); assert !Active(s, v, r); }
    }
    forall u: WorkerId, v: WorkerId ensures Exclusive(s', u, v) {
      assert Exclusive(s, u, v);
      if u != w { assert !Active(s, u, r); }
      if v != w { assert !Active(s, v, r); }
    }
  }

  lemma SubmitKeepsInv(s: System, r: RunId, max: nat)
    requires Inv(s)
    ensures Inv(SubmitStep(s, r, max))
  {
    var s' := SubmitStep(s, r, max);
    forall w: WorkerId ensures WorkerInv(s', w) { assert WorkerInv(s, w); }
    forall q | q in s'.runs ensures RunInv(s', q) { if q in s.runs { assert RunInv(s, q); } }
    forall w: WorkerId, v: WorkerId ensures Exclusive(s', w, v) { assert Exclusive(s, w, v); }
  }

  lemma ClaimKeepsInv(s: System, w: WorkerId, r: RunId, leaseExpired: bool)
    requires Inv(s)
    ensures Inv(ClaimStep(s, w, r, leaseExpired))
  {
    var s' := ClaimStep(s, w, r, leaseExpired);
    if s' != s {
      assert RunInv(s, r);
      forall v: WorkerId | v != w ensures !Active(s, v, r) { assert WorkerInv(s, v); }
      forall q | q in s.runs ensures q in s.claims { assert RunInv(s, q); }
      OneRunMoves(s, s', r, w);
    }
  }

  lemma CancelKeepsInv(guarded: bool, s: System, c: CancelId)
    requires Inv(s)
    ensures Inv(CancelWriteStep(guarded, s, c))
  {
    var s' := CancelWriteStep(guarded, s, c);
    forall w: WorkerId ensures WorkerInv(s', w) { assert WorkerInv(s, w); }
    forall q | q in s'.runs ensures RunInv(s', q) { assert RunInv(s, q); }
    forall w: WorkerId, v: WorkerId ensures Exclusive(s', w, v) { assert Exclusive(s, w, v); }
  }

  lemma StepKeepsInv(guarded: bool, s: System, a: Action)
    requires Inv(s)
    ensures Inv(Step(guarded, s, a))
  {
    match a
    case Submit(r, max) => SubmitKeepsInv(s, r, max);
    case Claim(w, r, leaseExpired) => ClaimKeepsInv(s, w, r, leaseExpired);
    case CancelRead(c, r) => SameRowsSameInv(s, CancelReadStep(s, c, r));
    case CancelWrite(c) => CancelKeepsInv(guarded, s, c);
    case Commit(w, _, _, _) => WorkerStepKeepsInv(guarded, s, a, w);
    case Fail(w) => WorkerStepKeepsInv(guarded, s, a, w);
    case Interpret(w) => WorkerStepKeepsInv(guarded, s, a, w);
    case Handle(w) => WorkerStepKeepsInv(guarded, s, a, w);
    case Crash(w) => WorkerStepKeepsInv(guarded, s, a, w);
  }

  predicate StepsWorker(a: Action, w: WorkerId) {
    (a.Commit? || a.Fail? || a.Interpret? || a.Handle? || a.Crash?) && a.w == w
  }

  lemma WorkerStepKeepsInv(guarded: bool, s: System, a: Action, w: WorkerId)
    requires Inv(s) && StepsWorker(a, w)
    ensures Inv(Step(guarded, s, a))
  {
    assert WorkerInv(s, w);
    var s' := Step(guarded, s, a);
    if s' != s {
      assert MovesItsRun(s, s', w);
      WorkerKeepsInv(s, s', w);
    }
  }

  lemma SameRowsSameInv(s: System, s': System)
    requires Inv(s) && s'.runs == s.runs && s'.workers == s.workers && s'.claims == s.claims
    ensures Inv(s')
  {
    forall w: WorkerId ensures WorkerInv(s', w) { assert WorkerInv(s, w); }
    forall q | q in s'.runs ensures RunInv(s', q) { assert RunInv(s, q); }
    forall w: WorkerId, v: WorkerId ensures Exclusive(s', w, v) { assert Exclusive(s, w, v); }
  }

  /** A step of an active worker: it stays on its run or lets go, and rewrites no other row. */
  ghost predicate MovesItsRun(s: System, s': System, w: WorkerId) {
    && OnRun(PhaseOf(s, w)) && PhaseOf(s, w).run in s.runs && s'.claims == s.claims
    && s'.runs.Keys == s.runs.Keys
    && (forall v: WorkerId :: v != w ==> PhaseOf(s', v) == PhaseOf(s, v))
    && var r, p, p' := PhaseOf(s, w).run, PhaseOf(s, w), PhaseOf(s', w);
       && (forall q :: q in s.runs && q != r ==> s'.runs[q] == s.runs[q])
       && s'.runs[r].attempt == s.runs[r].attempt && s'.runs[r].maxAttempts == s.runs[r].maxAttempts
       && (OnRun(p') ==> (p'.run == r && s'.runs[r].status != Queued
                          && p'.attempt == p.attempt && p'.maxAttempts == p.maxAttempts))
       && (s'.runs[r].status == Queued ==> (s'.runs[r].leasedBy == None && p.attempt < p.maxAttempts))
  }

  lemma WorkerKeepsInv(s: System, s': System, w: WorkerId)
    requires Inv(s) && MovesItsRun(s, s', w)
    ensures Inv(s')
  {
    var r := PhaseOf(s, w).run;
    assert WorkerInv(s, w) && RunInv(s, r);
    forall v: WorkerId | v != w ensures !Active(s, v, r) { assert Exclusive(s, v, w); }
    forall q | q in s.runs ensures q in s.claims { assert RunInv(s, q); }
    OneRunMoves(s, s', r, w);
  }

  lemma {:induction false} ExecKeepsInv(guarded: bool, s: System, acts: seq<Action>)
    requires Inv(s)
    ensures Inv(Exec(guarded, s, acts))
    decreases |acts|
  {
    if acts != [] {
      StepKeepsInv(guarded, s, acts[0]);
      ExecKeepsInv(guarded, Step(guarded, s, acts[0]), acts[1..]);
    }
  }

  /** Over every interleaving: one active worker per run, none while it is queued, claims within the attempt limit. */
  lemma QueueIsSafe(guarded: bool, acts: seq<Action>)
    ensures var s := Exec(guarded, EMPTY, acts);
      && (forall r, w: WorkerId, v: WorkerId :: Active(s, w, r) && Active(s, v, r) ==> w == v)
      && (forall r, w: WorkerId :: r in s.runs && s.runs[r].status == Queued ==> !Active(s, w, r))
      && (forall r :: r in s.runs ==> r in s.claims && s.claims[r] <= s.runs[r].maxAttempts)
  {
    var s := Exec(guarded, EMPTY, acts);
    ExecKeepsInv(guarded, EMPTY, acts);
    forall r, w: WorkerId, v: WorkerId | Active(s, w, r) && Active(s, v, r)
      ensures w == v { assert Exclusive(s, w, v); }
    forall r, w: WorkerId | r in s.runs && s.runs[r].status == Queued
      ensures !Active(s, w, r) { assert WorkerInv(s, w); }
    forall r | r in s.runs ensures r in s.claims && s.claims[r] <= s.runs[r].maxAttempts { assert RunInv(s, r); }
  }

  // ---- Terminal rows: what the immutability triggers buy

  ghost predicate Sealed(s: System, r: RunId) {
    r in s.runs && Terminal(s.runs[r].status)
  }

  lemma {:induction false} SealedStays(s: System, acts: seq<Action>, r: RunId)
    requires Sealed(s, r)
    ensures Sealed(Exec(true, s, acts), r) && Exec(true, s, acts).runs[r] == s.runs[r]
    decreases |acts|
  {
    if acts != [] {
      SealedStays(Step(true, s, acts[0]), acts[1..], r);
    }
  }

  /** No execution moves a run out of a terminal status, or rewrites anything in its row. */
  ghost predicate TerminalAbsorbs(guarded: bool) {
    forall before: seq<Action>, after: seq<Action>, r: RunId ::
      var s := Exec(guarded, EMPTY, before);
      Sealed(s, r) ==> var s' := Exec(guarded, s, after); r in s'.runs && s'.runs[r] == s.runs[r]
  }

  lemma ExecFirst(guarded: bool, s: System, a: Action, rest: seq<Action>)
    ensures Exec(guarded, s, [a] + rest) == Exec(guarded, Step(guarded, s, a), rest)
  {
    assert ([a] + rest)[1..] == rest;
  }

  /** A worker's late result overwrites a cancellation when nothing guards the row. */
  lemma CancelledRunIsOverwritten(r: RunId, w: WorkerId, c: CancelId)
    ensures var s := Exec(false, EMPTY, [Submit(r, 5)] + ([Claim(w, r, false)]
                                                          + ([CancelRead(c, r)] + ([CancelWrite(c)] + []))));
            var s' := Exec(false, s, [Commit(w, Succeeded, "h", [])] + []);
            Sealed(s, r) && s.runs[r].status == Cancelled && r in s'.runs && s'.runs[r].status == Succeeded
  {
    ExecFirst(false, EMPTY, Submit(r, 5), [Claim(w, r, false)] + ([CancelRead(c, r)] + ([CancelWrite(c)] + [])));
    var s1 := Step(false, EMPTY, Submit(r, 5));
    ExecFirst(false, s1, Claim(w, r, false), [CancelRead(c, r)] + ([CancelWrite(c)] + []));
    var s2 := Step(false, s1, Claim(w, r, false));
    ExecFirst(false, s2, CancelRead(c, r), [CancelWrite(c)] + []);
    var s3 := Step(false, s2, CancelRead(c, r));
    ExecFirst(false, s3, CancelWrite(c), []);
    ExecFirst(false, Step(false, s3, CancelWrite(c)), Commit(w, Succeeded, "h", []), []);
  }

  /** A failure after the result was committed puts a finished run back in the queue when nothing guards the row. */
  lemma FinishedRunIsRequeued(r: RunId, w: WorkerId)
    ensures var s := Exec(false, EMPTY, [Submit(r, 5)] + ([Claim(w, r, false)]
                                                          + ([Commit(w, Succeeded, "h", [])] + [])));
            var s' := Exec(false, s, [Fail(w)] + ([Handle(w)] + []));
            Sealed(s, r) && s.runs[r].status == Succeeded && r in s'.runs && s'.runs[r].status == Queued
  {
    ExecFirst(false, EMPTY, Submit(r, 5), [Claim(w, r, false)] + ([Commit(w, Succeeded, "h", [])] + []));
    var s1 := Step(false, EMPTY, Submit(r, 5));
    ExecFirst(false, s1, Claim(w, r, false), [Commit(w, Succeeded, "h", [])] + []);
    var s2 := Step(false, s1, Claim(w, r, false));
    ExecFirst(false, s2, Commit(w, Succeeded, "h", []), []);
    var s3 := Step(false, s2, Commit(w, Succeeded, "h", []));
    ExecFirst(false, s3, Fail(w), [Handle(w)] + []);
    ExecFirst(false, Step(false, s3, Fail(w)), Handle(w), []);
  }

  /** Terminal statuses absorb in every interleaving exactly when the immutability triggers are installed. */
  lemma TriggersMakeTerminalAbsorbing(guarded: bool)
    ensures TerminalAbsorbs(guarded) <==> guarded
  {
    if guarded {
      forall before: seq<Action>, after: seq<Action>, r: RunId | Sealed(Exec(true, EMPTY, before), r)
        ensures var s := Exec(true, EMPTY, before);
                var s' := Exec(true, s, after); r in s'.runs && s'.runs[r] == s.runs[r]
      {
        SealedStays(Exec(true, EMPTY, before), after, r);
      }
    } else {
      CancelledRunIsOverwritten(0, 0, 0);
      var before := [Submit(0, 5)] + ([Claim(0, 0, false)] + ([CancelRead(0, 0)] + ([CancelWrite(0)] + [])));
      var s := Exec(false, EMPTY, before);
      assert Sealed(s, 0) && Exec(false, s, [Commit(0, Succeeded, "h", [])] + []).runs[0] != s.runs[0];
    }
  }

  // ---- What a guarded database holds: results whole or not at all, interpretations never

  ghost predicate WholeResult(run: Run) {
    && (Result(run.status) <==> run.resultHash.Some?)
    && (!Result(run.status) ==> run.findings == [])
    && !run.interpreted
  }

  ghost predicate WholeResults(s: System) {
    && (forall r :: r in s.runs ==> WholeResult(s.runs[r]))
    && (forall w: WorkerId :: PhaseOf(s, w).Interpreting? ==> Sealed(s, PhaseOf(s, w).run))
  }

  lemma GuardedStepKeepsWhole(s: System, a: Action)
    requires WholeResults(s)
    ensures WholeResults(Step(true, s, a))
  {
    var s' := Step(true, s, a);
    forall w: WorkerId | PhaseOf(s', w).Interpreting? ensures Sealed(s', PhaseOf(s', w).run) {
      if PhaseOf(s, w).Interpreting? {
        assert Sealed(s, PhaseOf(s, w).run);
      }
    }
    forall r | r in s'.runs ensures WholeResult(s'.runs[r]) {
      if r in s.runs { assert WholeResult(s.runs[r]); }
    }
  }

  lemma {:induction false} GuardedResultsAreWhole(s: System, acts: seq<Action>)
    requires WholeResults(s)
    ensures WholeResults(Exec(true, s, acts))
    decreases |acts|
  {
    if acts != [] {
      GuardedStepKeepsWhole(s, acts[0]);
      GuardedResultsAreWhole(Step(true, s, acts[0]), acts[1..]);
    }
  }

  /**
   * Under the triggers a run carries a hash exactly when its status is a result, findings only then, and no
   * interpretation ever.
   */
  lemma GuardedRowsAreWhole(acts: seq<Action>)
    ensures forall r :: r in Exec(true, EMPTY, acts).runs ==> WholeResult(Exec(true, EMPTY, acts).runs[r])
  {
    GuardedResultsAreWhole(EMPTY, acts);
  }

  /** The worker that stored a result is past the point of returning normally. */
  ghost predicate Doomed(s: System, w: WorkerId) {
    var p := PhaseOf(s, w);
    p.Escaped? || ((p.Interpreting? || p.Handling?) && Sealed(s, p.run))
  }

  lemma DoomedStep(s: System, a: Action, w: WorkerId)
    requires Doomed(s, w)
    ensures Doomed(Step(true, s, a), w)
  {}

  lemma {:induction false} DoomedStays(s: System, acts: seq<Action>, w: WorkerId)
    requires Doomed(s, w)
    ensures Doomed(Exec(true, s, acts), w)
    decreases |acts|
  {
    if acts != [] {
      DoomedStep(s, acts[0], w);
      DoomedStays(Step(true, s, acts[0]), acts[1..], w);
    }
  }

  /**
   * Under the triggers a worker that commits a result never returns: storing the interpretation raises, and so does
   * the handler.
   */
  lemma CommittedWorkerNeverReturns(s: System, w: WorkerId, status: Status, hash: string, findings: seq<string>,
                                    acts: seq<Action>)
    requires PhaseOf(s, w).Executing? && PhaseOf(s, w).run in s.runs && Result(status)
    requires !Terminal(s.runs[PhaseOf(s, w).run].status)
    ensures PhaseOf(Exec(true, Step(true, s, Commit(w, status, hash, findings)), acts), w) != Idle
  {
    DoomedStays(Step(true, s, Commit(w, status, hash, findings)), acts, w);
  }

  // ---- A crashed worker's run is never taken up again

  ghost predicate Orphaned(s: System, r: RunId) {
    && r in s.runs && s.runs[r].status == Running
    && forall w: WorkerId :: !Active(s, w, r)
  }

  lemma OrphanStep(guarded: bool, s: System, a: Action, r: RunId)
    requires Orphaned(s, r)
    ensures var s' := Step(guarded, s, a);
            r in s'.runs && (forall w: WorkerId :: !Active(s', w, r))
            && (s'.runs[r] == s.runs[r] || s'.runs[r] == s.runs[r].(status := Cancelled))
  {
    var s' := Step(guarded, s, a);
    if a.Claim? || a.Commit? || a.Fail? || a.Interpret? || a.Handle? || a.Crash? {
      assert !Active(s, a.w, r);
    }
    forall w: WorkerId ensures !Active(s', w, r) { assert !Active(s, w, r); }
  }

  lemma AbandonedStep(guarded: bool, s: System, a: Action, r: RunId)
    requires r in s.runs && s.runs[r].status == Cancelled && forall w: WorkerId :: !Active(s, w, r)
    ensures var s' := Step(guarded, s, a);
            r in s'.runs && s'.runs[r] == s.runs[r] && forall w: WorkerId :: !Active(s', w, r)
  {
    var s' := Step(guarded, s, a);
    if a.Claim? || a.Commit? || a.Fail? || a.Interpret? || a.Handle? || a.Crash? {
      assert !Active(s, a.w, r);
    }
    forall w: WorkerId ensures !Active(s', w, r) { assert !Active(s, w, r); }
  }

  lemma {:induction false} AbandonedStays(guarded: bool, s: System, acts: seq<Action>, r: RunId)
    requires r in s.runs && s.runs[r].status == Cancelled && forall w: WorkerId :: !Active(s, w, r)
    ensures r in Exec(guarded, s, acts).runs && Exec(guarded, s, acts).runs[r] == s.runs[r]
    decreases |acts|
  {
    if acts != [] {
      AbandonedStep(guarded, s, acts[0], r);
      AbandonedStays(guarded, Step(guarded, s, acts[0]), acts[1..], r);
    }
  }

  /** A run left RUNNING by a crash stays exactly as it is, lease or no lease, until someone cancels it. */
  lemma {:induction false} OrphanWaitsForCancel(guarded: bool, s: System, acts: seq<Action>, r: RunId)
    requires Orphaned(s, r)
    ensures var s' := Exec(guarded, s, acts);
            r in s'.runs && (s'.runs[r] == s.runs[r] || s'.runs[r] == s.runs[r].(status := Cancelled))
    decreases |acts|
  {
    if acts != [] {
      OrphanStep(guarded, s, acts[0], r);
      var s1 := Step(guarded, s, acts[0]);
      if s1.runs[r] == s.runs[r] {
        OrphanWaitsForCancel(guarded, s1, acts[1..], r);
      } else {
        AbandonedStays(guarded, s1, acts[1..], r);
      }
    }
  }

  /** A crash of the only active worker orphans its running run. */
  lemma CrashOrphans(guarded: bool, acts: seq<Action>, w: WorkerId)
    requires var s := Exec(guarded, EMPTY, acts);
             OnRun(PhaseOf(s, w)) && PhaseOf(s, w).run in s.runs && s.runs[PhaseOf(s, w).run].status == Running
    ensures var s := Exec(guarded, EMPTY, acts); Orphaned(Step(guarded, s, Crash(w)), PhaseOf(s, w).run)
  {
    var s := Exec(guarded, EMPTY, acts);
    ExecKeepsInv(guarded, EMPTY, acts);
    var r := PhaseOf(s, w).run;
    forall v: WorkerId ensures !Active(Step(guarded, s, Crash(w)), v, r) { assert Exclusive(s, v, w); }
  }

  // ---- Without triggers, a terminal run is safe exactly when nobody holds it

  /** No worker on the run, and no cancellation in flight that would still change its status. */
  ghost predicate Quiet(s: System, r: RunId) {
    && Sealed(s, r)
    && (forall w: WorkerId :: !Active(s, w, r))
    && (forall c :: c in s.cancels && s.cancels[c] == r ==> s.runs[r].status == Cancelled)
  }

  lemma QuietWorkerStep(guarded: bool, s: System, a: Action, w: WorkerId, r: RunId)
    requires Quiet(s, r) && StepsWorker(a, w)
    ensures Quiet(Step(guarded, s, a), r) && Step(guarded, s, a).runs[r] == s.runs[r]
  {
    var s' := Step(guarded, s, a);
    assert !Active(s, w, r);
    forall v: WorkerId ensures !Active(s', v, r) { assert !Active(s, v, r); }
  }

  lemma QuietStep(guarded: bool, s: System, a: Action, r: RunId)
    requires Quiet(s, r)
    ensures Quiet(Step(guarded, s, a), r) && Step(guarded, s, a).runs[r] == s.runs[r]
  {
    if a.Submit? || a.Claim? || a.CancelRead? || a.CancelWrite? {
      var s' := Step(guarded, s, a);
      forall v: WorkerId ensures !Active(s', v, r) { assert !Active(s, v, r); }
    } else {
      QuietWorkerStep(guarded, s, a, a.w, r);
    }
  }

  /** A quiet run never changes again, triggers or not. */
  lemma {:induction false} QuietStays(guarded: bool, s: System, acts: seq<Action>, r: RunId)
    requires Quiet(s, r)
    ensures Sealed(Exec(guarded, s, acts), r) && Exec(guarded, s, acts).runs[r] == s.runs[r]
    decreases |acts|
  {
    if acts != [] {
      QuietStep(guarded, s, acts[0], r);
      QuietStays(guarded, Step(guarded, s, acts[0]), acts[1..], r);
    }
  }

  /** A run fails for good by its worker letting go of it, so a failed run has no worker. */
  ghost predicate FailedIsFree(s: System) {
    forall r, w: WorkerId :: Active(s, w, r) ==> r in s.runs && s.runs[r].status != Failed
  }

  lemma FailedStaysFree(guarded: bool, s: System, a: Action)
    requires Inv(s) && FailedIsFree(s)
    ensures FailedIsFree(Step(guarded, s, a))
  {
    var s' := Step(guarded, s, a);
    forall r, w: WorkerId | Active(s', w, r) ensures r in s'.runs && s'.runs[r].status != Failed {
      if Active(s, w, r) && a.Handle? && Active(s, a.w, r) {
        assert Exclusive(s, w, a.w);
      }
    }
  }

  lemma {:induction false} FailedIsAlwaysFree(guarded: bool, s: System, acts: seq<Action>)
    requires Inv(s) && FailedIsFree(s)
    ensures FailedIsFree(Exec(guarded, s, acts))
    decreases |acts|
  {
    if acts != [] {
      StepKeepsInv(guarded, s, acts[0]);
      FailedStaysFree(guarded, s, acts[0]);
      FailedIsAlwaysFree(guarded, Step(guarded, s, acts[0]), acts[1..]);
    }
  }

  /** Every continuation leaves the row as it is. */
  ghost predicate NeverChanges(guarded: bool, s: System, r: RunId)
    requires r in s.runs
  {
    forall after: seq<Action> :: r in Exec(guarded, s, after).runs && Exec(guarded, s, after).runs[r] == s.runs[r]
  }

  /** A worker still on a terminal run can fail and put it back, or fail it. */
  lemma WorkerRewrites(s: System, w: WorkerId, r: RunId)
    requires Sealed(s, r) && Active(s, w, r) && s.runs[r].status != Failed
    ensures !NeverChanges(false, s, r)
  {
    var after := if PhaseOf(s, w).Handling? then [Handle(w)] + [] else [Fail(w)] + ([Handle(w)] + []);
    if PhaseOf(s, w).Handling? {
      ExecFirst(false, s, Handle(w), []);
    } else {
      ExecFirst(false, s, Fail(w), [Handle(w)] + []);
      ExecFirst(false, Step(false, s, Fail(w)), Handle(w), []);
    }
    assert Exec(false, s, after).runs[r].status != s.runs[r].status;
  }

  lemma CancellationRewrites(s: System, c: CancelId, r: RunId)
    requires Sealed(s, r) && c in s.cancels && s.cancels[c] == r && s.runs[r].status != Cancelled
    ensures !NeverChanges(false, s, r)
  {
    ExecFirst(false, s, CancelWrite(c), []);
    assert Exec(false, s, [CancelWrite(c)] + []).runs[r].status == Cancelled;
  }

  /** Without the triggers, in every interleaving: a terminal run is never changed again exactly when it is quiet. */
  lemma QuietIsExact(acts: seq<Action>, r: RunId)
    requires Sealed(Exec(false, EMPTY, acts), r)
    ensures NeverChanges(false, Exec(false, EMPTY, acts), r) <==> Quiet(Exec(false, EMPTY, acts), r)
  {
    var s := Exec(false, EMPTY, acts);
    FailedIsAlwaysFree(false, EMPTY, acts);
    if Quiet(s, r) {
      forall after: seq<Action>
        ensures r in Exec(false, s, after).runs && Exec(false, s, after).runs[r] == s.runs[r]
      {
        QuietStays(false, s, after, r);
      }
    } else if w: WorkerId :| Active(s, w, r) {
      WorkerRewrites(s, w, r);
    } else {
      var c :| c in s.cancels && s.cancels[c] == r && s.runs[r].status != Cancelled;
      CancellationRewrites(s, c, r);
    }
  }

  // ---- The transactions as the program issues them

  class Store {
    const guarded: bool
    var runs: map<RunId, Run>
    var workers: map<WorkerId, Phase>
    var cancels: map<CancelId, RunId>
    ghost var claims: map<RunId, nat>

    ghost function State(): System
      reads this
    {
      System(runs, workers, cancels, claims)
    }

    constructor (guarded: bool)
      ensures this.guarded == guarded && State() == EMPTY
    {
      this.guarded := guarded;
      runs, workers, cancels, claims := map[], map[], map[], map[];
    }

    /** UPDATE of one row: the BEFORE trigger looks at the old status and may raise. */
    method Update(r: RunId, run: Run) returns (raised: bool)
      requires r in runs
      modifies this`runs
      ensures raised == Refuses(guarded, old(runs)[r])
      ensures runs == if raised then old(runs) else old(runs)[r := run]
    {
      raised := guarded && Terminal(runs[r].status);
      if !raised {
        runs := runs[r := run];
      }
    }

    /** The claim query: pick the row, mark it RUNNING, take the lease, count the attempt. */
    method ClaimRun(w: WorkerId, r: RunId, leaseExpired: bool) returns (claimed: bool)
      requires PhaseOf(State(), w) == Idle
      modifies this
      ensures State() == Step(guarded, old(State()), Claim(w, r, leaseExpired))
      ensures claimed == (r in old(runs) && Claimable(old(runs)[r], leaseExpired))
    {
      claimed := r in runs && runs[r].status == Queued && (runs[r].leasedBy == None || leaseExpired);
      if claimed {
        var run := runs[r];
        var raised := Update(r, run.(status := Running, leasedBy := Some(w), attempt := run.attempt + 1));
        workers := workers[w := Executing(r, runs[r].attempt, runs[r].maxAttempts)];
        claims := claims[r := (if r in claims then claims[r] else 0) + 1];
      }
    }

    /** The result transaction of `_execute_simulation`. */
    method CommitResult(w: WorkerId, status: Status, hash: string, findings: seq<string>) returns (raised: bool)
      requires PhaseOf(State(), w).Executing? && PhaseOf(State(), w).run in runs && Result(status)
      modifies this
      ensures State() == Step(guarded, old(State()), Commit(w, status, hash, findings))
      ensures raised == Refuses(guarded, old(runs)[PhaseOf(old(State()), w).run])
    {
      var p := workers[w];
      var stored := runs[p.run].findings;
      for i := 0 to |findings|
        invariant Merge(stored, findings[i..]) == Merge(runs[p.run].findings, findings)
      {
        assert findings[i..][0] == findings[i] && findings[i..][1..] == findings[i+1..];
        if findings[i] !in stored {
          stored := stored + [findings[i]];
        }
      }
      var run := runs[p.run];
      raised := Update(p.run, run.(status := status, leasedBy := None, resultHash := Some(hash), findings := stored));
      workers := workers[w := if raised then Handling(p.run, p.attempt, p.maxAttempts)
                              else Interpreting(p.run, p.attempt, p.maxAttempts)];
    }

    /** The except branch of `run_next_simulation`. */
    method HandleFailure(w: WorkerId) returns (escaped: bool)
      requires PhaseOf(State(), w).Handling? && PhaseOf(State(), w).run in runs
      modifies this
      ensures State() == Step(guarded, old(State()), Handle(w))
      ensures escaped <==> PhaseOf(State(), w) == Escaped
    {
      var p := workers[w];
      var run := runs[p.run];
      if p.attempt >= p.maxAttempts {
        escaped := Update(p.run, run.(status := Failed, leasedBy := None));
      } else {
        escaped := Update(p.run, run.(status := Queued, leasedBy := None));
      }
      workers := workers[w := if escaped then Escaped else Idle];
    }

    /** Storing the interpretation: the child trigger looks at the parent run's status. */
    method RecordInterpretation(w: WorkerId) returns (raised: bool)
      requires PhaseOf(State(), w).Interpreting? && PhaseOf(State(), w).run in runs
      modifies this
      ensures State() == Step(guarded, old(State()), Interpret(w))
      ensures raised == Refuses(guarded, old(runs)[PhaseOf(old(State()), w).run])
    {
      var p := workers[w];
      raised := guarded && Terminal(runs[p.run].status);
      if raised {
        workers := workers[w := Handling(p.run, p.attempt, p.maxAttempts)];
      } else {
        runs := runs[p.run := runs[p.run].(interpreted := true)];
        workers := workers[w := Idle];
      }
    }

    /** The first transaction of `cancel_simulation`: 404 and 409 leave nothing behind. */
    method ReadForCancellation(c: CancelId, r: RunId) returns (found: bool, terminal: bool)
      requires c !in cancels
      modifies this`cancels
      ensures State() == Step(guarded, old(State()), CancelRead(c, r))
      ensures found == (r in runs) && terminal == (r in runs && Terminal(runs[r].status))
    {
      found := r in runs;
      terminal := found && Terminal(runs[r].status);
      if found && !terminal {
        cancels := cancels[c := r];
      }
    }

    /** The second transaction of `cancel_simulation`, which no longer looks at the status. */
    method WriteCancellation(c: CancelId) returns (raised: bool)
      requires c in cancels && cancels[c] in runs
      modifies this
      ensures State() == Step(guarded, old(State()), CancelWrite(c))
      ensures raised == Refuses(guarded, old(runs)[old(cancels)[c]])
    {
      var r := cancels[c];
      raised := Update(r, runs[r].(status := Cancelled));
      cancels := cancels - {c};
    }
  }
}
