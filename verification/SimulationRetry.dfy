// Where a result came from, and how often a run is tried.

module SimulationRetry {
  import opened Ordering
  import opened SimulationQueue

  lemma {:induction false} ExecLast(guarded: bool, s: System, acts: seq<Action>)
    requires acts != []
    ensures var n := |acts| - 1; Exec(guarded, s, acts) == Step(guarded, Exec(guarded, s, acts[..n]), acts[n])
    decreases |acts|
  {
    var n := |acts| - 1;
    if n > 0 {
      ExecLast(guarded, Step(guarded, s, acts[0]), acts[1..]);
      assert acts[1..][..n - 1] == acts[..n][1..];
    }
  }

  function At(guarded: bool, acts: seq<Action>, n: nat): System
    requires n <= |acts|
  {
    Exec(guarded, EMPTY, acts[..n])
  }

  // ---- A stored result is one worker's

  lemma {:induction false} MergeMembers(stored: seq<string>, added: seq<string>)
    ensures forall f :: f in Merge(stored, added) <==> f in stored || f in added
    ensures NoRepeats(stored) ==> NoRepeats(Merge(stored, added))
    decreases |added|
  {
    if added != [] {
      var next := if added[0] in stored then stored else stored + [added[0]];
      assert added == [added[0]] + added[1..];
      MergeMembers(next, added[1..]);
    }
  }

  /** The row carries the status, hash and findings that step `n` committed, as a worker executing this run. */
  ghost predicate CommittedAt(acts: seq<Action>, n: nat, r: RunId, run: Run) {
    && n < |acts| && acts[n].Commit? && Active(At(true, acts, n), acts[n].w, r)
    && PhaseOf(At(true, acts, n), acts[n].w).Executing?
    && run.status == acts[n].status && run.resultHash == Some(acts[n].hash)
    && NoRepeats(run.findings) && forall f :: f in run.findings <==> f in acts[n].findings
  }

  lemma CommittedEarlier(acts: seq<Action>, k: nat, n: nat, r: RunId, run: Run)
    requires k <= |acts| && CommittedAt(acts[..k], n, r, run)
    ensures CommittedAt(acts, n, r, run)
  {
    assert acts[..k][..n] == acts[..n];
  }

  lemma ResultIsCommitted(s: System, a: Action, r: RunId)
    requires WholeResults(s) && r in Step(true, s, a).runs && Result(Step(true, s, a).runs[r].status)
    requires !(r in s.runs && s.runs[r] == Step(true, s, a).runs[r])
    ensures a.Commit? && Active(s, a.w, r) && PhaseOf(s, a.w).Executing?
    ensures var run := Step(true, s, a).runs[r];
            && run.status == a.status && run.resultHash == Some(a.hash)
            && NoRepeats(run.findings) && forall f :: f in run.findings <==> f in a.findings
  {
    if r in s.runs { assert WholeResult(s.runs[r]); }
    if a.Commit? {
      MergeMembers([], a.findings);
    }
  }

  /** Under the triggers, in every run, whatever result a row shows was committed by one worker that executed it. */
  lemma {:induction false} ResultsWereCommitted(acts: seq<Action>, r: RunId) returns (n: nat)
    requires r in Exec(true, EMPTY, acts).runs && Result(Exec(true, EMPTY, acts).runs[r].status)
    ensures CommittedAt(acts, n, r, Exec(true, EMPTY, acts).runs[r])
    decreases |acts|
  {
    var k := |acts| - 1;
    ExecLast(true, EMPTY, acts);
    var s := Exec(true, EMPTY, acts[..k]);
    GuardedResultsAreWhole(EMPTY, acts[..k]);
    if r in s.runs && s.runs[r] == Exec(true, EMPTY, acts).runs[r] {
      n := ResultsWereCommitted(acts[..k], r);
      CommittedEarlier(acts, k, n, r, s.runs[r]);
    } else {
      n := k;
      ResultIsCommitted(s, acts[k], r);
    }
  }

  // ---- A failed attempt is tried again while attempts remain, and then no more

  ghost predicate FailedIsSpent(s: System) {
    forall r :: r in s.runs && s.runs[r].status == Failed ==> s.runs[r].attempt == s.runs[r].maxAttempts
  }

  lemma FailedStaysSpent(guarded: bool, s: System, a: Action)
    requires Inv(s) && FailedIsSpent(s)
    ensures FailedIsSpent(Step(guarded, s, a))
  {
    if a.Handle? && OnRun(PhaseOf(s, a.w)) && PhaseOf(s, a.w).run in s.runs {
      assert WorkerInv(s, a.w) && RunInv(s, PhaseOf(s, a.w).run);
    }
  }

  lemma {:induction false} FailedIsAlwaysSpent(guarded: bool, s: System, acts: seq<Action>)
    requires Inv(s) && FailedIsSpent(s)
    ensures FailedIsSpent(Exec(guarded, s, acts))
    decreases |acts|
  {
    if acts != [] {
      StepKeepsInv(guarded, s, acts[0]);
      FailedStaysSpent(guarded, s, acts[0]);
      FailedIsAlwaysSpent(guarded, Step(guarded, s, acts[0]), acts[1..]);
    }
  }

  /** In every interleaving a run fails for good only after it was claimed as often as it may be. */
  lemma FailedSpentItsAttempts(guarded: bool, acts: seq<Action>, r: RunId)
    requires r in Exec(guarded, EMPTY, acts).runs && Exec(guarded, EMPTY, acts).runs[r].status == Failed
    ensures var s := Exec(guarded, EMPTY, acts);
            r in s.claims && s.claims[r] == s.runs[r].attempt == s.runs[r].maxAttempts
  {
    ExecKeepsInv(guarded, EMPTY, acts);
    FailedIsAlwaysSpent(guarded, EMPTY, acts);
    assert RunInv(Exec(guarded, EMPTY, acts), r);
  }

  /**
   * In every interleaving, when the worker of a running run fails, handling it puts the run back in the queue, free to
   * be claimed, as long as an attempt is left, and otherwise marks it failed; nothing else of the row changes.
   */
  lemma FailureIsRetried(guarded: bool, acts: seq<Action>, w: WorkerId)
    requires var s := Exec(guarded, EMPTY, acts);
             PhaseOf(s, w).Executing? && PhaseOf(s, w).run in s.runs && s.runs[PhaseOf(s, w).run].status == Running
    ensures var s := Exec(guarded, EMPTY, acts); var r := PhaseOf(s, w).run;
            var run, s' := s.runs[r], Step(guarded, Step(guarded, s, Fail(w)), Handle(w));
            && r in s'.runs && PhaseOf(s', w) == Idle && (forall v: WorkerId :: !Active(s', v, r))
            && run.attempt <= run.maxAttempts
            && (run.attempt < run.maxAttempts ==>
                  s'.runs[r] == run.(status := Queued, leasedBy := None) && Claimable(s'.runs[r], false))
            && (run.attempt == run.maxAttempts ==> s'.runs[r] == run.(status := Failed, leasedBy := None))
  {
    var s := Exec(guarded, EMPTY, acts);
    var r := PhaseOf(s, w).run;
    ExecKeepsInv(guarded, EMPTY, acts);
    assert WorkerInv(s, w) && RunInv(s, r);
    var s' := Step(guarded, Step(guarded, s, Fail(w)), Handle(w));
    forall v: WorkerId ensures !Active(s', v, r) {
      assert Exclusive(s, v, w);
    }
  }

  /** One attempt that fails. */
  function Attempted(guarded: bool, s: System, w: WorkerId, r: RunId): System {
    Step(guarded, Step(guarded, Step(guarded, s, Claim(w, r, false)), Fail(w)), Handle(w))
  }

  /** `k` attempts that all fail. */
  function Rounds(guarded: bool, w: WorkerId, r: RunId, max: nat, k: nat): System {
    if k == 0 then Step(guarded, EMPTY, Submit(r, max)) else Attempted(guarded, Rounds(guarded, w, r, max, k - 1), w, r)
  }

  predicate Tried(s: System, w: WorkerId, r: RunId, max: nat, k: nat) {
    && PhaseOf(s, w) == Idle && r in s.runs && s.runs[r].attempt == k && s.runs[r].maxAttempts == max
    && s.runs[r].leasedBy == None && s.runs[r].status == if k < max then Queued else Failed
  }

  lemma OneMoreTry(guarded: bool, s: System, w: WorkerId, r: RunId, max: nat, k: nat)
    requires Tried(s, w, r, max, k) && k < max
    ensures Tried(Attempted(guarded, s, w, r), w, r, max, k + 1)
  {
    var claimed := Step(guarded, s, Claim(w, r, false));
    assert PhaseOf(claimed, w) == Executing(r, k + 1, max) && claimed.runs[r].status == Running;
    var failing := Step(guarded, claimed, Fail(w));
    assert PhaseOf(failing, w) == Handling(r, k + 1, max) && failing.runs == claimed.runs;
  }

  /** A run that fails every time is tried exactly as often as it may be. */
  lemma {:induction false} RunIsTriedUntilSpent(guarded: bool, w: WorkerId, r: RunId, max: nat, k: nat)
    requires 0 < max && k <= max
    ensures Tried(Rounds(guarded, w, r, max, k), w, r, max, k)
  {
    if k > 0 {
      RunIsTriedUntilSpent(guarded, w, r, max, k - 1);
      OneMoreTry(guarded, Rounds(guarded, w, r, max, k - 1), w, r, max, k - 1);
    }
  }

  // ---- Every result can be stored

  /** A worker's result, whichever of the three it is, is what the running row then shows. */
  lemma ResultIsStored(guarded: bool, s: System, w: WorkerId, status: Status, hash: string, findings: seq<string>)
    requires PhaseOf(s, w).Executing? && PhaseOf(s, w).run in s.runs && s.runs[PhaseOf(s, w).run].status == Running
    requires status != Queued && status != Running && status != Failed && status != Cancelled
    ensures var r := PhaseOf(s, w).run; var s' := Step(guarded, s, Commit(w, status, hash, findings));
            && r in s'.runs && s'.runs[r].status == status && s'.runs[r].resultHash == Some(hash)
            && s'.runs[r].leasedBy == None && s'.runs[r].attempt == s.runs[r].attempt
            && (forall f :: f in s'.runs[r].findings <==> f in s.runs[r].findings || f in findings)
            && forall q :: q in s.runs && q != r ==> q in s'.runs && s'.runs[q] == s.runs[q]
  {
    MergeMembers(s.runs[PhaseOf(s, w).run].findings, findings);
  }

  /** And a failure, a queued or running row or a cancellation is never committed as one. */
  lemma OnlyResultsAreStored(guarded: bool, s: System, w: WorkerId, status: Status, hash: string, findings: seq<string>)
    requires status == Queued || status == Running || status == Failed || status == Cancelled
    ensures Step(guarded, s, Commit(w, status, hash, findings)) == s
  {}

  /** An idle worker takes a queued run unless another one's lease on it is live, and then nothing else changes. */
  lemma ClaimIsExact(guarded: bool, s: System, w: WorkerId, r: RunId, leaseExpired: bool)
    requires PhaseOf(s, w) == Idle
    ensures var s' := Step(guarded, s, Claim(w, r, leaseExpired));
            if r in s.runs && s.runs[r].status == Queued && (s.runs[r].leasedBy == None || leaseExpired)
            then s'.runs[r] == s.runs[r].(status := Running, leasedBy := Some(w), attempt := s.runs[r].attempt + 1)
                 && PhaseOf(s', w) == Executing(r, s.runs[r].attempt + 1, s.runs[r].maxAttempts)
                 && s'.runs.Keys == s.runs.Keys && forall q :: q in s.runs && q != r ==> s'.runs[q] == s.runs[q]
            else s' == s
  {}

  /** Storing an interpretation frees the worker, unless the triggers refuse the row; then the attempt has failed. */
  lemma InterpretationIsExact(guarded: bool, s: System, w: WorkerId)
    requires PhaseOf(s, w).Interpreting? && PhaseOf(s, w).run in s.runs
    ensures var p, s' := PhaseOf(s, w), Step(guarded, s, Interpret(w));
            var run := s.runs[p.run];
            if guarded && run.status != Queued && run.status != Running
            then s'.runs == s.runs && PhaseOf(s', w) == Handling(p.run, p.attempt, p.maxAttempts)
            else s'.runs == s.runs[p.run := run.(interpreted := true)] && PhaseOf(s', w) == Idle
  {}

  /** A cancellation that found its run unfinished marks it cancelled, whatever happened since, unless refused. */
  lemma CancellationIsExact(guarded: bool, s: System, c: CancelId, r: RunId)
    ensures c !in s.cancels && r in s.runs ==>
              var s' := Step(guarded, s, CancelRead(c, r));
              && s'.runs == s.runs && s'.workers == s.workers
              && (c in s'.cancels <==> s.runs[r].status == Queued || s.runs[r].status == Running)
              && (c in s'.cancels ==> s'.cancels[c] == r)
    ensures c in s.cancels && s.cancels[c] == r && r in s.runs ==>
              var s' := Step(guarded, s, CancelWrite(c));
              && s'.workers == s.workers && c !in s'.cancels
              && (if guarded && s.runs[r].status != Queued && s.runs[r].status != Running then s'.runs == s.runs
                  else s'.runs == s.runs[r := s.runs[r].(status := Cancelled)])
  {}
}
