/** Runs of the job queue: any number of enqueuers, workers and recoverers, each step
    one statement of JobTable with a time its process read at some point before. */
module JobProtocol {
  import opened Options
  import opened JobTable

  /** `claims` remembers which worker was told to run which job. A worker acts on a job
      only after such a claim, and it may act at any later moment, stalled or not. */
  datatype State = State(rows: Rows, claims: set<(int, string)>)

  datatype Step =
    | Enqueue(id: string, kind: string, now: int, automatic: bool)
    | Coalesce(existing: string, kind: string, now: int, automatic: bool)
    | Claim(pid: int, id: string, now: int, deferAutomatic: bool)
    | Beat(pid: int, id: string, now: int)
    | ObeyCancel(pid: int, id: string, now: int)
    | Finish(pid: int, id: string, succeeded: bool, now: int)
    | FailQueued(id: string, now: int)
    | CancelQueued(id: string, now: int)
    | RequestCancel(id: string, now: int)
    | ShutDownWorker(pid: int, now: int)
    | Recover(now: int)

  ghost predicate Next(s: State, step: Step, s': State) {
    match step
    case Enqueue(id, kind, now, automatic) =>
      && id !in s.rows
      && (forall other | other in s.rows :: !Coalesces(s.rows[other], kind, now))
      && s' == s.(rows := s.rows[id := NewJob(kind, now, automatic)])
    case Coalesce(existing, kind, now, automatic) =>
      && existing in s.rows && Coalesces(s.rows[existing], kind, now)
      && s' == (if automatic then s
                else s.(rows := Guarded(s.rows, existing, Queued, s.rows[existing].(automatic := false))))
    case Claim(pid, id, now, deferAutomatic) =>
      && Oldest(s.rows, id, deferAutomatic)
      && s' == State(s.rows[id := ClaimedJob(s.rows[id], pid, now)], s.claims + {(pid, id)})
    case Beat(pid, id, now) =>
      (pid, id) in s.claims && s' == s.(rows := Beaten(s.rows, id, now))
    case ObeyCancel(pid, id, now) =>
      (pid, id) in s.claims && s' == s.(rows := CancelObeyed(s.rows, id, now))
    case Finish(pid, id, succeeded, now) =>
      (pid, id) in s.claims
        && s' == s.(rows := Finished(s.rows, id, Running, if succeeded then Complete else Failed, now))
    case FailQueued(id, now) =>
      s' == s.(rows := Finished(s.rows, id, Queued, Failed, now))
    case CancelQueued(id, now) =>
      s' == s.(rows := Finished(s.rows, id, Queued, Cancelled, now))
    case RequestCancel(id, now) =>
      s' == s.(rows := CancelAsked(s.rows, id))
    case ShutDownWorker(pid, now) =>
      s' == s.(rows := ShutDown(s.rows, pid, now))
    case Recover(now) =>
      s' == s.(rows := Recovered(s.rows, now))
  }

  ghost predicate Run(states: seq<State>, steps: seq<Step>) {
    && |states| == |steps| + 1
    && forall k | 0 <= k < |steps| :: Next(states[k], steps[k], states[k + 1])
  }

  lemma StepOf(states: seq<State>, steps: seq<Step>, k: nat)
    requires Run(states, steps)
    ensures |states| == |steps| + 1 && (k < |steps| ==> Next(states[k], steps[k], states[k + 1]))
  {
  }

  // ------------------------------------------------------------ one step, one row

  function Rank(status: Status): nat {
    match status
    case Queued => 0
    case Running => 1
    case _ => 2
  }

  /** What any step may do to a row that exists. */
  ghost predicate RowMoves(before: Job, after: Job) {
    && after.kind == before.kind && after.startedAt == before.startedAt && after.queuedAt == before.queuedAt
    && Rank(before.status) <= Rank(after.status)
    && (Terminal(before) ==> after == before)
    && (before.status == Running ==>
          && after.owner == before.owner && after.automatic == before.automatic
          && (before.cancelRequested ==> after.cancelRequested))
  }

  /** Every step keeps every row, and moves it forward only. */
  lemma StepMovesRows(s: State, step: Step, s': State)
    requires Next(s, step, s')
    ensures forall id | id in s.rows :: id in s'.rows && RowMoves(s.rows[id], s'.rows[id])
    ensures s.claims <= s'.claims
  {
  }

  lemma RowMovesCompose(a: Job, b: Job, c: Job)
    requires RowMoves(a, b) && RowMoves(b, c)
    ensures RowMoves(a, c)
  {
  }

  /** Over any stretch of any run no row is lost and every row has only moved forward:
      queued, then running, then one terminal state that nothing changes again. */
  lemma {:induction false} RowsOnlyAdvance(states: seq<State>, steps: seq<Step>, i: nat, j: nat, id: string)
    requires Run(states, steps) && i <= j < |states|
    requires id in states[i].rows
    ensures id in states[j].rows && RowMoves(states[i].rows[id], states[j].rows[id])
    decreases j - i
  {
    if i < j {
      StepMovesRows(states[i], steps[i], states[i + 1]);
      RowsOnlyAdvance(states, steps, i + 1, j, id);
      RowMovesCompose(states[i].rows[id], states[i + 1].rows[id], states[j].rows[id]);
    }
  }

  /** A job is claimed at most once in a run. */
  lemma ClaimedAtMostOnce(states: seq<State>, steps: seq<Step>, p: nat, q: nat)
    requires Run(states, steps) && p < q < |steps|
    requires steps[p].Claim? && steps[q].Claim?
    ensures steps[p].id != steps[q].id
  {
    var id := steps[p].id;
    assert Next(states[p], steps[p], states[p + 1]);
    assert Next(states[q], steps[q], states[q + 1]);
    RowsOnlyAdvance(states, steps, p + 1, q, id);
  }

  // ------------------------------------------------------------ who runs a job

  /** A claimed job is no longer queued and belongs to its claimer. */
  ghost predicate Owned(s: State) {
    forall pid, id | (pid, id) in s.claims ::
      id in s.rows && s.rows[id].status != Queued && s.rows[id].owner == Some(pid)
  }

  lemma StepKeepsOwned(s: State, step: Step, s': State)
    requires Next(s, step, s') && Owned(s)
    ensures Owned(s')
  {
    StepMovesRows(s, step, s');
    forall pid, id | (pid, id) in s'.claims
      ensures id in s'.rows && s'.rows[id].status != Queued && s'.rows[id].owner == Some(pid) {
      if (pid, id) in s.claims {
        assert RowMoves(s.rows[id], s'.rows[id]);
      }
    }
  }

  lemma {:induction false} RunKeepsOwned(states: seq<State>, steps: seq<Step>, j: nat)
    requires Run(states, steps) && j < |states| && Owned(states[0])
    ensures Owned(states[j])
  {
    if j > 0 {
      RunKeepsOwned(states, steps, j - 1);
      StepKeepsOwned(states[j - 1], steps[j - 1], states[j]);
    }
  }

  /** No two workers ever hold the same job. */
  lemma OneOwner(states: seq<State>, steps: seq<Step>, j: nat, p: int, q: int, id: string)
    requires Run(states, steps) && j < |states| && Owned(states[0])
    requires (p, id) in states[j].claims && (q, id) in states[j].claims
    ensures p == q
  {
    RunKeepsOwned(states, steps, j);
  }

  /** A row that is complete was claimed by the worker named in it, and completed by
      that worker, unless it was complete from the start. */
  lemma {:induction false} CompletedByItsOwner(states: seq<State>, steps: seq<Step>, j: nat, id: string)
    returns (k: nat)
    requires Run(states, steps) && j < |states| && Owned(states[0])
    requires id in states[j].rows && states[j].rows[id].status == Complete
    requires id in states[0].rows ==> states[0].rows[id].status != Complete
    ensures k < j && steps[k].Finish? && steps[k].id == id && steps[k].succeeded
    ensures id in states[k].rows && states[k].rows[id].status == Running
    ensures states[j].rows[id].owner == Some(steps[k].pid)
  {
    StepOf(states, steps, if j > 0 then j - 1 else 0);
    hide Run, Next, Owned;
    if j > 0 {
      var before, step, after := states[j - 1], steps[j - 1], states[j];
      if id in before.rows && before.rows[id].status == Complete {
        EndedStays(before, step, after, id);
        k := CompletedByItsOwner(states, steps, j - 1, id);
      } else {
        RunKeepsOwned(states, steps, j - 1);
        CompletingStep(before, step, after, id);
        k := j - 1;
      }
    }
  }

  lemma EndedStays(s: State, step: Step, s': State, id: string)
    requires Next(s, step, s') && id in s.rows && Terminal(s.rows[id])
    ensures id in s'.rows && s'.rows[id] == s.rows[id]
  {
    hide Next;
    StepMovesRows(s, step, s');
    assert RowMoves(s.rows[id], s'.rows[id]);
  }

  /** Only its worker's own result makes a job complete. */
  lemma CompletingStep(s: State, step: Step, s': State, id: string)
    requires Next(s, step, s') && Owned(s)
    requires id in s'.rows && s'.rows[id].status == Complete
    requires id in s.rows ==> s.rows[id].status != Complete
    ensures step.Finish? && step.id == id && step.succeeded
    ensures id in s.rows && s.rows[id].status == Running && s'.rows[id].owner == Some(step.pid)
  {
    hide Coalesces, Oldest, Orphan;
  }

  /** A worker that comes back to a job which has ended in the meantime, by recovery, a
      cancellation or a shutdown, changes nothing by its heartbeat, its look at the cancel
      flag or its result. */
  lemma LateStepIsIgnored(states: seq<State>, steps: seq<Step>, i: nat, j: nat, id: string)
    requires Run(states, steps) && i <= j < |steps|
    requires id in states[i].rows && Terminal(states[i].rows[id])
    requires (steps[j].Beat? || steps[j].ObeyCancel? || steps[j].Finish?) && steps[j].id == id
    ensures states[j + 1] == states[j]
    ensures id in states[j].rows && states[j].rows[id] == states[i].rows[id]
  {
    RowsOnlyAdvance(states, steps, i, j, id);
    assert Next(states[j], steps[j], states[j + 1]);
  }

  /** Shutting a worker down ends what it had claimed, for good, and touches no job that
      another worker claimed. */
  lemma ShutDownEndsItsJobs(states: seq<State>, steps: seq<Step>, k: nat, j: nat, q: int, id: string)
    requires Run(states, steps) && k < j < |states| && Owned(states[0])
    requires steps[k].ShutDownWorker? && (q, id) in states[k].claims
    ensures id in states[k].rows && id in states[k + 1].rows && id in states[j].rows
    ensures q == steps[k].pid ==> Terminal(states[k + 1].rows[id]) && states[j].rows[id] == states[k + 1].rows[id]
    ensures q != steps[k].pid ==> states[k + 1].rows[id] == states[k].rows[id]
  {
    RunKeepsOwned(states, steps, k);
    assert Next(states[k], steps[k], states[k + 1]);
    RowsOnlyAdvance(states, steps, k + 1, j, id);
  }

  // ------------------------------------------------------------ cancellation

  /** A cancel request for a running job stays until the job has ended. */
  lemma CancelIsNotLost(states: seq<State>, steps: seq<Step>, i: nat, j: nat, id: string)
    requires Run(states, steps) && i < |steps| && i < j < |states|
    requires steps[i].RequestCancel? && steps[i].id == id
    requires id in states[i].rows && states[i].rows[id].status == Running
    ensures id in states[j].rows
    ensures Terminal(states[j].rows[id]) || (states[j].rows[id].status == Running && states[j].rows[id].cancelRequested)
  {
    assert Next(states[i], steps[i], states[i + 1]);
    RowsOnlyAdvance(states, steps, i + 1, j, id);
  }

  /** So the first look at the flag after the request ends the job, however late. */
  lemma RequestedJobStops(states: seq<State>, steps: seq<Step>, i: nat, j: nat, id: string)
    requires Run(states, steps) && i < j < |steps|
    requires steps[i].RequestCancel? && steps[i].id == id
    requires id in states[i].rows && states[i].rows[id].status == Running
    requires steps[j].ObeyCancel? && steps[j].id == id
    ensures id in states[j + 1].rows && Terminal(states[j + 1].rows[id])
  {
    CancelIsNotLost(states, steps, i, j, id);
    assert Next(states[j], steps[j], states[j + 1]);
  }

  // ------------------------------------------------------------ coalescing

  /** Two active jobs of one type started at least six hours apart. */
  ghost predicate Spaced(rows: Rows) {
    forall a, b | a in rows && b in rows && a != b && Active(rows[a]) && Active(rows[b])
      && rows[a].kind == rows[b].kind ::
      rows[a].startedAt + COALESCE_WINDOW <= rows[b].startedAt
        || rows[b].startedAt + COALESCE_WINDOW <= rows[a].startedAt
  }

  lemma StepKeepsSpaced(s: State, step: Step, s': State)
    requires Next(s, step, s') && Spaced(s.rows)
    ensures Spaced(s'.rows)
  {
    StepMovesRows(s, step, s');
    if step.Enqueue? {
      forall a, b | a in s'.rows && b in s'.rows && a != b && Active(s'.rows[a]) && Active(s'.rows[b])
        && s'.rows[a].kind == s'.rows[b].kind
        ensures s'.rows[a].startedAt + COALESCE_WINDOW <= s'.rows[b].startedAt
                || s'.rows[b].startedAt + COALESCE_WINDOW <= s'.rows[a].startedAt {
        if a == step.id {
          assert !Coalesces(s.rows[b], step.kind, step.now);
        } else if b == step.id {
          assert !Coalesces(s.rows[a], step.kind, step.now);
        }
      }
    } else {
      NothingNew(s, step, s');
      forall id | id in s'.rows ensures RowMoves(s.rows[id], s'.rows[id]) {}
    }
  }

  lemma NothingNew(s: State, step: Step, s': State)
    requires Next(s, step, s') && !step.Enqueue?
    ensures s'.rows.Keys == s.rows.Keys
  {
  }

  /** In every reachable table, whatever the clocks of the processes did. */
  lemma {:induction false} ActiveJobsAreSpaced(states: seq<State>, steps: seq<Step>, j: nat)
    requires Run(states, steps) && j < |states| && Spaced(states[0].rows)
    ensures Spaced(states[j].rows)
  {
    if j > 0 {
      ActiveJobsAreSpaced(states, steps, j - 1);
      StepKeepsSpaced(states[j - 1], steps[j - 1], states[j]);
    }
  }

  // ------------------------------------------------------------ orphan recovery

  /** A sign of life of the job: its claim, or a heartbeat. */
  ghost predicate Lives(step: Step, id: string) {
    (step.Claim? || step.Beat?) && step.id == id
  }

  /** Whenever five minutes have gone by since a sign of life, there was another
      within them. */
  ghost predicate BeatsOften(steps: seq<Step>, id: string) {
    forall p, k | 0 <= p < k < |steps| && Lives(steps[p], id) && steps[k].now >= steps[p].now + HEARTBEAT_STALE ::
      exists q :: p < q < k && Lives(steps[q], id) && steps[q].now < steps[p].now + HEARTBEAT_STALE
  }

  /** A running job's heartbeat is the time of the last sign of life. */
  lemma {:induction false} LastSign(states: seq<State>, steps: seq<Step>, k: nat, id: string) returns (p: nat)
    requires Run(states, steps) && k < |states|
    requires id in states[k].rows && states[k].rows[id].status == Running
    requires id in states[0].rows ==> states[0].rows[id].status != Running
    ensures p < k && Lives(steps[p], id) && states[k].rows[id].heartbeatAt == Some(steps[p].now)
    ensures forall q | p < q < k :: !Lives(steps[q], id)
  {
    p := k - 1;
    StepOf(states, steps, p);
    hide Run, Next;
    if Lives(steps[p], id) {
      SignIsNoted(states[p], steps[p], states[k], id);
    } else {
      QuietStep(states[p], steps[p], states[k], id);
      p := LastSign(states, steps, k - 1, id);
    }
  }

  lemma SignIsNoted(s: State, step: Step, s': State, id: string)
    requires Next(s, step, s') && Lives(step, id)
    requires id in s'.rows && s'.rows[id].status == Running
    ensures s'.rows[id].heartbeatAt == Some(step.now)
  {
    hide Coalesces, Oldest, Recovered, ShutDown;
  }

  lemma QuietStep(s: State, step: Step, s': State, id: string)
    requires Next(s, step, s') && !Lives(step, id)
    requires id in s'.rows && s'.rows[id].status == Running
    ensures id in s.rows && s.rows[id].status == Running && s.rows[id].heartbeatAt == s'.rows[id].heartbeatAt
  {
  }

  /** A job whose signs of life are less than five minutes apart is never failed by
      orphan recovery. */
  lemma BeatingJobIsNotRecovered(states: seq<State>, steps: seq<Step>, k: nat, id: string)
    requires Run(states, steps) && k < |steps| && steps[k].Recover?
    requires BeatsOften(steps, id)
    requires id in states[k].rows
    requires id in states[0].rows ==> states[0].rows[id].status != Running
    ensures id in states[k + 1].rows && states[k + 1].rows[id] == states[k].rows[id]
  {
    assert Next(states[k], steps[k], states[k + 1]);
    if states[k].rows[id].status == Running {
      var p := LastSign(states, steps, k, id);
    }
  }

  /** Recovery fails a running job it can see to be silent for five minutes, and only
      such a one; nobody revives it afterwards. */
  lemma SilentJobIsFailed(states: seq<State>, steps: seq<Step>, k: nat, j: nat, id: string)
    requires Run(states, steps) && k < j < |states| && steps[k].Recover?
    requires id in states[k].rows && states[k].rows[id].status == Running && states[k].rows[id].heartbeatAt.Some?
    ensures id in states[k + 1].rows && id in states[j].rows
    ensures states[k + 1].rows[id].status == Failed <==>
            states[k].rows[id].heartbeatAt.value <= steps[k].now - HEARTBEAT_STALE
    ensures states[k + 1].rows[id].status == Failed ==> states[j].rows[id] == states[k + 1].rows[id]
  {
    assert Next(states[k], steps[k], states[k + 1]);
    RowsOnlyAdvance(states, steps, k + 1, j, id);
  }
}
