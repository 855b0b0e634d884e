/** The curator_job table and the statements that change it. Every statement is one
    atomic update; times are milliseconds of whatever clock the caller read. */
module JobTable {
  import opened Options

  datatype Status = Queued | Running | Complete | Failed | Cancelled

  datatype Job = Job(
    kind: string,
    status: Status,
    startedAt: int,
    queuedAt: int,
    finishedAt: Option<int>,
    automatic: bool,
    owner: Option<int>,
    heartbeatAt: Option<int>,
    cancelRequested: bool)

  type Rows = map<string, Job>

  const HEARTBEAT_STALE: int := 5 * 60_000
  const LEGACY_STALE: int := 6 * 3_600_000
  const COALESCE_WINDOW: int := 6 * 3_600_000

  predicate Active(job: Job) { job.status == Queued || job.status == Running }

  predicate Terminal(job: Job) { !Active(job) }

  function Ended(job: Job, status: Status, now: int): Job {
    job.(status := status, finishedAt := Some(now))
  }

  // ------------------------------------------------------------ which rows a statement means

  /** A running row whose process is taken for dead. */
  predicate Orphan(job: Job, now: int) {
    && job.status == Running
    && match job.heartbeatAt
       case Some(beat) => beat <= now - HEARTBEAT_STALE
       case None => job.startedAt <= now - LEGACY_STALE
  }

  predicate Claimable(job: Job, deferAutomatic: bool) {
    job.status == Queued && (deferAutomatic ==> !job.automatic)
  }

  /** An active job of the type that stands in for a new one. */
  predicate Coalesces(job: Job, kind: string, now: int) {
    Active(job) && job.kind == kind && job.startedAt > now - COALESCE_WINDOW
  }

  predicate QueuedBefore(a: Job, b: Job) {
    a.queuedAt < b.queuedAt || (a.queuedAt == b.queuedAt && a.startedAt < b.startedAt)
  }

  /** `id` is a claimable row that no claimable row was queued before. */
  ghost predicate Oldest(rows: Rows, id: string, deferAutomatic: bool) {
    && id in rows && Claimable(rows[id], deferAutomatic)
    && forall other | other in rows && Claimable(rows[other], deferAutomatic) :: !QueuedBefore(rows[other], rows[id])
  }

  // ------------------------------------------------------------ what a statement does

  function NewJob(kind: string, now: int, automatic: bool): Job {
    Job(kind, Queued, now, now, None, automatic, None, None, false)
  }

  function ClaimedJob(job: Job, pid: int, now: int): Job {
    job.(status := Running, owner := Some(pid), heartbeatAt := Some(now), cancelRequested := false)
  }

  /** The rows with one of them replaced, if it is there and in the guarding state. */
  function Guarded(rows: Rows, id: string, status: Status, changed: Job): Rows {
    if id in rows && rows[id].status == status then rows[id := changed] else rows
  }

  function Get(rows: Rows, id: string): Job {
    if id in rows then rows[id] else NewJob([], 0, false)
  }

  function Beaten(rows: Rows, id: string, now: int): Rows {
    Guarded(rows, id, Running, Get(rows, id).(heartbeatAt := Some(now)))
  }

  function Finished(rows: Rows, id: string, from: Status, status: Status, now: int): Rows {
    Guarded(rows, id, from, Ended(Get(rows, id), status, now))
  }

  function CancelAsked(rows: Rows, id: string): Rows {
    Guarded(rows, id, Running, Get(rows, id).(cancelRequested := true))
  }

  function CancelObeyed(rows: Rows, id: string, now: int): Rows {
    if Get(rows, id).cancelRequested then Finished(rows, id, Running, Cancelled, now) else rows
  }

  function Recovered(rows: Rows, now: int): Rows {
    map id | id in rows :: if Orphan(rows[id], now) then Ended(rows[id], Failed, now) else rows[id]
  }

  /** Rows of a worker that is shut down. */
  function ShutDown(rows: Rows, pid: int, now: int): Rows {
    map id | id in rows ::
      if rows[id].status == Running && (rows[id].owner == Some(pid) || rows[id].owner == None)
      then Ended(rows[id], Cancelled, now) else rows[id]
  }

  // ------------------------------------------------------------ the table

  class Table {
    var rows: Rows

    constructor ()
      ensures rows == map[]
    {
      rows := map[];
    }

    /** SELECT … ORDER BY queued_at_ms, started_at_ms LIMIT 1. */
    method SelectOldest(deferAutomatic: bool) returns (found: Option<string>)
      ensures found.Some? ==> Oldest(rows, found.value, deferAutomatic)
      ensures found.None? ==> forall id | id in rows :: !Claimable(rows[id], deferAutomatic)
    {
      found := None;
      var todo := rows.Keys;
      while todo != {}
        invariant todo <= rows.Keys
        invariant found.Some? ==> found.value in rows.Keys - todo && Claimable(rows[found.value], deferAutomatic)
        invariant found.Some? ==>
                  forall id | id in rows.Keys - todo && Claimable(rows[id], deferAutomatic) ::
                    !QueuedBefore(rows[id], rows[found.value])
        invariant found.None? ==> forall id | id in rows.Keys - todo :: !Claimable(rows[id], deferAutomatic)
      {
        var id :| id in todo;
        todo := todo - {id};
        if Claimable(rows[id], deferAutomatic) && (found.None? || QueuedBefore(rows[id], rows[found.value])) {
          found := Some(id);
        }
      }
    }

    /** claimQueuedJob: the oldest queued row becomes this process's. */
    method Claim(pid: int, now: int, deferAutomatic: bool) returns (claimed: Option<string>)
      modifies this
      ensures claimed.Some? ==> Oldest(old(rows), claimed.value, deferAutomatic)
                                && rows == old(rows)[claimed.value := ClaimedJob(old(rows)[claimed.value], pid, now)]
      ensures claimed.None? ==> rows == old(rows) && forall id | id in rows :: !Claimable(rows[id], deferAutomatic)
    {
      claimed := SelectOldest(deferAutomatic);
      if claimed.Some? && rows[claimed.value].status == Queued {
        rows := rows[claimed.value := ClaimedJob(rows[claimed.value], pid, now)];
      }
    }

    /** recoverOrphanJobs: one statement for rows with a heartbeat, one for older rows. */
    method Recover(now: int)
      modifies this
      ensures rows == Recovered(old(rows), now)
    {
      rows := map id | id in rows ::
        if rows[id].status == Running && rows[id].heartbeatAt.Some?
             && rows[id].heartbeatAt.value <= now - HEARTBEAT_STALE
        then Ended(rows[id], Failed, now) else rows[id];
      rows := map id | id in rows ::
        if rows[id].status == Running && rows[id].heartbeatAt.None? && rows[id].startedAt <= now - LEGACY_STALE
        then Ended(rows[id], Failed, now) else rows[id];
    }

    /** An active job that a new one of the type would coalesce into. */
    method FindActive(kind: string, now: int) returns (existing: Option<string>)
      ensures existing.Some? ==> existing.value in rows && Coalesces(rows[existing.value], kind, now)
                                 && forall id | id in rows && Coalesces(rows[id], kind, now) ::
                                    rows[id].startedAt <= rows[existing.value].startedAt
      ensures existing.None? ==> forall id | id in rows :: !Coalesces(rows[id], kind, now)
    {
      existing := None;
      var todo := rows.Keys;
      while todo != {}
        invariant todo <= rows.Keys
        invariant existing.Some? ==> existing.value in rows && Coalesces(rows[existing.value], kind, now)
        invariant existing.Some? ==>
                  forall id | id in rows.Keys - todo && Coalesces(rows[id], kind, now) ::
                    rows[id].startedAt <= rows[existing.value].startedAt
        invariant existing.None? ==> forall id | id in rows.Keys - todo :: !Coalesces(rows[id], kind, now)
      {
        var id :| id in todo;
        todo := todo - {id};
        if Coalesces(rows[id], kind, now) && (existing.None? || rows[id].startedAt > rows[existing.value].startedAt) {
          existing := Some(id);
        }
      }
    }

    /** enqueueAutoTask. */
    method EnqueueAuto(id: string, kind: string, now: int) returns (enqueued: bool)
      requires id !in rows
      modifies this
      ensures enqueued <==> forall other | other in old(rows) :: !Coalesces(old(rows)[other], kind, now)
      ensures rows == if enqueued then old(rows)[id := NewJob(kind, now, true)] else old(rows)
    {
      var existing := FindActive(kind, now);
      enqueued := existing.None?;
      if enqueued {
        rows := rows[id := NewJob(kind, now, true)];
      }
    }

    /** runTaskBody's transaction. An explicit request that coalesces into a queued job
        takes back its being automatic, so that browsing no longer defers it. */
    method EnqueueTask(id: string, kind: string, now: int, automatic: bool) returns (job: string)
      requires id !in rows
      modifies this
      ensures job in rows && Active(rows[job]) && rows[job].kind == kind
      ensures !automatic ==> rows[job].status == Running || Claimable(rows[job], true)
      ensures job == id <==> forall other | other in old(rows) :: !Coalesces(old(rows)[other], kind, now)
      ensures job == id ==> rows == old(rows)[id := NewJob(kind, now, automatic)]
      ensures job != id ==> job in old(rows) && Coalesces(old(rows)[job], kind, now)
                            && rows == (if automatic then old(rows)
                                        else Guarded(old(rows), job, Queued, old(rows)[job].(automatic := false)))
    {
      var existing := FindActive(kind, now);
      if existing.None? {
        rows := rows[id := NewJob(kind, now, automatic)];
        return id;
      }
      job := existing.value;
      if !automatic && rows[job].status == Queued {
        rows := rows[job := rows[job].(automatic := false)];
      }
    }

    /** One tick of heartbeatLoop: liveness, then the cancel flag. */
    method Beat(id: string, now: int) returns (stop: bool)
      modifies this
      ensures rows == CancelObeyed(Beaten(old(rows), id, now), id, now)
      ensures stop <==> id in old(rows) && old(rows)[id].status == Running && old(rows)[id].cancelRequested
    {
      if id in rows && rows[id].status == Running {
        rows := rows[id := rows[id].(heartbeatAt := Some(now))];
      }
      stop := id in rows && rows[id].status == Running && rows[id].cancelRequested;
      if stop {
        rows := rows[id := Ended(rows[id], Cancelled, now)];
      }
    }

    /** A guarded end of a job: completion, failure, or failure of a queued row. */
    method Finish(id: string, from: Status, status: Status, now: int)
      modifies this
      ensures rows == Finished(old(rows), id, from, status, now)
    {
      if id in rows && rows[id].status == from {
        rows := rows[id := Ended(rows[id], status, now)];
      }
    }

    /** opCancelJob: a queued job ends at once, a running one is asked to. */
    method Cancel(id: string, now: int) returns (accepted: bool)
      modifies this
      ensures accepted <==> id in old(rows) && Active(old(rows)[id])
      ensures rows == CancelAsked(Finished(old(rows), id, Queued, Cancelled, now), id)
    {
      accepted := id in rows && rows[id].status == Queued;
      if accepted {
        rows := rows[id := Ended(rows[id], Cancelled, now)];
        return;
      }
      accepted := id in rows && rows[id].status == Running;
      if accepted {
        rows := rows[id := rows[id].(cancelRequested := true)];
      }
    }

    /** markRunningCancelled. */
    method MarkRunningCancelled(pid: int, now: int)
      modifies this
      ensures rows == ShutDown(old(rows), pid, now)
    {
      rows := map id | id in rows ::
        if rows[id].status == Running && (rows[id].owner == Some(pid) || rows[id].owner.None?)
        then Ended(rows[id], Cancelled, now) else rows[id];
    }
  }
}
