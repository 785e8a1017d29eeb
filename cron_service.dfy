/**
 * The scheduled-synchronisation service: a table of job records keyed by id (a Python
 * `dict`, so in insertion order) beside the scheduler's own jobs, each with its next
 * fire time. A fire migrates the first tables of the dependency-ordered source list.
 */
module CronService {
  import opened Common
  import opened Models
  import opened Migration

  /** Why an operation raised. */
  datatype CronError =
    | InvalidExpression   // `CronTrigger.from_crontab` rejected the expression
    | JobNotFound         // no stored job has the id
    | NotScheduled        // `scheduler.remove_job` found no scheduler job with the id

  /** `list_cron_jobs`'s refresh of one record from the scheduler's job of the same id. */
  function Refresh(id: string, job: CronJob, scheduled: map<string, Option<Timestamp>>): CronJob {
    if id in scheduled then
      job.(nextRun := scheduled[id], status := if scheduled[id].Some? then Active else Paused)
    else job.(status := Removed)
  }

  /**
   * A refreshed job is active when the scheduler has it with a next run, paused when it
   * has it without one and removed when it does not have it; nothing else changes but
   * the next run, which is taken from the scheduler when it has the job.
   */
  lemma RefreshStatus(id: string, job: CronJob, scheduled: map<string, Option<Timestamp>>)
    ensures var r := Refresh(id, job, scheduled);
      (r.status == Active <==> id in scheduled && scheduled[id].Some?)
      && (r.status == Paused <==> id in scheduled && scheduled[id].None?)
      && (r.status == Removed <==> id !in scheduled)
      && r.nextRun == (if id in scheduled then scheduled[id] else job.nextRun)
      && r.(status := job.status, nextRun := job.nextRun) == job
  {
  }

  /** Refreshing twice from the same scheduler state is refreshing once. */
  lemma RefreshIdempotent(id: string, job: CronJob, scheduled: map<string, Option<Timestamp>>)
    ensures Refresh(id, Refresh(id, job, scheduled), scheduled) == Refresh(id, job, scheduled)
  {
  }

  /** `s` without the element `x`, in the same order. */
  function Without(s: seq<string>, x: string): (r: seq<string>)
    ensures Elements(r) == Elements(s) - {x}
    ensures |r| <= |s|
    decreases |s|
  {
    if s == [] then []
    else
      var init := s[..|s| - 1];
      assert s == init + [s[|s| - 1]];
      assert Elements(s) == Elements(init) + {s[|s| - 1]};
      var kept := if s[|s| - 1] == x then [] else [s[|s| - 1]];
      ElementsAppend(Without(init, x), kept);
      Without(init, x) + kept
  }

  /** Removing an element keeps a sequence free of repeats. */
  lemma {:induction false} WithoutDistinct(s: seq<string>, x: string)
    requires Distinct(s)
    ensures Distinct(Without(s, x))
    decreases |s|
  {
    if s != [] {
      var init := s[..|s| - 1];
      assert forall i :: 0 <= i < |init| ==> init[i] == s[i] != s[|s| - 1];
      assert s[|s| - 1] !in Elements(init);
      WithoutDistinct(init, x);
      var w := Without(init, x);
      assert forall i :: 0 <= i < |w| ==> w[i] in Elements(w);
      assert forall i :: 0 <= i < |w| ==> w[i] != s[|s| - 1];
    }
  }

  /** `jobs` holds the stored records with those of `done` refreshed. */
  predicate RefreshedUpTo(jobs: map<string, CronJob>, stored: map<string, CronJob>, done: set<string>,
                          scheduled: map<string, Option<Timestamp>>) {
    jobs.Keys == stored.Keys
    && forall id :: id in jobs ==> jobs[id] == if id in done then Refresh(id, stored[id], scheduled) else stored[id]
  }

  /** Refreshing the next id of a sequence without repeats: its record was still the stored one. */
  lemma RefreshedNext(jobs: map<string, CronJob>, stored: map<string, CronJob>, order: seq<string>, i: nat,
                      scheduled: map<string, Option<Timestamp>>)
    requires Distinct(order) && Elements(order) == stored.Keys && i < |order|
    requires RefreshedUpTo(jobs, stored, Elements(order[..i]), scheduled)
    ensures order[i] in jobs && jobs[order[i]] == stored[order[i]]
    ensures RefreshedUpTo(jobs[order[i] := Refresh(order[i], jobs[order[i]], scheduled)], stored,
                          Elements(order[..i + 1]), scheduled)
  {
    assert order[i] in Elements(order);
    assert forall k :: 0 <= k < i ==> order[..i][k] == order[k] != order[i];
    assert order[i] !in Elements(order[..i]);
    assert Elements(order[..i + 1]) == Elements(order[..i]) + {order[i]} by {
      assert order[..i + 1] == order[..i] + [order[i]];
      ElementsAppend(order[..i], [order[i]]);
    }
  }

  /** `CronService`: the stored jobs and the scheduler's jobs. */
  class CronService {
    /** `CronTrigger.from_crontab` accepts the expression. */
    const validExpression: string -> bool
    var order: seq<string>
    var jobs: map<string, CronJob>
    /** The scheduler's jobs: id to next fire time. */
    var scheduled: map<string, Option<Timestamp>>

    /** The stored ids in insertion order, each once; every record carries its own id. */
    predicate Valid()
      reads this
    {
      Distinct(order) && Elements(order) == jobs.Keys
      && forall id :: id in jobs ==> jobs[id].id == id
    }

    constructor (validExpression: string -> bool)
      ensures Valid()
      ensures this.validExpression == validExpression
      ensures order == [] && jobs == map[] && scheduled == map[]
    {
      this.validExpression := validExpression;
      order := [];
      jobs := map[];
      scheduled := map[];
    }

    /**
     * `create_cron_job`: `id` is the fresh identifier, `createdAt` the clock, `nextRun`
     * the scheduler's first fire time. An invalid expression changes nothing.
     */
    method CreateCronJob(data: CronJobCreate, id: string, createdAt: Timestamp, nextRun: Option<Timestamp>)
      returns (r: Result<CronJob, CronError>)
      requires Valid()
      modifies this
      ensures Valid()
      ensures !validExpression(data.cronExpression) ==>
        r == Err(InvalidExpression) && order == old(order) && jobs == old(jobs) && scheduled == old(scheduled)
      ensures validExpression(data.cronExpression) ==>
        && r.Ok?
        && r.value == CronJob(id, data.name, data.cronExpression, data.description, Active, nextRun,
                              createdAt, None, data.overwrite, data.maxTables)
        && jobs == old(jobs)[id := r.value]
        && scheduled == old(scheduled)[id := nextRun]
        && order == if id in old(jobs) then old(order) else old(order) + [id]
    {
      if !validExpression(data.cronExpression) {
        return Err(InvalidExpression);
      }
      scheduled := scheduled[id := nextRun];
      var job := CronJob(id, data.name, data.cronExpression, data.description, Active, nextRun,
                         createdAt, None, data.overwrite, data.maxTables);
      if id !in jobs {
        order := order + [id];
      }
      jobs := jobs[id := job];
      return Ok(job);
    }

    /**
     * `list_cron_jobs`: one refreshed record per stored job, in insertion order; the
     * refreshed status and next run are written back into the stored records.
     */
    method ListCronJobs() returns (listed: seq<CronJob>)
      requires Valid()
      modifies this
      ensures Valid()
      ensures order == old(order) && scheduled == old(scheduled)
      ensures |listed| == |order|
      ensures forall i :: 0 <= i < |order| ==> listed[i] == Refresh(order[i], old(jobs)[order[i]], scheduled)
      ensures jobs.Keys == old(jobs).Keys
      ensures forall id :: id in jobs ==> jobs[id] == Refresh(id, old(jobs)[id], scheduled)
    {
      listed := [];
      ghost var stored := jobs;
      var i := 0;
      while i < |order|
        invariant 0 <= i <= |order| && |listed| == i
        invariant order == old(order) && scheduled == old(scheduled) && stored == old(jobs)
        invariant Distinct(order) && Elements(order) == stored.Keys
        invariant RefreshedUpTo(jobs, stored, Elements(order[..i]), scheduled)
        invariant forall k :: 0 <= k < i ==> listed[k] == Refresh(order[k], stored[order[k]], scheduled)
      {
        listed := RefreshNext(stored, i, listed);
        i := i + 1;
      }
      assert order[..i] == order;
    }

    /** One turn of the listing loop: refresh the record of `order[i]` and list it. */
    method RefreshNext(ghost stored: map<string, CronJob>, i: nat, listed: seq<CronJob>) returns (listed': seq<CronJob>)
      requires i < |order| && |listed| == i
      requires Distinct(order) && Elements(order) == stored.Keys
      requires RefreshedUpTo(jobs, stored, Elements(order[..i]), scheduled)
      requires forall k :: 0 <= k < i ==> listed[k] == Refresh(order[k], stored[order[k]], scheduled)
      modifies this
      ensures order == old(order) && scheduled == old(scheduled)
      ensures RefreshedUpTo(jobs, stored, Elements(order[..i + 1]), scheduled)
      ensures |listed'| == i + 1
      ensures forall k :: 0 <= k < i + 1 ==> listed'[k] == Refresh(order[k], stored[order[k]], scheduled)
    {
      var id := order[i];
      RefreshedNext(jobs, stored, order, i, scheduled);
      var job := Refresh(id, jobs[id], scheduled);
      jobs := jobs[id := job];
      listed' := listed + [job];
    }

    /** `delete_cron_job`: an unknown id raises with nothing changed; a known one is removed from both tables. */
    method DeleteCronJob(id: string) returns (r: Result<bool, CronError>)
      requires Valid()
      modifies this
      ensures Valid()
      ensures id !in old(jobs) ==>
        r == Err(JobNotFound) && order == old(order) && jobs == old(jobs) && scheduled == old(scheduled)
      ensures id in old(jobs) && id !in old(scheduled) ==>
        r == Err(NotScheduled) && order == old(order) && jobs == old(jobs) && scheduled == old(scheduled)
      ensures id in old(jobs) && id in old(scheduled) ==>
        r == Ok(true) && jobs == old(jobs) - {id} && scheduled == old(scheduled) - {id}
        && order == Without(old(order), id)
    {
      if id !in jobs {
        return Err(JobNotFound);
      }
      if id !in scheduled {
        return Err(NotScheduled);
      }
      scheduled := scheduled - {id};
      WithoutDistinct(order, id);
      order := Without(order, id);
      jobs := jobs - {id};
      return Ok(true);
    }

    /** `get_job_count`: the number of stored jobs. */
    method GetJobCount() returns (count: nat)
      requires Valid()
      ensures count == |jobs| && count == |order|
    {
      DistinctCount(order);
      count := |jobs|;
    }

    /**
     * `_execute_sync_job`: stamp the job's last run if it is still stored, then migrate
     * the first `maxTables` tables of the ordered source summary (None when reading it
     * raised, which ends the fire quietly), counting the migrations that succeeded.
     */
    method ExecuteSyncJob(jobId: string, overwrite: bool, maxTables: int, now: Timestamp,
                          summary: Option<DatabaseSummary>, manager: DatabaseManager)
      returns (migratedCount: nat)
      requires Valid()
      modifies this, manager
      ensures Valid()
      ensures order == old(order) && scheduled == old(scheduled)
      ensures jobs == if jobId in old(jobs) then old(jobs)[jobId := old(jobs)[jobId].(lastRun := Some(now))] else old(jobs)
      ensures summary.None? ==>
        migratedCount == 0 && manager.calls == old(manager.calls) && manager.destination == old(manager.destination)
      ensures summary.Some? ==>
        var names := Attempted(summary.value.tables, maxTables);
        && migratedCount == Successes(BatchRecords(manager.source, old(manager.destination), names, overwrite))
        && manager.calls == old(manager.calls) + BatchCalls(manager.source, old(manager.destination), names, overwrite)
        && manager.destination == BatchAfter(manager.source, old(manager.destination), names, overwrite)
    {
      if jobId in jobs {
        jobs := jobs[jobId := jobs[jobId].(lastRun := Some(now))];
      }
      if summary.None? {
        return 0;
      }
      var names := Attempted(summary.value.tables, maxTables);
      migratedCount := MigrateCountingSuccesses(manager, names, overwrite);
    }
  }

  /** A fire migrates no more tables than it attempts, and no more than `maxTables`. */
  lemma FireBound(src: Database, dst: Database, tables: seq<TableInfo>, maxTables: int, overwrite: bool)
    ensures var names := Attempted(tables, maxTables);
      Successes(BatchRecords(src, dst, names, overwrite)) <= |names| <= |tables|
      && (0 <= maxTables ==> |names| <= maxTables)
  {
    SuccessesBound(BatchRecords(src, dst, Attempted(tables, maxTables), overwrite));
  }
}
