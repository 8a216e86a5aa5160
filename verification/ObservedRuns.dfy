/** Which Jobs count as runs of a backup, internal/controller/trigger.go. */
module ObservedRuns {
  import opened Outcomes
  import opened History
  import opened HistoryLog
  import opened HistoryIdempotence

  /** The parts of a Kubernetes Job the operator reads; owner is the UID of the controlling owner. */
  datatype Job = Job(
    name: string,
    owner: Option<string>,
    manual: bool,
    succeeded: nat,
    failed: nat,
    start: Option<int>,
    creation: int,
    completion: Option<int>)

  function RunFromJob(job: Job): ObservedRun {
    var start := if job.start.Some? then job.start else Some(job.creation);
    var run := BackupRun(job.name, if job.manual then Manual else Scheduled, Running, start, job.completion);
    if job.succeeded > 0 then ObservedRun(run.(result := Succeeded), false)
    else if job.failed > 0 then ObservedRun(run.(result := Failed), false)
    else ObservedRun(run, true)
  }

  /** Neither succeeded nor failed yet. */
  predicate Active(job: Job) {
    job.succeeded == 0 && job.failed == 0
  }

  /** Controlled by the ScheduledBackup itself or by its CronJob; "" is no CronJob. */
  predicate RunOf(job: Job, uid: string, cronJobUID: string) {
    && job.owner.Some?
    && (job.owner.value == uid || (cronJobUID != "" && job.owner.value == cronJobUID))
  }

  function Owned(jobs: seq<Job>, uid: string, cronJobUID: string): seq<Job> {
    if jobs == [] then []
    else
      var init := Owned(jobs[..|jobs| - 1], uid, cronJobUID);
      if RunOf(jobs[|jobs| - 1], uid, cronJobUID) then init + [jobs[|jobs| - 1]] else init
  }

  function RunsOfJobs(jobs: seq<Job>): seq<ObservedRun> {
    seq(|jobs|, i requires 0 <= i < |jobs| => RunFromJob(jobs[i]))
  }

  /** A run together with its activity, which its result already says. */
  function Observe(runs: seq<BackupRun>): seq<ObservedRun> {
    seq(|runs|, i requires 0 <= i < |runs| => ObservedRun(runs[i], runs[i].result.Running?))
  }

  /** The runs of a backup among the Jobs of a namespace, newest first. */
  function Observed(jobs: seq<Job>, uid: string, cronJobUID: string): seq<ObservedRun> {
    Observe(Sort(Runs(RunsOfJobs(Owned(jobs, uid, cronJobUID)))))
  }

  method ObserveRuns(jobs: seq<Job>, uid: string, cronJobUID: string) returns (out: seq<ObservedRun>)
    ensures out == Observed(jobs, uid, cronJobUID)
    ensures forall o :: o in out ==> exists job :: job in jobs && BelongsTo(job, uid, cronJobUID) && Tells(o, job)
    ensures forall job :: job in jobs && BelongsTo(job, uid, cronJobUID) ==> exists o :: o in out && Tells(o, job)
  {
    RunsTell(jobs, uid, cronJobUID);
    out := [];
    for i := 0 to |jobs|
      invariant out == RunsOfJobs(Owned(jobs[..i], uid, cronJobUID))
    {
      assert jobs[..i + 1][..i] == jobs[..i];
      if RunOf(jobs[i], uid, cronJobUID) {
        out := out + [RunFromJob(jobs[i])];
      }
    }
    assert jobs[..|jobs|] == jobs;
    out := Observe(Sort(Runs(out)));
  }

  predicate DistinctJobs(jobs: seq<Job>) {
    forall i, j :: 0 <= i < j < |jobs| ==> jobs[i].name != jobs[j].name
  }

  lemma {:induction false} OwnedLaws(jobs: seq<Job>, uid: string, cronJobUID: string)
    ensures forall job :: job in Owned(jobs, uid, cronJobUID) <==> job in jobs && RunOf(job, uid, cronJobUID)
    ensures DistinctJobs(jobs) ==> DistinctJobs(Owned(jobs, uid, cronJobUID))
  {
    if jobs != [] {
      var init, last := jobs[..|jobs| - 1], jobs[|jobs| - 1];
      OwnedLaws(init, uid, cronJobUID);
      assert jobs == init + [last];
      assert DistinctJobs(jobs) ==> forall job :: job in init ==> job.name != last.name;
    }
  }

  lemma RunsOfJobsLaws(jobs: seq<Job>)
    ensures forall run :: run in Runs(RunsOfJobs(jobs)) <==> exists job :: job in jobs && RunFromJob(job).run == run
    ensures DistinctJobs(jobs) ==> DistinctNames(Runs(RunsOfJobs(jobs)))
  {
    var runs := Runs(RunsOfJobs(jobs));
    forall run | run in runs ensures exists job :: job in jobs && RunFromJob(job).run == run {
      var i :| 0 <= i < |runs| && runs[i] == run;
      assert RunFromJob(jobs[i]).run == run;
    }
    forall job | job in jobs ensures RunFromJob(job).run in runs {
      var i :| 0 <= i < |jobs| && jobs[i] == job;
      assert runs[i] == RunFromJob(job).run;
    }
  }

  lemma ObserveElements(runs: seq<BackupRun>)
    ensures Runs(Observe(runs)) == runs
    ensures forall o :: o in Observe(runs) <==> o.run in runs && o.active == o.run.result.Running?
  {
    forall o: ObservedRun | o.run in runs && o.active == o.run.result.Running? ensures o in Observe(runs) {
      var i :| 0 <= i < |runs| && runs[i] == o.run;
      assert Observe(runs)[i] == o;
    }
  }

  /** The run is that of one of the backup's Jobs. */
  predicate IsRunOf(o: ObservedRun, jobs: seq<Job>, uid: string, cronJobUID: string) {
    exists job :: job in jobs && RunOf(job, uid, cronJobUID) && RunFromJob(job) == o
  }

  lemma ObservedElements(jobs: seq<Job>, uid: string, cronJobUID: string, o: ObservedRun)
    ensures o in Observed(jobs, uid, cronJobUID) <==> IsRunOf(o, jobs, uid, cronJobUID)
  {
    var owned := Owned(jobs, uid, cronJobUID);
    var runs := Runs(RunsOfJobs(owned));
    OwnedLaws(jobs, uid, cronJobUID);
    RunsOfJobsLaws(owned);
    SortElements(runs);
    ObserveElements(Sort(runs));
    if o in Observed(jobs, uid, cronJobUID) {
      var job :| job in owned && RunFromJob(job).run == o.run;
      assert RunFromJob(job) == o;
    }
    if IsRunOf(o, jobs, uid, cronJobUID) {
      var job :| job in jobs && RunOf(job, uid, cronJobUID) && RunFromJob(job) == o;
      assert job in owned;
    }
  }

  lemma ObservedOrder(jobs: seq<Job>, uid: string, cronJobUID: string)
    ensures var runs := Runs(Observed(jobs, uid, cronJobUID));
      Ordered(runs) && Started(runs) && (DistinctJobs(jobs) ==> DistinctNames(runs))
  {
    var owned := Owned(jobs, uid, cronJobUID);
    var runs := Runs(RunsOfJobs(owned));
    SortLaws(runs);
    ObserveElements(Sort(runs));
    SortStarted(owned);
    if DistinctJobs(jobs) {
      OwnedLaws(jobs, uid, cronJobUID);
      RunsOfJobsLaws(owned);
      DistinctSorted(runs);
    }
  }

  lemma SortStarted(jobs: seq<Job>)
    ensures Started(Sort(Runs(RunsOfJobs(jobs))))
  {
    var runs := Runs(RunsOfJobs(jobs));
    SortElements(runs);
    assert Started(runs);
    forall i | 0 <= i < |runs| ensures Sort(runs)[i].start.Some? {
      assert Sort(runs)[i] in runs;
    }
  }

  /** Exactly the owned Jobs are observed, newest first, under distinct names, each with a start time. */
  lemma ObservedExactly(jobs: seq<Job>, uid: string, cronJobUID: string)
    ensures var out := Observed(jobs, uid, cronJobUID);
      && (forall o :: o in out <==> IsRunOf(o, jobs, uid, cronJobUID))
      && Ordered(Runs(out)) && Started(Runs(out))
      && (DistinctJobs(jobs) ==> DistinctNames(Runs(out)))
  {
    ObservedOrder(jobs, uid, cronJobUID);
    forall o ensures o in Observed(jobs, uid, cronJobUID) <==> IsRunOf(o, jobs, uid, cronJobUID) {
      ObservedElements(jobs, uid, cronJobUID, o);
    }
  }

  /** What a run says of its Job. */
  predicate Tells(o: ObservedRun, job: Job) {
    && o.run.jobName == job.name && o.run.completion == job.completion
    && o.run.start == Some(if job.start.Some? then job.start.value else job.creation)
    && (o.run.trigger == Manual <==> job.manual)
    && (o.run.result == RunResult.Succeeded <==> job.succeeded > 0)
    && (o.run.result == RunResult.Failed <==> job.succeeded == 0 && job.failed > 0)
    && (o.run.result == Running <==> job.succeeded == 0 && job.failed == 0)
    && (o.active <==> job.succeeded == 0 && job.failed == 0)
  }

  /** The Job is controlled by the backup or by its CronJob. */
  predicate BelongsTo(job: Job, uid: string, cronJobUID: string) {
    job.owner == Some(uid) || (cronJobUID != "" && job.owner == Some(cronJobUID))
  }

  /** Each run tells of a Job that belongs to the backup, and of each such Job there is a run. */
  lemma RunsTell(jobs: seq<Job>, uid: string, cronJobUID: string)
    ensures var out := Observed(jobs, uid, cronJobUID);
      && (forall o :: o in out ==> exists job :: job in jobs && BelongsTo(job, uid, cronJobUID) && Tells(o, job))
      && (forall job :: job in jobs && BelongsTo(job, uid, cronJobUID) ==> exists o :: o in out && Tells(o, job))
  {
    var out := Observed(jobs, uid, cronJobUID);
    ObservedExactly(jobs, uid, cronJobUID);
    forall o | o in out ensures exists job :: job in jobs && BelongsTo(job, uid, cronJobUID) && Tells(o, job) {
      var job :| job in jobs && RunOf(job, uid, cronJobUID) && RunFromJob(job) == o;
      assert Tells(o, job);
    }
    forall job | job in jobs && BelongsTo(job, uid, cronJobUID) ensures exists o :: o in out && Tells(o, job) {
      assert IsRunOf(RunFromJob(job), jobs, uid, cronJobUID);
      assert Tells(RunFromJob(job), job);
    }
  }

  /** Both runs have a start time, and the first one's is not earlier. */
  predicate NotOlder(a: ObservedRun, b: ObservedRun) {
    a.run.start.Some? && b.run.start.Some? && a.run.start.value >= b.run.start.value
  }

  /** Newer runs come first. */
  lemma NewestComeFirst(jobs: seq<Job>, uid: string, cronJobUID: string)
    ensures var out := Observed(jobs, uid, cronJobUID); forall i, j :: 0 <= i < j < |out| ==> NotOlder(out[i], out[j])
  {
    var out := Observed(jobs, uid, cronJobUID);
    ObservedExactly(jobs, uid, cronJobUID);
    forall i, j | 0 <= i < j < |out| ensures NotOlder(out[i], out[j]) {
      assert !Newer(Runs(out)[j], Runs(out)[i]);
      assert Runs(out)[i].start.Some? && Runs(out)[j].start.Some?;
    }
  }

  // ----- the run that blocks a trigger

  /** The first active run of a list, or "". */
  function FirstActive(runs: seq<ObservedRun>): string {
    if runs == [] then "" else if runs[0].active then runs[0].run.jobName else FirstActive(runs[1..])
  }

  method ActiveRun(runs: seq<ObservedRun>) returns (name: string)
    ensures name == FirstActive(runs)
  {
    for i := 0 to |runs|
      invariant FirstActive(runs) == FirstActive(runs[i..])
    {
      assert runs[i..][1..] == runs[i + 1..];
      if runs[i].active {
        return runs[i].run.jobName;
      }
    }
    return "";
  }

  /** Where an active run stands that has no active run in front of it. */
  predicate FirstAt(runs: seq<ObservedRun>, k: int) {
    0 <= k < |runs| && runs[k].active && forall i :: 0 <= i < k ==> !runs[i].active
  }

  lemma {:induction false} FirstActiveExactly(runs: seq<ObservedRun>)
    ensures (forall i :: 0 <= i < |runs| ==> !runs[i].active) ==> FirstActive(runs) == ""
    ensures forall k :: FirstAt(runs, k) ==> FirstActive(runs) == runs[k].run.jobName
    ensures (forall i :: 0 <= i < |runs| ==> !runs[i].active) || exists k :: FirstAt(runs, k)
  {
    if runs != [] && !runs[0].active {
      var rest := runs[1..];
      FirstActiveExactly(rest);
      assert forall i :: 0 <= i < |rest| ==> rest[i] == runs[i + 1];
      forall k | FirstAt(runs, k) ensures FirstActive(runs) == runs[k].run.jobName {
        assert k > 0 && FirstAt(rest, k - 1);
      }
      if k :| FirstAt(rest, k) {
        assert forall i :: 0 < i < |runs| ==> runs[i] == rest[i - 1];
        assert FirstAt(runs, k + 1);
      } else {
        forall i | 0 <= i < |runs| ensures !runs[i].active {
          assert i > 0 ==> runs[i] == rest[i - 1];
        }
      }
    } else if runs != [] {
      assert FirstAt(runs, 0);
    }
  }

  /** The history that a pass leaves behind is settled: observing the same Jobs again changes nothing. */
  lemma HistorySettles(existing: seq<BackupRun>, jobs: seq<Job>, uid: string, cronJobUID: string)
    requires DistinctJobs(jobs)
    ensures var runs := Observed(jobs, uid, cronJobUID);
      Merged(Merged(existing, runs), runs) == Merged(existing, runs)
  {
    ObservedExactly(jobs, uid, cronJobUID);
    MergeIsIdempotent(existing, Observed(jobs, uid, cronJobUID));
  }
}
