/**
 * A trigger annotation becomes a Job: reconcileTrigger of internal/controller/trigger.go.
 * Times are in nanoseconds; the status keeps whole seconds only.
 */
module TriggerPass {
  import opened Outcomes
  import opened JobNames
  import opened History
  import opened ObservedRuns

  const NANOSECONDS: int := 1_000_000_000

  /** Time.Unix. */
  function Seconds(at: int): int {
    at / NANOSECONDS
  }

  type Instant = at: int | Int64(Seconds(at))

  /** A time as it comes back from the status, where it is written to the second. */
  function Stored(at: Instant): (r: Instant)
    ensures Seconds(r) == Seconds(at) && r <= at && Whole(r)
  {
    Seconds(at) * NANOSECONDS
  }

  predicate Whole(at: int) {
    at % NANOSECONDS == 0
  }

  /** The trigger-at annotation, as time.Parse reads it. */
  datatype Annotation = Unset | Unreadable | At(time: Instant)

  datatype ConcurrencyPolicy = Unspecified | Allow | Forbid | Replace

  /** concurrencyPolicy of internal/backup/cronjob.go, which CronJobs are built with. */
  function CronJobPolicy(policy: ConcurrencyPolicy): ConcurrencyPolicy {
    if policy.Unspecified? then Forbid else policy
  }

  /** The fields of a ScheduledBackup that a trigger reads and writes. */
  datatype Backup = Backup(
    name: string,
    uid: string,
    cronJobUID: string,
    policy: ConcurrencyPolicy,
    annotation: Annotation,
    lastTime: Option<Instant>,
    lastJob: string)

  /** Asked for, and later than everything already acknowledged. */
  predicate Pending(sb: Backup) {
    sb.annotation.At? && !Acknowledged(sb, sb.annotation.time)
  }

  predicate Acknowledged(sb: Backup, at: Instant) {
    sb.lastTime.Some? && at <= sb.lastTime.value
  }

  function Wanted(name: string, at: Instant): string {
    ManualJobName(name, Seconds(at))
  }

  predicate Blocked(sb: Backup, runs: seq<ObservedRun>)
    requires sb.annotation.At?
  {
    sb.policy == Forbid && FirstActive(runs) != "" && FirstActive(runs) != Wanted(sb.name, sb.annotation.time)
  }

  function ManualJob(sb: Backup, clock: int): Job
    requires sb.annotation.At?
  {
    Job(Wanted(sb.name, sb.annotation.time), Some(sb.uid), true, 0, 0, None, clock, None)
  }

  /** What a call of reconcileTrigger leaves behind. */
  datatype Outcome = Outcome(jobs: map<string, Job>, sb: Backup, failed: bool)

  function Triggered(jobs: map<string, Job>, sb: Backup, runs: seq<ObservedRun>, clock: int, write: Write): Outcome {
    if !Pending(sb) then Outcome(jobs, sb, false)
    else if Blocked(sb, runs) then Outcome(jobs, sb.(lastTime := Some(sb.annotation.time), lastJob := ""), false)
    else
      var job := ManualJob(sb, clock);
      var after := if job.name in jobs || write.Rejected? then jobs else jobs[job.name := job];
      if write.Applied? then Outcome(after, sb.(lastTime := Some(sb.annotation.time), lastJob := job.name), false)
      else Outcome(after, sb, true)
  }

  datatype CreateResult = Created | AlreadyExists | CreateFailed

  class ScheduledBackup {
    const name: string
    const uid: string
    var cronJobUID: string
    var policy: ConcurrencyPolicy
    var annotation: Annotation
    var lastTriggerTime: Option<Instant>
    var lastTriggerJob: string

    constructor (name: string, uid: string, policy: ConcurrencyPolicy)
      ensures View() == Backup(name, uid, "", policy, Unset, None, "")
    {
      this.name, this.uid, this.policy := name, uid, policy;
      cronJobUID, annotation, lastTriggerTime, lastTriggerJob := "", Unset, None, "";
    }

    function View(): Backup
      reads this
    {
      Backup(name, uid, cronJobUID, policy, annotation, lastTriggerTime, lastTriggerJob)
    }
  }

  /** The Jobs of a namespace behind the API server. */
  class JobStore {
    var jobs: map<string, Job>

    constructor ()
      ensures jobs == map[]
    {
      jobs := map[];
    }

    method Create(job: Job, write: Write) returns (r: CreateResult)
      modifies this
      ensures jobs == if job.name in old(jobs) || write.Rejected? then old(jobs) else old(jobs)[job.name := job]
      ensures r == if !write.Applied? then CreateFailed else if job.name in old(jobs) then AlreadyExists else Created
    {
      r := if !write.Applied? then CreateFailed else if job.name in jobs then AlreadyExists else Created;
      if job.name !in jobs && !write.Rejected? {
        jobs := jobs[job.name := job];
      }
    }

    method ReconcileTrigger(sb: ScheduledBackup, runs: seq<ObservedRun>, clock: int, write: Write)
        returns (failed: bool)
      modifies this, sb
      ensures Outcome(jobs, sb.View(), failed) == Triggered(old(jobs), old(sb.View()), runs, clock, write)
    {
      if !sb.annotation.At? {
        return false;
      }
      var at := sb.annotation.time;
      if sb.lastTriggerTime.Some? && !(at > sb.lastTriggerTime.value) {
        return false;
      }
      var wanted := ManualJobName(sb.name, Seconds(at));
      if sb.policy == Forbid {
        var active := ActiveRun(runs);
        if active != "" && active != wanted {
          sb.lastTriggerTime := Some(at);
          sb.lastTriggerJob := "";
          return false;
        }
      }
      var job := Job(wanted, Some(sb.uid), true, 0, 0, None, clock, None);
      var r := Create(job, write);
      if r == CreateFailed {
        return true;
      }
      sb.lastTriggerTime := Some(at);
      sb.lastTriggerJob := job.name;
      return false;
    }
  }

  // ----- what a trigger does

  /** An annotation counts once: an unreadable one, or one not later than what was acknowledged, changes nothing. */
  lemma IgnoredExactly(jobs: map<string, Job>, sb: Backup, runs: seq<ObservedRun>, clock: int, write: Write)
    ensures Pending(sb) <==>
      sb.annotation.At? && (sb.lastTime.Some? ==> sb.lastTime.value < sb.annotation.time)
    ensures !Pending(sb) ==> Triggered(jobs, sb, runs, clock, write) == Outcome(jobs, sb, false)
  {
  }

  /** A trigger that is skipped is recorded without a Job, and nothing else happens. */
  lemma SkippedExactly(jobs: map<string, Job>, sb: Backup, runs: seq<ObservedRun>, clock: int, write: Write)
    requires Pending(sb)
    ensures Blocked(sb, runs) ==>
      Triggered(jobs, sb, runs, clock, write)
        == Outcome(jobs, sb.(lastTime := Some(sb.annotation.time), lastJob := ""), false)
  {
  }

  /** The Job of this trigger, which a caller finds among the runs of the backup as one that is at work. */
  predicate ManualJobOf(job: Job, sb: Backup)
    requires sb.annotation.At?
  {
    && job.name == ManualJobName(sb.name, sb.annotation.time / 1_000_000_000)
    && job.owner == Some(sb.uid) && job.manual
    && Tells(ObservedRun(BackupRun(job.name, Manual, Running, Some(job.creation), None), true), job)
  }

  /**
   * Any other one makes its Job unless there is one of that name, leaves all others, and is recorded with the Job if
   * and only if the call said no error.
   */
  lemma StartedExactly(jobs: map<string, Job>, sb: Backup, runs: seq<ObservedRun>, clock: int, write: Write)
    requires Pending(sb) && !Blocked(sb, runs)
    ensures var r := Triggered(jobs, sb, runs, clock, write);
      var name := ManualJobName(sb.name, sb.annotation.time / 1_000_000_000);
      && r.jobs.Keys == jobs.Keys + (if write.Rejected? then {} else {name})
      && (forall other :: other in jobs ==> r.jobs[other] == jobs[other])
      && (name in r.jobs && name !in jobs ==> ManualJobOf(r.jobs[name], sb) && r.jobs[name].creation == clock)
      && (r.failed <==> !write.Applied?)
      && r.sb == if r.failed then sb else sb.(lastTime := Some(sb.annotation.time), lastJob := name)
  {
  }

  // ----- when a trigger is skipped

  predicate ActiveAt(runs: seq<ObservedRun>, k: int) {
    0 <= k < |runs| && runs[k].active
  }

  /** Every run has a name of its own. */
  predicate Named(runs: seq<ObservedRun>) {
    DistinctNames(Runs(runs)) && forall i :: 0 <= i < |runs| ==> runs[i].run.jobName != ""
  }

  /** Nothing blocks under another policy; under Forbid the newest active run does, unless it is the trigger's own. */
  lemma BlockedExactly(sb: Backup, runs: seq<ObservedRun>)
    requires sb.annotation.At? && Named(runs)
    ensures Blocked(sb, runs)
      <==>
        && sb.policy == Forbid
        && exists k :: FirstAt(runs, k) && runs[k].run.jobName != Wanted(sb.name, sb.annotation.time)
  {
    FirstActiveExactly(runs);
  }

  /** A CronJob runs backups beside each other only if the spec says so. */
  lemma CronJobPolicyExactly(policy: ConcurrencyPolicy)
    ensures CronJobPolicy(policy) == Forbid <==> policy == Forbid || policy == Unspecified
    ensures policy != Unspecified ==> CronJobPolicy(policy) == policy
  {
  }

  /**
   * Where the CronJob would not start a second run, a trigger starts one beside the active run exactly when the
   * policy was left out.
   */
  lemma PoliciesAgreeExactly(jobs: map<string, Job>, sb: Backup, runs: seq<ObservedRun>, clock: int, k: nat)
    requires Pending(sb) && Named(runs) && CronJobPolicy(sb.policy) == Forbid
    requires FirstAt(runs, k) && runs[k].run.jobName != Wanted(sb.name, sb.annotation.time)
    ensures var after := Triggered(jobs, sb, runs, clock, Applied); var wanted := Wanted(sb.name, sb.annotation.time);
      && (after.sb.lastJob == wanted <==> sb.policy == Unspecified)
      && (wanted !in jobs ==> (wanted in after.jobs <==> sb.policy == Unspecified))
  {
    BlockedExactly(sb, runs);
    assert |Suffix(Seconds(sb.annotation.time))| > 0;
  }

  /** A trigger whose own Job is active is skipped exactly when another active run stands before that Job. */
  lemma OwnRunSkippedExactly(sb: Backup, runs: seq<ObservedRun>, own: nat)
    requires sb.annotation.At? && Named(runs) && sb.policy == Forbid
    requires ActiveAt(runs, own) && runs[own].run.jobName == Wanted(sb.name, sb.annotation.time)
    ensures Blocked(sb, runs) <==> exists k :: ActiveAt(runs, k) && k < own
  {
    FirstActiveExactly(runs);
    var k :| FirstAt(runs, k);
    assert ActiveAt(runs, k) && k <= own;
    if k < own {
      assert Runs(runs)[k].jobName != Runs(runs)[own].jobName;
    }
  }

  /** The trigger's own Job, as the only active one, never gets the trigger recorded as skipped. */
  lemma OwnRunNeverBlocks(jobs: map<string, Job>, sb: Backup, runs: seq<ObservedRun>, clock: int, own: nat)
    requires Pending(sb) && Named(runs) && ActiveAt(runs, own)
    requires runs[own].run.jobName == Wanted(sb.name, sb.annotation.time)
    requires forall k :: ActiveAt(runs, k) ==> k == own
    ensures Triggered(jobs, sb, runs, clock, Applied).sb
      == sb.(lastTime := Some(sb.annotation.time), lastJob := Wanted(sb.name, sb.annotation.time))
  {
    if sb.policy == Forbid {
      OwnRunSkippedExactly(sb, runs, own);
    }
  }

  // ----- acknowledgement

  /** The Backup as the next pass reads it, once the status has been written. */
  function Reloaded(sb: Backup): Backup {
    sb.(lastTime := if sb.lastTime.Some? then Some(Stored(sb.lastTime.value)) else None)
  }

  /** A trigger that was acknowledged comes up again exactly when its time has a fraction. */
  lemma AcknowledgedAgainExactly(jobs: map<string, Job>, sb: Backup, runs: seq<ObservedRun>, clock: int)
    requires Pending(sb)
    ensures var next := Reloaded(Triggered(jobs, sb, runs, clock, Applied).sb);
      Pending(next) <==> !Whole(sb.annotation.time)
  {
  }
}
