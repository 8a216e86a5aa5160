/**
 * Triggers over whole runs: the backups of a namespace, their passes, which may stop anywhere,
 * and Jobs that come and go in between.
 */
module TriggerRuns {
  import opened Outcomes
  import opened JobNames
  import opened History
  import opened ObservedRuns
  import opened TriggerPass

  /** A pass: not running, after listing the Jobs, after reconcileTrigger. */
  datatype Pass =
    | Idle
    | Listed(base: Backup, runs: seq<ObservedRun>)
    | Ended(base: Backup, sb: Backup)

  datatype Slot = Slot(live: Backup, pass: Pass)

  datatype Namespace = Namespace(slots: map<string, Slot>, jobs: map<string, Job>)

  datatype Step =
    | Annotate(name: string, annotation: Annotation)
    | Configure(name: string, policy: ConcurrencyPolicy, cronJobUID: string)
    | List(name: string, listing: seq<Job>)
    | Run(name: string, clock: int, write: Write)
    | Persist(name: string, write: Write)
    | Abandon(name: string)
    | AddJob(job: Job)
    | UpdateJob(job: Job)
    | RemoveJob(jobName: string)

  /** Some order of all the Jobs of the namespace. */
  predicate IsListing(listing: seq<Job>, jobs: map<string, Job>) {
    && DistinctJobs(listing)
    && (forall i :: 0 <= i < |listing| ==> listing[i].name in jobs && jobs[listing[i].name] == listing[i])
    && (forall n :: n in jobs ==> jobs[n] in listing)
  }

  /** The merge patch of the status against the copy the pass started from. */
  function Patched(live: Backup, base: Backup, sb: Backup): Backup {
    live.(
      lastTime := if sb.lastTime == base.lastTime then live.lastTime else Reloaded(sb).lastTime,
      lastJob := if sb.lastJob == base.lastJob then live.lastJob else sb.lastJob)
  }

  /** What the pass did not change stays as it is now, and what it did change comes back to the second. */
  lemma PatchedExactly(live: Backup, base: Backup, sb: Backup)
    ensures var r := Patched(live, base, sb);
      && (sb.lastTime == base.lastTime ==> r.lastTime == live.lastTime)
      && (sb.lastTime != base.lastTime && sb.lastTime.Some? ==>
            r.lastTime.Some? && r.lastTime.value == sb.lastTime.value / 1_000_000_000 * 1_000_000_000)
      && r.lastJob == (if sb.lastJob == base.lastJob then live.lastJob else sb.lastJob)
      && r == live.(lastTime := r.lastTime, lastJob := r.lastJob)
  {
  }

  function SlotAfter(slot: Slot, step: Step, jobs: map<string, Job>): Slot {
    match step
    case Annotate(_, annotation) => slot.(live := slot.live.(annotation := annotation))
    case Configure(_, policy, cronJobUID) => slot.(live := slot.live.(policy := policy, cronJobUID := cronJobUID))
    case List(_, listing) =>
      if slot.pass.Idle? && IsListing(listing, jobs)
      then slot.(pass := Listed(slot.live, Observed(listing, slot.live.uid, slot.live.cronJobUID)))
      else slot
    case Run(_, clock, write) =>
      if slot.pass.Listed?
      then slot.(pass := Ended(slot.pass.base, Triggered(jobs, slot.pass.base, slot.pass.runs, clock, write).sb))
      else slot
    case Persist(_, write) =>
      if slot.pass.Ended?
      then Slot(if write.Rejected? then slot.live else Patched(slot.live, slot.pass.base, slot.pass.sb), Idle)
      else slot
    case _ => slot.(pass := Idle)
  }

  function Next(s: Namespace, step: Step): Namespace {
    match step
    case AddJob(job) => if job.name in s.jobs then s else s.(jobs := s.jobs[job.name := job])
    case UpdateJob(job) => if job.name in s.jobs then s.(jobs := s.jobs[job.name := job]) else s
    case RemoveJob(jobName) => s.(jobs := s.jobs - {jobName})
    case _ =>
      if step.name !in s.slots then s
      else
        var slot := s.slots[step.name];
        Namespace(
          s.slots[step.name := SlotAfter(slot, step, s.jobs)],
          if step.Run? && slot.pass.Listed?
          then Triggered(s.jobs, slot.pass.base, slot.pass.runs, step.clock, step.write).jobs
          else s.jobs)
  }

  /** A pass begins with all Jobs as they are now, in some order, of which it takes the runs of its own backup. */
  lemma ListExactly(slot: Slot, name: string, listing: seq<Job>, jobs: map<string, Job>)
    ensures var slot' := SlotAfter(slot, List(name, listing), jobs);
      && (slot' != slot ==> slot.pass.Idle? && IsListing(listing, jobs))
      && (slot.pass.Idle? && IsListing(listing, jobs) ==>
            && slot'.live == slot.live && slot'.pass.Listed? && slot'.pass.base == slot.live
            && slot'.pass.runs == Observed(listing, slot.live.uid, slot.live.cronJobUID))
  {
  }

  /** Any Job may appear under a free name, change or go, and that touches nothing else. */
  lemma OthersStep(s: Namespace, job: Job)
    ensures job.name !in s.jobs ==> Next(s, AddJob(job)) == s.(jobs := s.jobs[job.name := job])
    ensures job.name in s.jobs ==>
      Next(s, AddJob(job)) == s && Next(s, UpdateJob(job)) == s.(jobs := s.jobs[job.name := job])
    ensures job.name in s.jobs ==> Next(s, RemoveJob(job.name)) == s.(jobs := s.jobs - {job.name})
  {
  }

  function After(s: Namespace, steps: seq<Step>): Namespace
    decreases |steps|
  {
    if steps == [] then s else After(Next(s, steps[0]), steps[1..])
  }

  lemma AfterThree(s: Namespace, a: Step, b: Step, c: Step)
    ensures After(s, [a, b, c]) == Next(Next(Next(s, a), b), c)
  {
    assert [a, b, c][1..] == [b, c] && [b, c][1..] == [c] && [c][1..] == [];
    assert After(s, [a, b, c]) == After(Next(s, a), [b, c]);
    assert After(Next(s, a), [b, c]) == After(Next(Next(s, a), b), [c]);
    assert After(Next(Next(s, a), b), [c]) == After(Next(Next(Next(s, a), b), c), []);
  }

  // ----- what every step keeps

  /** Later than a time, or than none. */
  predicate LaterThan(at: Instant, last: Option<Instant>) {
    last.None? || at > last.value
  }

  predicate SlotValid(name: string, slot: Slot) {
    && slot.live.name == name
    && (slot.live.lastTime.Some? ==> Whole(slot.live.lastTime.value))
    && match slot.pass
       case Idle => true
       case Listed(base, _) => base.name == name && base.uid == slot.live.uid && base.lastTime == slot.live.lastTime
       case Ended(base, sb) =>
         && base.lastTime == slot.live.lastTime
         && (sb.lastTime == base.lastTime || (sb.lastTime.Some? && LaterThan(sb.lastTime.value, base.lastTime)))
  }

  predicate Valid(s: Namespace) {
    forall n :: n in s.slots ==> SlotValid(n, s.slots[n])
  }

  lemma SlotStep(name: string, slot: Slot, step: Step, jobs: map<string, Job>)
    requires SlotValid(name, slot)
    ensures SlotValid(name, SlotAfter(slot, step, jobs))
    ensures SlotAfter(slot, step, jobs).live.uid == slot.live.uid
  {
  }

  lemma ValidStep(s: Namespace, step: Step)
    requires Valid(s)
    ensures Valid(Next(s, step)) && Next(s, step).slots.Keys == s.slots.Keys
    ensures forall n :: n in s.slots ==> Next(s, step).slots[n].live.uid == s.slots[n].live.uid
  {
    if !step.AddJob? && !step.UpdateJob? && !step.RemoveJob? && step.name in s.slots {
      SlotStep(step.name, s.slots[step.name], step, s.jobs);
    }
  }

  /** The acknowledged time of every backup, over any run. */
  function LastTime(s: Namespace, name: string): Option<Instant> {
    if name in s.slots then s.slots[name].live.lastTime else None
  }

  /** LastTriggerTime never goes back: when a step changes it, it gets later. */
  lemma TimeGrows(s: Namespace, step: Step, name: string)
    requires Valid(s)
    ensures var before, after := LastTime(s, name), LastTime(Next(s, step), name);
      after == before || (after.Some? && LaterThan(after.value, before))
  {
  }

  predicate AckedIn(s: Namespace, name: string, at: Instant) {
    name in s.slots && Acknowledged(s.slots[name].live, at)
  }

  lemma AckedStep(s: Namespace, step: Step, name: string, at: Instant)
    requires Valid(s) && AckedIn(s, name, at)
    ensures AckedIn(Next(s, step), name, at)
  {
    ValidStep(s, step);
    TimeGrows(s, step, name);
  }

  lemma {:induction false} AckedForever(s: Namespace, steps: seq<Step>, name: string, at: Instant)
    requires Valid(s) && AckedIn(s, name, at)
    ensures AckedIn(After(s, steps), name, at)
    decreases |steps|
  {
    if steps != [] {
      ValidStep(s, steps[0]);
      AckedStep(s, steps[0], name, at);
      AckedForever(Next(s, steps[0]), steps[1..], name, at);
    }
  }

  // ----- at most once

  /** The step creates the Job of this backup's trigger. */
  predicate Creates(s: Namespace, step: Step, name: string, at: Instant) {
    && step.Run? && step.name == name && name in s.slots && s.slots[name].pass.Listed?
    && var pass := s.slots[name].pass;
       && pass.base.annotation == At(at)
       && Triggered(s.jobs, pass.base, pass.runs, step.clock, step.write).jobs != s.jobs
  }

  /** The step removes the trigger's Job before the trigger is acknowledged. */
  predicate RemovesEarly(s: Namespace, step: Step, name: string, at: Instant) {
    && step.RemoveJob? && step.jobName == Wanted(name, at) && step.jobName in s.jobs
    && !AckedIn(s, name, at)
  }

  function Creations(s: Namespace, steps: seq<Step>, name: string, at: Instant): nat
    decreases |steps|
  {
    if steps == [] then 0
    else (if Creates(s, steps[0], name, at) then 1 else 0) + Creations(Next(s, steps[0]), steps[1..], name, at)
  }

  function EarlyRemovals(s: Namespace, steps: seq<Step>, name: string, at: Instant): nat
    decreases |steps|
  {
    if steps == [] then 0
    else (if RemovesEarly(s, steps[0], name, at) then 1 else 0) + EarlyRemovals(Next(s, steps[0]), steps[1..], name, at)
  }

  /** The trigger needs no Job: it has one, or it is acknowledged. */
  predicate Served(s: Namespace, name: string, at: Instant) {
    Wanted(name, at) in s.jobs || AckedIn(s, name, at)
  }

  lemma CreatesServes(s: Namespace, step: Step, name: string, at: Instant)
    requires Valid(s) && Creates(s, step, name, at)
    ensures !Served(s, name, at) && Served(Next(s, step), name, at)
  {
    assert SlotValid(name, s.slots[name]);
  }

  lemma JobsKept(s: Namespace, step: Step, job: string)
    requires job in s.jobs && step != RemoveJob(job)
    ensures job in Next(s, step).jobs
  {
  }

  /** A creation serves a trigger that was not served; only an early removal can undo that. */
  lemma ServedStep(s: Namespace, step: Step, name: string, at: Instant)
    requires Valid(s)
    ensures Creates(s, step, name, at) ==> !Served(s, name, at) && Served(Next(s, step), name, at)
    ensures Served(s, name, at) && !RemovesEarly(s, step, name, at) ==> Served(Next(s, step), name, at)
  {
    if Creates(s, step, name, at) {
      CreatesServes(s, step, name, at);
    }
    if AckedIn(s, name, at) {
      AckedStep(s, step, name, at);
    } else if Wanted(name, at) in s.jobs && !RemovesEarly(s, step, name, at) {
      JobsKept(s, step, Wanted(name, at));
    }
  }

  /** Over every run, a trigger gets one Job more than Jobs of it were removed before it was acknowledged, at most. */
  lemma {:induction false} AtMostOnce(s: Namespace, steps: seq<Step>, name: string, at: Instant)
    requires Valid(s)
    ensures Creations(s, steps, name, at) + One(Served(s, name, at))
      <= One(Served(After(s, steps), name, at)) + EarlyRemovals(s, steps, name, at)
    decreases |steps|
  {
    if steps != [] {
      ServedStep(s, steps[0], name, at);
      ValidStep(s, steps[0]);
      AtMostOnce(Next(s, steps[0]), steps[1..], name, at);
    }
  }

  /** An acknowledged or older time never creates a Job again, even when its Job is removed. */
  lemma {:induction false} AcknowledgedCreatesNone(s: Namespace, steps: seq<Step>, name: string, at: Instant)
    requires Valid(s) && AckedIn(s, name, at)
    ensures Creations(s, steps, name, at) == 0
    decreases |steps|
  {
    if steps != [] {
      ServedStep(s, steps[0], name, at);
      ValidStep(s, steps[0]);
      AckedStep(s, steps[0], name, at);
      AcknowledgedCreatesNone(Next(s, steps[0]), steps[1..], name, at);
    }
  }

  predicate NeverRemoved(steps: seq<Step>, job: string) {
    forall i :: 0 <= i < |steps| ==> steps[i] != RemoveJob(job)
  }

  /** While its Job stays, retries of a trigger create none, however often passes are cut short. */
  lemma {:induction false} RetriesCreateNone(s: Namespace, steps: seq<Step>, name: string, at: Instant)
    requires Valid(s) && Wanted(name, at) in s.jobs && NeverRemoved(steps, Wanted(name, at))
    ensures Creations(s, steps, name, at) == 0 && Wanted(name, at) in After(s, steps).jobs
    decreases |steps|
  {
    if steps != [] {
      ServedStep(s, steps[0], name, at);
      ValidStep(s, steps[0]);
      assert steps[0] != RemoveJob(Wanted(name, at));
      assert forall i :: 0 <= i < |steps| - 1 ==> steps[1..][i] == steps[i + 1];
      RetriesCreateNone(Next(s, steps[0]), steps[1..], name, at);
    }
  }

  // ----- Forbid

  /** Under Forbid a Job is created only if the listing had no active run, or had the trigger's own first, now gone. */
  lemma ForbidAtListing(s: Namespace, step: Step, name: string, at: Instant)
    requires Creates(s, step, name, at) && s.slots[name].pass.base.policy == Forbid && Valid(s)
    requires Named(s.slots[name].pass.runs)
    ensures var runs := s.slots[name].pass.runs;
      || (forall k :: !ActiveAt(runs, k))
      || (exists k :: FirstAt(runs, k) && runs[k].run.jobName == Wanted(name, at) && Wanted(name, at) !in s.jobs)
  {
    FirstActiveExactly(s.slots[name].pass.runs);
  }

  predicate ProperlyNamed(jobs: map<string, Job>) {
    forall n :: n in jobs ==> jobs[n].name == n && n != ""
  }

  /** A pass that goes through in one piece creates a Job under Forbid only if no run of the backup was active. */
  lemma ForbidRespected(s: Namespace, listing: seq<Job>, step: Step, name: string, at: Instant)
    requires Valid(s) && ProperlyNamed(s.jobs) && name in s.slots && s.slots[name].pass.Idle?
    requires IsListing(listing, s.jobs)
    requires s.slots[name].live.policy == Forbid
    requires Creates(Next(s, List(name, listing)), step, name, at)
    ensures var sb := s.slots[name].live;
      forall n :: n in s.jobs && RunOf(s.jobs[n], sb.uid, sb.cronJobUID) ==> !Active(s.jobs[n])
  {
    var sb := s.slots[name].live;
    var s' := Next(s, List(name, listing));
    var runs := s'.slots[name].pass.runs;
    ValidStep(s, List(name, listing));
    ObservedExactly(listing, sb.uid, sb.cronJobUID);
    ListingNames(listing, sb);
    ForbidAtListing(s', step, name, at);
    if k :| FirstAt(runs, k) && runs[k].run.jobName == Wanted(name, at) && Wanted(name, at) !in s'.jobs {
      assert runs[k] in runs;
      RunHasJob(runs[k], listing, sb);
    }
    forall n | n in s.jobs && RunOf(s.jobs[n], sb.uid, sb.cronJobUID) ensures !Active(s.jobs[n]) {
      var o := RunFromJob(s.jobs[n]);
      assert IsRunOf(o, listing, sb.uid, sb.cronJobUID);
      assert o in runs;
      var k :| 0 <= k < |runs| && runs[k] == o;
      assert !ActiveAt(runs, k);
    }
  }

  lemma RunHasJob(o: ObservedRun, listing: seq<Job>, sb: Backup)
    requires IsRunOf(o, listing, sb.uid, sb.cronJobUID)
    ensures exists i :: 0 <= i < |listing| && listing[i].name == o.run.jobName
  {
    var job :| job in listing && RunOf(job, sb.uid, sb.cronJobUID) && RunFromJob(job) == o;
    var i :| 0 <= i < |listing| && listing[i] == job;
  }

  lemma ListingNames(listing: seq<Job>, sb: Backup)
    requires DistinctJobs(listing) && forall i :: 0 <= i < |listing| ==> listing[i].name != ""
    ensures Named(Observed(listing, sb.uid, sb.cronJobUID))
  {
    var runs := Observed(listing, sb.uid, sb.cronJobUID);
    ObservedExactly(listing, sb.uid, sb.cronJobUID);
    forall i | 0 <= i < |runs| ensures runs[i].run.jobName != "" {
      assert runs[i] in runs;
      RunHasJob(runs[i], listing, sb);
    }
  }

  // ----- whose Job is recorded

  ghost predicate ManualName(job: string) {
    exists name: string, at: Instant :: job == Wanted(name, at)
  }

  /** The Job carries the name of a trigger of this backup, and the backup controls it. */
  predicate MadeFor(s: Namespace, job: string, name: string, at: Instant) {
    && job in s.jobs && name in s.slots
    && job == Wanted(name, at) && s.jobs[job].owner == Some(s.slots[name].live.uid)
  }

  ghost predicate Traceable(s: Namespace) {
    forall job :: job in s.jobs && ManualName(job) ==> exists name: string, at: Instant :: MadeFor(s, job, name, at)
  }

  /** Others leave the names of manual Jobs alone, and the owners of all Jobs. */
  ghost predicate Orderly(s: Namespace, step: Step) {
    && (step.AddJob? ==> !ManualName(step.job.name))
    && (step.UpdateJob? && step.job.name in s.jobs ==> step.job.owner == s.jobs[step.job.name].owner)
  }

  lemma MadeForStep(s: Namespace, step: Step, job: string, name: string, at: Instant)
    requires Valid(s) && Orderly(s, step) && MadeFor(s, job, name, at) && job in Next(s, step).jobs
    ensures MadeFor(Next(s, step), job, name, at)
  {
    ValidStep(s, step);
  }

  lemma TraceableStep(s: Namespace, step: Step)
    requires Valid(s) && Traceable(s) && Orderly(s, step)
    ensures Traceable(Next(s, step))
  {
    var s' := Next(s, step);
    ValidStep(s, step);
    forall job | job in s'.jobs && ManualName(job)
      ensures exists name: string, at: Instant :: MadeFor(s', job, name, at)
    {
      if job in s.jobs {
        var name: string, at: Instant :| MadeFor(s, job, name, at);
        MadeForStep(s, step, job, name, at);
      } else if step.Run? {
        assert MadeFor(s', job, step.name, s.slots[step.name].pass.base.annotation.time);
      }
    }
  }

  lemma {:induction false} TraceableRun(s: Namespace, steps: seq<Step>)
    requires Valid(s) && Traceable(s)
    requires forall i :: 0 <= i < |steps| ==> Orderly(After(s, steps[..i]), steps[i])
    ensures Traceable(After(s, steps))
    decreases |steps|
  {
    if steps != [] {
      assert steps[..0] == [];
      assert Orderly(After(s, steps[..0]), steps[0]);
      ValidStep(s, steps[0]);
      TraceableStep(s, steps[0]);
      forall i | 0 <= i < |steps| - 1 ensures Orderly(After(Next(s, steps[0]), steps[1..][..i]), steps[1..][i]) {
        assert steps[..i + 1][1..] == steps[1..][..i];
        assert Orderly(After(s, steps[..i + 1]), steps[i + 1]);
      }
      TraceableRun(Next(s, steps[0]), steps[1..]);
    }
  }

  /** The names of no two backups are cut to the same stem in that second. */
  predicate NoClash(s: Namespace, name: string, at: Instant) {
    forall n :: n in s.slots && n != name ==> Stem(n, Seconds(at)) != Stem(name, Seconds(at))
  }

  /** A trigger recorded with a Job has one that its backup controls, unless another backup's name clashes. */
  lemma RecordedJobIsOwn(s: Namespace, name: string, clock: int)
    requires Valid(s) && Traceable(s) && name in s.slots && s.slots[name].pass.Listed?
    requires var pass := s.slots[name].pass;
      Pending(pass.base) && !Blocked(pass.base, pass.runs) && NoClash(s, name, pass.base.annotation.time)
    ensures var job := Wanted(name, s.slots[name].pass.base.annotation.time);
      var s' := Next(s, Run(name, clock, Applied));
      && s'.slots[name].pass.sb.lastJob == job
      && MadeFor(s', job, name, s.slots[name].pass.base.annotation.time)
  {
    var at := s.slots[name].pass.base.annotation.time;
    var job := Wanted(name, at);
    if job in s.jobs {
      assert ManualName(job);
      var n: string, t: Instant :| MadeFor(s, job, n, t);
      SameJobNameExactly(name, Seconds(at), n, Seconds(t));
      assert n == name;
    }
  }

  // ----- a pass in one piece

  /** What the patch of an undisturbed pass makes of the resource. */
  lemma PatchedSame(base: Backup, sb: Backup)
    requires base.lastTime.Some? ==> Whole(base.lastTime.value)
    requires sb == base.(lastTime := sb.lastTime, lastJob := sb.lastJob)
    ensures Patched(base, base, sb) == Reloaded(sb)
  {
  }

  lemma UndisturbedPass(s: Namespace, name: string, listing: seq<Job>, clock: int, write: Write)
    requires name in s.slots && s.slots[name].pass.Idle? && IsListing(listing, s.jobs)
    ensures var sb := s.slots[name].live;
      var outcome := Triggered(s.jobs, sb, Observed(listing, sb.uid, sb.cronJobUID), clock, write);
      Next(Next(s, List(name, listing)), Run(name, clock, write))
        == Namespace(s.slots[name := Slot(sb, Ended(sb, outcome.sb))], outcome.jobs)
  {
    var slots := s.slots;
    var sb := slots[name].live;
    var pass := Listed(sb, Observed(listing, sb.uid, sb.cronJobUID));
    var s1 := Next(s, List(name, listing));
    assert s1 == Namespace(slots[name := Slot(sb, pass)], s.jobs);
  }

  /** Listing, reconcileTrigger and a status write that goes through, with nothing in between. */
  lemma PassInOnePiece(s: Namespace, name: string, listing: seq<Job>, clock: int, write: Write)
    requires name in s.slots && s.slots[name].pass.Idle? && IsListing(listing, s.jobs) && Valid(s)
    ensures var sb := s.slots[name].live;
      var outcome := Triggered(s.jobs, sb, Observed(listing, sb.uid, sb.cronJobUID), clock, write);
      After(s, [List(name, listing), Run(name, clock, write), Persist(name, Applied)])
        == Namespace(s.slots[name := Slot(Reloaded(outcome.sb), Idle)], outcome.jobs)
  {
    AfterThree(s, List(name, listing), Run(name, clock, write), Persist(name, Applied));
    UndisturbedPass(s, name, listing, clock, write);
    var sb := s.slots[name].live;
    var outcome := Triggered(s.jobs, sb, Observed(listing, sb.uid, sb.cronJobUID), clock, write);
    assert SlotValid(name, s.slots[name]);
    PatchedSame(sb, outcome.sb);
    PersistEnds(Namespace(s.slots[name := Slot(sb, Ended(sb, outcome.sb))], outcome.jobs), name);
    assert s.slots[name := Slot(sb, Ended(sb, outcome.sb))][name := Slot(Reloaded(outcome.sb), Idle)]
      == s.slots[name := Slot(Reloaded(outcome.sb), Idle)];
  }

  lemma PersistEnds(s: Namespace, name: string)
    requires name in s.slots && s.slots[name].pass.Ended?
    ensures var slot := s.slots[name];
      Next(s, Persist(name, Applied))
        == s.(slots := s.slots[name := Slot(Patched(slot.live, slot.pass.base, slot.pass.sb), Idle)])
  {
  }
}
