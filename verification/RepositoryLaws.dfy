/**
 * What holds over every run of a Repository, without any demand on users: the operator writes a password
 * and an ID once, and makes up no password for a resource that was provisioned before.
 */
module RepositoryLaws {
  import opened Outcomes
  import opened Repository
  import opened RepositoryRuns

  // ----- the password is write-once for the operator

  /** What a pass found in the Secret is what it means to keep. */
  predicate Coherent(s: State) {
    && VersionsOk(s)
    && (s.pass.Writing? && s.pass.seen.Some? && s.pass.seen.value.password != "" ==>
          s.pass.password == s.pass.seen.value.password)
  }

  lemma CoherentWrite(s: State, write: Write)
    requires Coherent(s)
    ensures Coherent(WriteSecret(s, write))
  {
  }

  lemma CoherentStepPass(s: State, step: Step)
    requires ByOperator(step)
    requires Coherent(s)
    ensures Coherent(Next(s, step))
  {
    if step.WriteStep? {
      CoherentWrite(s, step.write);
    }
  }

  lemma CoherentStepWorld(s: State, step: Step)
    requires !ByOperator(step)
    requires Coherent(s)
    ensures Coherent(Next(s, step))
  {
  }

  lemma CoherentStep(s: State, step: Step)
    requires Coherent(s)
    ensures Coherent(Next(s, step))
  {
    if ByOperator(step) {
      CoherentStepPass(s, step);
    } else {
      CoherentStepWorld(s, step);
    }
  }

  predicate HasPassword(s: State, password: string) {
    s.secret.Some? && s.secret.value.password == password
  }

  /** Only a user who drops the Secret and corg rotate-password take a password away. */
  predicate LeavesPassword(step: Step) {
    !step.DropSecretStep? && !step.RotatePatchStep?
  }

  lemma PasswordStep(s: State, step: Step, password: Password)
    requires Coherent(s) && HasPassword(s, password) && LeavesPassword(step)
    ensures HasPassword(Next(s, step), password)
  {
  }

  /** No sequence of passes, however they end, changes a password. */
  lemma {:induction false} PasswordIsWriteOnce(s: State, steps: seq<Step>, password: Password)
    requires Coherent(s) && HasPassword(s, password)
    requires forall i :: 0 <= i < |steps| ==> LeavesPassword(steps[i])
    ensures HasPassword(After(s, steps), password)
    decreases |steps|
  {
    if steps != [] {
      assert LeavesPassword(steps[0]);
      CoherentStep(s, steps[0]);
      PasswordStep(s, steps[0], password);
      assert forall i :: 0 <= i < |steps| - 1 ==> steps[1..][i] == steps[i + 1];
      PasswordIsWriteOnce(Next(s, steps[0]), steps[1..], password);
    }
  }

  // ----- the ID is write-once

  predicate AccountNamed(s: State) {
    s.account.Keys <= s.issued && forall i :: i in s.account ==> s.account[i].id == i && i != ""
  }

  predicate Issued(s: State, id: string) {
    id == "" || id in s.issued
  }

  predicate StatusOk(s: State, status: Status) {
    Issued(s, status.id) && (status.initialized ==> status.id != "")
  }

  /** A pass never builds a status with another ID than the recorded one. */
  predicate Steady(s: State) {
    && AccountNamed(s)
    && (s.live.Some? ==> StatusOk(s, s.live.value.status))
    && (!s.pass.Idle? ==>
          var copy := s.pass.copy;
          && StatusOk(s, copy.base) && StatusOk(s, copy.status)
          && (copy.base.id != "" ==> copy.status.id == copy.base.id)
          && (s.live.Some? ==> s.live.value.status.id == copy.base.id))
    && (s.pass.Settling? || s.pass.Reading? ==>
          var remote := s.pass.remote;
          && remote.id in s.issued && remote.id != ""
          && (s.pass.copy.base.id != "" ==> remote.id == s.pass.copy.base.id))
    && (s.pass.Reading? || s.pass.Writing? || s.pass.Starting? ==> s.pass.copy.status.id != "")
  }

  /** The remote that resolveRepo finds. */
  lemma ResolvedRemote(s: State, calls: ResolveCalls)
    requires Steady(s) && s.pass.Resolving? && Answers(s, calls)
    ensures var copy := s.pass.copy; var r := ResolveRepo(s.account, copy.spec, copy.status, calls);
      && r.status == copy.status.(adopted := r.status.adopted)
      && (r.account == s.account || r.account == s.account[calls.added.id := calls.added])
      && (r.remote.Some? ==>
            && r.remote.value.id in r.account
            && (copy.status.id != "" ==> r.remote.value.id == copy.status.id))
  {
    ListedIsThere(calls.listing, s.account, s.pass.copy.spec.name);
  }

  lemma ResolveSteady(s: State, calls: ResolveCalls)
    requires Steady(s)
    ensures Steady(Resolve(s, calls))
  {
    if s.pass.Resolving? && Answers(s, calls) {
      ResolvedRemote(s, calls);
    }
  }

  lemma SettleSteady(s: State, calls: SettleCalls)
    requires Steady(s)
    ensures Steady(SettleRemote(s, calls))
  {
  }

  lemma PersistSteady(s: State, write: Write)
    requires Steady(s)
    ensures Steady(Persist(s, write))
  {
  }

  lemma FinalSteady(s: State, api: bool, write: Write)
    requires Steady(s)
    ensures Steady(Finalize(s, api, write)) && Steady(Release(s, write))
  {
  }

  lemma BeginSteady(s: State, token: bool, finalizer: Write)
    requires Steady(s)
    ensures Steady(Begin(s, token, finalizer)) && Steady(s.(pass := Idle))
  {
  }

  lemma SecretSteady(s: State, step: Step)
    requires Steady(s) && (step.ReadStep? || step.WriteStep? || step.InitStep?)
    ensures Steady(Next(s, step))
  {
  }

  /** Steps that neither touch the resource nor the account. */
  predicate Elsewhere(step: Step) {
    step.StartPodStep? || step.RunPodStep? || step.DropPodStep? || step.ReportJobStep? || step.RotateBeginStep?
    || step.RotateAddStep? || step.RotatePatchStep? || step.DropSecretStep? || step.DropJobStep? || step.RemoveKeyStep?
  }

  lemma ElsewhereKeeps(s: State, step: Step)
    requires Elsewhere(step)
    ensures var s' := Next(s, step);
      s'.live == s.live && s'.pass == s.pass && s'.account == s.account && s'.issued == s.issued
  {
  }

  lemma UserSteady(s: State, step: Step)
    requires Steady(s) && (step.EditStep? || step.DeleteStep? || step.ClearStep?)
    ensures Steady(Next(s, step))
  {
  }

  lemma AccountSteady(s: State, step: Step)
    requires Steady(s) && (step.ChangeRemoteStep? || step.ForeignStep?)
    ensures Steady(Next(s, step))
  {
  }

  lemma SteadyPass(s: State, step: Step)
    requires Steady(s) && ByOperator(step)
    ensures Steady(Next(s, step))
  {
    match step
    case BeginStep(token, finalizer) => BeginSteady(s, token, finalizer);
    case ResolveStep(calls) => ResolveSteady(s, calls);
    case SettleStep(calls) => SettleSteady(s, calls);
    case PersistStep(write) => PersistSteady(s, write);
    case CrashStep => BeginSteady(s, true, Applied);
    case FinalizeStep(api, delete) => FinalSteady(s, api, delete);
    case ReleaseStep(write) => FinalSteady(s, true, write);
    case _ => SecretSteady(s, step);
  }

  lemma SteadyStep(s: State, step: Step)
    requires Steady(s)
    ensures Steady(Next(s, step))
  {
    if ByOperator(step) {
      SteadyPass(s, step);
    } else if Elsewhere(step) {
      ElsewhereKeeps(s, step);
    } else if step.ChangeRemoteStep? || step.ForeignStep? {
      AccountSteady(s, step);
    } else {
      UserSteady(s, step);
    }
  }

  lemma {:induction false} SteadyRun(s: State, steps: seq<Step>)
    requires Steady(s)
    ensures Steady(After(s, steps))
    decreases |steps|
  {
    if steps != [] {
      SteadyStep(s, steps[0]);
      SteadyRun(Next(s, steps[0]), steps[1..]);
    }
  }

  predicate Recorded(s: State, id: string) {
    s.live.Some? ==> s.live.value.status.id == id
  }

  lemma RecordedStep(s: State, step: Step, id: string)
    requires Steady(s) && Recorded(s, id) && id != ""
    ensures Recorded(Next(s, step), id)
  {
  }

  /** A recorded ID stays the same for as long as the resource exists. */
  lemma {:induction false} IDIsWriteOnce(s: State, steps: seq<Step>, id: string)
    requires Steady(s) && Recorded(s, id) && id != ""
    ensures Recorded(After(s, steps), id)
    decreases |steps|
  {
    if steps != [] {
      SteadyStep(s, steps[0]);
      RecordedStep(s, steps[0], id);
      IDIsWriteOnce(Next(s, steps[0]), steps[1..], id);
    }
  }

  // ----- once recorded, no password is generated

  /** The step makes up a new password. */
  predicate Generates(s: State, step: Step) {
    && step.ReadStep? && s.pass.Reading? && Next(s, step).pass.Writing?
    && (s.secret.None? || s.secret.value.password == "") && s.pass.copy.spec.seed.None?
  }

  /** Recorded for the next pass, and for the one that is going on. */
  predicate OnRecord(s: State) {
    (s.live.Some? ==> s.live.value.status.id != "") && (!s.pass.Idle? ==> s.pass.copy.base.id != "")
  }

  lemma OnRecordStepPass(s: State, step: Step)
    requires ByOperator(step)
    requires Steady(s) && OnRecord(s)
    ensures OnRecord(Next(s, step)) && !Generates(s, step)
  {
    if s.live.Some? {
      RecordedStep(s, step, s.live.value.status.id);
    }
  }

  lemma OnRecordStepWorld(s: State, step: Step)
    requires !ByOperator(step)
    requires Steady(s) && OnRecord(s)
    ensures OnRecord(Next(s, step)) && !Generates(s, step)
  {
    if s.live.Some? {
      RecordedStep(s, step, s.live.value.status.id);
    }
  }

  lemma OnRecordStep(s: State, step: Step)
    requires Steady(s) && OnRecord(s)
    ensures OnRecord(Next(s, step)) && !Generates(s, step)
  {
    if ByOperator(step) {
      OnRecordStepPass(s, step);
    } else {
      OnRecordStepWorld(s, step);
    }
  }

  /** No step of the run makes up a password. */
  predicate NeverGenerates(s: State, steps: seq<Step>)
    decreases |steps|
  {
    steps == [] || (!Generates(s, steps[0]) && NeverGenerates(Next(s, steps[0]), steps[1..]))
  }

  /** Once an ID is recorded, no later pass makes up a password, whatever became of the Secret. */
  lemma {:induction false} RecordedNeverGenerates(s: State, steps: seq<Step>)
    requires Steady(s) && OnRecord(s)
    ensures NeverGenerates(s, steps)
    decreases |steps|
  {
    if steps != [] {
      SteadyStep(s, steps[0]);
      OnRecordStep(s, steps[0]);
      RecordedNeverGenerates(Next(s, steps[0]), steps[1..]);
    }
  }

  /** Recorded, without a password and without a seed. */
  predicate Stuck(s: State) {
    OnRecord(s) && Seedless(s) && (s.secret.Some? ==> s.secret.value.password == "")
  }

  /** A seed, or the password of a rotation, comes from outside. */
  predicate BringsPassword(s: State, step: Step) {
    (step.EditStep? && step.spec.seed.Some?) || (step.RotatePatchStep? && s.secret.Some?)
  }

  predicate LeavesSecret(s: State, step: Step) {
    ByOperator(step) ==> Next(s, step).secret == s.secret
  }

  /** Nothing that a pass knows of has a password. */
  predicate Seedless(s: State) {
    && !s.pass.Writing? && (s.live.Some? ==> s.live.value.spec.seed.None?)
    && (!s.pass.Idle? ==> s.pass.copy.spec.seed.None?)
  }

  lemma SeedlessEnds(s: State, step: Step)
    requires Seedless(s)
    requires (step.BeginStep? || step.PersistStep? || step.CrashStep? || step.FinalizeStep? || step.ReleaseStep?)
    ensures var s' := Next(s, step); Seedless(s') && s'.secret == s.secret
  {
  }

  lemma SeedlessWorks(s: State, step: Step)
    requires Seedless(s) && (step.ResolveStep? || step.SettleStep? || step.WriteStep? || step.InitStep?)
    ensures var s' := Next(s, step); Seedless(s') && s'.secret == s.secret
  {
  }

  /** A pass on a recorded resource finds no password and gives up. */
  lemma StuckRead(s: State, step: Step)
    requires Stuck(s) && step.ReadStep?
    ensures var s' := Next(s, step); Seedless(s') && s'.secret == s.secret
  {
  }

  lemma StuckStepPass(s: State, step: Step)
    requires Steady(s) && Stuck(s) && ByOperator(step)
    ensures Stuck(Next(s, step)) && LeavesSecret(s, step)
  {
    OnRecordStep(s, step);
    if step.ReadStep? {
      StuckRead(s, step);
    } else if step.ResolveStep? || step.SettleStep? || step.WriteStep? || step.InitStep? {
      SeedlessWorks(s, step);
    } else {
      SeedlessEnds(s, step);
    }
  }

  lemma StuckStepWorld(s: State, step: Step)
    requires Steady(s) && Stuck(s) && !ByOperator(step) && !BringsPassword(s, step)
    ensures Stuck(Next(s, step))
  {
    OnRecordStep(s, step);
    SeedlessWorld(s, step);
  }

  lemma SeedlessWorld(s: State, step: Step)
    requires Seedless(s) && !ByOperator(step) && !BringsPassword(s, step)
    ensures var s' := Next(s, step); Seedless(s') && (s'.secret == s.secret || s'.secret.None?)
  {
  }

  lemma StuckStep(s: State, step: Step)
    requires Steady(s) && Stuck(s) && !BringsPassword(s, step)
    ensures Stuck(Next(s, step)) && LeavesSecret(s, step)
  {
    if ByOperator(step) {
      StuckStepPass(s, step);
    } else {
      StuckStepWorld(s, step);
    }
  }

  predicate NeverBringsPassword(s: State, steps: seq<Step>)
    decreases |steps|
  {
    steps == [] || (!BringsPassword(s, steps[0]) && NeverBringsPassword(Next(s, steps[0]), steps[1..]))
  }

  predicate NeverWritesSecret(s: State, steps: seq<Step>)
    decreases |steps|
  {
    steps == [] || (LeavesSecret(s, steps[0]) && NeverWritesSecret(Next(s, steps[0]), steps[1..]))
  }

  /** Without a password or a seed from outside a recorded resource stays without one: no pass writes its Secret. */
  lemma {:induction false} StuckForever(s: State, steps: seq<Step>)
    requires Steady(s) && Stuck(s) && NeverBringsPassword(s, steps)
    ensures Stuck(After(s, steps)) && NeverWritesSecret(s, steps)
    decreases |steps|
  {
    if steps != [] {
      SteadyStep(s, steps[0]);
      StuckStep(s, steps[0]);
      StuckForever(Next(s, steps[0]), steps[1..]);
    }
  }

  // ----- a Secret that is not the operator's

  /** The Secret's name is taken by a Secret without the operator's label, and no pass has got past it. */
  predicate Occupied(s: State) {
    && s.secret.Some? && !s.secret.value.managed && !s.pass.Starting?
    && (s.pass.Writing? && s.pass.seen.Some? ==> !s.pass.seen.value.managed)
  }

  lemma OccupiedPass(s: State, step: Step)
    requires Occupied(s) && ByOperator(step)
    ensures Occupied(Next(s, step)) && LeavesSecret(s, step)
  {
  }

  lemma OccupiedWorld(s: State, step: Step)
    requires Occupied(s) && !ByOperator(step) && !step.DropSecretStep?
    ensures Occupied(Next(s, step))
  {
  }

  lemma OccupiedStep(s: State, step: Step)
    requires Occupied(s) && !step.DropSecretStep?
    ensures Occupied(Next(s, step)) && LeavesSecret(s, step)
  {
    if ByOperator(step) {
      OccupiedPass(s, step);
    } else {
      OccupiedWorld(s, step);
    }
  }

  /** As long as such a Secret is there, no pass writes it or gets past it. */
  lemma {:induction false} OccupiedForever(s: State, steps: seq<Step>)
    requires Occupied(s) && forall i :: 0 <= i < |steps| ==> !steps[i].DropSecretStep?
    ensures Occupied(After(s, steps)) && NeverWritesSecret(s, steps)
    decreases |steps|
  {
    if steps != [] {
      assert !steps[0].DropSecretStep?;
      OccupiedStep(s, steps[0]);
      assert forall i :: 0 <= i < |steps| - 1 ==> steps[1..][i] == steps[i + 1];
      OccupiedForever(Next(s, steps[0]), steps[1..]);
    }
  }
}
