/**
 * What a Repository does to BorgBase over every run: remotes are made and deleted sparingly, a resource
 * without the right to a remote leaves it alone, and Ready means what it says.
 */
module RemoteLaws {
  import opened Outcomes
  import opened BorgBase
  import opened Claims
  import opened Repository
  import opened RepositoryRuns
  import opened RepositoryLaws

  // ----- adopting never adds

  predicate Adopting(s: State) {
    && (s.live.Some? ==> s.live.value.spec.existingID != "")
    && (!s.pass.Idle? ==> s.pass.copy.spec.existingID != "")
  }

  /** The step has BorgBase make a new repository. */
  predicate Adds(s: State, step: Step) {
    step.ResolveStep? && Next(s, step).account != s.account
  }

  lemma AdoptingStepPass(s: State, step: Step)
    requires ByOperator(step)
    requires Adopting(s)
    ensures Adopting(Next(s, step)) && !Adds(s, step)
  {
  }

  lemma AdoptingStepWorld(s: State, step: Step)
    requires !ByOperator(step)
    requires Adopting(s)
    ensures Adopting(Next(s, step)) && !Adds(s, step)
  {
  }

  lemma AdoptingStep(s: State, step: Step)
    requires Adopting(s)
    ensures Adopting(Next(s, step)) && !Adds(s, step)
  {
    if ByOperator(step) {
      AdoptingStepPass(s, step);
    } else {
      AdoptingStepWorld(s, step);
    }
  }

  predicate NeverAdds(s: State, steps: seq<Step>)
    decreases |steps|
  {
    steps == [] || (!Adds(s, steps[0]) && NeverAdds(Next(s, steps[0]), steps[1..]))
  }

  /** A resource that adopts a repository never makes one, under any edits that are admitted. */
  lemma {:induction false} AdoptingNeverAdds(s: State, steps: seq<Step>)
    requires Adopting(s)
    ensures NeverAdds(s, steps)
    decreases |steps|
  {
    if steps != [] {
      AdoptingStep(s, steps[0]);
      AdoptingNeverAdds(Next(s, steps[0]), steps[1..]);
    }
  }

  // ----- at most one remote of a name

  predicate Taken(s: State, name: string) {
    exists i :: i in s.account && s.account[i].name == name
  }

  predicate AddsNamed(s: State, step: Step, name: string) {
    Adds(s, step) && s.pass.Resolving? && s.pass.copy.spec.name == name
  }

  predicate DeletesNamed(s: State, step: Step, name: string) {
    && step.FinalizeStep? && s.pass.Finalizing?
    && var id := s.pass.copy.base.id;
       id in s.account && s.account[id].name == name && id !in Next(s, step).account
  }

  lemma AddNeedsFreeName(s: State, step: Step, name: string)
    requires AddsNamed(s, step, name)
    ensures !Taken(s, name) && Taken(Next(s, step), name)
  {
    ListedIsThere(step.resolve.listing, s.account, name);
    assert step.resolve.added.id in Next(s, step).account;
  }

  lemma NameStays(s: State, step: Step, name: string)
    requires Taken(s, name) && !DeletesNamed(s, step, name) && AccountNamed(s) && Steady(s)
    ensures Taken(Next(s, step), name)
  {
    var i :| i in s.account && s.account[i].name == name;
    RemoteStays(s, step, i);
  }

  lemma ResolveStays(s: State, calls: ResolveCalls, i: string)
    requires i in s.account && Steady(s)
    ensures var s' := Resolve(s, calls); i in s'.account && s'.account[i] == s.account[i]
  {
    if s.pass.Resolving? && Answers(s, calls) {
      ResolvedRemote(s, calls);
    }
  }

  lemma SettleStays(s: State, calls: SettleCalls, i: string)
    requires i in s.account
    ensures var s' := SettleRemote(s, calls); i in s'.account && s'.account[i].name == s.account[i].name
  {
  }

  lemma FinalizeStays(s: State, api: bool, delete: Write, i: string)
    requires i in s.account
    ensures var s' := Finalize(s, api, delete);
      && (i !in s'.account ==> s.pass.Finalizing? && s.pass.copy.base.id == i)
      && (i in s'.account ==> s'.account[i] == s.account[i])
  {
  }

  lemma WorldStays(s: State, step: Step, i: string)
    requires i in s.account && AccountNamed(s) && !ByOperator(step)
    ensures i in Next(s, step).account && Next(s, step).account[i].name == s.account[i].name
  {
  }

  /** A remote stays in the account under its name, unless a finalizer deletes it. */
  lemma RemoteStays(s: State, step: Step, i: string)
    requires i in s.account && Steady(s)
    ensures i !in Next(s, step).account ==> step.FinalizeStep? && s.pass.Finalizing? && s.pass.copy.base.id == i
    ensures i in Next(s, step).account ==> Next(s, step).account[i].name == s.account[i].name
  {
    if !TouchesAccount(step) {
      QuietAccount(s, step);
    } else if ByOperator(step) {
      PassStays(s, step, i);
    } else {
      WorldStays(s, step, i);
    }
  }

  lemma PassStays(s: State, step: Step, i: string)
    requires i in s.account && Steady(s) && (step.ResolveStep? || step.SettleStep? || step.FinalizeStep?)
    ensures i !in Next(s, step).account ==> step.FinalizeStep? && s.pass.Finalizing? && s.pass.copy.base.id == i
    ensures i in Next(s, step).account ==> Next(s, step).account[i].name == s.account[i].name
  {
    match step
    case ResolveStep(calls) => ResolveStays(s, calls, i);
    case SettleStep(calls) => SettleStays(s, calls, i);
    case FinalizeStep(api, delete) => FinalizeStays(s, api, delete, i);
  }

  function AddCount(s: State, steps: seq<Step>, name: string): nat
    decreases |steps|
  {
    if steps == [] then 0 else One(AddsNamed(s, steps[0], name)) + AddCount(Next(s, steps[0]), steps[1..], name)
  }

  function DeleteCount(s: State, steps: seq<Step>, name: string): nat
    decreases |steps|
  {
    if steps == [] then 0 else One(DeletesNamed(s, steps[0], name)) + DeleteCount(Next(s, steps[0]), steps[1..], name)
  }

  /** Over every run, at most one remote of a name is made, plus one for each that the finalizer deleted. */
  lemma {:induction false} AtMostOneOfAName(s: State, steps: seq<Step>, name: string)
    requires Steady(s)
    ensures AddCount(s, steps, name) + One(Taken(s, name)) <= One(Taken(After(s, steps), name))
      + DeleteCount(s, steps, name)
    decreases |steps|
  {
    if steps != [] {
      var step := steps[0];
      if AddsNamed(s, step, name) {
        AddNeedsFreeName(s, step, name);
      }
      if Taken(s, name) && !DeletesNamed(s, step, name) {
        NameStays(s, step, name);
      }
      SteadyStep(s, step);
      AtMostOneOfAName(Next(s, step), steps[1..], name);
    }
  }

  // ----- deletion

  /** A finalizing pass works on a resource that is being deleted, and lets go only of a remote that is gone. */
  predicate Finalizable(s: State) {
    && (s.pass.Finalizing? || s.pass.Releasing? ==> s.live.Some? && s.live.value.deleting && s.live.value.finalizer)
    && (s.pass.Releasing? && s.pass.copy.spec.policy.Delete? ==> s.pass.copy.base.id !in s.account)
  }

  lemma FinalizableStepPass(s: State, step: Step)
    requires ByOperator(step)
    requires Steady(s) && Finalizable(s)
    ensures Finalizable(Next(s, step))
  {
  }

  lemma FinalizableStepWorld(s: State, step: Step)
    requires !ByOperator(step)
    requires Steady(s) && Finalizable(s)
    ensures Finalizable(Next(s, step))
  {
  }

  lemma FinalizableStep(s: State, step: Step)
    requires Steady(s) && Finalizable(s)
    ensures Finalizable(Next(s, step))
  {
    if ByOperator(step) {
      FinalizableStepPass(s, step);
    } else {
      FinalizableStepWorld(s, step);
    }
  }

  /** A remote goes only when its resource is being deleted under the policy Delete, and is the recorded one. */
  lemma DeletesOnlyOwn(s: State, step: Step, id: string)
    requires Steady(s) && Finalizable(s) && id in s.account && id !in Next(s, step).account
    ensures step.FinalizeStep? && s.pass.Finalizing? && s.pass.copy.spec.policy.Delete?
    ensures s.live.Some? && s.live.value.deleting && s.live.value.status.id == id
  {
    RemoteStays(s, step, id);
  }

  /** The resource goes only without a finalizer, or after its remote: deleted, not there, or to be retained. */
  lemma ReleasesLast(s: State, step: Step)
    requires Steady(s) && Finalizable(s) && s.live.Some? && Next(s, step).live.None?
    ensures
      || (step.DeleteStep? && !s.live.value.finalizer)
      || (step.ReleaseStep? && s.live.value.deleting
          && (s.pass.copy.spec.policy.Retain? || s.live.value.status.id == "" || s.live.value.status.id !in s.account))
  {
  }

  lemma {:induction false} FinalizableRun(s: State, steps: seq<Step>)
    requires Steady(s) && Finalizable(s)
    ensures Steady(After(s, steps)) && Finalizable(After(s, steps))
    decreases |steps|
  {
    if steps != [] {
      SteadyStep(s, steps[0]);
      FinalizableStep(s, steps[0]);
      FinalizableRun(Next(s, steps[0]), steps[1..]);
    }
  }

  // ----- a resource that always meets an older claim

  predicate Meets(s: State, calls: SettleCalls)
    requires s.pass.Settling?
  {
    && calls.listed && IsRestic(s.pass.remote)
    && Contested(calls.claims, ClaimOf(s.me, s.pass.copy.spec, s.pass.copy.status), s.pass.remote.id)
  }

  /** Whenever a pass of the run gets that far, it ends in a conflict. */
  predicate AlwaysContested(s: State, steps: seq<Step>)
    decreases |steps|
  {
    steps == [] || (
      && (steps[0].SettleStep? && s.pass.Settling? ==> Meets(s, steps[0].settle))
      && AlwaysContested(Next(s, steps[0]), steps[1..]))
  }

  /** Nothing was recorded, and nothing got past the conflict check. */
  predicate Outside(s: State) {
    && (s.live.Some? ==> s.live.value.status.id == "")
    && (!s.pass.Idle? ==> s.pass.copy.base.id == "" && s.pass.copy.status.id == "")
    && !s.pass.Reading? && !s.pass.Writing? && !s.pass.Starting?
  }

  /** Neither Edit nor Delete, and no write of the Secret. */
  predicate HandsOff(s: State, step: Step) {
    var s' := Next(s, step);
    && (step.SettleStep? || step.FinalizeStep? ==> s'.account == s.account)
    && (ByOperator(step) ==> s'.secret == s.secret && s'.job == s.job)
  }

  lemma OutsideStepPass(s: State, step: Step)
    requires ByOperator(step)
    requires Outside(s) && (step.SettleStep? && s.pass.Settling? ==> Meets(s, step.settle))
    ensures Outside(Next(s, step)) && HandsOff(s, step)
  {
  }

  lemma OutsideStepWorld(s: State, step: Step)
    requires !ByOperator(step)
    requires Outside(s) && (step.SettleStep? && s.pass.Settling? ==> Meets(s, step.settle))
    ensures Outside(Next(s, step)) && HandsOff(s, step)
  {
  }

  lemma OutsideStep(s: State, step: Step)
    requires Outside(s) && (step.SettleStep? && s.pass.Settling? ==> Meets(s, step.settle))
    ensures Outside(Next(s, step)) && HandsOff(s, step)
  {
    if ByOperator(step) {
      OutsideStepPass(s, step);
    } else {
      OutsideStepWorld(s, step);
    }
  }

  predicate AlwaysHandsOff(s: State, steps: seq<Step>)
    decreases |steps|
  {
    steps == [] || (HandsOff(s, steps[0]) && AlwaysHandsOff(Next(s, steps[0]), steps[1..]))
  }

  /** A resource whose every pass ends in a conflict never edits or deletes a remote, even when it is deleted itself. */
  lemma {:induction false} ContestedTouchesNothing(s: State, steps: seq<Step>)
    requires Outside(s) && AlwaysContested(s, steps)
    ensures AlwaysHandsOff(s, steps)
    decreases |steps|
  {
    if steps != [] {
      OutsideStep(s, steps[0]);
      ContestedTouchesNothing(Next(s, steps[0]), steps[1..]);
    }
  }

  // ----- Ready

  /** What a pass has seen to so far, however it is interleaved. */
  predicate Seen(s: State) {
    && AccountNamed(s)
    && (s.pass.Settling? || s.pass.Reading? ==>
      s.pass.remote.id in s.account && s.account[s.pass.remote.id] == s.pass.remote)
    && (s.pass.Reading? || s.pass.Writing? || s.pass.Starting? ==>
          s.pass.copy.status.id in s.account && Matches(s.pass.copy.spec.settings, s.account[s.pass.copy.status.id]))
    && (s.pass.Reading? ==> s.pass.copy.status.id == s.pass.remote.id)
    && (s.pass.Writing? ==>
          && s.pass.url != "" && ResticURL(s.account[s.pass.copy.status.id]) == Ok(s.pass.url)
          && (s.pass.seen.Some? ==> StillThere(s.pass.seen.value, s.secret)))
    && (s.pass.Starting? ==> Usable(s))
  }

  /** The Secret that was read is there, perhaps with a new password. */
  predicate StillThere(seen: Secret, secret: Option<Secret>) {
    && secret.Some? && secret.value.url == seen.url && secret.value.managed == seen.managed
    && (seen.password != "" ==> secret.value.password != "")
  }

  predicate Usable(s: State)
    requires s.pass.Starting?
  {
    && s.secret.Some? && s.secret.value.managed && s.secret.value.password != ""
    && s.pass.copy.status.id in s.account && ResticURL(s.account[s.pass.copy.status.id]) == Ok(s.secret.value.url)
  }

  lemma ResolvedIsCurrent(s: State, calls: ResolveCalls)
    requires AccountNamed(s) && s.pass.Resolving? && Answers(s, calls)
    ensures var r := ResolveRepo(s.account, s.pass.copy.spec, s.pass.copy.status, calls);
      && (r.account == s.account || r.account == s.account[calls.added.id := calls.added])
      && (r.remote.Some? ==> r.remote.value.id in r.account && r.account[r.remote.value.id] == r.remote.value)
  {
    ListedIsThere(calls.listing, s.account, s.pass.copy.spec.name);
  }

  lemma SeenResolve(s: State, calls: ResolveCalls)
    requires Seen(s)
    ensures Seen(Resolve(s, calls))
  {
    if s.pass.Resolving? && Answers(s, calls) {
      ResolvedIsCurrent(s, calls);
    }
  }

  lemma SeenFinalize(s: State, api: bool, delete: Write)
    requires Seen(s)
    ensures Seen(Finalize(s, api, delete)) && Seen(Release(s, delete))
  {
  }

  lemma SeenWrite(s: State, write: Write)
    requires Seen(s)
    ensures Seen(WriteSecret(s, write))
  {
  }

  lemma SeenSettle(s: State, calls: SettleCalls)
    requires Seen(s)
    ensures Seen(SettleRemote(s, calls))
  {
    if s.pass.Settling? {
      SettingsConverge(s.pass.copy.spec.settings, s.pass.remote);
    }
  }

  lemma SeenRead(s: State, step: Step)
    requires Seen(s) && step.ReadStep?
    ensures Seen(Next(s, step))
  {
    if s.pass.Reading? && ResticURL(s.pass.remote).Ok? {
      UrlLeadsHome(s.pass.remote);
    }
  }

  lemma SeenPass(s: State, step: Step)
    requires Seen(s) && ByOperator(step)
    ensures Seen(Next(s, step))
  {
    match step
    case ResolveStep(calls) => SeenResolve(s, calls);
    case SettleStep(calls) => SeenSettle(s, calls);
    case ReadStep(_, _, _, _) => SeenRead(s, step);
    case WriteStep(write) => SeenWrite(s, write);
    case FinalizeStep(api, delete) => SeenFinalize(s, api, delete);
    case ReleaseStep(write) => SeenFinalize(s, true, write);
    case _ =>
  }

  /** A user who drops the Secret, or changes the remote, undoes what a pass has seen to. */
  predicate Undoes(step: Step) {
    step.DropSecretStep? || step.ChangeRemoteStep?
  }

  lemma SeenForeign(s: State, remote: Remote, keys: set<string>)
    requires Seen(s)
    ensures Seen(AddForeign(s, remote, keys))
  {
  }

  lemma SeenRotation(s: State, password: Password, write: Write)
    requires Seen(s)
    ensures Seen(RotatePatch(s, password, write))
  {
  }

  /** The steps of the world that leave what a pass looks at. */
  lemma QuietKeeps(s: State, step: Step)
    requires !ByOperator(step) && !Undoes(step) && !step.ForeignStep? && !step.RotatePatchStep?
    ensures var s' := Next(s, step);
      s'.pass == s.pass && s'.account == s.account && s'.issued == s.issued && s'.secret == s.secret
  {
  }

  lemma SeenWorld(s: State, step: Step)
    requires Seen(s) && !ByOperator(step) && !Undoes(step)
    ensures Seen(Next(s, step))
  {
    match step
    case ForeignStep(remote, keys) => SeenForeign(s, remote, keys);
    case RotatePatchStep(password, write) => SeenRotation(s, password, write);
    case _ => QuietKeeps(s, step);
  }

  lemma {:induction false} SeenRun(s: State, steps: seq<Step>)
    requires Seen(s) && forall i :: 0 <= i < |steps| ==> !Undoes(steps[i])
    ensures Seen(After(s, steps))
    decreases |steps|
  {
    if steps != [] {
      assert !Undoes(steps[0]);
      if ByOperator(steps[0]) {
        SeenPass(s, steps[0]);
      } else {
        SeenWorld(s, steps[0]);
      }
      assert forall i :: 0 <= i < |steps| - 1 ==> steps[1..][i] == steps[i + 1];
      SeenRun(Next(s, steps[0]), steps[1..]);
    }
  }

  /**
   * When a pass sets Ready, the resource is initialized, both values of the Secret are there and lead to the remote,
   * and the remote matches the spec, so that the next pass has nothing to edit. That holds over every run, with
   * crashes, pods, rotations and edits in between, as long as nobody drops the Secret or changes the remote under the
   * pass.
   */
  lemma ReadyIsSound(s: State, steps: seq<Step>, calls: InitCalls)
    requires AccountNamed(s) && s.pass.Idle? && forall i :: 0 <= i < |steps| ==> !Undoes(steps[i])
    requires After(s, steps).pass.Starting? && StartInit(After(s, steps), calls).pass.copy.status.ready
    ensures var end := StartInit(After(s, steps), calls); var status := end.pass.copy.status;
      && status.initialized && status.id in end.account
      && end.secret.Some? && end.secret.value.password != ""
      && ResticURL(end.account[status.id]) == Ok(end.secret.value.url)
      && end.secret.value.url != ""
      && IsZero(SettingsEdit(end.pass.copy.spec.settings, end.account[status.id]))
  {
    SeenRun(s, steps);
    var end := StartInit(After(s, steps), calls);
    var status := end.pass.copy.status;
    SettingsConverge(end.pass.copy.spec.settings, end.account[status.id]);
    UrlLeadsHome(end.account[status.id]);
  }

  /** Writing the same Secret again is no write. */
  lemma SecretSettles(live: Option<Secret>, clock: nat, seen: Option<Secret>, url: string, password: Password,
      want: Option<OwnerRef>, write: Write)
    requires want.Some? ==> want.value.controller
    requires seen == live
    ensures var first := CreateOrPatch(live, clock, seen, url, password, want, Applied);
      first.ok ==> CreateOrPatch(first.secret, first.clock, first.secret, url, password, want, write) == first
  {
    if seen.Some? {
      SyncSettles(seen.value.owners, want);
    } else if want.Some? {
      assert [want.value][0] == want.value;
    }
  }
}
