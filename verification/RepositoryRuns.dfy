/**
 * One Repository and the world around it as a state machine: the phases of a reconcile pass, which may
 * stop after any of them, the init Job and its pods, corg reinit and corg rotate-password, and users.
 */
module RepositoryRuns {
  import opened Outcomes
  import opened BorgBase
  import opened Repository

  datatype Resource = Resource(spec: Spec, status: Status, finalizer: bool, deleting: bool)

  /** The copy a pass works on: the spec and status it read, and the status it builds. */
  datatype Copy = Copy(spec: Spec, base: Status, status: Status)

  /** Where a pass stands: about to do the thing it is named after. */
  datatype Pass =
    | Idle
    | Resolving(copy: Copy)
    | Settling(copy: Copy, remote: Remote)
    | Reading(copy: Copy, remote: Remote)
    | Writing(copy: Copy, url: string, seen: Option<Secret>, password: Password)
    | Starting(copy: Copy)
    | Ending(copy: Copy)
    | Finalizing(copy: Copy)
    | Releasing(copy: Copy)

  /** A pod of an init Job, with the credentials it was started with. */
  datatype Pod = Pod(job: nat, url: string, password: string)

  /**
   * issued are the IDs that BorgBase ever gave out, keys the restic keys of each remote. Init Jobs with a pod that
   * ended well are in finished. A new password is in rotating until it is a key, then in added until the Secret is
   * patched. written is the first password the operator put into the Secret.
   */
  datatype State = State(
    me: Identity,
    live: Option<Resource>,
    pass: Pass,
    secret: Option<Secret>,
    job: Option<InitJob>,
    clock: nat,
    account: map<string, Remote>,
    issued: set<string>,
    keys: map<string, set<string>>,
    pods: set<Pod>,
    finished: set<nat>,
    rotating: set<Password>,
    added: set<Password>,
    written: Option<Password>)

  function KeysOf(s: State, id: string): set<string> {
    if id in s.keys then s.keys[id] else {}
  }

  // ----- the phases of a pass

  /** known in reconcile: this resource has been provisioned before. */
  predicate Known(copy: Copy) {
    copy.base.id != "" || copy.base.initialized
  }

  /** Every end but the good one takes Ready away. */
  function NotReady(copy: Copy): Pass {
    Ending(copy.(status := copy.status.(ready := false)))
  }

  function Begin(s: State, token: bool, finalizer: Write): State {
    if !s.pass.Idle? || s.live.None? then s
    else
      var r := s.live.value;
      var copy := Copy(r.spec, r.status, r.status);
      if r.deleting then (if r.finalizer then s.(pass := Finalizing(copy)) else s)
      else if !r.finalizer && finalizer.Rejected? then s
      else
        var s := s.(live := Some(r.(finalizer := true)));
        if !r.finalizer && finalizer.Lost? then s
        else if r.spec.suspend || !token then s.(pass := NotReady(copy))
        else s.(pass := Resolving(copy))
  }

  /** The calls of resolveRepo are answered truthfully, with a new ID for a new remote. */
  predicate Answers(s: State, calls: ResolveCalls)
    requires s.pass.Resolving?
  {
    && Lists(calls.listing, s.account, s.pass.copy.spec.name)
    && MadeBy(calls.added, s.account, s.pass.copy.spec) && calls.added.id !in s.issued
  }

  function Resolve(s: State, calls: ResolveCalls): State {
    if !s.pass.Resolving? || !Answers(s, calls) then s
    else
      var r := ResolveRepo(s.account, s.pass.copy.spec, s.pass.copy.status, calls);
      var copy := s.pass.copy.(status := r.status);
      s.(account := r.account, issued := s.issued + r.account.Keys, keys := KeysFor(s, r.account),
         pass := if r.remote.Some? then Settling(copy, r.remote.value) else NotReady(copy))
  }

  /** The keys of the remotes of an account; a new remote has none. */
  function KeysFor(s: State, account: map<string, Remote>): map<string, set<string>> {
    map id | id in account :: KeysOf(s, id)
  }

  lemma KeysStay(s: State, account: map<string, Remote>)
    requires s.keys.Keys == account.Keys
    ensures KeysFor(s, account) == s.keys
  {
  }

  function SettleRemote(s: State, calls: SettleCalls): State {
    if !s.pass.Settling? then s
    else
      var copy := s.pass.copy;
      var r := Settle(s.account, s.me, copy.spec, copy.status, s.pass.remote, calls);
      s.(account := r.account, keys := KeysFor(s, r.account),
         pass := if r.result.SettledAt?
                 then Reading(copy.(status := copy.status.(id := r.result.remote.id)), r.result.remote)
                 else NotReady(copy))
  }

  predicate Provisioned(copy: Copy, remote: Remote) {
    copy.status.adopted || Known(copy) || remote.usage > 0.0
  }

  /** What reading the seed gives; it may have been edited since the pass began. */
  function SeedRead(s: State, copy: Copy, readable: bool, late: bool): Option<Password> {
    if !readable then None
    else if late && s.live.Some? && s.live.value.spec.seed.Some? then s.live.value.spec.seed
    else copy.spec.seed
  }

  function ReadSecret(s: State, readable: bool, seedReadable: bool, late: bool, generated: Password): State {
    if !s.pass.Reading? then s
    else
      var copy, url := s.pass.copy, ResticURL(s.pass.remote);
      var choice := ChoosePassword(s.secret, copy.spec, SeedRead(s, copy, seedReadable, late),
        Provisioned(copy, s.pass.remote), generated);
      if url.Err? || !readable || choice.None? then s.(pass := NotReady(copy))
      else s.(pass := Writing(copy, url.value, s.secret, choice.value))
  }

  function WriteSecret(s: State, write: Write): State {
    if !s.pass.Writing? then s
    else
      var copy := s.pass.copy;
      var r := CreateOrPatch(s.secret, s.clock, s.pass.seen, s.pass.url, s.pass.password,
        WantedOwner(s.me, copy.spec.policy), write);
      s.(secret := r.secret, clock := r.clock,
         written := if s.written.None? && r.secret != s.secret then Some(s.pass.password) else s.written,
         pass := if r.ok then Starting(copy) else NotReady(copy))
  }

  function StartInit(s: State, calls: InitCalls): State {
    if !s.pass.Starting? then s
    else
      var r := Initialize(s.job, s.clock, s.pass.copy.status, calls);
      var copy := s.pass.copy.(status := r.status.(ready := r.end.Done?));
      s.(job := r.job, clock := r.clock, pass := Ending(copy))
  }

  function Persist(s: State, write: Write): State {
    if !s.pass.Ending? then s
    else if write.Rejected? || s.live.None? then s.(pass := Idle)
    else
      var r := s.live.value;
      s.(live := Some(r.(status := PatchStatus(r.status, s.pass.copy.base, s.pass.copy.status))), pass := Idle)
  }

  // ----- finalize

  function Finalize(s: State, token: bool, delete: Write): State {
    if !s.pass.Finalizing? then s
    else
      var copy := s.pass.copy;
      if copy.spec.policy.Retain? || copy.base.id == "" then s.(pass := Releasing(copy))
      else if !token then s.(pass := NotReady(copy))
      else if delete.Rejected? then s.(pass := Ending(copy))
      else
        var account := s.account - {copy.base.id};
        s.(account := account, keys := KeysFor(s, account),
           pass := if delete.Applied? then Releasing(copy) else Ending(copy))
  }

  function Release(s: State, write: Write): State {
    if !s.pass.Releasing? then s
    else if write.Rejected? then s.(pass := Ending(s.pass.copy))
    else s.(live := None, pass := if write.Applied? then Idle else Ending(s.pass.copy))
  }

  // ----- init pods: restic cat config, or restic init

  function StartPod(s: State): State {
    if s.job.Some? && !s.job.value.succeeded && !s.job.value.failed && s.secret.Some? && s.secret.value.password != ""
    then s.(pods := s.pods + {Pod(s.job.value.uid, s.secret.value.url, s.secret.value.password)})
    else s
  }

  /** The pod's credentials lead to the remote with this ID. */
  predicate Reaches(s: State, url: string, id: string) {
    id in s.account && id in s.keys && ResticURL(s.account[id]) == Ok(url)
  }

  function RunPod(s: State, pod: Pod, id: string): State {
    if pod !in s.pods || !Reaches(s, pod.url, id) then s
    else
      var s := s.(pods := s.pods - {pod});
      if pod.password in s.keys[id] then s.(finished := s.finished + {pod.job})
      else if s.keys[id] == {} then s.(keys := s.keys[id := {pod.password}], finished := s.finished + {pod.job})
      else s
  }

  function ReportJob(s: State, failed: bool): State {
    if s.job.None? then s
    else if s.job.value.uid in s.finished then s.(job := Some(s.job.value.(succeeded := true)))
    else if failed then s.(job := Some(s.job.value.(failed := true)))
    else s
  }

  // ----- corg rotate-password

  function RotateBegin(s: State, password: Password): State {
    if s.live.Some? && s.live.value.status.initialized && s.secret.Some?
    then s.(rotating := s.rotating + {password})
    else s
  }

  /** restic key add, with the credentials of the Secret. */
  function RotateAdd(s: State, password: Password, id: string): State {
    if password in s.rotating && s.secret.Some? && Reaches(s, s.secret.value.url, id)
       && s.secret.value.password in s.keys[id]
    then s.(keys := s.keys[id := s.keys[id] + {password}],
            rotating := s.rotating - {password}, added := s.added + {password})
    else s
  }

  /** The patch carries no resource version, so it applies to whatever Secret is there. */
  function RotatePatch(s: State, password: Password, write: Write): State {
    if password !in s.added then s
    else if write.Rejected? || s.secret.None? then s.(added := s.added - {password})
    else s.(added := s.added - {password}, clock := s.clock + 1,
            secret := Some(s.secret.value.(password := password, version := s.clock)))
  }

  // ----- users and the rest of the world

  function EditSpec(s: State, spec: Spec): State {
    if s.live.Some? && Admitted(s.live.value.spec, s.live.value.status, spec)
    then s.(live := Some(s.live.value.(spec := spec)))
    else s
  }

  function DeleteResource(s: State): State {
    if s.live.None? then s
    else if !s.live.value.finalizer then s.(live := None)
    else s.(live := Some(s.live.value.(deleting := true)))
  }

  /** corg reinit, after it deleted the Job. */
  function ClearInitialized(s: State): State {
    if s.live.None? then s
    else s.(live := Some(s.live.value.(status := s.live.value.status.(initialized := false))))
  }

  /** Whatever else may happen to a remote: use, settings, a new REST password. */
  function ChangeRemote(s: State, remote: Remote): State {
    if remote.id in s.account && remote.name == s.account[remote.id].name
    then s.(account := s.account[remote.id := remote])
    else s
  }

  function AddForeign(s: State, remote: Remote, keys: set<string>): State {
    if remote.id in s.issued || remote.id == "" || !NoColon(remote.id) then s
    else s.(account := s.account[remote.id := remote], issued := s.issued + {remote.id},
            keys := s.keys[remote.id := keys])
  }

  function RemoveKey(s: State, id: string, key: string): State {
    if id in s.keys then s.(keys := s.keys[id := s.keys[id] - {key}]) else s
  }

  datatype Step =
    | BeginStep(token: bool, finalizer: Write)
    | ResolveStep(resolve: ResolveCalls)
    | SettleStep(settle: SettleCalls)
    | ReadStep(readable: bool, seedReadable: bool, late: bool, generated: Password)
    | WriteStep(write: Write)
    | InitStep(init: InitCalls)
    | PersistStep(persist: Write)
    | CrashStep
    | FinalizeStep(api: bool, delete: Write)
    | ReleaseStep(release: Write)
    | StartPodStep
    | RunPodStep(pod: Pod, at: string)
    | DropPodStep(dropped: Pod)
    | ReportJobStep(failed: bool)
    | RotateBeginStep(new_: Password)
    | RotateAddStep(new_: Password, at: string)
    | RotatePatchStep(new_: Password, patch: Write)
    | EditStep(spec: Spec)
    | DeleteStep
    | DropSecretStep
    | DropJobStep
    | ClearStep
    | ChangeRemoteStep(remote: Remote)
    | ForeignStep(remote: Remote, keys: set<string>)
    | RemoveKeyStep(at: string, key: string)

  function Next(s: State, step: Step): State {
    match step
    case BeginStep(token, finalizer) => Begin(s, token, finalizer)
    case ResolveStep(calls) => Resolve(s, calls)
    case SettleStep(calls) => SettleRemote(s, calls)
    case ReadStep(readable, seedReadable, late, generated) => ReadSecret(s, readable, seedReadable, late, generated)
    case WriteStep(write) => WriteSecret(s, write)
    case InitStep(calls) => StartInit(s, calls)
    case PersistStep(write) => Persist(s, write)
    case CrashStep => s.(pass := Idle)
    case FinalizeStep(api, delete) => Finalize(s, api, delete)
    case ReleaseStep(write) => Release(s, write)
    case StartPodStep => StartPod(s)
    case RunPodStep(pod, id) => RunPod(s, pod, id)
    case DropPodStep(pod) => s.(pods := s.pods - {pod})
    case ReportJobStep(failed) => ReportJob(s, failed)
    case RotateBeginStep(password) => RotateBegin(s, password)
    case RotateAddStep(password, id) => RotateAdd(s, password, id)
    case RotatePatchStep(password, write) => RotatePatch(s, password, write)
    case EditStep(spec) => EditSpec(s, spec)
    case DeleteStep => DeleteResource(s)
    case DropSecretStep => s.(secret := None)
    case DropJobStep => s.(job := None)
    case ClearStep => ClearInitialized(s)
    case ChangeRemoteStep(remote) => ChangeRemote(s, remote)
    case ForeignStep(remote, keys) => AddForeign(s, remote, keys)
    case RemoveKeyStep(id, key) => RemoveKey(s, id, key)
  }

  function After(s: State, steps: seq<Step>): State
    decreases |steps|
  {
    if steps == [] then s else After(Next(s, steps[0]), steps[1..])
  }

  /** A Secret that was read is the same as long as its version is. */
  predicate VersionsOk(s: State) {
    && (s.secret.Some? ==> s.secret.value.version < s.clock)
    && (s.pass.Writing? && s.pass.seen.Some? ==>
          && s.pass.seen.value.version < s.clock
          && (s.secret.Some? && s.secret.value.version == s.pass.seen.value.version ==> s.secret == s.pass.seen))
  }

  /** The steps that are the operator's own. */
  predicate ByOperator(step: Step) {
    step.BeginStep? || step.ResolveStep? || step.SettleStep? || step.ReadStep? || step.WriteStep? || step.InitStep?
    || step.PersistStep? || step.CrashStep? || step.FinalizeStep? || step.ReleaseStep?
  }

  /** The steps that can change the account or its keys. */
  predicate TouchesAccount(step: Step) {
    step.ResolveStep? || step.SettleStep? || step.FinalizeStep? || step.RunPodStep? || step.RotateAddStep?
    || step.ChangeRemoteStep? || step.ForeignStep? || step.RemoveKeyStep?
  }

  lemma QuietAccount(s: State, step: Step)
    requires !TouchesAccount(step)
    ensures var s' := Next(s, step); s'.account == s.account && s'.keys == s.keys && s'.issued == s.issued
  {
  }
}
