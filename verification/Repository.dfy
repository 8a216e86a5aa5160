/**
 * A Repository resource and the parts of a reconcile pass, internal/controller/repository_controller.go,
 * as functions of what the pass reads and of how its calls end.
 */
module Repository {
  import opened Outcomes
  import opened BorgBase
  import opened Claims

  type Password = p: string | p != "" witness "p"

  datatype DeletionPolicy = Retain | Delete

  /** name is the effective repository name; seed is what passwordSecretRef points at, if it is set. */
  datatype Spec = Spec(
    suspend: bool,
    policy: DeletionPolicy,
    existingID: string,
    seed: Option<Password>,
    name: string,
    region: string,
    settings: Settings)

  datatype Status = Status(id: string, adopted: bool, initialized: bool, ready: bool)

  /** What stays the same over the life of a resource. */
  datatype Identity = Identity(namespace: string, name: string, uid: string, created: int)

  // ----- edits of the spec, as the rules of api/v1/repository_types.go admit them

  predicate WellFormed(spec: Spec) {
    spec.existingID != "" ==> spec.seed.Some?
  }

  predicate Admitted(old_: Spec, status: Status, spec: Spec) {
    && WellFormed(spec)
    && (old_.existingID == "" || spec.existingID == old_.existingID)
    && (old_.existingID != "" || spec.existingID == "" || status.id == "")
  }

  // ----- resolveRepo

  /** Where a call of resolveRepo ends. */
  datatype Resolved = Resolved(account: map<string, Remote>, status: Status, remote: Option<Remote>)

  /** Everything the account holds under that name, perhaps among others. */
  predicate Lists(listing: seq<Remote>, account: map<string, Remote>, name: string) {
    && Distinct(listing)
    && (forall i :: 0 <= i < |listing| ==> listing[i].id in account && account[listing[i].id] == listing[i])
    && (forall id :: id in account && account[id].name == name ==> account[id] in listing)
  }

  /** What is found by name is in the account, and what is not found is not. */
  lemma ListedIsThere(listing: seq<Remote>, account: map<string, Remote>, name: string)
    requires Lists(listing, account, name)
    ensures var found := Lookup(listing, name);
      && (found.FoundOne? ==>
            && found.remote.id in account && account[found.remote.id] == found.remote
            && found.remote.name == name)
      && (found.FoundNone? ==> forall id :: id in account ==> account[id].name != name)
  {
    var found := Lookup(listing, name);
    LookupExactly(listing, name);
    if found.FoundOne? {
      var i :| 0 <= i < |listing| && listing[i] == found.remote;
    }
  }

  /** BorgBase made the repository as Add asked for it, under a new ID. */
  predicate MadeBy(added: Remote, account: map<string, Remote>, spec: Spec) {
    && added.id != "" && NoColon(added.id) && added.id !in account
    && added.name == spec.name && added.region == spec.region && added.format == FORMAT_RESTIC && added.usage == 0.0
    && added.quotaEnabled == spec.settings.quotaGiB.Some? && added.appendOnly == spec.settings.appendOnly
    && (spec.settings.quotaGiB.Some? ==> added.quota == spec.settings.quotaGiB.value)
    && (spec.settings.alertDays.Some? ==> added.alertDays == spec.settings.alertDays.value)
  }

  /** Get or FindByName answer when reached; added is what Add would make. */
  datatype ResolveCalls = ResolveCalls(reached: bool, listing: seq<Remote>, added: Remote, add: Write)

  function GetRemote(account: map<string, Remote>, id: string, reached: bool): Option<Remote> {
    if reached && id in account then Some(account[id]) else None
  }

  function ResolveRepo(account: map<string, Remote>, spec: Spec, status: Status, calls: ResolveCalls): Resolved {
    if spec.existingID != "" then
      if status.id != "" && status.id != spec.existingID then Resolved(account, status, None)
      else
        var remote := GetRemote(account, spec.existingID, calls.reached);
        Resolved(account, if remote.Some? then status.(adopted := true) else status, remote)
    else if status.id != "" then Resolved(account, status, GetRemote(account, status.id, calls.reached))
    else if !calls.reached then Resolved(account, status, None)
    else
      match Lookup(calls.listing, spec.name)
      case FoundOne(remote) => Resolved(account, status, Some(remote))
      case FoundMany => Resolved(account, status, None)
      case FoundNone =>
        Resolved(
          if calls.add.Rejected? then account else account[calls.added.id := calls.added],
          status,
          if calls.add.Applied? then Some(calls.added) else None)
  }

  // ----- the conflict check and reconcileSettings

  function ClaimOf(me: Identity, spec: Spec, status: Status): Claim {
    Claim(me.namespace, me.name, me.created, false, status.id, spec.existingID)
  }

  /** A resource at work claims the ID that it recorded, or else the one that it adopts. */
  lemma ClaimExactly(me: Identity, spec: Spec, status: Status)
    ensures var c := ClaimOf(me, spec, status);
      && !c.deleting && c.namespace == me.namespace && c.name == me.name && c.created == me.created
      && ManagedID(c) == if status.id == "" then spec.existingID else status.id
  {
  }

  /** listed says whether the Repositories could be listed, and claims what they were. */
  datatype SettleCalls = SettleCalls(listed: bool, claims: seq<Claim>, edit: Write)

  datatype Settled = Settled(account: map<string, Remote>, result: SettleResult)

  datatype SettleResult = SettledAt(remote: Remote) | Conflicted | SettleFailed

  function EditRemote(account: map<string, Remote>, id: string, o: EditOptions, edit: Write): Settled {
    if id !in account || edit.Rejected? then Settled(account, SettleFailed)
    else
      var updated := Edited(account[id], o);
      Settled(account[id := updated], if edit.Applied? then SettledAt(updated) else SettleFailed)
  }

  /** An edit takes effect unless it was rejected, and counts as done only if the call said no error. */
  lemma EditExactly(account: map<string, Remote>, id: string, o: EditOptions, edit: Write)
    ensures var r := EditRemote(account, id, o, edit);
      && r.account == (if id in account && edit != Rejected then account[id := Edited(account[id], o)] else account)
      && (r.result.SettledAt? <==> id in account && edit == Applied)
      && (r.result.SettledAt? ==> r.account[id] == r.result.remote)
      && (!r.result.SettledAt? ==> r.result == SettleFailed)
  {
  }

  function Settle(account: map<string, Remote>, me: Identity, spec: Spec, status: Status, remote: Remote,
      calls: SettleCalls): Settled {
    if !IsRestic(remote) || !calls.listed then Settled(account, SettleFailed)
    else if Contested(calls.claims, ClaimOf(me, spec, status), remote.id) then Settled(account, Conflicted)
    else
      var o := SettingsEdit(spec.settings, remote);
      if IsZero(o) then Settled(account, SettledAt(remote)) else EditRemote(account, remote.id, o, calls.edit)
  }

  // ----- reconcileSecret

  datatype OwnerRef = OwnerRef(uid: string, name: string, controller: bool)

  /** The credentials Secret; version is its resourceVersion, managed the operator's label. */
  datatype Secret = Secret(version: nat, managed: bool, url: string, password: string, owners: seq<OwnerRef>)

  /** seed is what reading passwordSecretRef gives, None if that fails. */
  function ChoosePassword(seen: Option<Secret>, spec: Spec, seed: Option<Password>, provisioned: bool,
      generated: Password): Option<Password> {
    if seen.Some? && seen.value.password != "" then Some(seen.value.password)
    else if spec.seed.Some? then seed
    else if provisioned then None
    else Some(generated)
  }

  function ControllerOf(owners: seq<OwnerRef>): Option<OwnerRef> {
    if owners == [] then None else if owners[0].controller then Some(owners[0]) else ControllerOf(owners[1..])
  }

  function Others(owners: seq<OwnerRef>): seq<OwnerRef> {
    if owners == [] then []
    else if owners[0].controller then Others(owners[1..])
    else [owners[0]] + Others(owners[1..])
  }

  function SyncControllerRef(owners: seq<OwnerRef>, want: Option<OwnerRef>): seq<OwnerRef> {
    var have := ControllerOf(owners);
    if want.None? && have.None? then owners
    else if want.Some? && have.Some? && have.value.uid == want.value.uid && have.value.name == want.value.name
      then owners
    else Others(owners) + if want.Some? then [want.value] else []
  }

  /** Set under the policy Delete, so that the Secret goes with its Repository. */
  function WantedOwner(me: Identity, policy: DeletionPolicy): Option<OwnerRef> {
    if policy.Delete? then Some(OwnerRef(me.uid, me.name, true)) else None
  }

  function Refreshed(seen: Secret, url: string, password: Password, want: Option<OwnerRef>): Secret {
    seen.(url := url, password := password, owners := SyncControllerRef(seen.owners, want))
  }

  datatype SecretWrite = SecretWrite(secret: Option<Secret>, clock: nat, ok: bool)

  /** live is the Secret at the time of the write, seen the one that was read; clock numbers the versions. */
  function CreateOrPatch(
    live: Option<Secret>, clock: nat, seen: Option<Secret>, url: string, password: Password,
    want: Option<OwnerRef>, write: Write
  ): SecretWrite {
    if seen.None? then
      if live.Some? || write.Rejected? then SecretWrite(live, clock, false)
      else
        var owners := if want.Some? then [want.value] else [];
        SecretWrite(Some(Secret(clock, true, url, password, owners)), clock + 1, write.Applied?)
    else if !seen.value.managed then SecretWrite(live, clock, false)
    else
      var updated := Refreshed(seen.value, url, password, want);
      if updated == seen.value then SecretWrite(live, clock, true)
      else if live.None? || live.value.version != seen.value.version || write.Rejected?
        then SecretWrite(live, clock, false)
      else SecretWrite(Some(updated.(version := clock)), clock + 1, write.Applied?)
  }

  lemma {:induction false} OthersLaws(owners: seq<OwnerRef>)
    ensures ControllerOf(Others(owners)).None?
    ensures ControllerOf(owners).None? ==> Others(owners) == owners
    ensures Others(Others(owners)) == Others(owners)
  {
    if owners != [] {
      OthersLaws(owners[1..]);
    }
  }

  lemma {:induction false} OthersAppend(owners: seq<OwnerRef>, ref: OwnerRef)
    requires ref.controller && ControllerOf(owners).None?
    ensures ControllerOf(owners + [ref]) == Some(ref) && Others(owners + [ref]) == Others(owners)
  {
    if owners != [] {
      assert (owners + [ref])[1..] == owners[1..] + [ref];
      OthersAppend(owners[1..], ref);
    }
  }

  /**
   * After syncing, the wanted controller is the controller, other owners stay as they were, and syncing again changes
   * nothing.
   */
  lemma SyncSettles(owners: seq<OwnerRef>, want: Option<OwnerRef>)
    requires want.Some? ==> want.value.controller
    ensures var synced := SyncControllerRef(owners, want);
      && Others(synced) == Others(owners)
      && SyncControllerRef(synced, want) == synced
      && (want.None? <==> ControllerOf(synced).None?)
      && (want.Some? ==>
            && ControllerOf(synced).value.uid == want.value.uid
            && ControllerOf(synced).value.name == want.value.name)
  {
    OthersLaws(owners);
    if want.Some? {
      OthersAppend(Others(owners), want.value);
    } else {
      assert Others(owners) + [] == Others(owners);
    }
  }

  // ----- reconcileInitJob and cleanupInitJob

  datatype InitJob = InitJob(uid: nat, succeeded: bool, failed: bool)

  /**
   * recorded: the live resource could be read; retryDue: the failure is old enough; write: creating or deleting the
   * Job.
   */
  datatype InitCalls = InitCalls(recorded: bool, retryDue: bool, write: Write)

  datatype InitEnd = Done | Waiting | InitError

  datatype Initialized = Initialized(job: Option<InitJob>, clock: nat, status: Status, end: InitEnd)

  function EndOf(write: Write, otherwise: InitEnd): InitEnd {
    if write.Applied? then otherwise else InitError
  }

  function Initialize(job: Option<InitJob>, clock: nat, status: Status, calls: InitCalls): Initialized {
    var without := if calls.write.Rejected? then job else None;
    if status.initialized then
      if job.None? then Initialized(job, clock, status, Done)
      else Initialized(without, clock, status, EndOf(calls.write, Done))
    else if job.Some? then
      if job.value.succeeded then
        if calls.recorded then Initialized(job, clock, status.(initialized := true), Done)
        else Initialized(job, clock, status, InitError)
      else if job.value.failed && calls.retryDue then Initialized(without, clock, status, EndOf(calls.write, Waiting))
      else Initialized(job, clock, status, Waiting)
    else if calls.write.Rejected? then Initialized(job, clock, status, InitError)
    else Initialized(Some(InitJob(clock, false, false)), clock + 1, status, EndOf(calls.write, Waiting))
  }

  /** There is a Job to make or to remove. */
  predicate NeedsCall(job: Option<InitJob>, status: Status, calls: InitCalls) {
    if status.initialized then job.Some? else job.None? || (job.value.failed && calls.retryDue)
  }

  /**
   * The phase is done exactly if the resource was initialized and no Job is left, or its Job now says so; a finished
   * Job goes in the next pass, and only a finished one or one due for a retry ever goes.
   */
  lemma InitializeExactly(job: Option<InitJob>, clock: nat, status: Status, calls: InitCalls)
    ensures var r := Initialize(job, clock, status, calls);
      var succeeds := job.Some? && job.value.succeeded && calls.recorded;
      && (r.end.Done? <==> if status.initialized then job.None? || calls.write.Applied? else succeeds)
      && r.status == (if succeeds then status.(initialized := true) else status)
      && (r.end.Done? && status.initialized ==> r.job.None?)
      && (r.job != job && job.Some? ==>
            r.job.None? && (status.initialized || (job.value.failed && !job.value.succeeded && calls.retryDue)))
      && (r.job != job && job.None? ==> r.job == Some(InitJob(clock, false, false)) && r.clock == clock + 1)
      && (job.None? && !status.initialized && calls.write.Applied? ==> r.job.Some?)
      && (r.end.InitError? <==>
            if !status.initialized && job.Some? && job.value.succeeded then !calls.recorded
            else calls.write != Applied && NeedsCall(job, status, calls))
  {
  }

  // ----- the status patch

  /** A merge patch of status against base, applied to live. */
  function PatchStatus(live: Status, base: Status, status: Status): Status {
    Status(
      if status.id == base.id then live.id else status.id,
      if status.adopted == base.adopted then live.adopted else status.adopted,
      if status.initialized == base.initialized then live.initialized else status.initialized,
      if status.ready == base.ready then live.ready else status.ready)
  }

  /** A patch writes what the pass changed and nothing else, whatever was written in between. */
  lemma PatchMerges(live: Status, base: Status, status: Status)
    ensures PatchStatus(base, base, status) == status
    ensures PatchStatus(live, base, base) == live
    ensures PatchStatus(PatchStatus(live, base, status), base, status) == PatchStatus(live, base, status)
    ensures PatchStatus(live, base, status).id == (if status.id != base.id then status.id else live.id)
    ensures PatchStatus(live, base, status).adopted
      == (if status.adopted != base.adopted then status.adopted else live.adopted)
    ensures PatchStatus(live, base, status).initialized
      == (if status.initialized != base.initialized then status.initialized else live.initialized)
    ensures PatchStatus(live, base, status).ready == (if status.ready != base.ready then status.ready else live.ready)
  {
  }

  /**
   * An init Job that is at work is left alone, and a failed one is replaced by the next two passes once a retry is due.
   */
  lemma FailedJobIsReplaced(job: InitJob, clock: nat, status: Status, calls: InitCalls, calls': InitCalls)
    requires !status.initialized && !job.succeeded && job.uid < clock && calls.write.Applied? && calls'.write.Applied?
    ensures var first := Initialize(Some(job), clock, status, calls);
      && first.status == status && first.end == Waiting
      && (!(job.failed && calls.retryDue) ==> first.job == Some(job) && first.clock == clock)
      && (job.failed && calls.retryDue ==>
            var second := Initialize(first.job, first.clock, first.status, calls');
            && first.job.None? && second.end == Waiting && second.status == status
            && second.job.Some? && second.job.value.uid != job.uid && !second.job.value.failed
            && !second.job.value.succeeded)
  {
  }
}
