/**
 * The reconcile pass as the controller runs it, on objects that change in place:
 * internal/controller/repository_controller.go. Every method is a run of the state machine.
 */
module Reconciler {
  import opened Outcomes
  import opened BorgBase
  import opened Claims
  import opened Repository
  import opened RepositoryRuns
  import opened Owners

  /** The BorgBase account behind the API. */
  class Account {
    var remotes: map<string, Remote>
    var issued: set<string>
    var keys: map<string, set<string>>

    predicate Valid()
      reads this
    {
      keys.Keys == remotes.Keys && remotes.Keys <= issued
    }

    constructor ()
      ensures Valid() && remotes == map[]
    {
      remotes, issued, keys := map[], {}, map[];
    }

    method Get(id: string, reached: bool) returns (remote: Option<Remote>)
      ensures remote == GetRemote(remotes, id, reached)
    {
      if reached && id in remotes {
        return Some(remotes[id]);
      }
      return None;
    }

    method Add(added: Remote, write: Write) returns (remote: Option<Remote>)
      requires Valid() && added.id !in issued
      modifies this
      ensures Valid()
      ensures remotes == if write.Rejected? then old(remotes) else old(remotes)[added.id := added]
      ensures issued == old(issued) + remotes.Keys
      ensures keys == if write.Rejected? then old(keys) else old(keys)[added.id := {}]
      ensures remote == if write.Applied? then Some(added) else None
    {
      if !write.Rejected? {
        remotes := remotes[added.id := added];
        issued := issued + {added.id};
        keys := keys[added.id := {}];
      }
      remote := if write.Applied? then Some(added) else None;
    }

    method Edit(id: string, o: EditOptions, write: Write) returns (remote: Option<Remote>)
      requires Valid()
      modifies this`remotes
      ensures Valid() && remotes.Keys == old(remotes.Keys)
      ensures Settled(remotes, if remote.Some? then SettledAt(remote.value) else SettleFailed)
        == EditRemote(old(remotes), id, o, write)
    {
      if id !in remotes || write.Rejected? {
        return None;
      }
      var updated := Edited(remotes[id], o);
      remotes := remotes[id := updated];
      remote := if write.Applied? then Some(updated) else None;
    }

    /** Not found counts as deleted. */
    method Delete(id: string, write: Write) returns (ok: bool)
      requires Valid()
      modifies this`remotes, this`keys
      ensures Valid() && ok == write.Applied?
      ensures remotes == if write.Rejected? then old(remotes) else old(remotes) - {id}
      ensures keys == if write.Rejected? then old(keys) else old(keys) - {id}
    {
      if !write.Rejected? {
        remotes, keys := remotes - {id}, keys - {id};
      }
      return write.Applied?;
    }
  }

  /** What the API server holds for one Repository, and what goes on around it. */
  class Cluster {
    var live: Option<Resource>
    var secret: Option<Secret>
    var job: Option<InitJob>
    var clock: nat
    var pods: set<Pod>
    var finished: set<nat>
    var rotating: set<Password>
    var added: set<Password>
    var written: Option<Password>

    constructor (spec: Spec)
      ensures live == Some(Resource(spec, Status("", false, false, false), false, false)) && secret.None? && job.None?
      ensures clock == 0 && pods == {} && finished == {} && rotating == {} && added == {} && written.None?
    {
      live := Some(Resource(spec, Status("", false, false, false), false, false));
      secret, job, clock, pods, finished, rotating, added, written := None, None, 0, {}, {}, {}, {}, None;
    }
  }

  /** The copy of the resource that a pass works on. */
  class RepositoryCopy {
    const spec: Spec
    const base: Status
    var id: string
    var adopted: bool
    var initialized: bool
    var ready: bool

    constructor (r: Resource)
      ensures View() == Copy(r.spec, r.status, r.status)
    {
      spec, base := r.spec, r.status;
      id, adopted, initialized, ready := r.status.id, r.status.adopted, r.status.initialized, r.status.ready;
    }

    function GetStatus(): Status
      reads this
    {
      Status(id, adopted, initialized, ready)
    }

    function View(): Copy
      reads this
    {
      Copy(spec, base, GetStatus())
    }
  }

  /** How all the calls of a pass end. */
  datatype Calls = Calls(
    token: bool,
    finalizer: Write,
    resolve: ResolveCalls,
    settle: SettleCalls,
    readable: bool,
    seedReadable: bool,
    generated: Password,
    write: Write,
    init: InitCalls,
    delete: Write,
    release: Write,
    persist: Write)

  /** A pass with nothing in between: up to the settings, the Secret and the Job, and how it ends. */
  function PassSteps(c: Calls): seq<Step> {
    OpeningSteps(c) + (SecretSteps(c) + ClosingSteps(c))
  }

  function OpeningSteps(c: Calls): seq<Step> {
    [BeginStep(c.token, c.finalizer), ResolveStep(c.resolve), SettleStep(c.settle)]
  }

  function SecretSteps(c: Calls): seq<Step> {
    [ReadStep(c.readable, c.seedReadable, false, c.generated), WriteStep(c.write), InitStep(c.init)]
  }

  function ClosingSteps(c: Calls): seq<Step> {
    [FinalizeStep(c.token, c.delete), ReleaseStep(c.release), PersistStep(c.persist)]
  }

  /** The phases after the first. */
  function Worked(s: State, c: Calls): State {
    var settled := SettleRemote(Resolve(s, c.resolve), c.settle);
    StartInit(WriteSecret(ReadSecret(settled, c.readable, c.seedReadable, false, c.generated), c.write), c.init)
  }

  function Passed(s: State, c: Calls): State {
    Persist(Release(Finalize(Worked(Begin(s, c.token, c.finalizer), c), c.token, c.delete), c.release), c.persist)
  }

  lemma {:induction false} AfterAppend(s: State, a: seq<Step>, b: seq<Step>)
    ensures After(s, a + b) == After(After(s, a), b)
    decreases |a|
  {
    if a == [] {
      assert a + b == b;
    } else {
      assert (a + b)[1..] == a[1..] + b;
      AfterAppend(Next(s, a[0]), a[1..], b);
    }
  }

  lemma AfterThree(s: State, a: Step, b: Step, c: Step)
    ensures After(s, [a, b, c]) == Next(Next(Next(s, a), b), c)
  {
    assert [a, b, c][1..] == [b, c] && [b, c][1..] == [c] && [c][1..] == [];
    assert After(s, [a, b, c]) == After(Next(s, a), [b, c]);
    assert After(Next(s, a), [b, c]) == After(Next(Next(s, a), b), [c]);
    assert After(Next(Next(s, a), b), [c]) == After(Next(Next(Next(s, a), b), c), []);
  }

  lemma PassedIsRun(s: State, c: Calls)
    ensures After(s, PassSteps(c)) == Passed(s, c)
  {
    AfterAppend(s, OpeningSteps(c), SecretSteps(c) + ClosingSteps(c));
    AfterThree(s, BeginStep(c.token, c.finalizer), ResolveStep(c.resolve), SettleStep(c.settle));
    var s1 := After(s, OpeningSteps(c));
    AfterAppend(s1, SecretSteps(c), ClosingSteps(c));
    AfterThree(s1, ReadStep(c.readable, c.seedReadable, false, c.generated), WriteStep(c.write), InitStep(c.init));
    var s2 := After(s1, SecretSteps(c));
    AfterThree(s2, FinalizeStep(c.token, c.delete), ReleaseStep(c.release), PersistStep(c.persist));
  }

  /** A pass that has reached its end is not changed by phases it skips. */
  lemma EndedSkips(s: State, c: Calls)
    requires s.pass.Idle? || s.pass.Ending? || s.pass.Finalizing?
    ensures Worked(s, c) == s
  {
  }

  class RepositoryReconciler {
    const me: Identity
    const api: Account
    const cluster: Cluster

    constructor (me: Identity, api: Account, cluster: Cluster)
      ensures this.me == me && this.api == api && this.cluster == cluster
    {
      this.me, this.api, this.cluster := me, api, cluster;
    }

    function View(pass: Pass): State
      reads api, cluster
    {
      State(me, cluster.live, pass, cluster.secret, cluster.job, cluster.clock, api.remotes, api.issued, api.keys,
            cluster.pods, cluster.finished, cluster.rotating, cluster.added, cluster.written)
    }

    method FindOrAdd(name: string, calls: ResolveCalls) returns (remote: Option<Remote>)
      requires api.Valid() && calls.added.id !in api.issued
      modifies api
      ensures api.Valid() && api.issued == old(api.issued) + api.remotes.Keys
      ensures api.keys == KeysFor(old(View(Idle)), api.remotes)
      ensures var found := Lookup(calls.listing, name);
        && api.remotes == (if found.FoundNone? && !calls.add.Rejected?
          then old(api.remotes)[calls.added.id := calls.added] else old(api.remotes))
        && remote == match found
           case FoundOne(one) => Some(one)
           case FoundMany => None
           case FoundNone => if calls.add.Applied? then Some(calls.added) else None
    {
      SameAccount(View(Idle));
      NewKeys(View(Idle), calls.added);
      var found := FindByName(calls.listing, name);
      match found
      case FoundOne(one) =>
        return Some(one);
      case FoundMany =>
        return None;
      case FoundNone =>
        remote := api.Add(calls.added, calls.add);
    }

    method ResolveRepo(repo: RepositoryCopy, calls: ResolveCalls) returns (remote: Option<Remote>)
      requires api.Valid() && calls.added.id !in api.issued
      modifies api, repo`adopted
      ensures api.Valid() && api.issued == old(api.issued) + api.remotes.Keys
      ensures api.keys == KeysFor(old(View(Idle)), api.remotes)
      ensures Resolved(api.remotes, repo.GetStatus(), remote)
        == Repository.ResolveRepo(old(api.remotes), repo.spec, old(repo.GetStatus()), calls)
    {
      SameAccount(View(Idle));
      if repo.spec.existingID != "" {
        if repo.id != "" && repo.id != repo.spec.existingID {
          return None;
        }
        remote := api.Get(repo.spec.existingID, calls.reached);
        if remote.Some? {
          repo.adopted := true;
        }
        return remote;
      }
      if repo.id != "" {
        remote := api.Get(repo.id, calls.reached);
        return remote;
      }
      if !calls.reached {
        return None;
      }
      remote := FindOrAdd(repo.spec.name, calls);
    }

    method ResolveRemote(repo: RepositoryCopy, calls: ResolveCalls) returns (remote: Option<Remote>)
      requires api.Valid() && Answers(View(Resolving(repo.View())), calls)
      modifies api, repo`adopted
      ensures api.Valid()
      ensures View(if remote.Some? then Settling(repo.View(), remote.value) else NotReady(repo.View()))
        == Resolve(old(View(Resolving(repo.View()))), calls)
    {
      remote := ResolveRepo(repo, calls);
    }

    method ReconcileSettings(repo: RepositoryCopy, remote: Remote, edit: Write) returns (updated: Option<Remote>)
      requires api.Valid()
      modifies api`remotes
      ensures api.Valid() && api.remotes.Keys == old(api.remotes.Keys)
      ensures var o := SettingsEdit(repo.spec.settings, remote);
        Settled(api.remotes, if updated.Some? then SettledAt(updated.value) else SettleFailed)
          == if IsZero(o) then Settled(old(api.remotes), SettledAt(remote))
            else EditRemote(old(api.remotes), remote.id, o, edit)
    {
      var want := repo.spec.settings;
      var opts := EditOptions(None, None, None, None);
      if want.quotaGiB.Some? {
        var q := want.quotaGiB.value;
        if !remote.quotaEnabled || q != remote.quota {
          opts := opts.(quotaEnabled := Some(true), quota := Some(q));
        }
      } else if remote.quotaEnabled {
        opts := opts.(quotaEnabled := Some(false), quota := Some(remote.quota));
      }
      if want.alertDays.Some? && want.alertDays.value != remote.alertDays {
        opts := opts.(alertDays := want.alertDays);
      }
      if want.appendOnly != remote.appendOnly {
        opts := opts.(appendOnly := Some(want.appendOnly));
      }
      if IsZero(opts) {
        return Some(remote);
      }
      updated := api.Edit(remote.id, opts, edit);
    }

    /** The conflict check and the settings, and then the ID goes into the status. */
    method SettleSettings(repo: RepositoryCopy, remote: Remote, calls: SettleCalls) returns (settled: Option<Remote>)
      requires api.Valid()
      modifies api`remotes, repo`id
      ensures api.Valid()
      ensures View(if settled.Some? then Reading(repo.View(), settled.value) else NotReady(repo.View()))
        == SettleRemote(old(View(Settling(repo.View(), remote))), calls)
    {
      SameAccount(View(Idle));
      if !IsRestic(remote) || !calls.listed {
        return None;
      }
      var other := RepositoryConflict(calls.claims, ClaimOf(me, repo.spec, repo.GetStatus()), remote.id);
      if other != "" {
        return None;
      }
      ghost var before := View(Idle);
      settled := ReconcileSettings(repo, remote, calls.edit);
      KeysStay(before, api.remotes);
      if settled.Some? {
        repo.id := settled.value.id;
      }
    }

    method CreateOrPatchSecret(seen: Option<Secret>, url: string, password: Password, want: Option<OwnerRef>,
        write: Write) returns (ok: bool)
      modifies cluster`secret, cluster`clock, cluster`written
      ensures SecretWrite(cluster.secret, cluster.clock, ok)
        == CreateOrPatch(old(cluster.secret), old(cluster.clock), seen, url, password, want, write)
      ensures cluster.written
        == if old(cluster.written).None? && cluster.secret != old(cluster.secret) then Some(password)
          else old(cluster.written)
    {
      var before := cluster.secret;
      if seen.None? {
        if cluster.secret.Some? || write.Rejected? {
          return false;
        }
        cluster.secret := Some(Secret(cluster.clock, true, url, password, if want.Some? then [want.value] else []));
      } else {
        if !seen.value.managed {
          return false;
        }
        var updated := Refreshed(seen.value, url, password, want);
        if updated == seen.value {
          return true;
        }
        if cluster.secret.None? || cluster.secret.value.version != seen.value.version || write.Rejected? {
          return false;
        }
        cluster.secret := Some(updated.(version := cluster.clock));
      }
      if cluster.written.None? && cluster.secret != before {
        cluster.written := Some(password);
      }
      cluster.clock := cluster.clock + 1;
      return write.Applied?;
    }

    method PickPassword(
      repo: RepositoryCopy, existing: Option<Secret>, remote: Remote, known: bool, seedReadable: bool,
      generated: Password
    ) returns (choice: Option<Password>)
      ensures choice == ChoosePassword(
        existing, repo.spec, if seedReadable then repo.spec.seed else None,
        repo.adopted || known || remote.usage > 0.0, generated)
    {
      var password := if existing.Some? then existing.value.password else "";
      if password == "" && repo.spec.seed.Some? {
        if !seedReadable {
          return None;
        }
        password := repo.spec.seed.value;
      }
      if password == "" {
        if repo.adopted || known || remote.usage > 0.0 {
          return None;
        }
        password := generated;
      }
      return Some(password);
    }

    method ReconcileSecret(
      repo: RepositoryCopy, remote: Remote, known: bool, readable: bool, seedReadable: bool, generated: Password,
      write: Write
    ) returns (ok: bool)
      requires known == Known(repo.View())
      modifies cluster`secret, cluster`clock, cluster`written
      ensures View(if ok then Starting(repo.View()) else NotReady(repo.View()))
        == WriteSecret(ReadSecret(old(View(Reading(repo.View(), remote))), readable, seedReadable, false, generated),
          write)
      ensures ok ==> cluster.secret.Some? && OwnedFor(cluster.secret.value.owners, me, repo.spec.policy)
    {
      var url := ResticURL(remote);
      if url.Err? || !readable {
        return false;
      }
      var existing := cluster.secret;
      var password := PickPassword(repo, existing, remote, known, seedReadable, generated);
      if password.None? {
        return false;
      }
      WrittenIsOwned(existing, cluster.clock, existing, url.value, password.value, me, repo.spec.policy, write);
      ok := CreateOrPatchSecret(existing, url.value, password.value, WantedOwner(me, repo.spec.policy), write);
    }

    method DeleteJob(write: Write) returns (ok: bool)
      modifies cluster`job
      ensures cluster.job == if write.Rejected? then old(cluster.job) else None
      ensures ok == write.Applied?
    {
      if !write.Rejected? {
        cluster.job := None;
      }
      return write.Applied?;
    }

    method ReconcileInitJob(repo: RepositoryCopy, calls: InitCalls) returns (end: InitEnd)
      requires !repo.initialized
      modifies cluster`job, cluster`clock, repo`initialized
      ensures Initialized(cluster.job, cluster.clock, repo.GetStatus(), end)
        == Initialize(old(cluster.job), old(cluster.clock), old(repo.GetStatus()), calls)
    {
      if cluster.job.Some? {
        var job := cluster.job.value;
        if job.succeeded {
          if !calls.recorded {
            return InitError;
          }
          repo.initialized := true;
          return Done;
        }
        if job.failed && calls.retryDue {
          var ok := DeleteJob(calls.write);
          return if ok then Waiting else InitError;
        }
        return Waiting;
      }
      if calls.write.Rejected? {
        return InitError;
      }
      cluster.job := Some(InitJob(cluster.clock, false, false));
      cluster.clock := cluster.clock + 1;
      return EndOf(calls.write, Waiting);
    }

    /** The last part of reconcile: the init Job, and whether the resource is ready. */
    method FinishReconcile(repo: RepositoryCopy, calls: InitCalls)
      modifies cluster`job, cluster`clock, repo`initialized, repo`ready
      ensures View(Ending(repo.View())) == StartInit(old(View(Starting(repo.View()))), calls)
    {
      var end := Done;
      if !repo.initialized {
        end := ReconcileInitJob(repo, calls);
      } else if cluster.job.Some? {
        var ok := DeleteJob(calls.write);
        end := if ok then Done else InitError;
      }
      repo.ready := end == Done;
    }

    /** The remote, with its settings put right and its ID in the status. */
    method ObtainRemote(repo: RepositoryCopy, c: Calls) returns (settled: Option<Remote>)
      requires api.Valid() && Answers(View(Resolving(repo.View())), c.resolve)
      modifies api, repo`adopted, repo`id
      ensures api.Valid()
      ensures View(if settled.Some? then Reading(repo.View(), settled.value) else NotReady(repo.View()))
        == SettleRemote(Resolve(old(View(Resolving(repo.View()))), c.resolve), c.settle)
    {
      var remote := ResolveRemote(repo, c.resolve);
      if remote.None? {
        return None;
      }
      settled := SettleSettings(repo, remote.value, c.settle);
    }

    /** reconcile; an end that is not ready takes Ready away. */
    method ReconcileRepository(repo: RepositoryCopy, c: Calls)
      requires api.Valid() && Answers(View(Resolving(repo.View())), c.resolve)
      modifies api, cluster, repo
      ensures api.Valid()
      ensures View(Ending(repo.View())) == Worked(old(View(Resolving(repo.View()))), c)
    {
      var known := repo.base.id != "" || repo.base.initialized;
      var settled := ObtainRemote(repo, c);
      if settled.None? {
        repo.ready := false;
        return;
      }
      var ok := ReconcileSecret(repo, settled.value, known, c.readable, c.seedReadable, c.generated, c.write);
      if !ok {
        repo.ready := false;
        return;
      }
      FinishReconcile(repo, c.init);
    }

    /** What finalize does to the remote. */
    method FinalizeRemote(repo: RepositoryCopy, c: Calls) returns (ok: bool)
      requires api.Valid()
      modifies api, repo`ready
      ensures api.Valid()
      ensures View(if ok then Releasing(repo.View()) else Ending(repo.View()))
        == Finalize(old(View(Finalizing(repo.View()))), c.token, c.delete)
    {
      if repo.spec.policy.Delete? && repo.base.id != "" {
        if !c.token {
          repo.ready := false;
          return false;
        }
        LessKeys(View(Idle), repo.base.id);
        ok := api.Delete(repo.base.id, c.delete);
        return ok;
      }
      return true;
    }

    method FinalizeRepository(repo: RepositoryCopy, c: Calls) returns (released: bool)
      requires api.Valid()
      modifies api, cluster`live, repo`ready
      ensures api.Valid()
      ensures View(if released then Idle else Ending(repo.View()))
        == Release(Finalize(old(View(Finalizing(repo.View()))), c.token, c.delete), c.release)
    {
      var ok := FinalizeRemote(repo, c);
      if !ok || c.release.Rejected? {
        return false;
      }
      cluster.live := None;
      return c.release.Applied?;
    }

    method PatchLiveStatus(repo: RepositoryCopy, write: Write)
      modifies cluster`live
      ensures View(Idle) == Persist(old(View(Ending(repo.View()))), write)
    {
      if !write.Rejected? && cluster.live.Some? {
        var r := cluster.live.value;
        cluster.live := Some(r.(status := PatchStatus(r.status, repo.base, repo.GetStatus())));
      }
    }

    /** The pass of a resource that is being deleted. */
    method ReconcileDeleting(repo: RepositoryCopy, c: Calls)
      requires api.Valid()
      modifies api, cluster`live, repo`ready
      ensures api.Valid()
      ensures View(Idle)
        == Persist(Release(Finalize(old(View(Finalizing(repo.View()))), c.token, c.delete), c.release), c.persist)
    {
      var released := FinalizeRepository(repo, c);
      if !released {
        PatchLiveStatus(repo, c.persist);
      }
    }

    /** The pass of a resource with a finalizer. */
    method ReconcileLive(repo: RepositoryCopy, c: Calls)
      requires api.Valid() && Answers(View(Resolving(repo.View())), c.resolve)
      modifies api, cluster, repo
      ensures api.Valid()
      ensures View(Idle)
        == Persist(Worked(old(View(FirstPhase(repo.View(), c))), c), c.persist)
    {
      if repo.spec.suspend || !c.token {
        repo.ready := false;
        EndedSkips(View(Ending(repo.View())), c);
      } else {
        ReconcileRepository(repo, c);
      }
      PatchLiveStatus(repo, c.persist);
    }

    /** A whole pass is a run of the state machine. */
    method Reconcile(c: Calls)
      requires api.Valid()
      requires cluster.live.Some? ==>
        var r := cluster.live.value; Answers(View(Resolving(Copy(r.spec, r.status, r.status))), c.resolve)
      modifies api, cluster
      ensures api.Valid()
      ensures View(Idle) == After(old(View(Idle)), PassSteps(c))
    {
      ghost var before := View(Idle);
      PassedIsRun(before, c);
      PassedBy(before, c);
      if cluster.live.None? {
        return;
      }
      var r := cluster.live.value;
      var repo := new RepositoryCopy(r);
      if r.deleting {
        if r.finalizer {
          ReconcileDeleting(repo, c);
        }
        return;
      }
      if !r.finalizer {
        if c.finalizer.Rejected? {
          return;
        }
        cluster.live := Some(r.(finalizer := true));
        if c.finalizer.Lost? {
          return;
        }
      }
      ReconcileLive(repo, c);
    }
  }

  /** Where a pass on a resource with a finalizer goes first. */
  function FirstPhase(copy: Copy, c: Calls): Pass {
    if copy.spec.suspend || !c.token then NotReady(copy) else Resolving(copy)
  }

  /** reconcile always comes to an end. */
  lemma WorkedEnds(s: State, c: Calls)
    requires s.pass.Ending? || (s.pass.Resolving? && Answers(s, c.resolve))
    ensures Worked(s, c).pass.Ending?
  {
  }

  lemma EndsThere(s: State, c: Calls)
    requires s.pass.Idle? || s.pass.Ending?
    ensures Release(Finalize(s, c.token, c.delete), c.release) == s && (s.pass.Idle? ==> Persist(s, c.persist) == s)
  {
  }

  /** A pass by what it finds: nothing to do, a resource to delete, or one to work on. */
  lemma PassedBy(s: State, c: Calls)
    requires s.pass.Idle?
    requires s.live.Some? ==>
      var r := s.live.value; Answers(s.(pass := Resolving(Copy(r.spec, r.status, r.status))), c.resolve)
    ensures s.live.None? ==> Passed(s, c) == s
    ensures s.live.Some? ==> var r := s.live.value; var copy := Copy(r.spec, r.status, r.status);
      && (r.deleting && !r.finalizer ==> Passed(s, c) == s)
      && (r.deleting && r.finalizer ==>
            Passed(s, c) == Persist(Release(Finalize(s.(pass := Finalizing(copy)), c.token, c.delete), c.release),
              c.persist))
      && (!r.deleting ==>
            var marked := s.(live := Some(r.(finalizer := true)));
            && (!r.finalizer && c.finalizer.Rejected? ==> Passed(s, c) == s)
            && (!r.finalizer && c.finalizer.Lost? ==> Passed(s, c) == marked)
            && (r.finalizer || c.finalizer.Applied? ==>
                  Passed(s, c) == Persist(Worked(marked.(pass := FirstPhase(copy, c)), c), c.persist)))
  {
    var begun := Begin(s, c.token, c.finalizer);
    if begun.pass.Idle? || begun.pass.Finalizing? {
      EndedSkips(begun, c);
    } else {
      WorkedEnds(begun, c);
      EndsThere(Worked(begun, c), c);
    }
    if begun.pass.Idle? {
      EndsThere(begun, c);
    }
  }

  // ----- keys of an account that changes

  /** An account that stays as it is. */
  lemma SameAccount(s: State)
    requires s.keys.Keys == s.account.Keys && s.account.Keys <= s.issued
    ensures KeysFor(s, s.account) == s.keys && s.issued + s.account.Keys == s.issued
  {
    KeysStay(s, s.account);
  }

  lemma NewKeys(s: State, added: Remote)
    requires s.keys.Keys == s.account.Keys && s.account.Keys <= s.issued && added.id !in s.issued
    ensures KeysFor(s, s.account[added.id := added]) == s.keys[added.id := {}]
  {
  }

  lemma LessKeys(s: State, id: string)
    requires s.keys.Keys == s.account.Keys
    ensures KeysFor(s, s.account - {id}) == s.keys - {id}
  {
  }
}
