/** corg reinit and corg rotate-password, internal/cli/repair.go, on the objects they change. */
module Repair {
  import opened Outcomes
  import opened BorgBase
  import opened Repository
  import opened RepositoryRuns
  import opened Reconciler

  // ----- reinit

  /** Which steps a reinit gets through. */
  function ReinitSteps(s: State, delete: Write, patch: Write): seq<Step> {
    if s.job.Some? && delete.Rejected? then []
    else if s.job.Some? && delete.Lost? then [DropJobStep]
    else if patch.Rejected? then [DropJobStep]
    else [DropJobStep, ClearStep]
  }

  method RunReinit(r: RepositoryReconciler, ghost pass: Pass, delete: Write, patch: Write) returns (ok: bool)
    modifies r.cluster
    ensures r.View(pass) == After(old(r.View(pass)), ReinitSteps(old(r.View(pass)), delete, patch))
    ensures ok ==> r.cluster.job.None? && (r.cluster.live.Some? ==> !r.cluster.live.value.status.initialized)
    ensures old(r.cluster.job.Some?) && !delete.Applied? ==> !ok && r.cluster.live == old(r.cluster.live)
    ensures r.cluster.job == (if delete.Rejected? then old(r.cluster.job) else None)
    ensures old(r.cluster.job.None?) || delete.Applied? ==> ok == patch.Applied?
    ensures r.cluster.live.Some? <==> old(r.cluster.live.Some?)
    ensures r.cluster.live.Some? && r.cluster.live != old(r.cluster.live) ==>
      r.cluster.live.value
        == old(r.cluster.live.value).(status := old(r.cluster.live.value.status).(initialized := false))
  {
    ghost var before := r.View(pass);
    AfterTwo(before, DropJobStep, ClearStep);
    if r.cluster.job.Some? {
      if !delete.Rejected? {
        r.cluster.job := None;
      }
      if !delete.Applied? {
        return false;
      }
    }
    if !patch.Rejected? && r.cluster.live.Some? {
      var live := r.cluster.live.value;
      r.cluster.live := Some(live.(status := live.status.(initialized := false)));
    }
    return patch.Applied?;
  }

  lemma AfterTwo(s: State, a: Step, b: Step)
    ensures After(s, [a]) == Next(s, a) && After(s, [a, b]) == Next(Next(s, a), b)
  {
    assert [a][1..] == [] && [a, b][1..] == [b] && [b][1..] == [];
    assert After(s, [a]) == After(Next(s, a), []);
    assert After(s, [a, b]) == After(Next(s, a), [b]);
    assert After(Next(s, a), [b]) == After(Next(Next(s, a), b), []);
  }

  // ----- rotate-password

  /** How the calls of a rotation end: the temporary Secret, restic key add at the remote it reaches, and the patch. */
  datatype RotateCalls = RotateCalls(password: Password, temporary: bool, at: string, add: Write, patch: Write)

  function Rotated(s: State, c: RotateCalls): State {
    if s.live.None? || !s.live.value.status.initialized || s.secret.None? || !c.temporary then s
    else
      var begun := RotateBegin(s, c.password);
      if c.add.Rejected? then begun
      else
        var added := RotateAdd(begun, c.password, c.at);
        if c.add.Lost? || c.password !in added.added then added else RotatePatch(added, c.password, c.patch)
  }

  /** Which steps a rotation gets through. */
  function RotateSteps(s: State, c: RotateCalls): seq<Step> {
    if s.live.None? || !s.live.value.status.initialized || s.secret.None? || !c.temporary then []
    else if c.add.Rejected? then [RotateBeginStep(c.password)]
    else if c.add.Lost? || c.password !in RotateAdd(RotateBegin(s, c.password), c.password, c.at).added
    then [RotateBeginStep(c.password), RotateAddStep(c.password, c.at)]
    else [RotateBeginStep(c.password), RotateAddStep(c.password, c.at), RotatePatchStep(c.password, c.patch)]
  }

  lemma RotateStepsAre(s: State, s': State, s'': State, c: RotateCalls)
    ensures Next(s, RotateBeginStep(c.password)) == RotateBegin(s, c.password)
    ensures Next(s', RotateAddStep(c.password, c.at)) == RotateAdd(s', c.password, c.at)
    ensures Next(s'', RotatePatchStep(c.password, c.patch)) == RotatePatch(s'', c.password, c.patch)
  {
  }

  /** A rotation is a run of the state machine. */
  lemma RotatedIsRun(s: State, c: RotateCalls)
    ensures Rotated(s, c) == After(s, RotateSteps(s, c))
  {
    var begun := RotateBegin(s, c.password);
    RotateStepsAre(s, begun, RotateAdd(begun, c.password, c.at), c);
    AfterTwo(s, RotateBeginStep(c.password), RotateAddStep(c.password, c.at));
    AfterThree(s, RotateBeginStep(c.password), RotateAddStep(c.password, c.at), RotatePatchStep(c.password, c.patch));
  }

  /**
   * A rotation gets its password into the Secret if and only if the resource is initialized, the Secret leads to a
   * remote that its password opens, the key is added, and the patch takes effect; then the remote has both passwords.
   */
  lemma RotationExactly(s: State, c: RotateCalls)
    requires s.secret.Some? ==> s.secret.value.password != c.password
    requires c.password !in s.added
    ensures var s' := Rotated(s, c);
      var opens := s.secret.Some? && Reaches(s, s.secret.value.url, c.at) && s.secret.value.password in s.keys[c.at];
      && (s'.secret.Some? && s'.secret.value.password == c.password <==>
            && s.live.Some? && s.live.value.status.initialized && opens
            && c.temporary && c.add == Applied && c.patch != Rejected)
      && (s'.secret.Some? && s'.secret.value.password == c.password ==>
            && c.password in KeysOf(s', c.at) && s.secret.value.password in KeysOf(s', c.at)
            && s'.secret.value.url == s.secret.value.url)
  {
  }

  /** restic key add in a pod with the credentials of the Secret. */
  method AddKey(r: RepositoryReconciler, ghost pass: Pass, password: Password, at: string) returns (ok: bool)
    requires password !in r.cluster.added
    modifies r.api`keys, r.cluster
    ensures r.View(pass) == RotateAdd(old(r.View(pass)), password, at)
    ensures ok == (password in r.cluster.added)
    ensures ok ==> r.cluster.secret.Some? && password in KeysOf(r.View(pass), at)
  {
    var cluster, api := r.cluster, r.api;
    if password !in cluster.rotating || cluster.secret.None? {
      return false;
    }
    var current := cluster.secret.value;
    var reached := at in api.remotes && at in api.keys && ResticURL(api.remotes[at]) == Ok(current.url);
    if !reached || current.password !in api.keys[at] {
      return false;
    }
    api.keys := api.keys[at := api.keys[at] + {password}];
    cluster.rotating, cluster.added := cluster.rotating - {password}, cluster.added + {password};
    return true;
  }

  method PatchPassword(r: RepositoryReconciler, ghost pass: Pass, password: Password, patch: Write) returns (ok: bool)
    requires password in r.cluster.added && r.cluster.secret.Some?
    modifies r.cluster
    ensures r.View(pass) == RotatePatch(old(r.View(pass)), password, patch)
    ensures ok ==> r.cluster.secret.Some? && r.cluster.secret.value.password == password
  {
    var cluster := r.cluster;
    cluster.added := cluster.added - {password};
    if patch.Rejected? {
      return false;
    }
    cluster.secret := Some(cluster.secret.value.(password := password, version := cluster.clock));
    cluster.clock := cluster.clock + 1;
    return patch.Applied?;
  }

  method RunRotatePassword(r: RepositoryReconciler, ghost pass: Pass, c: RotateCalls) returns (ok: bool)
    requires c.password !in r.cluster.added
    modifies r.api`keys, r.cluster
    ensures r.View(pass) == Rotated(old(r.View(pass)), c) == After(old(r.View(pass)), RotateSteps(old(r.View(pass)), c))
    ensures ok ==> HasNewPassword(r.View(pass), c)
  {
    RotatedIsRun(r.View(pass), c);
    var cluster := r.cluster;
    if cluster.live.None? || !cluster.live.value.status.initialized || cluster.secret.None? || !c.temporary {
      return false;
    }
    cluster.rotating := cluster.rotating + {c.password};
    if c.add.Rejected? {
      return false;
    }
    var added := AddKey(r, pass, c.password, c.at);
    if !added || c.add.Lost? {
      return false;
    }
    ok := PatchPassword(r, pass, c.password, c.patch);
  }

  /** The Secret holds the new password, and that is a key. */
  predicate HasNewPassword(s: State, c: RotateCalls) {
    s.secret.Some? && s.secret.value.password == c.password && c.password in KeysOf(s, c.at)
  }

  /** Wherever a rotation stops, the old keys still work and the Secret holds one that does. */
  lemma RotationIsSafe(s: State, c: RotateCalls, id: string)
    requires c.password !in s.added
    requires s.secret.Some? && s.secret.value.password in KeysOf(s, id)
    requires Reaches(s, s.secret.value.url, c.at) ==> c.at == id
    ensures var end := Rotated(s, c);
      && KeysOf(s, id) <= KeysOf(end, id) <= KeysOf(s, id) + {c.password}
      && end.secret.Some? && end.secret.value.password in KeysOf(end, id)
      && end.secret.value.url == s.secret.value.url
      && (forall i :: i != id ==> KeysOf(end, i) == KeysOf(s, i))
  {
  }
}
