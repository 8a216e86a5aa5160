/** The first passes of a resource: exactly when they lead to a Secret and to Ready. */
module Lifecycle {
  import opened Outcomes
  import opened BorgBase
  import opened Claims
  import opened Repository
  import opened RepositoryRuns
  import opened RepositoryLaws
  import opened RemoteLaws
  import opened KeySafety
  import opened Reconciler

  /** A new resource meets what the laws ask for at the start of a run. */
  lemma FreshIsOrderly(s: State)
    requires Fresh(s)
    ensures Coherent(s) && Steady(s) && Finalizable(s) && Outside(s)
  {
  }

  // ----- a pass whose calls are answered

  /** Every call up to the Secret is answered. */
  predicate Answered(c: Calls) {
    && c.token && c.finalizer.Applied? && c.resolve.reached && c.resolve.add.Applied?
    && c.settle.listed && c.settle.edit.Applied?
    && c.readable && c.seedReadable && c.init.recorded && c.init.write.Applied?
  }

  predicate Faultless(c: Calls) {
    Answered(c) && c.write.Applied? && c.persist.Applied?
  }

  /** A pass of a resource that is there to stay can begin; what its calls return is true. */
  predicate Begins(s: State, c: Calls) {
    && s.pass.Idle? && s.live.Some? && !s.live.value.deleting && AccountNamed(s)
    && s.keys.Keys == s.account.Keys && Answers(Opened(s), c.resolve)
  }

  /** The pass goes to work on the resource. */
  predicate Works(s: State, c: Calls) {
    Begins(s, c) && !s.live.value.spec.suspend
  }

  /** No older resource in the list stands in the way of managing the remote with this ID. */
  predicate Undisputed(s: State, c: Calls, id: string)
    requires s.live.Some?
  {
    !Contested(c.settle.claims, ClaimOf(s.me, s.live.value.spec, s.live.value.status), id)
  }

  /** Nothing is recorded, there is no Job, and the next one gets a new UID. */
  predicate Unstarted(s: State) {
    && s.live.Some? && s.live.value.status.id == "" && !s.live.value.status.initialized && s.job.None?
    && (forall uid :: uid in s.finished ==> uid < s.clock)
  }

  function Opened(s: State): (r: State)
    requires s.live.Some?
    ensures r.pass.Resolving?
  {
    var r := s.live.value;
    s.(live := Some(r.(finalizer := true)), pass := Resolving(Copy(r.spec, r.status, r.status)))
  }

  /** The pass gets to resolving. */
  predicate Begun(s: State, c: Calls)
    requires s.live.Some?
  {
    !s.live.value.spec.suspend && c.token && (s.live.value.finalizer || c.finalizer.Applied?)
  }

  lemma BeginWorks(s: State, c: Calls)
    requires Begins(s, c) && Begun(s, c)
    ensures Begin(s, c.token, c.finalizer) == Opened(s)
  {
  }

  /** The remote can be used: restic format, with a REST password. */
  predicate Serves(remote: Remote) {
    ResticURL(remote).Ok?
  }

  /** The remote that resolving gives a resource with nothing recorded. */
  function Target(s: State, c: Calls): Option<Remote>
    requires s.live.Some?
  {
    var spec := s.live.value.spec;
    if spec.existingID != "" then GetRemote(s.account, spec.existingID, true)
    else
      match Lookup(c.resolve.listing, spec.name)
      case FoundOne(remote) => Some(remote)
      case FoundNone => Some(c.resolve.added)
      case FoundMany => None
  }

  predicate Obtains(s: State, c: Calls)
    requires s.live.Some?
  {
    Target(s, c).Some? && Target(s, c).value.id != "" && Serves(Target(s, c).value)
  }

  predicate AddsTarget(s: State, c: Calls)
    requires s.live.Some?
  {
    s.live.value.spec.existingID == "" && Lookup(c.resolve.listing, s.live.value.spec.name).FoundNone?
  }

  /** Resolving finds the remote, or makes it. */
  predicate Finds(s: State, c: Calls)
    requires s.live.Some?
  {
    c.resolve.reached && Target(s, c).Some? && (AddsTarget(s, c) ==> c.resolve.add.Applied?)
  }

  /** Nothing keeps the pass from managing the remote: its format, an older resource, the settings. */
  predicate Settles(s: State, c: Calls, remote: Remote)
    requires s.live.Some?
  {
    && IsRestic(remote) && c.settle.listed && Undisputed(s, c, remote.id)
    && (c.settle.edit.Applied? || IsZero(SettingsEdit(s.live.value.spec.settings, remote)))
  }

  /** The pass gets to the point where it sets the ID. */
  predicate Records(s: State, c: Calls)
    requires s.live.Some?
  {
    Begun(s, c) && Finds(s, c) && Settles(s, c, Target(s, c).value)
  }

  /** The copy that a pass without an ID goes on with. */
  function Found(s: State): Copy
    requires s.live.Some?
  {
    var r := s.live.value;
    Copy(r.spec, r.status, if r.spec.existingID != "" then r.status.(adopted := true) else r.status)
  }

  lemma ResolveWorks(s: State, c: Calls)
    requires Begins(s, c) && Finds(s, c) && s.live.value.status.id == ""
    ensures var s' := Resolve(Opened(s), c.resolve); var remote := Target(s, c).value;
      && s' == Opened(s).(account := s'.account, issued := s'.issued, keys := s'.keys,
        pass := Settling(Found(s), remote))
      && s'.keys.Keys == s'.account.Keys && AccountNamed(s')
      && remote.id in s'.account && s'.account[remote.id] == remote
      && (forall i :: i in s.account ==> i in s'.account && s'.account[i] == s.account[i])
      && (forall i :: KeysOf(s', i) == KeysOf(s, i))
  {
    if s.live.value.spec.existingID != "" {
      AdoptWorks(s, c);
    } else {
      LookupWorks(s, c);
    }
  }

  lemma AdoptWorks(s: State, c: Calls)
    requires Begins(s, c) && Finds(s, c) && s.live.value.status.id == ""
    requires s.live.value.spec.existingID != ""
    ensures var s' := Resolve(Opened(s), c.resolve);
      s' == Opened(s).(pass := Settling(Found(s), Target(s, c).value)) && s'.keys == s.keys
  {
    SameAccount(s);
  }

  lemma LookupWorks(s: State, c: Calls)
    requires Begins(s, c) && Finds(s, c) && s.live.value.status.id == ""
    requires s.live.value.spec.existingID == ""
    ensures var s' := Resolve(Opened(s), c.resolve); var remote := Target(s, c).value;
      && s' == Opened(s).(account := s'.account, issued := s'.issued, keys := s'.keys,
        pass := Settling(Found(s), remote))
      && s'.keys.Keys == s'.account.Keys && AccountNamed(s')
      && remote.id in s'.account && s'.account[remote.id] == remote
      && (forall i :: i in s.account ==> i in s'.account && s'.account[i] == s.account[i])
      && (forall i :: KeysOf(s', i) == KeysOf(s, i))
  {
    ListedIsThere(c.resolve.listing, s.account, s.live.value.spec.name);
    if AddsTarget(s, c) {
      AddWorks(s, c);
    } else {
      SameAccount(s);
    }
  }

  /** A new remote has no keys, and nothing else changes. */
  lemma AddWorks(s: State, c: Calls)
    requires Begins(s, c) && Finds(s, c) && s.live.value.status.id == "" && AddsTarget(s, c)
    ensures var s' := Resolve(Opened(s), c.resolve); var remote := Target(s, c).value;
      && s' == Opened(s).(account := s'.account, issued := s'.issued, keys := s'.keys,
        pass := Settling(Found(s), remote))
      && s'.account == s.account[remote.id := remote] && s'.keys.Keys == s'.account.Keys && AccountNamed(s')
      && (forall i :: i in s.account ==> s'.account[i] == s.account[i])
      && (forall i :: KeysOf(s', i) == KeysOf(s, i))
  {
  }

  /** The conflict check passes and the settings are put right. */
  lemma SettleWorks(s: State, c: Calls)
    requires s.pass.Settling? && c.settle.listed && AccountNamed(s)
    requires var copy := s.pass.copy;
      && !Contested(c.settle.claims, ClaimOf(s.me, copy.spec, copy.status), s.pass.remote.id)
      && (c.settle.edit.Applied? || IsZero(SettingsEdit(copy.spec.settings, s.pass.remote)))
    requires s.pass.remote.id in s.account && s.account[s.pass.remote.id] == s.pass.remote && IsRestic(s.pass.remote)
    ensures var s' := SettleRemote(s, c.settle); var copy := s.pass.copy; var id := s.pass.remote.id;
      && s'.pass.Reading? && s'.pass.copy == copy.(status := copy.status.(id := id))
      && s' == s.(account := s'.account, keys := KeysFor(s, s'.account), pass := s'.pass)
      && s'.account == s.account[id := s'.pass.remote]
      && ResticURL(s'.pass.remote) == ResticURL(s.pass.remote) && s'.pass.remote.usage == s.pass.remote.usage
      && s'.pass.remote.name == s.pass.remote.name
      && Matches(copy.spec.settings, s'.pass.remote)
  {
    SettingsConverge(s.pass.copy.spec.settings, s.pass.remote);
    assert s.account[s.pass.remote.id := s.pass.remote] == s.account;
  }

  /** A pass has come as far as the Secret, and changed nothing but the account and its own copy. */
  ghost predicate ReachesSecret(s: State, s': State, copy: Copy, remote: Remote)
    requires s.live.Some?
  {
    && s'.pass.Reading? && s'.pass.copy == copy.(status := copy.status.(id := remote.id))
    && s' == Opened(s).(account := s'.account, issued := s'.issued, keys := s'.keys, pass := s'.pass)
    && AccountNamed(s') && s'.keys.Keys == s'.account.Keys && (forall i :: KeysOf(s', i) == KeysOf(s, i))
    && remote.id in s'.account && s'.account[remote.id] == s'.pass.remote && s'.pass.remote.id == remote.id
    && ResticURL(s'.pass.remote) == ResticURL(remote) && s'.pass.remote.usage == remote.usage
  }

  lemma SettledReaches(s: State, resolved: State, c: Calls)
    requires s.live.Some? && resolved.pass.Settling?
    requires resolved.pass.copy == Found(s) && Settles(s, c, resolved.pass.remote)
    requires resolved == Opened(s).(account := resolved.account, issued := resolved.issued, keys := resolved.keys,
      pass := resolved.pass)
    requires AccountNamed(resolved) && resolved.keys.Keys == resolved.account.Keys
    requires (forall i :: KeysOf(resolved, i) == KeysOf(s, i))
    requires var remote := resolved.pass.remote; remote.id in resolved.account && resolved.account[remote.id] == remote
    ensures ReachesSecret(s, SettleRemote(resolved, c.settle), resolved.pass.copy, resolved.pass.remote)
  {
    SettleWorks(resolved, c);
    var settled := SettleRemote(resolved, c.settle);
    assert settled.account.Keys == resolved.account.Keys;
    KeysStay(resolved, settled.account);
  }

  lemma FirstReaches(s: State, c: Calls)
    requires Begins(s, c) && Records(s, c) && s.live.value.status.id == ""
    ensures ReachesSecret(s, SettleRemote(Resolve(Opened(s), c.resolve), c.settle), Found(s), Target(s, c).value)
  {
    ResolveWorks(s, c);
    SettledReaches(s, Resolve(Opened(s), c.resolve), c);
  }

  // ----- the Secret

  predicate HasNoPassword(secret: Option<Secret>) {
    secret.Some? ==> secret.value.password == ""
  }

  /**
   * There is no foreign Secret in the way, and there is a password to write: at hand, seeded, or free to be made up.
   */
  predicate CanWrite(secret: Option<Secret>, seeded: bool, provisioned: bool) {
    && (secret.Some? ==> secret.value.managed)
    && (!HasNoPassword(secret) || seeded || !provisioned)
  }

  /** The password that is in the Secret afterwards. */
  function Chosen(secret: Option<Secret>, seed: Option<Password>, generated: Password): Password {
    if !HasNoPassword(secret) then secret.value.password else if seed.Some? then seed.value else generated
  }

  /** Reading the Secret settles on a password, or refuses to. */
  lemma ReadPhase(s: State, generated: Password)
    requires s.pass.Reading? && Serves(s.pass.remote)
    ensures var copy := s.pass.copy; var url := ResticURL(s.pass.remote).value;
      ReadSecret(s, true, true, false, generated)
        == if !HasNoPassword(s.secret) || copy.spec.seed.Some? || !Provisioned(copy, s.pass.remote)
           then s.(pass := Writing(copy, url, s.secret, Chosen(s.secret, copy.spec.seed, generated)))
           else s.(pass := NotReady(copy))
  {
  }

  /** Writing the Secret that was read: what it takes, and what is in it afterwards. */
  lemma WritePhase(s: State, write: Write)
    requires s.pass.Writing? && s.pass.seen == s.secret
    ensures var s' := WriteSecret(s, write);
      && s' == s.(pass := s'.pass, secret := s'.secret, clock := s'.clock, written := s'.written)
      && (s'.pass == Starting(s.pass.copy) || s'.pass == NotReady(s.pass.copy))
      && (s'.pass.Starting? ==>
        Managed(s'.secret) && s'.secret.value.url == s.pass.url && s'.secret.value.password == s.pass.password)
      && (s.secret.Some? && !s.secret.value.managed ==> s' == s.(pass := NotReady(s.pass.copy)))
      && (write.Applied? && (s.secret.Some? ==> s.secret.value.managed) ==> s'.pass.Starting?)
      && (HasNoPassword(s.secret) ==>
            (HasNoPassword(s'.secret) <==> write.Rejected? || (s.secret.Some? && !s.secret.value.managed)))
      && (!HasNoPassword(s.secret) && s.pass.password == s.secret.value.password ==> !HasNoPassword(s'.secret))
  {
  }

  /** Faultless phases get past the Secret exactly if it can be written, and otherwise leave everything as it is. */
  lemma SecretPhaseExactly(s: State, c: Calls)
    requires s.pass.Reading? && Serves(s.pass.remote) && Faultless(c)
    ensures var copy := s.pass.copy; var wrote := WriteSecret(ReadSecret(s, true, true, false, c.generated), c.write);
      && (wrote.pass.Starting? <==> CanWrite(s.secret, copy.spec.seed.Some?, Provisioned(copy, s.pass.remote)))
      && (!wrote.pass.Starting? ==> wrote == s.(pass := NotReady(copy)))
      && (wrote.pass.Starting? ==>
            && wrote == s.(pass := Starting(copy), secret := wrote.secret, clock := wrote.clock,
              written := wrote.written)
            && Managed(wrote.secret) && Ok(wrote.secret.value.url) == ResticURL(s.pass.remote)
            && wrote.secret.value.password == Chosen(s.secret, copy.spec.seed, c.generated))
  {
    ReadPhase(s, c.generated);
    var read := ReadSecret(s, true, true, false, c.generated);
    if read.pass.Writing? {
      WritePhase(read, c.write);
    }
  }

  /** The first init Job is started. */
  lemma InitPhase(s: State, c: Calls)
    requires Answered(c) && (s.pass.Starting? ==> s.job.None? && !s.pass.copy.status.initialized)
    ensures s.pass.Starting? ==>
      StartInit(s, c.init)
        == s.(job := Some(InitJob(s.clock, false, false)), clock := s.clock + 1, pass := NotReady(s.pass.copy))
    ensures !s.pass.Starting? ==> StartInit(s, c.init) == s
  {
  }

  /** Whether the first pass can get past the Secret. */
  predicate CanStart(s: State, c: Calls)
    requires s.live.Some? && Target(s, c).Some?
  {
    var r := s.live.value;
    CanWrite(s.secret, r.spec.seed.Some?,
      r.status.adopted || r.spec.existingID != "" || Target(s, c).value.usage > 0.0)
  }

  /**
   * A first pass goes all the way: the resource is not suspended, there is one remote for it, which can be used and
   * which nobody older has, and the Secret can be written.
   */
  predicate Proceeds(s: State, c: Calls)
    requires s.live.Some?
  {
    !s.live.value.spec.suspend && Obtains(s, c) && Undisputed(s, c, Target(s, c).value.id) && CanStart(s, c)
  }

  /** The password that the first pass settles on fits the remote: it is a key, or there is none yet. */
  predicate Fits(s: State, c: Calls)
    requires s.live.Some? && Target(s, c).Some?
  {
    var keys := KeysOf(s, Target(s, c).value.id);
    keys == {} || Chosen(s.secret, s.live.value.spec.seed, c.generated) in keys
  }

  // ----- the first pass

  /** Recorded, with a Secret that leads to the remote and a Job. */
  predicate Provisioning(s: State, spec: Spec) {
    && s.pass.Idle? && s.live.Some? && s.live.value.spec == spec && !s.live.value.deleting && s.live.value.finalizer
    && AccountNamed(s) && s.keys.Keys == s.account.Keys
    && var id := s.live.value.status.id;
       && id in s.account && !s.live.value.status.initialized && (spec.existingID != "" ==> id == spec.existingID)
       && Managed(s.secret) && s.secret.value.password != "" && ResticURL(s.account[id]) == Ok(s.secret.value.url)
       && s.job.Some?
  }

  /** The Job is new: no pod of it has ended. */
  predicate JustStarted(s: State) {
    s.job.Some? && !s.job.value.succeeded && !s.job.value.failed && s.job.value.uid !in s.finished
  }

  /** The pass ends, and its status is written. */
  lemma PassEnds(s: State, c: Calls)
    requires s.pass.Ending? && s.live.Some? && s.live.value.status == s.pass.copy.base
    ensures var end := Persist(Release(Finalize(s, c.token, c.delete), c.release), c.persist);
      end == s.(
        pass := Idle,
        live := if c.persist.Rejected? then s.live else Some(s.live.value.(status := s.pass.copy.status)))
  {
  }

  /** The pass of a resource with nothing recorded, from the Secret on. */
  lemma FirstTail(s: State, settled: State, c: Calls)
    requires Begins(s, c) && Begun(s, c)
    requires settled == SettleRemote(Resolve(Opened(s), c.resolve), c.settle)
    ensures After(s, PassSteps(c)) == Persist(Release(Finalize(
      StartInit(WriteSecret(ReadSecret(settled, c.readable, c.seedReadable, false, c.generated), c.write), c.init),
      c.token, c.delete), c.release), c.persist)
  {
    PassedIsRun(s, c);
    BeginWorks(s, c);
  }

  /** What a first pass that goes all the way leaves. */
  ghost predicate Started(s: State, c: Calls, end: State)
    requires s.live.Some? && Target(s, c).Some?
  {
    && Provisioning(end, s.live.value.spec) && JustStarted(end) && !end.live.value.status.ready
    && end.live.value.status.id == Target(s, c).value.id && end.me == s.me
    && end.secret.value.password == Chosen(s.secret, s.live.value.spec.seed, c.generated)
    && (forall i :: KeysOf(end, i) == KeysOf(s, i))
  }

  lemma FirstPassStarts(s: State, c: Calls)
    requires Unstarted(s) && Works(s, c) && Obtains(s, c) && Faultless(c) && Proceeds(s, c)
    ensures Started(s, c, After(s, PassSteps(c)))
  {
    var settled := SettleRemote(Resolve(Opened(s), c.resolve), c.settle);
    FirstReaches(s, c);
    FirstTail(s, settled, c);
    FirstWrites(s, settled, c);
    JobFollows(s, settled, WriteSecret(ReadSecret(settled, true, true, false, c.generated), c.write), c);
  }

  /** Behind the write of the Secret comes the Job. */
  lemma JobFollows(s: State, settled: State, wrote: State, c: Calls)
    requires Unstarted(s) && Works(s, c) && Obtains(s, c) && Faultless(c)
    requires ReachesSecret(s, settled, Found(s), Target(s, c).value)
    requires wrote == settled.(pass := Starting(settled.pass.copy), secret := wrote.secret, clock := wrote.clock,
      written := wrote.written)
    requires Managed(wrote.secret) && Ok(wrote.secret.value.url) == ResticURL(settled.pass.remote)
    requires wrote.secret.value.password == Chosen(s.secret, s.live.value.spec.seed, c.generated)
    requires wrote.secret.value.password != "" && s.clock <= wrote.clock
    ensures Started(s, c, Persist(Release(Finalize(StartInit(wrote, c.init), c.token, c.delete), c.release), c.persist))
  {
    StartsJob(wrote, c);
    var end := Persist(Release(Finalize(StartInit(wrote, c.init), c.token, c.delete), c.release), c.persist);
    assert forall i :: KeysOf(end, i) == KeysOf(wrote, i) == KeysOf(settled, i);
  }

  /** The Secret of a first pass is written. */
  lemma FirstWrites(s: State, settled: State, c: Calls)
    requires Unstarted(s) && Works(s, c) && Obtains(s, c) && Faultless(c) && Proceeds(s, c)
    requires ReachesSecret(s, settled, Found(s), Target(s, c).value)
    ensures var wrote := WriteSecret(ReadSecret(settled, true, true, false, c.generated), c.write);
      && wrote == settled.(pass := Starting(settled.pass.copy), secret := wrote.secret, clock := wrote.clock,
        written := wrote.written)
      && Managed(wrote.secret) && Ok(wrote.secret.value.url) == ResticURL(settled.pass.remote)
      && wrote.secret.value.password == Chosen(s.secret, s.live.value.spec.seed, c.generated)
      && wrote.secret.value.password != "" && s.clock <= wrote.clock
  {
    SecretPhaseExactly(settled, c);
    WriteCounts(ReadSecret(settled, true, true, false, c.generated), c.write);
  }

  lemma WriteCounts(s: State, write: Write)
    ensures var s' := WriteSecret(s, write); s.clock <= s'.clock && s'.finished == s.finished && s'.me == s.me
  {
  }

  /** From the init Job to the end of a first pass. */
  lemma StartsJob(s: State, c: Calls)
    requires s.pass.Starting? && Faultless(c) && s.job.None? && s.live.Some? && !s.live.value.deleting
    requires s.live.value.finalizer && (forall uid :: uid in s.finished ==> uid < s.clock)
    requires var copy := s.pass.copy;
      && copy.base == s.live.value.status && copy.spec == s.live.value.spec && !copy.status.initialized
      && copy.status.id in s.account
      && (copy.spec.existingID != "" ==> copy.status.id == copy.spec.existingID)
    requires AccountNamed(s) && s.keys.Keys == s.account.Keys && Managed(s.secret) && s.secret.value.password != ""
    requires ResticURL(s.account[s.pass.copy.status.id]) == Ok(s.secret.value.url)
    ensures var end := Persist(Release(Finalize(StartInit(s, c.init), c.token, c.delete), c.release), c.persist);
      && Provisioning(end, s.live.value.spec) && JustStarted(end) && !end.live.value.status.ready
      && end.live.value.status.id == s.pass.copy.status.id && end.secret == s.secret && end.keys == s.keys
      && end.me == s.me
  {
    InitPhase(s, c);
    PassEnds(StartInit(s, c.init), c);
  }

  /** How a first pass ends that does not go all the way. */
  ghost predicate GaveUp(s: State, c: Calls, end: State)
    requires s.live.Some?
  {
    && end.pass.Idle? && end.live.Some? && end.live.value.spec == s.live.value.spec && !end.live.value.status.ready
    && end.live.value.status.id == (if Records(s, c) then Target(s, c).value.id else "")
    && end.secret == s.secret && end.job.None?
  }

  lemma FirstPassFails(s: State, c: Calls)
    requires Unstarted(s) && Begins(s, c) && Faultless(c) && !Proceeds(s, c)
    ensures GaveUp(s, c, After(s, PassSteps(c)))
  {
    if Records(s, c) {
      var settled := SettleRemote(Resolve(Opened(s), c.resolve), c.settle);
      FirstReaches(s, c);
      FirstTail(s, settled, c);
      NoUrlPhase(settled, c);
      if Serves(settled.pass.remote) {
        SecretPhaseExactly(settled, c);
      }
      GivesUp(settled.(pass := NotReady(settled.pass.copy)), c);
    } else {
      NothingRecorded(s, c);
    }
  }

  /** Without a REST password the phase of the Secret gives up. */
  lemma NoUrlPhase(s: State, c: Calls)
    requires s.pass.Reading?
    ensures !Serves(s.pass.remote) ==>
      WriteSecret(ReadSecret(s, c.readable, c.seedReadable, false, c.generated), c.write)
        == s.(pass := NotReady(s.pass.copy))
  {
  }

  // ----- passes that record nothing

  /** The pass is over, with nothing recorded, and nothing but its copy changed. */
  predicate Blank(s: State, s': State)
    requires s.live.Some?
  {
    && s'.live.Some? && s'.live.value == s.live.value.(finalizer := s'.live.value.finalizer)
    && s'.secret == s.secret && s'.job == s.job
    && (s'.pass.Idle? || (s'.pass.Ending? && s'.pass.copy.base == s.live.value.status && s'.pass.copy.status.id == ""))
  }

  lemma BlankEnds(s: State, s': State, c: Calls)
    requires s.live.Some? && s.live.value.status.id == "" && Blank(s, s')
    ensures var end := Persist(Release(Finalize(s', c.token, c.delete), c.release), c.persist);
      && end.pass.Idle? && end.live.Some? && end.live.value.spec == s.live.value.spec
      && end.live.value.status.id == "" && end.secret == s.secret && end.job == s.job
      && (s'.pass.Ending? && !s'.pass.copy.status.ready && c.persist.Applied? ==> !end.live.value.status.ready)
  {
  }

  /** Where a pass ends that does not get to resolving. */
  lemma NotBegun(s: State, c: Calls)
    requires Begins(s, c) && !Begun(s, c) && s.live.value.status.id == ""
    ensures var s' := Begin(s, c.token, c.finalizer);
      Blank(s, s') && (c.finalizer.Applied? ==> s'.pass.Ending? && !s'.pass.copy.status.ready)
  {
  }

  lemma NotFound(s: State, c: Calls)
    requires Begins(s, c) && !Finds(s, c) && s.live.value.status.id == ""
    ensures var s' := Resolve(Opened(s), c.resolve); Blank(s, s') && s'.pass.Ending? && !s'.pass.copy.status.ready
  {
  }

  lemma NotSettled(s: State, c: Calls)
    requires Begins(s, c) && Finds(s, c) && !Settles(s, c, Target(s, c).value) && s.live.value.status.id == ""
    ensures var s' := SettleRemote(Resolve(Opened(s), c.resolve), c.settle);
      Blank(s, s') && s'.pass.Ending? && !s'.pass.copy.status.ready
  {
    ResolveWorks(s, c);
  }

  /** A pass that does not get to the ID leaves the resource without one. */
  lemma NothingRecorded(s: State, c: Calls)
    requires Begins(s, c) && !Records(s, c) && s.live.value.status.id == ""
    ensures var end := After(s, PassSteps(c));
      && end.pass.Idle? && end.live.Some? && end.live.value.spec == s.live.value.spec
      && end.live.value.status.id == "" && end.secret == s.secret && end.job == s.job
      && (c.finalizer.Applied? && c.persist.Applied? ==> !end.live.value.status.ready)
  {
    PassedIsRun(s, c);
    if !Begun(s, c) {
      var begun := Begin(s, c.token, c.finalizer);
      NotBegun(s, c);
      EndedSkips(begun, c);
      BlankEnds(s, begun, c);
    } else {
      BeginWorks(s, c);
      var resolved := Resolve(Opened(s), c.resolve);
      var settled := SettleRemote(resolved, c.settle);
      if !Finds(s, c) {
        NotFound(s, c);
        assert settled == resolved;
      } else {
        NotSettled(s, c);
      }
      EndingSkips(settled, c);
      BlankEnds(s, settled, c);
    }
  }

  lemma EndingSkips(s: State, c: Calls)
    requires s.pass.Ending?
    ensures StartInit(WriteSecret(ReadSecret(s, c.readable, c.seedReadable, false, c.generated), c.write), c.init) == s
  {
  }

  /** The end of a first pass that could not write the Secret. */
  lemma GivesUp(s: State, c: Calls)
    requires s.pass.Ending? && !s.pass.copy.status.ready && s.live.Some? && c.persist.Applied?
    requires s.live.value.status == s.pass.copy.base && s.job.None?
    ensures var end := Persist(Release(Finalize(StartInit(s, c.init), c.token, c.delete), c.release), c.persist);
      && end.pass.Idle? && end.live == Some(s.live.value.(status := s.pass.copy.status))
      && end.secret == s.secret && end.job.None?
  {
    PassEnds(s, c);
  }

  /** What becomes of the Secret of a resource without a seed, however the calls end. */
  lemma SecretWriteExactly(s: State, c: Calls)
    requires s.pass.Reading? && s.pass.copy.spec.seed.None?
    ensures var copy := s.pass.copy;
      var wrote := WriteSecret(ReadSecret(s, c.readable, c.seedReadable, false, c.generated), c.write);
      HasNoPassword(wrote.secret) <==>
        && HasNoPassword(s.secret)
        && (!c.readable || !Serves(s.pass.remote) || c.write.Rejected?
            || !CanWrite(s.secret, false, Provisioned(copy, s.pass.remote)))
  {
    NoUrlPhase(s, c);
    var read := ReadSecret(s, c.readable, c.seedReadable, false, c.generated);
    if Serves(s.pass.remote) && c.readable {
      ReadPhase(s, c.generated);
      assert read == ReadSecret(s, true, true, false, c.generated);
    }
    if read.pass.Writing? {
      WritePhase(read, c.write);
    }
  }

  /** From the Secret on a pass ends, with the ID in its copy. */
  lemma SecretEnds(s: State, c: Calls)
    requires s.pass.Reading?
    ensures var wrote := WriteSecret(ReadSecret(s, c.readable, c.seedReadable, false, c.generated), c.write);
      var end := StartInit(wrote, c.init);
      && end.pass.Ending? && end.live == s.live && end.me == s.me && end.secret == wrote.secret
      && end.pass.copy.base == s.pass.copy.base && end.pass.copy.spec == s.pass.copy.spec
      && end.pass.copy.status.id == s.pass.copy.status.id
  {
  }

  /** What is found in the account, or made, has an ID. */
  lemma TargetHasID(s: State, c: Calls)
    requires Begins(s, c) && Target(s, c).Some?
    ensures Target(s, c).value.id != ""
  {
    if s.live.value.spec.existingID == "" {
      ListedIsThere(c.resolve.listing, s.account, s.live.value.spec.name);
    }
  }

  /**
   * However its calls end, a first pass leaves a resource that never gets a Secret exactly when it got to the ID and
   * recorded it, there is no seed and no password, and the Secret could not be read, the remote has no REST password,
   * the write of the Secret failed, or no password could be made up.
   */
  lemma FirstPassSticksExactly(s: State, c: Calls)
    requires Unstarted(s) && Begins(s, c)
    ensures Stuck(After(s, PassSteps(c))) <==>
      && Records(s, c) && !c.persist.Rejected? && s.live.value.spec.seed.None? && HasNoPassword(s.secret)
      && (!c.readable || !Serves(Target(s, c).value) || c.write.Rejected? || !CanStart(s, c))
  {
    if Records(s, c) {
      var settled := SettleRemote(Resolve(Opened(s), c.resolve), c.settle);
      FirstReaches(s, c);
      FirstTail(s, settled, c);
      TargetHasID(s, c);
      SecretEnds(settled, c);
      if s.live.value.spec.seed.None? {
        SecretWriteExactly(settled, c);
      }
      SticksAtEnd(StartInit(WriteSecret(
        ReadSecret(settled, c.readable, c.seedReadable, false, c.generated), c.write), c.init), c);
    } else {
      NothingRecorded(s, c);
    }
  }

  /** How a pass that is about to record the ID leaves the resource. */
  lemma SticksAtEnd(s: State, c: Calls)
    requires s.pass.Ending? && s.live.Some? && s.live.value.status == s.pass.copy.base
    requires s.pass.copy.base.id == "" && s.pass.copy.status.id != "" && s.live.value.spec == s.pass.copy.spec
    ensures var end := Persist(Release(Finalize(s, c.token, c.delete), c.release), c.persist);
      Stuck(end) <==> !c.persist.Rejected? && s.live.value.spec.seed.None? && HasNoPassword(s.secret)
  {
    PassEnds(s, c);
  }

  // ----- the init Job and the second pass

  /** The init Job runs: its pod tries the Secret's credentials, and the Job's end is reported. */
  function JobSteps(s: State, failed: bool): seq<Step>
    requires s.job.Some? && s.secret.Some? && s.live.Some?
  {
    [StartPodStep, RunPodStep(Pod(s.job.value.uid, s.secret.value.url, s.secret.value.password),
      s.live.value.status.id), ReportJobStep(failed)]
  }

  lemma JobRun(s: State, failed: bool)
    requires s.job.Some? && s.secret.Some? && s.live.Some?
    ensures var pod := Pod(s.job.value.uid, s.secret.value.url, s.secret.value.password);
      After(s, JobSteps(s, failed)) == ReportJob(RunPod(StartPod(s), pod, s.live.value.status.id), failed)
  {
    var pod := Pod(s.job.value.uid, s.secret.value.url, s.secret.value.password);
    var id := s.live.value.status.id;
    AfterThree(s, StartPodStep, RunPodStep(pod, id), ReportJobStep(failed));
    PodStepsAre(s, StartPod(s), RunPod(StartPod(s), pod, id), pod, id, failed);
  }

  lemma PodStepsAre(s: State, s': State, s'': State, pod: Pod, id: string, failed: bool)
    ensures Next(s, StartPodStep) == StartPod(s)
    ensures Next(s', RunPodStep(pod, id)) == RunPod(s', pod, id)
    ensures Next(s'', ReportJobStep(failed)) == ReportJob(s'', failed)
  {
  }

  /** The Secret's password is a key of the recorded remote, or becomes the first one. */
  predicate FitsNow(s: State)
    requires s.live.Some? && s.secret.Some?
  {
    var keys := KeysOf(s, s.live.value.status.id);
    keys == {} || s.secret.value.password in keys
  }

  /** The Job succeeds exactly if the password fits, which then is a key. */
  lemma JobWorks(s: State, spec: Spec, failed: bool)
    requires Provisioning(s, spec) && JustStarted(s)
    ensures var end := After(s, JobSteps(s, failed));
      && Provisioning(end, spec) && (end.job.value.succeeded <==> FitsNow(s)) && end.secret == s.secret
      && (FitsNow(s) ==> s.secret.value.password in KeysOf(end, s.live.value.status.id))
      && end.live == s.live && end.me == s.me
  {
    var pod := Pod(s.job.value.uid, s.secret.value.url, s.secret.value.password);
    var id := s.live.value.status.id;
    JobRun(s, failed);
    UrlLeadsHome(s.account[id]);
    PodWorks(s, pod, id, failed);
  }

  /** A pod with the Secret's credentials changes nothing but its key and its Job. */
  lemma PodWorks(s: State, pod: Pod, id: string, failed: bool)
    requires JustStarted(s) && s.secret.Some? && s.secret.value.password != ""
    requires pod == Pod(s.job.value.uid, s.secret.value.url, s.secret.value.password) && Reaches(s, pod.url, id)
    ensures var end := ReportJob(RunPod(StartPod(s), pod, id), failed);
      var fits := KeysOf(s, id) == {} || pod.password in KeysOf(s, id);
      && end == s.(pods := end.pods, keys := end.keys, finished := end.finished,
        job := Some(s.job.value.(succeeded := fits, failed := !fits && failed)))
      && end.keys.Keys == s.keys.Keys && (fits ==> pod.password in end.keys[id])
  {
  }

  /** The remote that is recorded is found again. */
  lemma SecondReaches(s: State, spec: Spec, c: Calls)
    requires Provisioning(s, spec) && Works(s, c) && Answered(c) && Undisputed(s, c, s.live.value.status.id)
    ensures ReachesSecret(s, SettleRemote(Resolve(Opened(s), c.resolve), c.settle), Found(s),
      s.account[s.live.value.status.id])
  {
    var start := Opened(s);
    SameAccount(start);
    assert Resolve(start, c.resolve) == start.(pass := Settling(Found(s), s.account[s.live.value.status.id]));
    SettledReaches(s, Resolve(start, c.resolve), c);
  }

  /** Ready follows the Job. */
  lemma SecondEnd(s: State, c: Calls)
    requires s.pass.Starting? && Faultless(c) && s.job.Some? && s.live.Some?
    requires !s.pass.copy.status.initialized && s.live.value.status == s.pass.copy.base
    ensures var end := Persist(Release(Finalize(StartInit(s, c.init), c.token, c.delete), c.release), c.persist);
      var done := s.job.value.succeeded;
      && end.live.Some? && end.live.value.status == s.pass.copy.status.(initialized := done, ready := done)
      && end.secret == s.secret && end.keys == s.keys
  {
    PassEnds(StartInit(s, c.init), c);
  }

  lemma SecondPass(s: State, spec: Spec, c: Calls)
    requires Provisioning(s, spec) && Works(s, c) && Faultless(c) && Undisputed(s, c, s.live.value.status.id)
    ensures var end := After(s, PassSteps(c)); var id := s.live.value.status.id;
      && end.live.Some? && end.live.value.status.id == id
      && (end.live.value.status.ready <==> s.job.value.succeeded)
      && (end.live.value.status.initialized <==> s.job.value.succeeded)
      && end.secret.Some? && end.secret.value.password == s.secret.value.password && KeysOf(end, id) == KeysOf(s, id)
  {
    var settled := SettleRemote(Resolve(Opened(s), c.resolve), c.settle);
    SecondReaches(s, spec, c);
    FirstTail(s, settled, c);
    SecretPhaseExactly(settled, c);
    SecondEnd(WriteSecret(ReadSecret(settled, true, true, false, c.generated), c.write), c);
  }

  // ----- from nothing to Ready

  /** After the first pass and its Job the resource is ready for another pass, and nobody older has its remote. */
  predicate GoesOn(s: State, c: Calls, failed: bool) {
    s.job.Some? && s.secret.Some? && s.live.Some? ==>
      var next := After(s, JobSteps(s, failed));
      Works(next, c) && next.live.Some? && Undisputed(next, c, next.live.value.status.id)
  }

  /**
   * Without faults, a resource with nothing recorded gets a Job in its first pass exactly if it is not suspended, there
   * is one remote for it, which can be used and which nobody older has, and the Secret can be written: it is the
   * operator's own or missing, and it has a password, there is a seed, or the remote was not used before. After the Job
   * has run, another pass ends with Ready, an initialized repository and a Secret that opens it exactly if the password
   * fits: it is a key, or there was none. Without a Job nothing is written; and if the ID is recorded all the same,
   * without a password and a seed, the resource is stuck.
   */
  lemma BecomesReadyExactly(s: State, c: Calls, c': Calls, failed: bool)
    requires Unstarted(s) && Begins(s, c) && Faultless(c) && Faultless(c')
    requires GoesOn(After(s, PassSteps(c)), c', failed)
    ensures var first := After(s, PassSteps(c));
      && (first.job.Some? <==> Proceeds(s, c))
      && (Proceeds(s, c) ==>
            && first.secret.Some? && first.live.Some?
            && var end := After(After(first, JobSteps(first, failed)), PassSteps(c'));
               && end.live.Some? && end.secret.Some? && end.live.value.status.id == Target(s, c).value.id
               && (end.live.value.status.ready <==> Fits(s, c))
               && (end.live.value.status.initialized <==> Fits(s, c))
               && (Fits(s, c) ==> end.secret.value.password in KeysOf(end, end.live.value.status.id)))
      && (!Proceeds(s, c) ==>
            && first.secret == s.secret && first.live.Some? && !first.live.value.status.ready
            && (Stuck(first) <==>
                  && first.live.value.status.id != "" && HasNoPassword(s.secret)
                  && s.live.value.spec.seed.None?))
  {
    var first := After(s, PassSteps(c));
    if Proceeds(s, c) {
      FirstPassStarts(s, c);
      JobWorks(first, s.live.value.spec, failed);
      SecondPass(After(first, JobSteps(first, failed)), s.live.value.spec, c');
    } else {
      FirstPassFails(s, c);
    }
  }
}
