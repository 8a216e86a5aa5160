/** The Secret always opens the repository: over every run, its password is a key as soon as there is one. */
module KeySafety {
  import opened Outcomes
  import opened BorgBase
  import opened Repository
  import opened RepositoryRuns

  // ----- what is asked of users and of the world

  /** The remote with this ID is the resource's own. */
  predicate Own(s: State, id: string) {
    && s.live.Some? && id in s.account
    && var r := s.live.value;
       if r.spec.existingID != "" then id == r.spec.existingID
       else if r.status.id != "" then id == r.status.id
       else s.account[id].name == r.spec.name
  }

  predicate OwnKey(s: State, key: string) {
    exists id :: id in s.account && Own(s, id) && key in KeysOf(s, id)
  }

  predicate OwnBlank(s: State) {
    forall id :: id in s.account && Own(s, id) ==> KeysOf(s, id) == {}
  }

  /** A seed is taken away, or is a key, or comes before there is anything to unlock. */
  predicate GoodSeed(s: State, seed: Option<Password>)
    requires s.live.Some?
  {
    || seed.None? || seed == s.live.value.spec.seed
    || OwnKey(s, seed.value)
    || (s.written.None? && s.pass.Idle? && OwnBlank(s))
  }

  /** Nothing holds the key that is being removed, and another one stays. */
  predicate Unused(s: State, id: string, key: string) {
    && KeysOf(s, id) != {key}
    && (s.secret.Some? ==> s.secret.value.password != key)
    && (s.live.Some? ==> s.live.value.spec.seed != Some(key))
    && key !in s.added
    && (!s.pass.Idle? ==> s.pass.copy.spec.seed != Some(key))
    && (s.pass.Writing? ==> s.pass.password != key)
  }

  /** The remotes of that name are one at most. */
  predicate OneOfAKind(s: State, name: string) {
    forall i, j :: i in s.account && j in s.account ==> (s.account[i].name == name == s.account[j].name ==> i == j)
  }

  /**
   * Where there are keys, the seed is one of them. Without a seed, which only a resource that does not adopt can be,
   * some use of the remote tells of them.
   */
  predicate RightSeed(s: State, seed: Option<Password>, id: string) {
    id in s.account && KeysOf(s, id) != {} ==>
      if seed.Some? then seed.value in KeysOf(s, id) else s.account[id].usage > 0.0
  }

  /** The seed is right for the repository that is adopted or found by name, and the name is one of a kind. */
  predicate RightSpec(s: State, spec: Spec) {
    && WellFormed(spec) && NoColon(spec.existingID)
    && if spec.existingID != "" then RightSeed(s, spec.seed, spec.existingID)
       else
         && OneOfAKind(s, spec.name)
         && (forall i :: i in s.account && s.account[i].name == spec.name ==> RightSeed(s, spec.seed, i))
  }

  /** The own remote, found by name, has keys that nothing but the seed or its use tells of. */
  predicate Exposed(s: State, id: string) {
    && s.written.None? && s.live.Some? && s.live.value.spec.existingID == "" && s.live.value.status.id == ""
    && KeysOf(s, id) != {}
  }

  /** The remote that a spec is about is still the same. */
  predicate SameRemote(r: Resource, spec: Spec) {
    && spec.existingID == r.spec.existingID
    && (spec.name == r.spec.name || spec.existingID != "" || r.status.id != "")
  }

  /** An edit leaves the remote and keeps the seed right, or comes before a password was written and is right itself. */
  predicate RightEdit(s: State, spec: Spec)
    requires s.live.Some?
  {
    || (SameRemote(s.live.value, spec) && GoodSeed(s, spec.seed) && StaysTold(s, spec.seed))
    || (s.written.None? && s.pass.Idle? && s.live.value.status.id == "" && RightSpec(s, spec))
  }

  /** A seed is not taken away while nothing else tells of the keys. */
  predicate StaysTold(s: State, seed: Option<Password>) {
    seed.None? ==> forall id :: id in s.account && Own(s, id) && Exposed(s, id) ==> s.account[id].usage > 0.0
  }

  /** A remote whose use may be all that tells of its keys stays in use. */
  predicate StaysUsed(s: State, remote: Remote) {
    remote.id in s.account && Own(s, remote.id) && Exposed(s, remote.id) && s.account[remote.id].usage > 0.0 ==>
      remote.usage > 0.0
  }

  /** Nobody else makes a remote that the resource could take for its own. */
  predicate KeepsAway(s: State, remote: Remote)
    requires s.live.Some?
  {
    var r := s.live.value;
    remote.id != r.spec.existingID && (r.spec.existingID == "" && r.status.id == "" ==> remote.name != r.spec.name)
  }

  /** Users edit rightly, remove unused keys only and drop the Secret only once the ID is recorded; others keep away. */
  predicate Allowed(s: State, step: Step) {
    match step
    case EditStep(spec) => s.live.Some? ==> RightEdit(s, spec)
    case DropSecretStep => s.live.Some? ==> s.live.value.status.id != ""
    case RemoveKeyStep(id, key) => Unused(s, id, key)
    case ChangeRemoteStep(remote) => StaysUsed(s, remote)
    case ForeignStep(remote, _) => s.live.Some? ==> KeepsAway(s, remote)
    case _ => true
  }

  // ----- the invariant, for the one remote the resource is about; "" before there is one

  predicate Refers(x: string, id: string) {
    x == "" || x == id
  }

  predicate Working(p: Pass) {
    p.Resolving? || p.Settling? || p.Reading? || p.Writing? || p.Starting?
  }

  predicate Managed(secret: Option<Secret>) {
    secret.Some? && secret.value.managed
  }

  predicate SeedIn(seed: Option<Password>, p: Option<Password>) {
    seed.None? || seed == p
  }

  predicate AccountOk(s: State) {
    && s.keys.Keys == s.account.Keys && s.account.Keys <= s.issued
    && forall i :: i in s.account ==> s.account[i].id == i && i != "" && NoColon(i)
  }

  predicate LiveOk(s: State, id: string) {
    s.live.Some? ==>
      var r := s.live.value;
      && Refers(r.status.id, id) && WellFormed(r.spec)
      && (r.spec.existingID != "" ==> r.spec.existingID == id)
      && (r.spec.existingID == "" && r.status.id == "" ==>
            forall i :: i in s.account ==> (s.account[i].name == r.spec.name <==> i == id))
      && (r.status.initialized ==> r.status.id != "")
  }

  predicate CopyOk(s: State, id: string) {
    !s.pass.Idle? ==>
      var c := s.pass.copy;
      && Refers(c.base.id, id) && Refers(c.status.id, id)
      && (c.base.id != "" ==> c.status.id != "")
      && (c.base.initialized ==> c.base.id != "") && (c.status.initialized ==> c.status.id != "")
      && (s.live.Some? ==>
            && c.spec.existingID == s.live.value.spec.existingID
            && (c.spec.existingID == "" && c.base.id == "" ==> c.spec.name == s.live.value.spec.name)
            && s.live.value.status.id == c.base.id && (s.live.value.status.initialized ==> c.base.initialized))
  }

  predicate PassOk(s: State, id: string) {
    && (Working(s.pass) ==> s.live.Some? && s.live.value.finalizer)
    && (s.pass.Finalizing? || s.pass.Releasing? ==> s.live.Some? && s.live.value.finalizer && s.live.value.deleting)
    && (s.pass.Settling? || s.pass.Reading? ==>
          s.pass.remote.id == id && (s.pass.copy.spec.existingID != "" ==> s.pass.copy.status.adopted))
    && (s.pass.Reading? || s.pass.Writing? || s.pass.Starting? ==> s.pass.copy.status.id == id != "")
    && (Working(s.pass) ==> (s.pass.copy.status.initialized ==> s.pass.copy.base.initialized))
    && (s.pass.Writing? ==>
          && LeadsTo(s.pass.url, id)
          && (Managed(s.pass.seen) ==> s.written.Some? && s.pass.password == s.pass.seen.value.password))
    && (s.pass.Starting? ==> s.written.Some?)
  }

  /** Whatever holds credentials holds those of the one remote. */
  predicate UrlsOk(s: State, id: string) {
    && NoColon(id)
    && (Managed(s.secret) ==> LeadsTo(s.secret.value.url, id))
    && (forall p :: p in s.pods ==> LeadsTo(p.url, id))
  }

  /** The resource and the pass see a seed or some use of the remote. */
  predicate TellsOf(s: State, id: string)
    requires s.live.Some? && id in s.account
  {
    var used := s.account[id].usage > 0.0;
    && (s.live.value.spec.seed.Some? || used)
    && (s.pass.Resolving? ==> s.pass.copy.spec.seed.Some? || used)
    && (s.pass.Settling? || s.pass.Reading? ==>
          s.pass.copy.spec.seed.Some? || (used && s.pass.remote.usage > 0.0))
  }

  /**
   * Before the operator has written a password nothing else has happened, and no Secret is missing unnoticed
   * afterwards.
   */
  predicate WrittenOk(s: State, id: string) {
    && (s.written.None? ==>
          && !Managed(s.secret) && s.pods == {} && s.finished == {} && s.job.None? && s.rotating == {} && s.added == {}
          && (s.live.Some? ==> !s.live.value.status.initialized)
          && (!s.pass.Idle? ==> !s.pass.copy.base.initialized && !s.pass.copy.status.initialized)
          && (Exposed(s, id) && id in s.account ==> TellsOf(s, id)))
    && (s.written.Some? ==>
          && (s.secret.Some? ==> s.secret.value.managed && s.secret.value.password != "")
          && (s.secret.None? && s.live.Some? ==> s.live.value.status.id != ""))
  }

  /** As long as there is no key, one password is everywhere. */
  predicate BlankOk(s: State, id: string) {
    id in s.account && KeysOf(s, id) == {} ==>
      && s.finished == {} && s.added == {} && (s.job.Some? ==> !s.job.value.succeeded)
      && (s.live.Some? ==> !s.live.value.status.initialized)
      && (!s.pass.Idle? ==> !s.pass.copy.base.initialized && !s.pass.copy.status.initialized)
      && (s.written.Some? ==>
            && (s.secret.Some? ==> s.secret.value.password == s.written.value)
            && (forall p :: p in s.pods ==> p.password == s.written.value)
            && (s.pass.Writing? ==> s.pass.password == s.written.value)
            && (s.live.Some? ==> SeedIn(s.live.value.spec.seed, s.written))
            && (!s.pass.Idle? ==> SeedIn(s.pass.copy.spec.seed, s.written)))
      && (s.written.None? && Working(s.pass) && s.live.Some? ==> SeedIn(s.live.value.spec.seed, s.pass.copy.spec.seed))
      && (s.written.None? && s.pass.Writing? && s.pass.seen.None? ==>
        SeedIn(s.pass.copy.spec.seed, Some(s.pass.password)))
  }

  /** Once there are keys, every password that is or may get into the Secret is one. */
  predicate KeyedOk(s: State, id: string) {
    id in s.account && KeysOf(s, id) != {} ==>
      && (Managed(s.secret) ==> s.secret.value.password in KeysOf(s, id))
      && (s.pass.Writing? && (s.pass.seen.None? || Managed(s.pass.seen)) ==> s.pass.password in KeysOf(s, id))
      && (s.live.Some? && s.live.value.spec.seed.Some? ==> s.live.value.spec.seed.value in KeysOf(s, id))
      && ((s.pass.Resolving? || s.pass.Settling? || s.pass.Reading?) && s.pass.copy.spec.seed.Some? ==>
        s.pass.copy.spec.seed.value in KeysOf(s, id))
      && (forall p :: p in s.added ==> p in KeysOf(s, id))
  }

  /** There is no remote yet, or the finalizer deleted it. */
  predicate AbsentOk(s: State, id: string) {
    && (id == "" || id in s.issued || s.live.None? || s.live.value.spec.existingID == id)
    && (id !in s.account ==>
          || BeforeRemote(s)
          || (id in s.issued && !Working(s.pass) && (s.live.None? || s.live.value.deleting)))
  }

  predicate BeforeRemote(s: State) {
    && s.written.None? && (s.live.Some? ==> s.live.value.status.id == "")
    && (!s.pass.Idle? ==>
          && s.pass.copy.base.id == "" && s.pass.copy.status.id == ""
          && (Working(s.pass) ==> s.pass.Resolving?))
    && (s.pass.Resolving? && s.live.Some? ==> SeedIn(s.live.value.spec.seed, s.pass.copy.spec.seed))
  }

  /** The resource, the copy a pass works on and the account are about the same remote. */
  predicate Focused(s: State, id: string) {
    AccountOk(s) && LiveOk(s, id) && CopyOk(s, id) && AbsentOk(s, id)
  }

  predicate Shape(s: State, id: string) {
    Focused(s, id) && PassOk(s, id) && UrlsOk(s, id) && VersionsOk(s)
  }

  predicate Keyring(s: State, id: string) {
    WrittenOk(s, id) && BlankOk(s, id) && KeyedOk(s, id)
  }

  predicate Inv(s: State, id: string) {
    Shape(s, id) && Keyring(s, id)
  }

  // ----- the steps of a pass

  /** The resource gets its finalizer, or is marked as being deleted. */
  lemma MarkKeepsShape(s: State, id: string, r: Resource)
    requires Inv(s, id) && s.live.Some? && r == s.live.value.(finalizer := r.finalizer, deleting := r.deleting)
    requires (s.live.value.finalizer ==> r.finalizer) && (s.live.value.deleting ==> r.deleting)
    ensures Shape(s.(live := Some(r)), id)
  {
  }

  lemma MarkKeepsKeyring(s: State, id: string, r: Resource)
    requires Inv(s, id) && s.live.Some? && r == s.live.value.(finalizer := r.finalizer, deleting := r.deleting)
    ensures Keyring(s.(live := Some(r)), id)
  {
  }

  lemma OpenKeepsShape(s: State, id: string, pass: Pass)
    requires Inv(s, id) && s.pass.Idle? && s.live.Some? && s.live.value.finalizer
    requires var r := s.live.value; var copy := Copy(r.spec, r.status, r.status);
      pass == if r.deleting then Finalizing(copy) else if pass.Resolving? then Resolving(copy) else NotReady(copy)
    ensures Shape(s.(pass := pass), id)
  {
  }

  lemma OpenKeepsKeyring(s: State, id: string, pass: Pass)
    requires Inv(s, id) && s.pass.Idle? && s.live.Some? && s.live.value.finalizer
    requires var r := s.live.value; var copy := Copy(r.spec, r.status, r.status);
      pass == if r.deleting then Finalizing(copy) else if pass.Resolving? then Resolving(copy) else NotReady(copy)
    ensures Keyring(s.(pass := pass), id)
  {
  }

  /** A pass opens with a copy of the resource as it is. */
  lemma OpenKeeps(s: State, id: string, pass: Pass)
    requires Inv(s, id) && s.pass.Idle? && s.live.Some? && s.live.value.finalizer
    requires var r := s.live.value; var copy := Copy(r.spec, r.status, r.status);
      pass == if r.deleting then Finalizing(copy) else if pass.Resolving? then Resolving(copy) else NotReady(copy)
    ensures Inv(s.(pass := pass), id)
  {
    OpenKeepsShape(s, id, pass);
    OpenKeepsKeyring(s, id, pass);
  }

  lemma BeginKeeps(s: State, id: string, token: bool, finalizer: Write)
    requires Inv(s, id)
    ensures Inv(Begin(s, token, finalizer), id)
  {
    if s.pass.Idle? && s.live.Some? {
      var r := s.live.value.(finalizer := true);
      MarkKeepsShape(s, id, r);
      MarkKeepsKeyring(s, id, r);
      var marked := s.(live := Some(r));
      var pass := Begin(s, token, finalizer).pass;
      if !pass.Idle? {
        OpenKeeps(marked, id, pass);
        assert s.live.value.deleting ==> marked == s;
      }
    }
  }

  lemma GiveUpKeepsShape(s: State, id: string, copy: Copy)
    requires Inv(s, id) && !s.pass.Idle?
    requires copy == s.pass.copy.(status := copy.status)
    requires copy.status.id == s.pass.copy.status.id && copy.status.initialized == s.pass.copy.status.initialized
    ensures Shape(s.(pass := Ending(copy)), id)
  {
  }

  lemma GiveUpKeepsKeyring(s: State, id: string, copy: Copy)
    requires Inv(s, id) && !s.pass.Idle?
    requires copy == s.pass.copy.(status := copy.status)
    requires copy.status.id == s.pass.copy.status.id && copy.status.initialized == s.pass.copy.status.initialized
    ensures Keyring(s.(pass := Ending(copy)), id)
  {
  }

  /** Giving up keeps everything but the phase. */
  lemma GiveUpKeeps(s: State, id: string, copy: Copy)
    requires Inv(s, id) && !s.pass.Idle?
    requires copy == s.pass.copy.(status := copy.status)
    requires copy.status.id == s.pass.copy.status.id && copy.status.initialized == s.pass.copy.status.initialized
    ensures Inv(s.(pass := Ending(copy)), id)
  {
    GiveUpKeepsShape(s, id, copy);
    GiveUpKeepsKeyring(s, id, copy);
  }

  lemma SettlingKeepsShape(s: State, id: string, adopted: bool, remote: Remote)
    requires Inv(s, id) && s.pass.Resolving? && remote.id == id && id in s.account
    requires s.pass.copy.spec.existingID != "" ==> adopted
    ensures var copy := s.pass.copy;
      Shape(s.(pass := Settling(copy.(status := copy.status.(adopted := adopted)), remote)), id)
  {
  }

  lemma SettlingKeepsKeyring(s: State, id: string, adopted: bool, remote: Remote)
    requires Inv(s, id) && s.pass.Resolving? && remote.id == id && id in s.account && remote == s.account[id]
    requires s.pass.copy.spec.existingID != "" ==> adopted
    ensures var copy := s.pass.copy;
      Keyring(s.(pass := Settling(copy.(status := copy.status.(adopted := adopted)), remote)), id)
  {
  }

  lemma SettlingKeeps(s: State, id: string, adopted: bool, remote: Remote)
    requires Inv(s, id) && s.pass.Resolving? && remote.id == id && id in s.account && remote == s.account[id]
    requires s.pass.copy.spec.existingID != "" ==> adopted
    ensures var copy := s.pass.copy;
      Inv(s.(pass := Settling(copy.(status := copy.status.(adopted := adopted)), remote)), id)
  {
    SettlingKeepsShape(s, id, adopted, remote);
    SettlingKeepsKeyring(s, id, adopted, remote);
  }

  /** A remote that Add made becomes the resource's own. */
  lemma AddKeeps(s: State, id: string, added: Remote, pass: Pass)
    requires Inv(s, id) && s.pass.Resolving? && id !in s.account
    requires MadeBy(added, s.account, s.pass.copy.spec) && added.id !in s.issued
    requires s.pass.copy.spec.existingID == "" && s.pass.copy.status.id == ""
    requires forall i :: i in s.account ==> s.account[i].name != s.pass.copy.spec.name
    requires pass == Settling(s.pass.copy, added) || pass == NotReady(s.pass.copy)
    ensures var account := s.account[added.id := added];
      Inv(s.(account := account, issued := s.issued + account.Keys, keys := KeysFor(s, account), pass := pass),
        added.id)
  {
    assert BeforeRemote(s);
    assert KeysOf(s, added.id) == {};
  }

  function Focus(s: State, id: string, step: Step): string {
    if step.ResolveStep? && Next(s, step).account != s.account then step.resolve.added.id else id
  }

  lemma ResolveFoundKeeps(s: State, id: string, calls: ResolveCalls)
    requires Inv(s, id) && s.pass.Resolving? && Answers(s, calls)
    requires ResolveRepo(s.account, s.pass.copy.spec, s.pass.copy.status, calls).account == s.account
    ensures Inv(Resolve(s, calls), id)
  {
    var copy := s.pass.copy;
    var r := ResolveRepo(s.account, copy.spec, copy.status, calls);
    KeysStay(s, s.account);
    assert s.issued + s.account.Keys == s.issued;
    assert Resolve(s, calls) == s.(pass := Resolve(s, calls).pass);
    if r.remote.Some? {
      OwnRemote(s, id, calls);
      SettlingKeeps(s, id, r.status.adopted, r.remote.value);
    } else {
      GiveUpKeeps(s, id, copy.(status := r.status.(ready := false)));
    }
  }

  lemma ResolveKeeps(s: State, id: string, calls: ResolveCalls)
    requires Inv(s, id)
    ensures Inv(Resolve(s, calls), Focus(s, id, ResolveStep(calls)))
  {
    if s.pass.Resolving? && Answers(s, calls) {
      if ResolveRepo(s.account, s.pass.copy.spec, s.pass.copy.status, calls).account == s.account {
        ResolveFoundKeeps(s, id, calls);
      } else {
        ResolveAddKeeps(s, id, calls);
      }
    }
  }

  lemma ResolveAddKeeps(s: State, id: string, calls: ResolveCalls)
    requires Inv(s, id) && s.pass.Resolving? && Answers(s, calls)
    requires ResolveRepo(s.account, s.pass.copy.spec, s.pass.copy.status, calls).account != s.account
    ensures Inv(Resolve(s, calls), calls.added.id)
  {
    ListedIsThere(calls.listing, s.account, s.pass.copy.spec.name);
    AddKeeps(s, id, calls.added, Resolve(s, calls).pass);
  }

  lemma OwnRemote(s: State, id: string, calls: ResolveCalls)
    requires Inv(s, id) && s.pass.Resolving? && Answers(s, calls)
    requires var r := ResolveRepo(s.account, s.pass.copy.spec, s.pass.copy.status, calls);
      r.account == s.account && r.remote.Some?
    ensures var r := ResolveRepo(s.account, s.pass.copy.spec, s.pass.copy.status, calls);
      && id in s.account && r.remote.value == s.account[id] && r.remote.value.id == id
      && (s.pass.copy.spec.existingID != "" ==> r.status.adopted)
  {
    ListedIsThere(calls.listing, s.account, s.pass.copy.spec.name);
    assert calls.added.id !in s.account;
  }

  /** The account may change in everything but IDs and names, and the use that tells of keys. */
  lemma AccountKeeps(s: State, id: string, account: map<string, Remote>)
    requires Inv(s, id) && account.Keys == s.account.Keys
    requires id in account && Exposed(s, id) && s.account[id].usage > 0.0 ==> account[id].usage > 0.0
    requires forall i :: i in account ==> account[i].id == i && account[i].name == s.account[i].name
    ensures Inv(s.(account := account, keys := KeysFor(s, account)), id)
  {
    KeysStay(s, account);
    AccountKeepsShape(s, id, account);
    AccountKeepsKeyring(s, id, account);
  }

  lemma AccountKeepsShape(s: State, id: string, account: map<string, Remote>)
    requires Inv(s, id) && account.Keys == s.account.Keys
    requires forall i :: i in account ==> account[i].id == i && account[i].name == s.account[i].name
    ensures Shape(s.(account := account), id)
  {
  }

  lemma AccountKeepsKeyring(s: State, id: string, account: map<string, Remote>)
    requires Inv(s, id) && account.Keys == s.account.Keys
    requires id in account && Exposed(s, id) && s.account[id].usage > 0.0 ==> account[id].usage > 0.0
    ensures Keyring(s.(account := account), id)
  {
  }

  lemma ReadingKeepsShape(s: State, id: string, remote: Remote)
    requires Inv(s, id) && s.pass.Settling? && remote.id == id && id in s.account
    ensures var copy := s.pass.copy;
      Shape(s.(pass := Reading(copy.(status := copy.status.(id := id)), remote)), id)
  {
  }

  lemma ReadingKeepsKeyring(s: State, id: string, remote: Remote)
    requires Inv(s, id) && s.pass.Settling? && remote.id == id && id in s.account
    requires Exposed(s, id) && s.pass.copy.spec.seed.None? ==> remote.usage > 0.0
    ensures var copy := s.pass.copy;
      Keyring(s.(pass := Reading(copy.(status := copy.status.(id := id)), remote)), id)
  {
  }

  lemma ReadingKeeps(s: State, id: string, remote: Remote)
    requires Inv(s, id) && s.pass.Settling? && remote.id == id && id in s.account
    requires Exposed(s, id) && s.pass.copy.spec.seed.None? ==> remote.usage > 0.0
    ensures var copy := s.pass.copy;
      Inv(s.(pass := Reading(copy.(status := copy.status.(id := id)), remote)), id)
  {
    ReadingKeepsShape(s, id, remote);
    ReadingKeepsKeyring(s, id, remote);
  }

  lemma SettleKeeps(s: State, id: string, calls: SettleCalls)
    requires Inv(s, id)
    ensures Inv(SettleRemote(s, calls), id)
  {
    if s.pass.Settling? {
      var copy := s.pass.copy;
      var r := Settle(s.account, s.me, copy.spec, copy.status, s.pass.remote, calls);
      assert id in s.account;
      AccountKeeps(s, id, r.account);
      var settled := s.(account := r.account, keys := KeysFor(s, r.account));
      if r.result.SettledAt? {
        ReadingKeeps(settled, id, r.result.remote);
      } else {
        GiveUpKeeps(settled, id, copy.(status := copy.status.(ready := false)));
      }
    }
  }

  lemma ReadKeeps(s: State, id: string, readable: bool, seedReadable: bool, late: bool, generated: Password)
    requires Inv(s, id)
    ensures Inv(ReadSecret(s, readable, seedReadable, late, generated), id)
  {
    if s.pass.Reading? && ResticURL(s.pass.remote).Ok? {
      UrlLeadsHome(s.pass.remote);
    }
  }

  lemma WriteKeepsShape(s: State, id: string, write: Write)
    requires Inv(s, id)
    ensures Shape(WriteSecret(s, write), id)
  {
  }

  lemma WriteKeepsKeyring(s: State, id: string, write: Write)
    requires Inv(s, id)
    ensures Keyring(WriteSecret(s, write), id)
  {
  }

  lemma StartKeeps(s: State, id: string, calls: InitCalls)
    requires Inv(s, id)
    ensures Inv(StartInit(s, calls), id)
  {
  }

  lemma PersistKeepsLive(s: State, id: string, write: Write)
    requires Inv(s, id)
    ensures LiveOk(Persist(s, write), id) && AccountOk(Persist(s, write))
  {
  }

  lemma PersistKeepsAbsent(s: State, id: string, write: Write)
    requires Inv(s, id)
    ensures AbsentOk(Persist(s, write), id) && CopyOk(Persist(s, write), id)
  {
  }

  lemma PersistKeepsFocused(s: State, id: string, write: Write)
    requires Inv(s, id)
    ensures Focused(Persist(s, write), id)
  {
    PersistKeepsLive(s, id, write);
    PersistKeepsAbsent(s, id, write);
  }

  lemma PersistKeepsShape(s: State, id: string, write: Write)
    requires Inv(s, id)
    ensures Shape(Persist(s, write), id)
  {
    PersistKeepsFocused(s, id, write);
  }

  lemma PersistKeepsWritten(s: State, id: string, write: Write)
    requires Inv(s, id)
    ensures WrittenOk(Persist(s, write), id)
  {
  }

  lemma PersistKeepsBlank(s: State, id: string, write: Write)
    requires Inv(s, id)
    ensures BlankOk(Persist(s, write), id)
  {
  }

  lemma PersistKeepsKeyring(s: State, id: string, write: Write)
    requires Inv(s, id)
    ensures Keyring(Persist(s, write), id)
  {
    PersistKeepsWritten(s, id, write);
    PersistKeepsBlank(s, id, write);
  }

  lemma CrashKeepsShape(s: State, id: string)
    requires Inv(s, id)
    ensures Shape(s.(pass := Idle), id)
  {
  }

  lemma CrashKeepsKeyring(s: State, id: string)
    requires Inv(s, id)
    ensures Keyring(s.(pass := Idle), id)
  {
  }

  lemma CrashKeeps(s: State, id: string)
    requires Inv(s, id)
    ensures Inv(s.(pass := Idle), id)
  {
    CrashKeepsShape(s, id);
    CrashKeepsKeyring(s, id);
  }

  // ----- the finalizer

  lemma ReleasingKeepsShape(s: State, id: string)
    requires Inv(s, id) && s.pass.Finalizing?
    ensures Shape(s.(pass := Releasing(s.pass.copy)), id)
  {
  }

  lemma ReleasingKeepsKeyring(s: State, id: string)
    requires Inv(s, id) && s.pass.Finalizing?
    ensures Keyring(s.(pass := Releasing(s.pass.copy)), id)
  {
  }

  lemma ReleasingKeeps(s: State, id: string)
    requires Inv(s, id) && s.pass.Finalizing?
    ensures Inv(s.(pass := Releasing(s.pass.copy)), id)
  {
    ReleasingKeepsShape(s, id);
    ReleasingKeepsKeyring(s, id);
  }

  lemma RemoteGoneKeeps(s: State, id: string)
    requires Inv(s, id) && s.pass.Finalizing? && id != ""
    ensures var account := s.account - {id};
      Inv(s.(account := account, keys := KeysFor(s, account)), id)
  {
    var account := s.account - {id};
    assert forall i :: i in account ==> KeysFor(s, account)[i] == s.keys[i];
  }

  lemma FinalizeKeeps(s: State, id: string, api: bool, delete: Write)
    requires Inv(s, id)
    ensures Inv(Finalize(s, api, delete), id)
  {
    if s.pass.Finalizing? {
      var copy := s.pass.copy;
      ReleasingKeeps(s, id);
      GiveUpKeeps(s, id, copy);
      GiveUpKeeps(s, id, copy.(status := copy.status.(ready := false)));
      if copy.base.id != "" {
        RemoteGoneKeeps(s, id);
        var account := s.account - {id};
        var gone := s.(account := account, keys := KeysFor(s, account));
        ReleasingKeeps(gone, id);
        GiveUpKeeps(gone, id, copy);
      }
    }
  }

  lemma GoneKeepsShape(s: State, id: string)
    requires Inv(s, id) && (s.pass.Idle? || s.pass.Ending?)
    ensures Shape(s.(live := None), id)
  {
  }

  lemma GoneKeepsKeyring(s: State, id: string)
    requires Inv(s, id) && (s.pass.Idle? || s.pass.Ending?)
    ensures Keyring(s.(live := None), id)
  {
  }

  lemma GoneKeeps(s: State, id: string)
    requires Inv(s, id) && (s.pass.Idle? || s.pass.Ending?)
    ensures Inv(s.(live := None), id)
  {
    GoneKeepsShape(s, id);
    GoneKeepsKeyring(s, id);
  }

  lemma ReleaseKeeps(s: State, id: string, write: Write)
    requires Inv(s, id)
    ensures Inv(Release(s, write), id)
  {
    if s.pass.Releasing? {
      var ending := s.(pass := Ending(s.pass.copy));
      GiveUpKeeps(s, id, s.pass.copy);
      GoneKeeps(ending, id);
      CrashKeeps(ending.(live := None), id);
    }
  }

  // ----- Jobs and pods

  lemma StartPodKeepsShape(s: State, id: string)
    requires Inv(s, id)
    ensures Shape(StartPod(s), id)
  {
  }

  lemma StartPodKeepsKeyring(s: State, id: string)
    requires Inv(s, id)
    ensures Keyring(StartPod(s), id)
  {
  }

  lemma StartPodKeeps(s: State, id: string)
    requires Inv(s, id)
    ensures Inv(StartPod(s), id)
  {
    StartPodKeepsShape(s, id);
    StartPodKeepsKeyring(s, id);
  }

  lemma PodEndsKeeps(s: State, id: string, job: nat)
    requires Inv(s, id) && s.pods != {} && id in s.account && KeysOf(s, id) != {}
    ensures Inv(s.(finished := s.finished + {job}), id)
  {
  }

  /** restic init makes the one password that is everywhere the first key. */
  lemma FirstKeyKeeps(s: State, id: string, pod: Pod)
    requires Inv(s, id) && pod in s.pods && id in s.account && KeysOf(s, id) == {}
    ensures Inv(s.(keys := s.keys[id := {pod.password}]), id)
  {
    var s' := s.(keys := s.keys[id := {pod.password}]);
    assert KeysOf(s', id) == {pod.password};
  }

  lemma RunPodKeeps(s: State, id: string, pod: Pod, at: string)
    requires Inv(s, id)
    ensures Inv(RunPod(s, pod, at), id)
  {
    if pod in s.pods && Reaches(s, pod.url, at) {
      UrlLeadsHome(s.account[at]);
      LeadsToOne(pod.url, at, id);
      if s.keys[id] == {} {
        FirstKeyKeeps(s, id, pod);
        var keyed := s.(keys := s.keys[id := {pod.password}]);
        PodEndsKeeps(keyed, id, pod.job);
        DropPodKeeps(keyed.(finished := s.finished + {pod.job}), id, pod);
      } else {
        PodEndsKeeps(s, id, pod.job);
        DropPodKeeps(s.(finished := s.finished + {pod.job}), id, pod);
        DropPodKeeps(s, id, pod);
      }
    }
  }

  lemma DropPodKeepsShape(s: State, id: string, pod: Pod)
    requires Inv(s, id)
    ensures Shape(s.(pods := s.pods - {pod}), id)
  {
  }

  lemma DropPodKeepsKeyring(s: State, id: string, pod: Pod)
    requires Inv(s, id)
    ensures Keyring(s.(pods := s.pods - {pod}), id)
  {
  }

  lemma DropPodKeeps(s: State, id: string, pod: Pod)
    requires Inv(s, id)
    ensures Inv(s.(pods := s.pods - {pod}), id)
  {
    DropPodKeepsShape(s, id, pod);
    DropPodKeepsKeyring(s, id, pod);
  }

  lemma JobKeepsShape(s: State, id: string, job: InitJob)
    requires Inv(s, id) && s.job.Some? && (job.succeeded ==> s.job.value.succeeded || job.uid in s.finished)
    ensures Shape(s.(job := Some(job)), id)
  {
  }

  lemma JobKeepsKeyring(s: State, id: string, job: InitJob)
    requires Inv(s, id) && s.job.Some? && (job.succeeded ==> s.job.value.succeeded || job.uid in s.finished)
    ensures Keyring(s.(job := Some(job)), id)
  {
  }

  lemma JobKeeps(s: State, id: string, job: InitJob)
    requires Inv(s, id) && s.job.Some? && (job.succeeded ==> s.job.value.succeeded || job.uid in s.finished)
    ensures Inv(s.(job := Some(job)), id)
  {
    JobKeepsShape(s, id, job);
    JobKeepsKeyring(s, id, job);
  }

  lemma ReportJobKeeps(s: State, id: string, failed: bool)
    requires Inv(s, id)
    ensures Inv(ReportJob(s, failed), id)
  {
    if s.job.Some? {
      JobKeeps(s, id, ReportJob(s, failed).job.value);
    }
  }

  lemma DropJobKeeps(s: State, id: string)
    requires Inv(s, id)
    ensures Inv(s.(job := None), id)
  {
  }

  // ----- rotation

  lemma RotateBeginKeeps(s: State, id: string, password: Password)
    requires Inv(s, id)
    ensures Inv(RotateBegin(s, password), id)
  {
  }

  lemma RotateAddKeeps(s: State, id: string, password: Password, at: string)
    requires Inv(s, id)
    ensures Inv(RotateAdd(s, password, at), id)
  {
    if password in s.rotating && s.secret.Some? && Reaches(s, s.secret.value.url, at) {
      UrlLeadsHome(s.account[at]);
      LeadsToOne(s.secret.value.url, at, id);
    }
  }

  lemma AddedKeepsShape(s: State, id: string, password: Password)
    requires Inv(s, id)
    ensures Shape(s.(added := s.added - {password}), id)
  {
  }

  lemma AddedKeepsKeyring(s: State, id: string, password: Password)
    requires Inv(s, id)
    ensures Keyring(s.(added := s.added - {password}), id)
  {
  }

  lemma AddedKeeps(s: State, id: string, password: Password)
    requires Inv(s, id)
    ensures Inv(s.(added := s.added - {password}), id)
  {
    AddedKeepsShape(s, id, password);
    AddedKeepsKeyring(s, id, password);
  }

  /** The Secret with a new password. */
  function Repassworded(s: State, password: Password): State
    requires s.secret.Some?
  {
    s.(clock := s.clock + 1, secret := Some(s.secret.value.(password := password, version := s.clock)))
  }

  lemma PatchedSecretKeepsShape(s: State, id: string, password: Password)
    requires Inv(s, id) && password in s.added && s.secret.Some?
    ensures Shape(Repassworded(s, password), id)
  {
  }

  lemma PatchedSecretKeepsKeyring(s: State, id: string, password: Password)
    requires Inv(s, id) && password in s.added && s.secret.Some?
    ensures Keyring(Repassworded(s, password), id)
  {
  }

  lemma PatchedSecretKeeps(s: State, id: string, password: Password)
    requires Inv(s, id) && password in s.added && s.secret.Some?
    ensures Inv(Repassworded(s, password), id)
  {
    PatchedSecretKeepsShape(s, id, password);
    PatchedSecretKeepsKeyring(s, id, password);
  }

  lemma RotatePatchKeeps(s: State, id: string, password: Password, write: Write)
    requires Inv(s, id)
    ensures Inv(RotatePatch(s, password, write), id)
  {
    if password in s.added {
      AddedKeeps(s, id, password);
      if s.secret.Some? {
        PatchedSecretKeeps(s, id, password);
        AddedKeeps(Repassworded(s, password), id, password);
      }
    }
  }

  // ----- users and the world

  lemma OwnIsFocus(s: State, id: string)
    requires Inv(s, id) && s.live.Some?
    ensures forall i :: i in s.account && Own(s, i) ==> i == id
    ensures id in s.account ==> Own(s, id)
  {
  }

  lemma SeedEditKeepsShape(s: State, id: string, spec: Spec)
    requires Inv(s, id) && s.live.Some? && SameRemote(s.live.value, spec) && GoodSeed(s, spec.seed) && WellFormed(spec)
    ensures Shape(s.(live := Some(s.live.value.(spec := spec))), id)
  {
    OwnIsFocus(s, id);
  }

  lemma SeedEditKeepsKeyring(s: State, id: string, spec: Spec)
    requires Inv(s, id) && s.live.Some? && SameRemote(s.live.value, spec) && GoodSeed(s, spec.seed) && WellFormed(spec)
    requires StaysTold(s, spec.seed)
    ensures Keyring(s.(live := Some(s.live.value.(spec := spec))), id)
  {
    OwnIsFocus(s, id);
  }

  /** The remote that a right spec is about. */
  lemma RightFocus(s: State, spec: Spec) returns (id: string)
    requires AccountOk(s) && RightSpec(s, spec)
    ensures NoColon(id) && (id == "" || id in s.account || id == spec.existingID)
    ensures spec.existingID != "" ==> id == spec.existingID
    ensures spec.existingID == "" ==>
      forall i :: i in s.account ==> (s.account[i].name == spec.name <==> i == id)
    ensures RightSeed(s, spec.seed, id)
  {
    if spec.existingID != "" {
      id := spec.existingID;
    } else if i :| i in s.account && s.account[i].name == spec.name {
      id := i;
    } else {
      id := "";
    }
  }

  /** Before a password was written the resource may turn to another remote. */
  lemma IdentityEditKeeps(s: State, id: string, spec: Spec) returns (id': string)
    requires Inv(s, id) && s.live.Some? && s.written.None? && s.pass.Idle? && s.live.value.status.id == ""
    requires RightSpec(s, spec)
    ensures Inv(s.(live := Some(s.live.value.(spec := spec))), id')
  {
    id' := RightFocus(s, spec);
  }

  lemma EditKeeps(s: State, id: string, spec: Spec) returns (id': string)
    requires Inv(s, id) && Allowed(s, EditStep(spec))
    ensures Inv(EditSpec(s, spec), id')
  {
    id' := id;
    if s.live.Some? && Admitted(s.live.value.spec, s.live.value.status, spec) {
      if SameRemote(s.live.value, spec) && GoodSeed(s, spec.seed) && StaysTold(s, spec.seed) {
        SeedEditKeepsShape(s, id, spec);
        SeedEditKeepsKeyring(s, id, spec);
      } else {
        id' := IdentityEditKeeps(s, id, spec);
      }
    }
  }

  lemma DeleteKeeps(s: State, id: string)
    requires Inv(s, id)
    ensures Inv(DeleteResource(s), id)
  {
    if s.live.Some? {
      var r := s.live.value.(deleting := true);
      MarkKeepsShape(s, id, r);
      MarkKeepsKeyring(s, id, r);
      if !s.live.value.finalizer {
        GoneKeeps(s, id);
      }
    }
  }

  lemma DropSecretKeepsShape(s: State, id: string)
    requires Inv(s, id) && Allowed(s, DropSecretStep)
    ensures Shape(s.(secret := None), id)
  {
  }

  lemma DropSecretKeepsKeyring(s: State, id: string)
    requires Inv(s, id) && Allowed(s, DropSecretStep)
    ensures Keyring(s.(secret := None), id)
  {
  }

  lemma DropSecretKeeps(s: State, id: string)
    requires Inv(s, id) && Allowed(s, DropSecretStep)
    ensures Inv(s.(secret := None), id)
  {
    DropSecretKeepsShape(s, id);
    DropSecretKeepsKeyring(s, id);
  }

  lemma ClearKeepsShape(s: State, id: string)
    requires Inv(s, id)
    ensures Shape(ClearInitialized(s), id)
  {
  }

  lemma ClearKeepsKeyring(s: State, id: string)
    requires Inv(s, id)
    ensures Keyring(ClearInitialized(s), id)
  {
  }

  lemma ClearKeeps(s: State, id: string)
    requires Inv(s, id)
    ensures Inv(ClearInitialized(s), id)
  {
    ClearKeepsShape(s, id);
    ClearKeepsKeyring(s, id);
  }

  lemma ChangeRemoteKeeps(s: State, id: string, remote: Remote)
    requires Inv(s, id) && Allowed(s, ChangeRemoteStep(remote))
    ensures Inv(ChangeRemote(s, remote), id)
  {
    if remote.id in s.account && remote.name == s.account[remote.id].name {
      var account := s.account[remote.id := remote];
      if s.live.Some? {
        OwnIsFocus(s, id);
      }
      AccountKeeps(s, id, account);
      KeysStay(s, account);
    }
  }

  lemma ForeignKeepsFocused(s: State, id: string, remote: Remote, keys: set<string>)
    requires Inv(s, id) && Allowed(s, ForeignStep(remote, keys))
    ensures Focused(AddForeign(s, remote, keys), id)
  {
  }

  lemma ForeignKeepsShape(s: State, id: string, remote: Remote, keys: set<string>)
    requires Inv(s, id) && Allowed(s, ForeignStep(remote, keys))
    ensures Shape(AddForeign(s, remote, keys), id)
  {
    ForeignKeepsFocused(s, id, remote, keys);
  }

  lemma ForeignKeepsKeyring(s: State, id: string, remote: Remote, keys: set<string>)
    requires Inv(s, id) && Allowed(s, ForeignStep(remote, keys))
    ensures Keyring(AddForeign(s, remote, keys), id)
  {
  }

  lemma RemoveKeyKeepsShape(s: State, id: string, at: string, key: string)
    requires Inv(s, id) && Allowed(s, RemoveKeyStep(at, key))
    ensures Shape(RemoveKey(s, at, key), id)
  {
  }

  lemma RemoveKeyKeepsKeyring(s: State, id: string, at: string, key: string)
    requires Inv(s, id) && Allowed(s, RemoveKeyStep(at, key))
    ensures Keyring(RemoveKey(s, at, key), id)
  {
  }

  // ----- whole runs

  lemma PassStepKeeps(s: State, id: string, step: Step)
    requires Inv(s, id) && ByOperator(step)
    ensures Inv(Next(s, step), Focus(s, id, step))
  {
    match step
    case BeginStep(token, finalizer) => BeginKeeps(s, id, token, finalizer);
    case ResolveStep(calls) => ResolveKeeps(s, id, calls);
    case SettleStep(calls) => SettleKeeps(s, id, calls);
    case ReadStep(readable, seedReadable, late, generated) => ReadKeeps(s, id, readable, seedReadable, late, generated);
    case WriteStep(write) =>
      WriteKeepsShape(s, id, write);
      WriteKeepsKeyring(s, id, write);
    case InitStep(calls) => StartKeeps(s, id, calls);
    case PersistStep(write) =>
      PersistKeepsShape(s, id, write);
      PersistKeepsKeyring(s, id, write);
    case CrashStep => CrashKeeps(s, id);
    case FinalizeStep(api, delete) => FinalizeKeeps(s, id, api, delete);
    case ReleaseStep(write) => ReleaseKeeps(s, id, write);
  }

  lemma OtherStepKeeps(s: State, id: string, step: Step) returns (id': string)
    requires Inv(s, id) && !ByOperator(step) && Allowed(s, step)
    ensures Inv(Next(s, step), id')
  {
    id' := id;
    match step
    case StartPodStep => StartPodKeeps(s, id);
    case RunPodStep(pod, at) => RunPodKeeps(s, id, pod, at);
    case DropPodStep(pod) => DropPodKeeps(s, id, pod);
    case ReportJobStep(failed) => ReportJobKeeps(s, id, failed);
    case RotateBeginStep(password) => RotateBeginKeeps(s, id, password);
    case RotateAddStep(password, at) => RotateAddKeeps(s, id, password, at);
    case RotatePatchStep(password, write) => RotatePatchKeeps(s, id, password, write);
    case EditStep(spec) => id' := EditKeeps(s, id, spec);
    case DeleteStep => DeleteKeeps(s, id);
    case DropSecretStep => DropSecretKeeps(s, id);
    case DropJobStep => DropJobKeeps(s, id);
    case ClearStep => ClearKeeps(s, id);
    case ChangeRemoteStep(remote) => ChangeRemoteKeeps(s, id, remote);
    case ForeignStep(remote, keys) =>
      ForeignKeepsShape(s, id, remote, keys);
      ForeignKeepsKeyring(s, id, remote, keys);
    case RemoveKeyStep(at, key) =>
      RemoveKeyKeepsShape(s, id, at, key);
      RemoveKeyKeepsKeyring(s, id, at, key);
  }

  /** Every step of the run is allowed where it is taken. */
  predicate AllowedRun(s: State, steps: seq<Step>)
    decreases |steps|
  {
    steps == [] || (Allowed(s, steps[0]) && AllowedRun(Next(s, steps[0]), steps[1..]))
  }

  lemma {:induction false} InvRun(s: State, id: string, steps: seq<Step>) returns (id': string)
    requires Inv(s, id) && AllowedRun(s, steps)
    ensures Inv(After(s, steps), id')
    decreases |steps|
  {
    id' := id;
    if steps != [] {
      if ByOperator(steps[0]) {
        PassStepKeeps(s, id, steps[0]);
        id' := Focus(s, id, steps[0]);
      } else {
        id' := OtherStepKeeps(s, id, steps[0]);
      }
      id' := InvRun(Next(s, steps[0]), id', steps[1..]);
    }
  }

  /** A Secret that an earlier resource left behind, for the remote that the new one is about. */
  predicate LeftBehind(s: State, spec: Spec, id: string) {
    && WellFormed(spec) && id in s.account && (spec.existingID != "" ==> id == spec.existingID)
    && (spec.existingID == "" ==> forall i :: i in s.account ==> (s.account[i].name == spec.name <==> i == id))
    && Managed(s.secret) && s.secret.value.password != "" && s.written == Some(s.secret.value.password)
    && LeadsTo(s.secret.value.url, id)
    && var keys := KeysOf(s, id);
       if keys == {} then SeedIn(spec.seed, s.written)
       else s.secret.value.password in keys && (spec.seed.Some? ==> spec.seed.value in keys)
  }

  /** A new resource: nothing recorded and nothing running. */
  predicate Newborn(s: State) {
    && AccountOk(s) && s.pass.Idle? && s.job.None? && s.pods == {} && s.finished == {}
    && s.rotating == {} && s.added == {} && (s.secret.Some? ==> s.secret.value.version < s.clock)
    && s.live.Some? && s.live.value.status == Status("", false, false, false) && !s.live.value.deleting
  }

  /** One with no Secret of the operator and a right spec, or with a Secret left behind. */
  predicate Fresh(s: State) {
    && Newborn(s)
    && var spec := s.live.value.spec;
       || (s.written.None? && !Managed(s.secret) && RightSpec(s, spec))
       || exists id :: id in s.account && LeftBehind(s, spec, id)
  }

  lemma FreshInv(s: State) returns (id: string)
    requires Fresh(s)
    ensures Inv(s, id)
  {
    var spec := s.live.value.spec;
    if s.written.None? {
      id := RightFocus(s, spec);
    } else {
      id :| id in s.account && LeftBehind(s, spec, id);
    }
  }

  /**
   * The operator's Secret opens the repository it leads to, and the one that is recorded, as soon as there are keys.
   */
  predicate Opens(s: State) {
    forall id :: id in s.account && KeysOf(s, id) != {} && Managed(s.secret)
      && (LeadsTo(s.secret.value.url, id) || (s.live.Some? && s.live.value.status.id == id))
      ==> s.secret.value.password in KeysOf(s, id)
  }

  lemma InvOpens(s: State, id: string)
    requires Inv(s, id)
    ensures Opens(s)
  {
    forall i | i in s.account && Managed(s.secret)
      && (LeadsTo(s.secret.value.url, i) || (s.live.Some? && s.live.value.status.id == i))
      ensures i == id
    {
      if LeadsTo(s.secret.value.url, i) {
        LeadsToOne(s.secret.value.url, i, id);
      }
    }
  }

  /** Whatever happens to a new resource, the Secret's password stays a key of its repository. */
  lemma SecretAlwaysOpens(s: State, steps: seq<Step>)
    requires Fresh(s) && AllowedRun(s, steps)
    ensures Opens(After(s, steps))
  {
    var id := FreshInv(s);
    var id' := InvRun(s, id, steps);
    InvOpens(After(s, steps), id');
  }

  /** A resource that says initialized has a repository with a key, unless that was deleted. */
  lemma InitializedHasKeys(s: State, steps: seq<Step>)
    requires Fresh(s) && AllowedRun(s, steps)
    ensures var end := After(s, steps);
      end.live.Some? && end.live.value.status.initialized && end.live.value.status.id in end.account
      ==> KeysOf(end, end.live.value.status.id) != {}
  {
    var id := FreshInv(s);
    var id' := InvRun(s, id, steps);
  }
}
