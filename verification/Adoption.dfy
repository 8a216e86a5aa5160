/** Adopting a repository: when the Secret opens it, and how a resource locks itself out. */
module Adoption {
  import opened Outcomes
  import opened BorgBase
  import opened Claims
  import opened Repository
  import opened RepositoryRuns
  import opened RepositoryLaws
  import opened KeySafety
  import opened Credentials
  import opened Reconciler
  import opened Lifecycle

  /** A resource that adopts a remote of the account, before an ID is recorded. */
  predicate Adopts(s: State, c: Calls) {
    && Works(s, c) && Obtains(s, c) && s.live.value.status.id == ""
    && s.live.value.spec.existingID != "" && Undisputed(s, c, s.live.value.spec.existingID)
    && s.live.value.spec.seed.Some? && (s.secret.Some? ==> s.secret.value.managed)
  }

  /** What the last phases leave of the Secret and the keys. */
  lemma ClosingKeeps(s: State, c: Calls)
    requires s.pass.Starting?
    ensures var end := Persist(Release(Finalize(StartInit(s, c.init), c.token, c.delete), c.release), c.persist);
      end.secret == s.secret && end.keys == s.keys && end.account == s.account
  {
  }

  /** The pass that adopts writes the password in force: the one in the Secret, or else the seed. */
  lemma AdoptingPass(s: State, c: Calls)
    requires Adopts(s, c) && Faultless(c)
    ensures var id := s.live.value.spec.existingID; var end := After(s, PassSteps(c));
      && Managed(end.secret) && LeadsTo(end.secret.value.url, id) && id in end.account
      && KeysOf(end, id) == KeysOf(s, id)
      && end.secret.value.password == Chosen(s.secret, s.live.value.spec.seed, c.generated)
  {
    var settled := SettleRemote(Resolve(Opened(s), c.resolve), c.settle);
    FirstReaches(s, c);
    FirstTail(s, settled, c);
    SecretPhaseExactly(settled, c);
    UrlLeadsHome(Target(s, c).value);
    ClosingKeeps(WriteSecret(ReadSecret(settled, true, true, false, c.generated), c.write), c);
  }

  lemma AfterEdit(s: State, spec: Spec, steps: seq<Step>)
    ensures After(s, [EditStep(spec)] + steps) == After(EditSpec(s, spec), steps)
  {
    assert ([EditStep(spec)] + steps)[1..] == steps;
  }

  /**
   * An edit that adopts, followed by a faultless pass, leads to a Secret that opens the repository exactly if the
   * password already in the Secret is one of its keys, or, if no password was written yet, the seed is.
   */
  lemma AdoptionOpensExactly(s: State, spec: Spec, c: Calls)
    requires s.live.Some? && Admitted(s.live.value.spec, s.live.value.status, spec)
    requires Adopts(EditSpec(s, spec), c) && Faultless(c)
    ensures var id := spec.existingID; var end := After(s, [EditStep(spec)] + PassSteps(c));
      && Managed(end.secret) && LeadsTo(end.secret.value.url, id) && id in end.account
      && (end.secret.value.password in KeysOf(end, id) <==>
            (if HasNoPassword(s.secret) then spec.seed.value else s.secret.value.password) in KeysOf(s, id))
  {
    AfterEdit(s, spec, PassSteps(c));
    AdoptingPass(EditSpec(s, spec), c);
  }

  // ----- locked out

  /** The first pass up to its end, which is cut off before the status is written. */
  function CutShort(c: Calls): seq<Step> {
    OpeningSteps(c) + (SecretSteps(c) + [CrashStep])
  }

  lemma CutShortRun(s: State, c: Calls)
    requires Works(s, c) && Answered(c)
    ensures var settled := SettleRemote(Resolve(Opened(s), c.resolve), c.settle);
      After(s, CutShort(c)) == StartInit(
        WriteSecret(ReadSecret(settled, true, true, false, c.generated), c.write), c.init).(pass := Idle)
  {
    AfterAppend(s, OpeningSteps(c), SecretSteps(c) + [CrashStep]);
    AfterThree(s, BeginStep(c.token, c.finalizer), ResolveStep(c.resolve), SettleStep(c.settle));
    BeginWorks(s, c);
    var s1 := After(s, OpeningSteps(c));
    AfterAppend(s1, SecretSteps(c), [CrashStep]);
    AfterThree(s1, ReadStep(c.readable, c.seedReadable, false, c.generated), WriteStep(c.write), InitStep(c.init));
    var s2 := After(s1, SecretSteps(c));
    assert [CrashStep][1..] == [];
    assert After(s2, [CrashStep]) == After(Next(s2, CrashStep), []);
  }

  /** From the Secret on, a resource without one gets a made-up password and a Job. */
  lemma MakesPassword(s: State, c: Calls)
    requires s.pass.Reading? && Serves(s.pass.remote) && Faultless(c) && s.secret.None? && s.pass.copy.spec.seed.None?
    requires !Provisioned(s.pass.copy, s.pass.remote) && s.job.None? && !s.pass.copy.status.initialized
    ensures var end := StartInit(WriteSecret(ReadSecret(s, true, true, false, c.generated), c.write), c.init);
      && end == s.(pass := end.pass, secret := end.secret, job := end.job, clock := end.clock, written := end.written)
      && Managed(end.secret) && end.secret.value.password == c.generated
      && Ok(end.secret.value.url) == ResticURL(s.pass.remote) && Running(end)
  {
    SecretPhaseExactly(s, c);
    InitPhase(WriteSecret(ReadSecret(s, true, true, false, c.generated), c.write), c);
  }

  /** After such a pass the Secret has a made-up password and nothing is recorded. */
  lemma CutShortLeaves(s: State, c: Calls)
    requires Works(s, c) && Obtains(s, c) && Faultless(c) && Proceeds(s, c)
    requires s.job.None? && s.live.value.status == Status("", false, false, false)
    requires s.secret.None? && s.live.value.spec.seed.None? && s.live.value.spec.existingID == ""
    ensures var cut := After(s, CutShort(c)); var settled := SettleRemote(Resolve(Opened(s), c.resolve), c.settle);
      && cut.pass.Idle? && cut.live == Opened(s).live && Managed(cut.secret) && cut.secret.value.password == c.generated
      && AccountNamed(cut) && cut.keys.Keys == cut.account.Keys && (forall i :: KeysOf(cut, i) == KeysOf(s, i))
      && cut.account == settled.account && cut.issued == settled.issued && cut.me == s.me && cut.keys == settled.keys
      && settled.pass.Reading? && Ok(cut.secret.value.url) == ResticURL(settled.pass.remote) && Running(cut)
  {
    CutShortRun(s, c);
    NothingYet(s, c);
    MakesPassword(SettleRemote(Resolve(Opened(s), c.resolve), c.settle), c);
  }

  /** Up to the Secret such a pass has changed nothing but the account. */
  lemma NothingYet(s: State, c: Calls)
    requires Works(s, c) && Obtains(s, c) && Faultless(c) && Proceeds(s, c)
    requires s.job.None? && s.live.value.status == Status("", false, false, false)
    requires s.secret.None? && s.live.value.spec.seed.None? && s.live.value.spec.existingID == ""
    ensures var settled := SettleRemote(Resolve(Opened(s), c.resolve), c.settle);
      && settled.pass.Reading? && settled.live == Opened(s).live && settled.secret.None? && settled.job.None?
      && settled.pass.copy.spec.seed.None? && !settled.pass.copy.status.initialized && Serves(settled.pass.remote)
      && !Provisioned(settled.pass.copy, settled.pass.remote)
      && AccountNamed(settled) && settled.keys.Keys == settled.account.Keys
      && (forall i :: KeysOf(settled, i) == KeysOf(s, i))
  {
    FirstReaches(s, c);
  }

  /**
   * A pass that is cut off before the status is written, an admitted edit that adopts a repository with other keys, and
   * a faultless pass: the Secret leads to the repository and does not open it, although its seed was right.
   */
  lemma LateAdoptionLocksOut(s: State, c: Calls, spec: Spec, c': Calls)
    requires Fresh(s) && Works(s, c) && Obtains(s, c) && Faultless(c) && Proceeds(s, c)
    requires s.secret.None? && s.live.value.spec.seed.None? && s.live.value.spec.existingID == ""
    requires WellFormed(spec) && spec.existingID != "" && KeysOf(s, spec.existingID) != {}
    requires spec.seed.value in KeysOf(s, spec.existingID) && c.generated !in KeysOf(s, spec.existingID)
    requires Adopts(EditSpec(After(s, CutShort(c)), spec), c') && Faultless(c')
    ensures !Opens(After(s, CutShort(c) + ([EditStep(spec)] + PassSteps(c'))))
  {
    var cut := After(s, CutShort(c));
    AfterAppend(s, CutShort(c), [EditStep(spec)] + PassSteps(c'));
    CutShortLeaves(s, c);
    AdoptionOpensExactly(cut, spec, c');
    AfterEdit(cut, spec, PassSteps(c'));
    AdoptingPass(EditSpec(cut, spec), c');
  }

  // ----- such a run

  const OLD: Remote := Remote("aaaa", "old", "us", FORMAT_RESTIC, 0, false, 0, false, 0.0, "x")
  const NEW: Remote := Remote("bbbb", "new", "us", FORMAT_RESTIC, 0, false, 0, false, 0.0, "x")
  const NEXT: Remote := Remote("cccc", "new", "us", FORMAT_RESTIC, 0, false, 0, false, 0.0, "x")

  function PlainSpec(existingID: string, seed: Option<Password>): Spec {
    Spec(false, Retain, existingID, seed, "new", "us", Settings(None, None, false))
  }

  function Smoothly(spec: Spec, listing: seq<Remote>, added: Remote): (c: Calls)
    ensures Faultless(c)
  {
    Calls(true, Applied, ResolveCalls(true, listing, added, Applied), SettleCalls(true, [MyClaim(spec)], Applied), true,
          true, "made", Applied, InitCalls(true, true, Applied), Applied, Applied, Applied)
  }

  const ME: Identity := Identity("ns", "repo", "uid", 0)

  const EMPTY: Status := Status("", false, false, false)

  /** How the resource shows in the list of Repositories. */
  function MyClaim(spec: Spec): Claim {
    ClaimOf(ME, spec, EMPTY)
  }

  /** One old repository with the key "old", and a new resource that is not about it. */
  function Beginning(): State {
    State(ME, Some(Resource(PlainSpec("", None), EMPTY, false, false)), Idle, None, None, 0,
          map["aaaa" := OLD], {"aaaa"}, map["aaaa" := {"old"}], {}, {}, {}, {}, None)
  }

  /** The pass that makes a new repository, and the one that adopts the old one. */
  function FirstCalls(): (c: Calls)
    ensures Faultless(c)
  {
    Smoothly(PlainSpec("", None), [], NEW)
  }

  function AdoptingSpec(): Spec {
    PlainSpec(OLD.id, Some("old"))
  }

  function AdoptingCalls(): (c: Calls)
    ensures Faultless(c)
  {
    Smoothly(AdoptingSpec(), [NEW], NEXT)
  }

  lemma Texts()
    ensures OLD.id != NEW.id && OLD.id != NEXT.id && NEW.id != NEXT.id && OLD.name != NEW.name && "old" != "made"
    ensures NoColon(OLD.id) && NoColon(NEW.id) && NoColon(NEXT.id) && NoColon("")
    ensures Serves(OLD) && Serves(NEW) && OLD.id != "" && NEW.id != ""
  {
    assert OLD.id[0] == 'a' && NEW.id[0] == 'b' && NEXT.id[0] == 'c' && OLD.name[0] == 'o' && NEW.name[0] == 'n';
    assert "made"[0] == 'm' && "old"[0] == 'o';
    assert OLD.htpasswd[0] == 'x' && NEW.htpasswd[0] == 'x';
  }

  /** A list of Repositories that holds the resource alone is no obstacle. */
  lemma AloneIsUndisputed(spec: Spec, id: string)
    ensures !Contested([MyClaim(spec)], MyClaim(spec), id)
  {
  }

  lemma BeginningWorks()
    ensures var s, c := Beginning(), FirstCalls();
      Fresh(s) && Works(s, c) && Obtains(s, c) && Proceeds(s, c)
  {
    Texts();
    AloneIsUndisputed(PlainSpec("", None), NEW.id);
  }

  /** The first pass of the example finds nothing, makes a repository and leaves it as it is. */
  lemma ExampleSettled()
    ensures var c := FirstCalls(); var settled := SettleRemote(Resolve(Opened(Beginning()), c.resolve), c.settle);
      settled.account == map[OLD.id := OLD, NEW.id := NEW] && settled.issued == {OLD.id, NEW.id}
  {
    var s, c := Beginning(), FirstCalls();
    Texts();
    BeginningWorks();
    ResolveWorks(s, c);
    var resolved := Resolve(Opened(s), c.resolve);
    assert resolved.account == map[OLD.id := OLD, NEW.id := NEW];
    assert Matches(s.live.value.spec.settings, NEW);
    SettingsConverge(s.live.value.spec.settings, NEW);
  }

  lemma NewIsListed()
    ensures Lists([NEW], map[OLD.id := OLD, NEW.id := NEW], "new")
  {
    Texts();
  }

  lemma EditWorks()
    ensures Adopts(EditSpec(After(Beginning(), CutShort(FirstCalls())), AdoptingSpec()), AdoptingCalls())
  {
    Texts();
    BeginningWorks();
    CutShortLeaves(Beginning(), FirstCalls());
    ExampleSettled();
    ExampleAdopts(After(Beginning(), CutShort(FirstCalls())));
  }

  lemma ExampleAdopts(cut: State)
    requires cut.pass.Idle? && cut.live == Opened(Beginning()).live && Managed(cut.secret) && AccountNamed(cut)
    requires cut.keys.Keys == cut.account.Keys && cut.me == ME
    requires cut.account == map[OLD.id := OLD, NEW.id := NEW] && cut.issued == {OLD.id, NEW.id}
    ensures Adopts(EditSpec(cut, AdoptingSpec()), AdoptingCalls())
  {
    Texts();
    NewIsListed();
    AloneIsUndisputed(AdoptingSpec(), OLD.id);
  }

  /** The list of Repositories shows the resource as it is. */
  predicate Shown(s: State, c: Calls) {
    s.live.Some? && ClaimOf(s.me, s.live.value.spec, s.live.value.status) in c.settle.claims
  }

  /** In the example the first pass leaves the keys and the resource as they were. */
  lemma ExampleCut()
    ensures var cut := After(Beginning(), CutShort(FirstCalls()));
      && cut.live == Opened(Beginning()).live && cut.me == ME && KeysOf(cut, OLD.id) == {"old"}
  {
    BeginningWorks();
    CutShortLeaves(Beginning(), FirstCalls());
    assert KeysOf(Beginning(), OLD.id) == {"old"};
  }

  lemma ExampleEdit(cut: State)
    requires cut.live == Opened(Beginning()).live && cut.me == ME
    ensures cut.live.Some? && Admitted(cut.live.value.spec, cut.live.value.status, AdoptingSpec())
    ensures Shown(EditSpec(cut, AdoptingSpec()), AdoptingCalls()) && Shown(Beginning(), FirstCalls())
  {
  }

  lemma ExampleSeed()
    ensures var s, spec := Beginning(), AdoptingSpec();
      && s.secret.None? && s.live.value.spec.seed.None? && s.live.value.spec.existingID == ""
      && WellFormed(spec) && spec.existingID != "" && spec.seed.value in KeysOf(s, spec.existingID)
      && FirstCalls().generated !in KeysOf(s, spec.existingID)
  {
    Texts();
  }

  lemma ExampleLocksOut()
    ensures var steps := CutShort(FirstCalls()) + ([EditStep(AdoptingSpec())] + PassSteps(AdoptingCalls()));
      !Opens(After(Beginning(), steps))
  {
    ExampleSeed();
    BeginningWorks();
    EditWorks();
    LateAdoptionLocksOut(Beginning(), FirstCalls(), AdoptingSpec(), AdoptingCalls());
  }

  /**
   * A run from a new resource that ends locked out, although every call of its two passes is answered with the truth,
   * the one edit is admitted and its seed is a key: only the end of the first pass is missing.
   */
  lemma LockedOut() returns (s: State, c: Calls, spec: Spec, c': Calls)
    ensures Fresh(s) && Works(s, c) && Faultless(c) && Shown(s, c)
    ensures var cut := After(s, CutShort(c)); var edited := EditSpec(cut, spec);
      && cut.live.Some? && Admitted(cut.live.value.spec, cut.live.value.status, spec)
      && spec.seed.Some? && spec.existingID != "" && spec.seed.value in KeysOf(cut, spec.existingID)
      && Works(edited, c') && Faultless(c') && Shown(edited, c')
    ensures !Opens(After(s, CutShort(c) + ([EditStep(spec)] + PassSteps(c'))))
  {
    s, c, spec, c' := Beginning(), FirstCalls(), AdoptingSpec(), AdoptingCalls();
    Texts();
    BeginningWorks();
    ExampleCut();
    ExampleEdit(After(s, CutShort(c)));
    EditWorks();
    ExampleLocksOut();
  }
}
