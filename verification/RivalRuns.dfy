/** How the younger of two resources of one name gets hold of the remote that the older one comes to hold. */
module RivalRuns {
  import opened Outcomes
  import opened BorgBase
  import opened Claims
  import opened Repository
  import opened RepositoryRuns
  import opened KeySafety
  import opened Credentials
  import opened Reconciler
  import opened Lifecycle
  import opened SeedSafety
  import opened Adoption
  import opened Rivals
  import opened RivalKeys

  // ----- one resource at a time

  function Youngers(steps: seq<Step>): seq<Move> {
    seq(|steps|, i requires 0 <= i < |steps| => Younger(steps[i]))
  }

  function Olders(steps: seq<Step>): seq<Move> {
    seq(|steps|, i requires 0 <= i < |steps| => Older(steps[i]))
  }

  lemma {:induction false} YoungerAlone(p: Pair, steps: seq<Step>)
    requires SharesAccount(p)
    ensures var s := After(p.younger, steps); After2(p, Youngers(steps)) == Pair(Follow(p.older, s), s)
    decreases |steps|
  {
    if steps != [] {
      assert Youngers(steps)[1..] == Youngers(steps[1..]);
      YoungerAlone(Step2(p, Younger(steps[0])), steps[1..]);
    }
  }

  lemma {:induction false} OlderAlone(p: Pair, steps: seq<Step>)
    requires SharesAccount(p)
    ensures var s := After(p.older, steps); After2(p, Olders(steps)) == Pair(s, Follow(p.younger, s))
    decreases |steps|
  {
    if steps != [] {
      assert Olders(steps)[1..] == Olders(steps[1..]);
      OlderAlone(Step2(p, Older(steps[0])), steps[1..]);
    }
  }

  // ----- the remote that a name leads to

  function SettledIn(s: State, c: Calls): State
    requires s.live.Some?
  {
    SettleRemote(Resolve(Opened(s), c.resolve), c.settle)
  }

  lemma ResolvedNamed(s: State, c: Calls)
    requires Works(s, c) && Obtains(s, c) && Answered(c) && AccountOk(s)
    requires s.live.value.status.id == "" && s.live.value.spec.existingID == ""
    ensures Identified(Resolve(Opened(s), c.resolve), s.live.value.spec.name, Target(s, c).value.id)
  {
    var name := s.live.value.spec.name;
    ResolveWorks(s, c);
    LookupExactly(c.resolve.listing, name);
    ListedIsThere(c.resolve.listing, s.account, name);
    if Lookup(c.resolve.listing, name).FoundOne? {
      assert Resolve(Opened(s), c.resolve).account == s.account;
    }
  }

  /** Once a first pass has settled, the name leads to its remote and no other. */
  lemma SettledNamed(s: State, c: Calls)
    requires Works(s, c) && Obtains(s, c) && Answered(c) && AccountOk(s)
    requires s.live.value.status.id == "" && s.live.value.spec.existingID == ""
    requires Undisputed(s, c, Target(s, c).value.id)
    ensures Identified(SettledIn(s, c), s.live.value.spec.name, Target(s, c).value.id)
  {
    var resolved := Resolve(Opened(s), c.resolve);
    ResolvedNamed(s, c);
    ResolveWorks(s, c);
    SettleWorks(resolved, c);
    StaysIdentified(resolved, SettledIn(s, c), s.live.value.spec.name, Target(s, c).value.id);
  }

  lemma StaysIdentified(s: State, s': State, name: string, id: string)
    requires Identified(s, name, id) && id in s'.account && s'.account == s.account[id := s'.account[id]]
    requires s'.account[id].name == name && Serves(s'.account[id])
    ensures Identified(s', name, id)
  {
    assert forall i :: i in s'.account ==> i in s.account && s'.account[i].name == s.account[i].name;
  }

  // ----- the list of Repositories

  /** The list shows both resources as they are. */
  predicate ShowsBoth(p: Pair, c: Calls) {
    p.older.live.Some? && p.younger.live.Some? && c.settle.claims == [Listed(p.older), Listed(p.younger)]
  }

  /** The younger one has a free hand as long as the older one has nothing recorded and adopts nothing. */
  lemma YoungerUndisputed(p: Pair, c: Calls, id: string)
    requires ShowsBoth(p, c) && ManagedID(Listed(p.older)) == "" && id != ""
    ensures Undisputed(p.younger, c, id)
  {
  }

  /** The older one always has. */
  lemma OlderUndisputed(p: Pair, c: Calls, id: string)
    requires ShowsBoth(p, c) && InOrder(p)
    ensures Undisputed(p.older, c, id)
  {
    OlderRepositoryOrders(Bare(p.older.me), Bare(p.younger.me), Bare(p.older.me));
  }

  // ----- first passes

  /** From the Secret on a pass leaves the account alone. */
  lemma QuietTail(s: State, c: Calls)
    requires s.pass.Reading?
    ensures var worked := StartInit(WriteSecret(ReadSecret(s, true, true, false, c.generated), c.write), c.init);
      var end := Persist(Release(Finalize(worked, c.token, c.delete), c.release), c.persist);
      end.account == s.account && end.issued == s.issued && end.keys == s.keys
  {
  }

  /** A new resource that is not about an adopted remote. */
  predicate ByName(s: State, name: string) {
    Newborn(s) && s.live.value.spec.existingID == "" && s.live.value.spec.name == name
  }

  /** The resource is about the remote of its name, and has recorded it. */
  predicate Landed(s: State, name: string, id: string) {
    && s.pass.Idle? && s.live.Some? && !s.live.value.deleting && s.live.value.finalizer
    && s.live.value.status.id == id && s.live.value.spec.existingID == "" && s.live.value.spec.name == name
    && Identified(s, name, id)
  }

  lemma RecordsName(s: State, name: string, c: Calls)
    requires ByName(s, name) && Works(s, c) && Obtains(s, c) && Faultless(c) && Undisputed(s, c, Target(s, c).value.id)
    ensures var end := After(s, PassSteps(c)); var settled := SettledIn(s, c);
      && Landed(end, name, Target(s, c).value.id) && end.me == s.me
      && end.account == settled.account && end.issued == settled.issued && end.keys == settled.keys
  {
    FirstReaches(s, c);
    FirstTail(s, SettledIn(s, c), c);
    QuietTail(SettledIn(s, c), c);
    SettledNamed(s, c);
    RecordsTarget(s, c);
  }

  lemma RecordsTarget(s: State, c: Calls)
    requires Newborn(s) && Works(s, c) && Obtains(s, c) && Faultless(c) && Undisputed(s, c, Target(s, c).value.id)
    ensures var end := After(s, PassSteps(c));
      && end.pass.Idle? && end.live.Some? && !end.live.value.deleting && end.live.value.finalizer && end.me == s.me
      && end.live.value.status.id == Target(s, c).value.id && end.live.value.spec == s.live.value.spec
  {
    var settled := SettledIn(s, c);
    FirstReaches(s, c);
    FirstTail(s, settled, c);
    SecretEnds(settled, c);
    PassEnds(StartInit(WriteSecret(ReadSecret(settled, true, true, false, c.generated), c.write), c.init), c);
  }

  // ----- the younger one records the remote first

  predicate Namesakes(p: Pair, name: string) {
    SharesAccount(p) && InOrder(p) && ByName(p.older, name) && ByName(p.younger, name)
  }

  /** The older one finds what the younger one left under their name. */
  lemma OlderLands(p: Pair, name: string, id: string, c: Calls)
    requires SharesAccount(p) && InOrder(p) && ByName(p.older, name) && Identified(p.older, name, id)
    requires Works(p.older, c) && Faultless(c) && ShowsBoth(p, c)
    ensures var p' := After2(p, Olders(PassSteps(c)));
      && SharesAccount(p') && Landed(p'.older, name, id) && Holds(p'.older, id)
      && Obtains(p.older, c) && Target(p.older, c) == Some(p.older.account[id]) && Undisputed(p.older, c, id)
      && p'.older == After(p.older, PassSteps(c)) && p'.younger == Follow(p.younger, p'.older)
  {
    FindableIsFound(p.older, id, c);
    OlderUndisputed(p, c, id);
    RecordsName(p.older, name, c);
    OlderAlone(p, PassSteps(c));
  }

  /**
   * Two new resources of one name, and lists that show both as they are: a pass of the younger one records the remote
   * of that name, the next one of the older one does so too, and then the younger one can delete it.
   */
  lemma YoungerRecordsFirst(p: Pair, name: string, c: Calls, c': Calls)
    requires Namesakes(p, name)
    requires Works(p.younger, c) && Obtains(p.younger, c) && Faultless(c) && ShowsBoth(p, c)
    requires var p1 := After2(p, Youngers(PassSteps(c))); Works(p1.older, c') && Faultless(c') && ShowsBoth(p1, c')
    ensures var id := Target(p.younger, c).value.id;
      var p2 := After2(After2(p, Youngers(PassSteps(c))), Olders(PassSteps(c')));
      && Landed(p2.younger, name, id) && Landed(p2.older, name, id) && Holds(p2.older, id) && !Protected(p2, id)
  {
    var id := Target(p.younger, c).value.id;
    YoungerUndisputed(p, c, id);
    YoungerLands(p, name, c);
    var p1 := After2(p, Youngers(PassSteps(c)));
    OlderLands(p1, name, id, c');
    var moves := RecordedCanDelete(After2(p1, Olders(PassSteps(c'))), id);
  }

  lemma YoungerLands(p: Pair, name: string, c: Calls)
    requires Namesakes(p, name) && Works(p.younger, c) && Obtains(p.younger, c) && Faultless(c)
    requires Undisputed(p.younger, c, Target(p.younger, c).value.id)
    ensures var p1 := After2(p, Youngers(PassSteps(c))); var id := Target(p.younger, c).value.id;
      && SharesAccount(p1) && InOrder(p1) && AccountOk(p1.older) && ByName(p1.older, name)
      && Landed(p1.younger, name, id) && Identified(p1.older, name, id)
  {
    RecordsName(p.younger, name, c);
    YoungerAlone(p, PassSteps(c));
    SettledAccountOk(p.younger, c);
  }

  lemma SettledAccountOk(s: State, c: Calls)
    requires s.live.Some? && AccountOk(s)
    ensures AccountOk(SettledIn(s, c))
  {
    ResolveAccountOk(Opened(s), c.resolve);
    SettleAccountOk(Resolve(Opened(s), c.resolve), c.settle);
  }

  // ----- the younger one makes the first key

  /** A new resource that will make up a password. */
  predicate MakesUp(s: State, name: string) {
    ByName(s, name) && s.secret.None? && s.live.value.spec.seed.None?
  }

  /** A first pass that is cut off leaves an armed Job and no record. */
  lemma CutShortArms(s: State, name: string, c: Calls)
    requires MakesUp(s, name) && Works(s, c) && Obtains(s, c) && Faultless(c) && Proceeds(s, c)
    ensures var id := Target(s, c).value.id; var cut := After(s, CutShort(c));
      && cut.pass.Idle? && cut.live.Some? && !cut.live.value.deleting && cut.live.value.status.id == ""
      && c.generated in Armed(cut, id) && Identified(cut, name, id) && cut.account[id].usage == Target(s, c).value.usage
      && KeysOf(cut, id) == KeysOf(s, id) && cut.me == s.me
  {
    FirstReaches(s, c);
    SettledNamed(s, c);
    CutShortLeaves(s, c);
    UrlLeadsHome(SettledIn(s, c).pass.remote);
  }

  /** The older one writes a Secret with its own password. */
  lemma OlderStarts(p: Pair, name: string, id: string, c: Calls)
    requires SharesAccount(p) && InOrder(p) && MakesUp(p.older, name) && Identified(p.older, name, id)
    requires p.older.account[id].usage <= 0.0 && KeysOf(p.older, id) == {}
    requires Works(p.older, c) && Faultless(c) && ShowsBoth(p, c)
    ensures var s := After2(p, Olders(PassSteps(c))).older;
      && Managed(s.secret) && s.secret.value.password == c.generated && LeadsTo(s.secret.value.url, id)
      && KeysOf(s, id) == {}
  {
    OlderLands(p, name, id, c);
    FirstPassStarts(p.older, c);
    var s := After(p.older, PassSteps(c));
    assert Started(p.older, c, s);
    UrlLeadsHome(s.account[id]);
  }

  /** The younger one is armed for the remote that their name leads to, and the older one is new. */
  ghost predicate Primed(p: Pair, name: string, id: string, q: string) {
    && Together(p) && MakesUp(p.older, name) && Identified(p.older, name, id)
    && p.older.account[id].usage <= 0.0 && KeysOf(p.older, id) == {}
    && p.younger.live.Some? && p.younger.live.value.status.id == "" && q in Armed(p.younger, id)
  }

  lemma CutShortPrimes(p: Pair, name: string, c: Calls)
    requires Namesakes(p, name) && MakesUp(p.younger, name) && MakesUp(p.older, name)
    requires Works(p.younger, c) && Obtains(p.younger, c) && Faultless(c) && ShowsBoth(p, c)
    requires var remote := Target(p.younger, c).value; remote.usage <= 0.0 && KeysOf(p.younger, remote.id) == {}
    ensures Primed(After2(p, Youngers(CutShort(c))), name, Target(p.younger, c).value.id, c.generated)
  {
    YoungerUndisputed(p, c, Target(p.younger, c).value.id);
    CutShortArms(p.younger, name, c);
    YoungerAlone(p, CutShort(c));
    NewbornIsStraight(p.younger);
    TogetherRun(p, Youngers(CutShort(c)));
  }

  /** A whole pass of the older one then does not help. */
  lemma PrimedLocksOut(p: Pair, name: string, id: string, q: string, c: Calls)
    requires Primed(p, name, id, q) && Works(p.older, c) && Faultless(c) && ShowsBoth(p, c) && c.generated != q
    ensures var p' := After2(p, Olders(PassSteps(c)));
      && Landed(p'.older, name, id) && Opens(p'.older) && p'.younger.live == p.younger.live
      && !Protected(p', id) && !KeepsOpening(p', id)
  {
    var p' := After2(p, Olders(PassSteps(c)));
    OlderLands(p, name, id, c);
    OlderStarts(p, name, id, c);
    TogetherRun(p, Olders(PassSteps(c)));
    assert Armed(p'.younger, id) == Armed(p.younger, id);
    ArmedLocksOut(p', id, q);
    LeadsOnly(p'.older, id);
  }

  /**
   * Two new resources of one name, and lists that show both as they are: if the first pass of the younger one is cut
   * off before it records anything, and the older one then records the remote and writes its Secret, the younger one's
   * Job can still make its own password the first key. The older one's Secret then does not open its repository.
   */
  lemma YoungerInitsFirst(p: Pair, name: string, c: Calls, c': Calls)
    requires Namesakes(p, name) && MakesUp(p.younger, name) && MakesUp(p.older, name)
    requires Works(p.younger, c) && Obtains(p.younger, c) && Faultless(c) && ShowsBoth(p, c)
    requires var remote := Target(p.younger, c).value; remote.usage <= 0.0 && KeysOf(p.younger, remote.id) == {}
    requires c.generated != c'.generated
    requires var p1 := After2(p, Youngers(CutShort(c))); Works(p1.older, c') && Faultless(c') && ShowsBoth(p1, c')
    ensures var id := Target(p.younger, c).value.id;
      var p2 := After2(After2(p, Youngers(CutShort(c))), Olders(PassSteps(c')));
      && Landed(p2.older, name, id) && Opens(p2.older) && p2.younger.live.Some? && p2.younger.live.value.status.id == ""
      && !Protected(p2, id) && !KeepsOpening(p2, id)
  {
    CutShortPrimes(p, name, c);
    PrimedLocksOut(After2(p, Youngers(CutShort(c))), name, Target(p.younger, c).value.id, c.generated, c');
  }

  /** A remote without keys is opened by anything. */
  lemma LeadsOnly(s: State, id: string)
    requires AccountOk(s) && NoColon(id) && s.secret.Some? && LeadsTo(s.secret.value.url, id) && KeysOf(s, id) == {}
    requires s.live.Some? && s.live.value.status.id == id
    ensures Opens(s)
  {
    forall i | i in s.account && LeadsTo(s.secret.value.url, i) ensures i == id {
      LeadsToOne(s.secret.value.url, i, id);
    }
  }

  lemma ArmedLocksOut(p: Pair, id: string, q: string)
    requires Together(p) && Holds(p.older, id) && id in p.younger.account && KeysOf(p.older, id) == {}
    requires Managed(p.older.secret) && LeadsTo(p.older.secret.value.url, id)
    requires q in Armed(p.younger, id) && q != p.older.secret.value.password
    ensures !Protected(p, id) && !KeepsOpening(p, id)
  {
    var moves := ArmedFires(p, id, q);
    ContestIsHeld(p, moves, id);
    FiredLocksOut(p, moves, id, q);
  }

  // ----- such runs exist

  /** Two new resources that are to get their first remote, of one name. */
  predicate Expecting(p: Pair, name: string) {
    && Namesakes(p, name) && MakesUp(p.older, name) && MakesUp(p.younger, name)
    && !p.older.live.value.spec.suspend && !p.younger.live.value.spec.suspend
    && forall i :: i in p.younger.account ==> p.younger.account[i].name != name
  }

  lemma AddedIsTarget(s: State, name: string, c: Calls)
    requires ByName(s, name) && Works(s, c) && Serves(c.resolve.added)
    requires forall i :: i in s.account ==> s.account[i].name != name
    ensures Obtains(s, c) && Target(s, c) == Some(c.resolve.added) && c.resolve.added.usage == 0.0
    ensures KeysOf(s, c.resolve.added.id) == {}
  {
    LookupExactly(c.resolve.listing, name);
  }

  /** The answers of a first pass that ends in one of the two runs. */
  predicate FirstOf(p: Pair, c: Calls) {
    && p.younger.live.Some? && Works(p.younger, c) && Obtains(p.younger, c) && Faultless(c)
    && ShowsBoth(p, c) && Proceeds(p.younger, c)
    && var remote := Target(p.younger, c).value; remote.usage <= 0.0 && KeysOf(p.younger, remote.id) == {}
  }

  /** The younger one's pass, with a list that shows both. */
  lemma FirstAnswers(p: Pair, name: string, generated: Password) returns (c: Calls)
    requires Expecting(p, name)
    ensures FirstOf(p, c) && c.generated == generated
  {
    c := AnswersExist(p.younger, [Listed(p.older), Listed(p.younger)], generated);
    AddedIsTarget(p.younger, name, c);
    YoungerUndisputed(p, c, c.resolve.added.id);
  }

  /** The older one's pass, with another password. */
  lemma OlderAnswers(p: Pair, name: string, generated: Password) returns (c: Calls)
    requires ByName(p.older, name) && !p.older.live.value.spec.suspend && p.younger.live.Some?
    ensures Works(p.older, c) && Faultless(c) && ShowsBoth(p, c) && c.generated == generated
  {
    c := AnswersExist(p.older, [Listed(p.older), Listed(p.younger)], generated);
  }

  /** A whole pass of each: both have recorded the remote, and the younger one can delete it. */
  ghost predicate BothRecord(p: Pair, name: string, c: Calls, c': Calls)
    requires p.younger.live.Some? && Obtains(p.younger, c)
  {
    var id := Target(p.younger, c).value.id;
    var p1 := After2(p, Youngers(PassSteps(c)));
    var p2 := After2(p1, Olders(PassSteps(c')));
    && ShowsBoth(p1, c') && Faultless(c')
    && Landed(p2.younger, name, id) && Landed(p2.older, name, id) && !Protected(p2, id)
  }

  /** A pass of the younger one that is cut off, and a whole one of the older one: it can be locked out. */
  ghost predicate OneRecords(p: Pair, name: string, c: Calls, c': Calls)
    requires p.younger.live.Some? && Obtains(p.younger, c)
  {
    var id := Target(p.younger, c).value.id;
    var p1 := After2(p, Youngers(CutShort(c)));
    var p2 := After2(p1, Olders(PassSteps(c')));
    && ShowsBoth(p1, c') && Faultless(c')
    && Landed(p2.older, name, id) && Opens(p2.older) && !Protected(p2, id) && !KeepsOpening(p2, id)
  }

  lemma CanRecord(p: Pair, name: string, c: Calls, generated: Password) returns (c': Calls)
    requires Expecting(p, name) && FirstOf(p, c)
    ensures BothRecord(p, name, c, c')
  {
    RecordsName(p.younger, name, c);
    YoungerAlone(p, PassSteps(c));
    SettledAccountOk(p.younger, c);
    c' := OlderAnswers(After2(p, Youngers(PassSteps(c))), name, generated);
    YoungerRecordsFirst(p, name, c, c');
  }

  lemma CanLockOut(p: Pair, name: string, c: Calls, generated: Password) returns (c': Calls)
    requires Expecting(p, name) && FirstOf(p, c) && c.generated != generated
    ensures OneRecords(p, name, c, c')
  {
    CutShortArms(p.younger, name, c);
    YoungerAlone(p, CutShort(c));
    NewbornIsStraight(p.younger);
    TogetherRun(p, Youngers(CutShort(c)));
    c' := OlderAnswers(After2(p, Youngers(CutShort(c))), name, generated);
    YoungerInitsFirst(p, name, c, c');
  }

  /**
   * From any two new resources of one name that nothing in the account has, both runs exist, with lists that always
   * show both as they are: the younger one comes to be able to delete the older one's remote, and to lock it out.
   */
  lemma NamesakesCollide(p: Pair, name: string) returns (c: Calls, records: Calls, starts: Calls)
    requires Expecting(p, name)
    ensures FirstOf(p, c) && BothRecord(p, name, c, records) && OneRecords(p, name, c, starts)
  {
    var other := Another({"p"});
    c := FirstAnswers(p, name, "p");
    records := CanRecord(p, name, c, other);
    starts := CanLockOut(p, name, c, other);
  }
}
