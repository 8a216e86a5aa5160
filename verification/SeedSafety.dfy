/** Exactly which new resources key safety holds for: what the seed, or the use of the remote, has to tell of keys. */
module SeedSafety {
  import opened Outcomes
  import opened BorgBase
  import opened Claims
  import opened Repository
  import opened RepositoryRuns
  import opened KeySafety
  import opened Credentials
  import opened Reconciler
  import opened Lifecycle

  // ----- calls that are answered well

  function Repeated(n: nat): (t: string)
    ensures |t| == n && NoColon(t)
  {
    seq(n, i => 'a')
  }

  /** There is always another ID, and another password. */
  lemma {:induction false} Another(taken: set<string>) returns (t: string)
    ensures t !in taken && t != "" && NoColon(t)
  {
    var n := Longest(taken);
    t := Repeated(n + 1);
  }

  lemma {:induction false} Longest(texts: set<string>) returns (n: nat)
    ensures forall t :: t in texts ==> |t| <= n
    decreases |texts|
  {
    n := 0;
    if texts != {} {
      var t :| t in texts;
      n := Longest(texts - {t});
      n := if |t| > n then |t| else n;
    }
  }

  /** The answers to a pass in which nothing goes wrong. */
  function Answering(claims: seq<Claim>, listing: seq<Remote>, added: Remote, generated: Password): (c: Calls)
    ensures Faultless(c)
  {
    Calls(true, Applied, ResolveCalls(true, listing, added, Applied), SettleCalls(true, claims, Applied), true, true,
          generated, Applied, InitCalls(true, true, Applied), Applied, Applied, Applied)
  }

  function MadeAs(spec: Spec, id: string): Remote {
    var settings := spec.settings;
    Remote(id, spec.name, spec.region, FORMAT_RESTIC,
           if settings.quotaGiB.Some? then settings.quotaGiB.value else 0, settings.quotaGiB.Some?,
           if settings.alertDays.Some? then settings.alertDays.value else 0, settings.appendOnly, 0.0, "x")
  }

  /** The one remote of that name has this ID, and can be used. */
  predicate Identified(s: State, name: string, id: string) {
    OneOfAKind(s, name) && id in s.account && s.account[id].name == name && Serves(s.account[id])
  }

  /** The remote that a spec is about is there, and can be used. */
  predicate Findable(s: State, spec: Spec, id: string) {
    if spec.existingID != "" then id == spec.existingID && id in s.account && Serves(s.account[id])
    else Identified(s, spec.name, id)
  }

  /** The steps of the operator are always allowed. */
  lemma {:induction false} OperatorIsAllowed(s: State, steps: seq<Step>)
    requires forall i :: 0 <= i < |steps| ==> ByOperator(steps[i])
    ensures AllowedRun(s, steps)
    decreases |steps|
  {
    if steps != [] {
      assert ByOperator(steps[0]);
      assert forall i :: 0 <= i < |steps| - 1 ==> steps[1..][i] == steps[i + 1];
      OperatorIsAllowed(Next(s, steps[0]), steps[1..]);
    }
  }

  lemma {:induction false} ListingOf(account: map<string, Remote>) returns (listing: seq<Remote>)
    requires forall i :: i in account ==> account[i].id == i
    ensures forall name :: Lists(listing, account, name)
    decreases |account|
  {
    listing := [];
    if account.Keys != {} {
      var id :| id in account;
      var rest := account - {id};
      assert account.Keys == rest.Keys + {id};
      var others := ListingOf(rest);
      listing := others + [account[id]];
      assert forall i :: 0 <= i < |others| ==> others[i].id in rest by {
        assert Lists(others, rest, "");
      }
      forall name ensures Lists(listing, account, name) {
        assert Lists(others, rest, name);
      }
    }
  }

  /** There are answers to every pass, whatever the list of Repositories shows. */
  lemma AnswersExist(s: State, claims: seq<Claim>, generated: Password) returns (c: Calls)
    requires AccountOk(s) && s.pass.Idle? && s.live.Some? && !s.live.value.deleting && !s.live.value.spec.suspend
    ensures Faultless(c) && Works(s, c) && c.settle.claims == claims && c.generated == generated
    ensures Serves(c.resolve.added)
  {
    var spec := s.live.value.spec;
    var listing := ListingOf(s.account);
    assert Lists(listing, s.account, spec.name);
    var added := Another(s.issued);
    c := Answering(claims, listing, MadeAs(spec, added), generated);
    assert MadeBy(MadeAs(spec, added), s.account, spec);
    assert Answers(Opened(s), c.resolve);
  }

  /** A pass for which everything goes well finds the remote. */
  lemma FindableIsFound(s: State, id: string, c: Calls)
    requires AccountOk(s) && s.live.Some? && Findable(s, s.live.value.spec, id) && Works(s, c) && Answered(c)
    ensures Obtains(s, c) && Target(s, c) == Some(s.account[id])
  {
    var spec := s.live.value.spec;
    if spec.existingID == "" {
      LookupExactly(c.resolve.listing, spec.name);
      assert s.account[id] in c.resolve.listing;
      assert OnlyOne(c.resolve.listing, s.account[id]);
    }
  }

  /** How a resource shows in the list of Repositories. */
  function Mine(s: State): Claim
    requires s.live.Some?
  {
    ClaimOf(s.me, s.live.value.spec, s.live.value.status)
  }

  /**
   * For every new resource whose remote can be found there are answers to a first pass, and to one after its Job, with
   * lists that show the resource as it is, for which the first pass leads to Ready exactly as said.
   */
  lemma ReadyAnswers(s: State, id: string, generated: Password, failed: bool) returns (c: Calls, c': Calls)
    requires Newborn(s) && WellFormed(s.live.value.spec) && !s.live.value.spec.suspend
    requires Findable(s, s.live.value.spec, id)
    ensures Unstarted(s) && Works(s, c) && Obtains(s, c) && Faultless(c) && Faultless(c')
    ensures c.settle.claims == [Mine(s)] && Undisputed(s, c, id) && c.generated == generated
    ensures var first := After(s, PassSteps(c));
      GoesOn(first, c', failed) && (first.job.Some? ==> ShowsRecorded(first, c', id))
  {
    c := AnswersExist(s, [Mine(s)], generated);
    c' := c;
    FindableIsFound(s, id, c);
    if Proceeds(s, c) {
      FirstPassStarts(s, c);
      NewbornIsStraight(s);
      StraightRun(s, PassSteps(c));
      c' := NextAnswers(After(s, PassSteps(c)), s.live.value.spec, generated, failed);
    } else {
      FirstPassFails(s, c);
    }
  }

  /** The list shows the resource with its recorded ID. */
  predicate ShowsRecorded(s: State, c: Calls, id: string) {
    s.live.Some? && s.live.value.status.id == id && c.settle.claims == [Mine(s)]
  }

  lemma NextAnswers(s: State, spec: Spec, generated: Password, failed: bool) returns (c: Calls)
    requires Straight(s) && Provisioning(s, spec) && JustStarted(s) && !spec.suspend
    ensures Faultless(c) && GoesOn(s, c, failed) && ShowsRecorded(s, c, s.live.value.status.id)
  {
    JobWorks(s, spec, failed);
    var next := After(s, JobSteps(s, failed));
    StraightRun(s, JobSteps(s, failed));
    c := AnswersExist(next, [Mine(next)], generated);
  }

  /** A wrong seed, or a password made up although there are keys, gets into the Secret. */
  lemma WrongSeedOpensNothing(s: State, id: string) returns (steps: seq<Step>)
    requires Newborn(s) && s.written.None? && s.secret.None? && WellFormed(s.live.value.spec)
    requires !s.live.value.spec.suspend && Findable(s, s.live.value.spec, id)
    requires !RightSeed(s, s.live.value.spec.seed, id)
    ensures AllowedRun(s, steps) && !Opens(After(s, steps))
  {
    var spec := s.live.value.spec;
    var generated := Another(KeysOf(s, id));
    var c := AnswersExist(s, [Mine(s)], generated);
    FindableIsFound(s, id, c);
    steps := PassSteps(c);
    OperatorIsAllowed(s, steps);
    FirstPassStarts(s, c);
    var end := After(s, steps);
    assert Started(s, c, end);
    UrlLeadsHome(end.account[id]);
    assert LeadsTo(end.secret.value.url, id) && KeysOf(end, id) == KeysOf(s, id);
  }

  ghost predicate AlwaysOpens(s: State) {
    forall steps :: AllowedRun(s, steps) ==> Opens(After(s, steps))
  }

  /**
   * A new resource without a Secret, for a remote that is there, has a Secret that opens it in all reachable states
   * exactly if the remote has no keys, or the seed is one of them, or there is no seed and the remote shows some use.
   */
  lemma SafeExactly(s: State, id: string)
    requires Newborn(s) && s.written.None? && s.secret.None? && WellFormed(s.live.value.spec)
    requires !s.live.value.spec.suspend && Findable(s, s.live.value.spec, id)
    ensures AlwaysOpens(s) <==> RightSeed(s, s.live.value.spec.seed, id)
  {
    if RightSeed(s, s.live.value.spec.seed, id) {
      forall steps | AllowedRun(s, steps) ensures Opens(After(s, steps)) {
        SecretAlwaysOpens(s, steps);
      }
    } else {
      var steps := WrongSeedOpensNothing(s, id);
    }
  }
}
