/**
 * Where credentials lead, whatever users and rivals do: the Secret of an initialized resource leads to the recorded
 * remote, and all that a pod can get are credentials that BorgBase gave out.
 */
module Credentials {
  import opened Outcomes
  import opened BorgBase
  import opened Repository
  import opened RepositoryRuns
  import opened RepositoryLaws
  import opened KeySafety

  predicate Running(s: State) {
    s.job.Some? && !s.job.value.succeeded && !s.job.value.failed
  }

  /** The URL is the one of some remote, at some time. */
  ghost predicate Given(url: string) {
    exists r: Remote :: NoColon(r.id) && ResticURL(r) == Ok(url)
  }

  predicate AimsAt(secret: Option<Secret>, id: string) {
    secret.Some? ==> LeadsTo(secret.value.url, id)
  }

  ghost predicate GivenIn(secret: Option<Secret>) {
    secret.Some? ==> Given(secret.value.url)
  }

  /** The finalizer is set before anything else happens; specs are well formed, and IDs proper ones. */
  predicate Anchored(s: State) {
    s.live.Some? ==>
      && WellFormed(s.live.value.spec) && NoColon(s.live.value.status.id)
      && (!s.pass.Idle? || s.live.value.status.id != "" ==> s.live.value.finalizer)
  }

  /** The URL a pass is about is the one of the remote it settled on. */
  ghost predicate Directed(s: State) {
    && (!s.pass.Idle? ==> NoColon(s.pass.copy.status.id) && NoColon(s.pass.copy.base.id))
    && (s.pass.Resolving? || s.pass.Settling? || s.pass.Finalizing? || s.pass.Releasing? ==>
          s.pass.copy.status.id == s.pass.copy.base.id)
    && (s.pass.Settling? || s.pass.Reading? ==> NoColon(s.pass.remote.id))
    && (s.pass.Reading? ==> s.pass.copy.status.id == s.pass.remote.id)
    && (s.pass.Writing? ==>
          && Given(s.pass.url) && LeadsTo(s.pass.url, s.pass.copy.status.id)
          && (Managed(s.pass.seen) && s.secret.Some? ==> s.secret.value.url == s.pass.seen.value.url))
    && (s.pass.Starting? ==> GivenIn(s.secret) && AimsAt(s.secret, s.pass.copy.status.id))
  }

  /** Pods get credentials that were given out. */
  ghost predicate Supplied(s: State) {
    (Running(s) ==> GivenIn(s.secret)) && (forall pod :: pod in s.pods ==> Given(pod.url))
  }

  /** A resource that is initialized, or was when a rotation began. */
  predicate WasInitialized(s: State) {
    s.live.Some? && (s.live.value.status.initialized || s.rotating != {} || s.added != {})
  }

  /** Its Secret leads to the recorded remote. */
  predicate Settled(s: State) {
    && (WasInitialized(s) ==> s.live.value.status.id != "" && AimsAt(s.secret, s.live.value.status.id))
    && (!s.pass.Idle? && s.live.Some? && s.pass.copy.status.initialized ==>
          s.pass.copy.status.id != "" && AimsAt(s.secret, s.pass.copy.status.id))
  }

  ghost predicate Straight(s: State) {
    Steady(s) && AccountOk(s) && Anchored(s) && Directed(s) && Supplied(s) && Settled(s)
  }

  lemma NewbornIsStraight(s: State)
    requires Newborn(s) && WellFormed(s.live.value.spec)
    ensures Straight(s)
  {
  }

  lemma AnchoredPass(s: State, step: Step)
    requires Straight(s) && ByOperator(step)
    ensures Anchored(Next(s, step))
  {
  }

  lemma AnchoredWorld(s: State, step: Step)
    requires Anchored(s) && !ByOperator(step)
    ensures Anchored(Next(s, step))
  {
  }

  // ----- where a pass is directed

  lemma DirectedResolve(s: State, calls: ResolveCalls)
    requires Straight(s)
    ensures Directed(Resolve(s, calls)) && Settled(Resolve(s, calls))
  {
    if s.pass.Resolving? && Answers(s, calls) {
      ResolvedRemote(s, calls);
    }
  }

  lemma DirectedSettle(s: State, calls: SettleCalls)
    requires Straight(s)
    ensures Directed(SettleRemote(s, calls)) && Settled(SettleRemote(s, calls))
  {
  }

  lemma DirectedRead(s: State, step: Step)
    requires Straight(s) && step.ReadStep?
    ensures Directed(Next(s, step)) && Settled(Next(s, step))
  {
    if s.pass.Reading? && ResticURL(s.pass.remote).Ok? {
      UrlLeadsHome(s.pass.remote);
    }
  }

  /** A write that ends well leaves the URL of the pass. */
  lemma WrittenUrl(s: State, write: Write)
    requires Straight(s) && s.pass.Writing?
    ensures var s' := WriteSecret(s, write);
      && (s'.secret == s.secret || (s'.secret.Some? && s'.secret.value.url == s.pass.url))
      && (s'.pass.Starting? && s'.secret.Some? ==> s'.secret.value.url == s.pass.url)
  {
  }

  lemma DirectedWrite(s: State, write: Write)
    requires Straight(s)
    ensures Directed(WriteSecret(s, write)) && Settled(WriteSecret(s, write)) && Supplied(WriteSecret(s, write))
  {
    if s.pass.Writing? {
      WrittenUrl(s, write);
    }
  }

  lemma DirectedInit(s: State, calls: InitCalls)
    requires Straight(s)
    ensures Directed(StartInit(s, calls)) && Settled(StartInit(s, calls)) && Supplied(StartInit(s, calls))
  {
  }

  lemma DirectedBegin(s: State, token: bool, finalizer: Write)
    requires Straight(s)
    ensures Directed(Begin(s, token, finalizer)) && Settled(Begin(s, token, finalizer))
  {
  }

  lemma DirectedPersist(s: State, write: Write)
    requires Straight(s)
    ensures Directed(Persist(s, write)) && Settled(Persist(s, write))
  {
  }

  lemma DirectedCrash(s: State)
    requires Straight(s)
    ensures var s' := s.(pass := Idle); Directed(s') && Settled(s')
  {
  }

  lemma DirectedFinalize(s: State, api: bool, delete: Write)
    requires Straight(s)
    ensures Directed(Finalize(s, api, delete)) && Settled(Finalize(s, api, delete))
  {
  }

  lemma DirectedRelease(s: State, write: Write)
    requires Straight(s)
    ensures Directed(Release(s, write)) && Settled(Release(s, write))
  {
  }

  lemma DirectedPass(s: State, step: Step)
    requires Straight(s) && ByOperator(step)
    ensures Directed(Next(s, step)) && Settled(Next(s, step))
  {
    match step
    case ResolveStep(calls) => DirectedResolve(s, calls);
    case SettleStep(calls) => DirectedSettle(s, calls);
    case ReadStep(_, _, _, _) => DirectedRead(s, step);
    case WriteStep(write) => DirectedWrite(s, write);
    case InitStep(calls) => DirectedInit(s, calls);
    case BeginStep(token, finalizer) => DirectedBegin(s, token, finalizer);
    case PersistStep(write) => DirectedPersist(s, write);
    case CrashStep => DirectedCrash(s);
    case FinalizeStep(api, delete) => DirectedFinalize(s, api, delete);
    case ReleaseStep(write) => DirectedRelease(s, write);
  }

  /** What the rest of the world can do to the Secret. */
  lemma SecretOutside(s: State, step: Step)
    requires !ByOperator(step)
    ensures var s' := Next(s, step);
      && s'.pass == s.pass && (s'.secret.Some? ==> s.secret.Some? && s'.secret.value.url == s.secret.value.url)
      && (Running(s') ==> Running(s))
  {
  }

  lemma DirectedWorld(s: State, step: Step)
    requires Straight(s) && !ByOperator(step)
    ensures Directed(Next(s, step))
  {
    SecretOutside(s, step);
  }

  lemma SettledRotation(s: State, step: Step)
    requires Settled(s) && (step.RotateBeginStep? || step.RotateAddStep? || step.RotatePatchStep?)
    ensures Settled(Next(s, step))
  {
  }

  lemma SettledUser(s: State, step: Step)
    requires Settled(s) && (step.EditStep? || step.DeleteStep? || step.ClearStep?)
    ensures Settled(Next(s, step))
  {
  }

  lemma SettledWorld(s: State, step: Step)
    requires Settled(s) && !ByOperator(step)
    ensures Settled(Next(s, step))
  {
    if step.RotateBeginStep? || step.RotateAddStep? || step.RotatePatchStep? {
      SettledRotation(s, step);
    } else if step.EditStep? || step.DeleteStep? || step.ClearStep? {
      SettledUser(s, step);
    } else {
      SettledElsewhere(s, step);
    }
  }

  lemma SettledElsewhere(s: State, step: Step)
    requires Settled(s) && !ByOperator(step) && !step.RotateBeginStep? && !step.RotateAddStep? && !step.RotatePatchStep?
    requires !step.EditStep? && !step.DeleteStep? && !step.ClearStep?
    ensures Settled(Next(s, step))
  {
  }

  // ----- what pods get

  lemma SuppliedPass(s: State, step: Step)
    requires Straight(s) && ByOperator(step) && !step.WriteStep? && !step.InitStep?
    ensures Supplied(Next(s, step))
  {
    QuietPass(s, step);
  }

  lemma QuietPass(s: State, step: Step)
    requires ByOperator(step) && !step.WriteStep? && !step.InitStep?
    ensures var s' := Next(s, step); s'.secret == s.secret && s'.job == s.job && s'.pods == s.pods
  {
  }

  lemma SuppliedWorld(s: State, step: Step)
    requires Straight(s) && !ByOperator(step)
    ensures Supplied(Next(s, step))
  {
    SecretOutside(s, step);
    PodsOutside(s, step);
  }

  lemma PodsOutside(s: State, step: Step)
    requires !ByOperator(step)
    ensures forall pod :: pod in Next(s, step).pods ==>
      pod in s.pods || (Running(s) && s.secret.Some? && pod.url == s.secret.value.url
        && pod.password == s.secret.value.password != "")
  {
  }

  // ----- the account

  lemma ResolveAccountOk(s: State, calls: ResolveCalls)
    requires AccountOk(s)
    ensures AccountOk(Resolve(s, calls))
  {
    if s.pass.Resolving? && Answers(s, calls) {
      ResolveOutcome(s, calls);
    }
  }

  lemma ResolveOutcome(s: State, calls: ResolveCalls)
    requires s.pass.Resolving? && Answers(s, calls) && AccountOk(s)
    ensures var r := ResolveRepo(s.account, s.pass.copy.spec, s.pass.copy.status, calls);
      && r.status.id == s.pass.copy.status.id
      && (r.account == s.account || r.account == s.account[calls.added.id := calls.added])
      && (r.remote.Some? ==> NoColon(r.remote.value.id))
  {
    ListedIsThere(calls.listing, s.account, s.pass.copy.spec.name);
  }

  lemma SettleAccountOk(s: State, calls: SettleCalls)
    requires AccountOk(s)
    ensures AccountOk(SettleRemote(s, calls))
  {
  }

  lemma FinalizeAccountOk(s: State, api: bool, delete: Write)
    requires AccountOk(s)
    ensures AccountOk(Finalize(s, api, delete))
  {
  }

  lemma WorldAccountOk(s: State, step: Step)
    requires AccountOk(s) && !ByOperator(step) && TouchesAccount(step)
    ensures AccountOk(Next(s, step))
  {
  }

  /** No step of a resource breaks the account. */
  lemma AccountOkStep(s: State, step: Step)
    requires AccountOk(s)
    ensures AccountOk(Next(s, step))
  {
    if !TouchesAccount(step) {
      QuietAccount(s, step);
    } else {
      match step
      case ResolveStep(calls) => ResolveAccountOk(s, calls);
      case SettleStep(calls) => SettleAccountOk(s, calls);
      case FinalizeStep(api, delete) => FinalizeAccountOk(s, api, delete);
      case _ => WorldAccountOk(s, step);
    }
  }

  // ----- every step, every run

  lemma StraightStep(s: State, step: Step)
    requires Straight(s)
    ensures Straight(Next(s, step))
  {
    AccountOkStep(s, step);
    SteadyStep(s, step);
    if ByOperator(step) {
      AnchoredPass(s, step);
      DirectedPass(s, step);
      match step
      case WriteStep(write) => DirectedWrite(s, write);
      case InitStep(calls) => DirectedInit(s, calls);
      case _ => SuppliedPass(s, step);
    } else {
      AnchoredWorld(s, step);
      DirectedWorld(s, step);
      SettledWorld(s, step);
      SuppliedWorld(s, step);
    }
  }

  lemma {:induction false} StraightRun(s: State, steps: seq<Step>)
    requires Straight(s)
    ensures Straight(After(s, steps))
    decreases |steps|
  {
    if steps != [] {
      StraightStep(s, steps[0]);
      StraightRun(Next(s, steps[0]), steps[1..]);
    }
  }

  /**
   * In every state that a new resource gets to, whatever users do: if it is initialized, or was when a rotation began
   * that still goes on, its Secret leads to the recorded remote; and what pods and a running Job have are credentials
   * that a remote had at some time.
   */
  lemma CredentialsLeadHome(s: State, steps: seq<Step>)
    requires Newborn(s) && WellFormed(s.live.value.spec)
    ensures var end := After(s, steps);
      && (WasInitialized(end) ==> end.live.value.status.id != "" && AimsAt(end.secret, end.live.value.status.id))
      && (forall pod :: pod in end.pods ==> Given(pod.url))
      && (Running(end) && end.secret.Some? ==> Given(end.secret.value.url))
  {
    NewbornIsStraight(s);
    StraightRun(s, steps);
  }
}
