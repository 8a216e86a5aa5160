/**
 * Two Repositories of one account, their passes interleaved: exactly when the conflict check protects the remote of the
 * older one.
 */
module Rivals {
  import opened Outcomes
  import opened BorgBase
  import opened Claims
  import opened Repository
  import opened RepositoryRuns
  import opened KeySafety
  import opened Credentials

  /** Each resource with its own Secret, Job and pass; the account is the same for both. */
  datatype Pair = Pair(older: State, younger: State)

  datatype Move = Older(step: Step) | Younger(step: Step)

  predicate SharesAccount(p: Pair) {
    p.older.account == p.younger.account && p.older.issued == p.younger.issued && p.older.keys == p.younger.keys
  }

  /** A state with the account as another one left it. */
  function Follow(s: State, other: State): State {
    s.(account := other.account, issued := other.issued, keys := other.keys)
  }

  function Step2(p: Pair, move: Move): Pair {
    match move
    case Older(step) => var s := Next(p.older, step); Pair(s, Follow(p.younger, s))
    case Younger(step) => var s := Next(p.younger, step); Pair(Follow(p.older, s), s)
  }

  function After2(p: Pair, moves: seq<Move>): Pair
    decreases |moves|
  {
    if moves == [] then p else After2(Step2(p, moves[0]), moves[1..])
  }

  // ----- claims

  /** How a resource shows in the list of Repositories. */
  function Listed(s: State): Claim
    requires s.live.Some?
  {
    var r := s.live.value;
    Claim(s.me.namespace, s.me.name, s.me.created, r.deleting, r.status.id, r.spec.existingID)
  }

  function Bare(me: Identity): Claim {
    Claim(me.namespace, me.name, me.created, false, "", "")
  }

  predicate InOrder(p: Pair) {
    OlderRepository(Bare(p.older.me), Bare(p.younger.me)) && !SameResource(Bare(p.older.me), Bare(p.younger.me))
  }

  /** The resource is there to stay and manages the remote with this ID. */
  predicate Holds(s: State, id: string) {
    s.live.Some? && !s.live.value.deleting && ManagedID(Listed(s)) == id
  }

  // ----- credentials

  predicate Aims(s: State, id: string) {
    s.secret.Some? && LeadsTo(s.secret.value.url, id)
  }

  function NonEmpty(password: string): set<string> {
    if password == "" then {} else {password}
  }

  /** The passwords that pods of the resource try on the remote, or will without any more passes of the operator. */
  function Armed(s: State, id: string): set<string> {
    (set pod | pod in s.pods && LeadsTo(pod.url, id) :: pod.password)
    + (if Running(s) && Aims(s, id) then NonEmpty(s.secret.value.password) + s.added else {})
  }

  /**
   * What a user or the world does to remotes is not the younger resource's doing; its listings show the older one. The
   * last key of the remote is not removed while the younger one has credentials for it.
   */
  predicate Proper(p: Pair, move: Move, id: string) {
    match move
    case Older(step) => step.RemoveKeyStep? && step.at == id && KeysOf(p.older, id) == {step.key} ==>
      Armed(p.younger, id) == {}
    case Younger(step) =>
      && !step.ChangeRemoteStep? && !step.ForeignStep? && !step.RemoveKeyStep?
      && (step.SettleStep? && step.settle.listed && p.older.live.Some? ==> Listed(p.older) in step.settle.claims)
  }

  // ----- the account

  /** The remote, its settings and its keys are as they were. */
  predicate Leaves(s: State, s': State, id: string) {
    && (id in s.account ==> id in s'.account && s'.account[id] == s.account[id])
    && KeysOf(s', id) == KeysOf(s, id)
  }

  /** There is no such remote, and will not be again. */
  predicate Gone(s: State, id: string) {
    id !in s.account && id in s.issued
  }

  lemma GonePass(s: State, step: Step, id: string)
    requires AccountOk(s) && Gone(s, id) && ByOperator(step)
    ensures Gone(Next(s, step), id)
  {
    if step.ResolveStep? && s.pass.Resolving? && Answers(s, step.resolve) {
      ResolveOutcome(s, step.resolve);
    }
  }

  lemma GoneWorld(s: State, step: Step, id: string)
    requires AccountOk(s) && Gone(s, id) && !ByOperator(step)
    ensures Gone(Next(s, step), id)
  {
  }

  lemma GoneStays(s: State, step: Step, id: string)
    requires AccountOk(s) && Gone(s, id)
    ensures Gone(Next(s, step), id)
  {
    if ByOperator(step) {
      GonePass(s, step, id);
    } else {
      GoneWorld(s, step, id);
    }
  }

  lemma KeysRemainPass(s: State, step: Step, id: string)
    requires AccountOk(s) && KeysOf(s, id) != {} && ByOperator(step)
    ensures var s' := Next(s, step); KeysOf(s', id) == KeysOf(s, id) || Gone(s', id)
  {
    if step.ResolveStep? && s.pass.Resolving? && Answers(s, step.resolve) {
      ResolveOutcome(s, step.resolve);
    } else if !TouchesAccount(step) {
      QuietAccount(s, step);
    }
  }

  lemma KeysRemainWorld(s: State, step: Step, id: string)
    requires AccountOk(s) && KeysOf(s, id) != {} && !ByOperator(step)
    requires step.RemoveKeyStep? && step.at == id ==> KeysOf(s, id) != {step.key}
    ensures KeysOf(Next(s, step), id) != {}
  {
    if step.RemoveKeyStep? && step.at == id {
      var key :| key in KeysOf(s, id) && key != step.key;
      assert key in KeysOf(Next(s, step), id);
    }
  }

  /** A remote with keys keeps some, or goes for good. */
  lemma KeysRemain(s: State, step: Step, id: string)
    requires AccountOk(s) && KeysOf(s, id) != {}
    requires step.RemoveKeyStep? && step.at == id ==> KeysOf(s, id) != {step.key}
    ensures var s' := Next(s, step); KeysOf(s', id) != {} || Gone(s', id)
  {
    if ByOperator(step) {
      KeysRemainPass(s, step, id);
    } else {
      KeysRemainWorld(s, step, id);
    }
  }

  // ----- no pass gets past the conflict check with the older one's remote

  predicate KeptAway(s: State, id: string) {
    && (s.pass.Settling? || s.pass.Reading? ==> NoColon(s.pass.remote.id))
    && (s.pass.Reading? ==> s.pass.remote.id != id)
    && (s.pass.Writing? ==>
          && !LeadsTo(s.pass.url, id)
          && (Managed(s.pass.seen) && Aims(s, id) ==> LeadsTo(s.pass.seen.value.url, id)))
    && (s.pass.Starting? ==> !Aims(s, id))
  }

  lemma LeadsElsewhere(r: Remote, id: string)
    requires ResticURL(r).Ok? && NoColon(r.id) && NoColon(id) && r.id != id
    ensures !LeadsTo(ResticURL(r).value, id)
  {
    UrlLeadsHome(r);
    if LeadsTo(ResticURL(r).value, id) {
      LeadsToOne(ResticURL(r).value, r.id, id);
    }
  }

  /** The same credentials, and no new Job. */
  predicate SameArms(s: State, s': State) {
    s'.secret == s.secret && s'.job == s.job && s'.pods == s.pods && s'.added == s.added
  }

  lemma ReadKept(s: State, step: Step, id: string)
    requires KeptAway(s, id) && NoColon(id) && step.ReadStep?
    ensures KeptAway(Next(s, step), id) && SameArms(s, Next(s, step))
  {
    if s.pass.Reading? && ResticURL(s.pass.remote).Ok? {
      LeadsElsewhere(s.pass.remote, id);
    }
  }

  /** The account may grow by a new ID, change in settings elsewhere, and shrink elsewhere. */
  lemma AccountLeaves(s: State, account: map<string, Remote>, id: string)
    requires AccountOk(s) && (forall i :: i in account ==> account[i].id == i && i != "" && NoColon(i))
    requires (id in s.account ==> id in account && account[id] == s.account[id])
    ensures var s' := s.(account := account, issued := s.issued + account.Keys, keys := KeysFor(s, account));
      AccountOk(s') && Leaves(s, s', id)
  {
  }

  lemma ResolveKept(s: State, calls: ResolveCalls, id: string)
    requires KeptAway(s, id) && AccountOk(s)
    ensures var s' := Resolve(s, calls); KeptAway(s', id) && SameArms(s, s') && Leaves(s, s', id) && AccountOk(s')
  {
    if s.pass.Resolving? && Answers(s, calls) {
      ResolveOutcome(s, calls);
      AccountLeaves(s, ResolveRepo(s.account, s.pass.copy.spec, s.pass.copy.status, calls).account, id);
    }
  }

  /** The check ends a pass that would settle on the older one's remote. */
  lemma CheckedSettle(p: Pair, calls: SettleCalls, id: string)
    requires Holds(p.older, id) && InOrder(p) && id != "" && Proper(p, Younger(SettleStep(calls)), id)
    requires p.younger.pass.Settling? && p.younger.pass.remote.id == id
    ensures var s := p.younger;
      var r := Settle(s.account, s.me, s.pass.copy.spec, s.pass.copy.status, s.pass.remote, calls);
      !r.result.SettledAt? && r.account == s.account
  {
    if calls.listed {
      var mine := ClaimOf(p.younger.me, p.younger.pass.copy.spec, p.younger.pass.copy.status);
      var i :| 0 <= i < |calls.claims| && calls.claims[i] == Listed(p.older);
      assert Rival(calls.claims[i], mine, id);
    }
  }

  lemma SettleOutcome(p: Pair, calls: SettleCalls, id: string)
    requires AccountOk(p.younger) && Holds(p.older, id) && InOrder(p) && id != "" && p.younger.pass.Settling?
    requires Proper(p, Younger(SettleStep(calls)), id)
    ensures var s := p.younger;
      var r := Settle(s.account, s.me, s.pass.copy.spec, s.pass.copy.status, s.pass.remote, calls);
      && r.account.Keys == s.account.Keys && (forall i :: i in r.account ==> r.account[i].id == i)
      && (id in s.account ==> r.account[id] == s.account[id])
      && (r.result.SettledAt? ==> r.result.remote.id == s.pass.remote.id != id)
  {
    if p.younger.pass.remote.id == id {
      CheckedSettle(p, calls, id);
    }
  }

  lemma SettleKept(p: Pair, calls: SettleCalls, id: string)
    requires KeptAway(p.younger, id) && AccountOk(p.younger) && Holds(p.older, id) && InOrder(p) && id != ""
    requires Proper(p, Younger(SettleStep(calls)), id)
    ensures var s, s' := p.younger, SettleRemote(p.younger, calls);
      KeptAway(s', id) && SameArms(s, s') && Leaves(s, s', id) && AccountOk(s')
  {
    var s := p.younger;
    if s.pass.Settling? {
      SettleOutcome(p, calls, id);
      var account := Settle(s.account, s.me, s.pass.copy.spec, s.pass.copy.status, s.pass.remote, calls).account;
      AccountLeaves(s, account, id);
      assert s.issued + account.Keys == s.issued;
    }
  }

  lemma ShrunkAccount(s: State, gone: string, id: string)
    requires AccountOk(s) && gone != id
    ensures var account := s.account - {gone}; var s' := s.(account := account, keys := KeysFor(s, account));
      AccountOk(s') && Leaves(s, s', id)
  {
  }

  lemma FinalizeLeaves(s: State, api: bool, delete: Write, id: string)
    requires s.pass.Finalizing? ==> s.pass.copy.base.id != id
    requires AccountOk(s)
    ensures Leaves(s, Finalize(s, api, delete), id)
  {
    if s.pass.Finalizing? {
      ShrunkAccount(s, s.pass.copy.base.id, id);
    }
  }

  /** Beginning, ending and finalizing hand out no credentials. */
  lemma EndsKept(s: State, step: Step, id: string)
    requires step.BeginStep? || step.PersistStep? || step.CrashStep? || step.FinalizeStep? || step.ReleaseStep?
    requires KeptAway(s, id)
    ensures KeptAway(Next(s, step), id) && SameArms(s, Next(s, step))
  {
  }

  lemma WriteKept(s: State, write: Write, id: string)
    requires KeptAway(s, id)
    ensures var s' := WriteSecret(s, write); KeptAway(s', id) && Armed(s', id) <= Armed(s, id)
    ensures var s' := WriteSecret(s, write); Aims(s', id) ==> Aims(s, id)
  {
  }

  lemma InitKept(s: State, calls: InitCalls, id: string)
    requires KeptAway(s, id)
    ensures var s' := StartInit(s, calls); KeptAway(s', id) && Armed(s', id) <= Armed(s, id)
    ensures var s' := StartInit(s, calls); s'.secret == s.secret && (Aims(s, id) ==> s' == s)
  {
  }

  /** A pass of the younger resource arms no pod. */
  lemma PassKept(p: Pair, step: Step, id: string)
    requires KeptAway(p.younger, id) && AccountOk(p.younger) && Holds(p.older, id) && InOrder(p) && id != ""
    requires NoColon(id) && ByOperator(step) && Proper(p, Younger(step), id)
    ensures var s' := Next(p.younger, step);
      KeptAway(s', id) && Armed(s', id) <= Armed(p.younger, id) && (Aims(s', id) ==> Aims(p.younger, id))
  {
    match step
    case ResolveStep(calls) => ResolveKept(p.younger, calls, id);
    case SettleStep(calls) => SettleKept(p, calls, id);
    case ReadStep(_, _, _, _) => ReadKept(p.younger, step, id);
    case WriteStep(write) => WriteKept(p.younger, write, id);
    case InitStep(calls) => InitKept(p.younger, calls, id);
    case _ => EndsKept(p.younger, step, id);
  }

  /** Nor does anything else, but for a rotation with a key of the remote. */
  lemma WorldKept(s: State, step: Step, id: string)
    requires KeptAway(s, id) && !ByOperator(step)
    ensures KeptAway(Next(s, step), id) && (Aims(Next(s, step), id) ==> Aims(s, id))
  {
    SecretOutside(s, step);
  }

  lemma RotationArms(s: State, password: Password, at: string, id: string)
    requires AccountOk(s) && NoColon(id)
    ensures Armed(RotateAdd(s, password, at), id) <= Armed(s, id) || KeysOf(s, id) != {}
  {
    if password in s.rotating && s.secret.Some? && Reaches(s, s.secret.value.url, at)
       && s.secret.value.password in s.keys[at] && Aims(s, id) {
      UrlLeadsHome(s.account[at]);
      LeadsToOne(s.secret.value.url, at, id);
    }
  }

  lemma PodsArm(s: State, step: Step, id: string)
    requires step.StartPodStep? || step.RunPodStep? || step.DropPodStep?
    ensures Armed(Next(s, step), id) <= Armed(s, id)
  {
  }

  lemma WorldArms(s: State, step: Step, id: string)
    requires !ByOperator(step) && !step.RotateAddStep?
    ensures Armed(Next(s, step), id) <= Armed(s, id)
  {
    if step.StartPodStep? || step.RunPodStep? || step.DropPodStep? {
      PodsArm(s, step, id);
    } else {
      SecretOutside(s, step);
    }
  }

  /** As long as the remote has no keys, the younger resource gets no more passwords for it. */
  lemma ArmsShrink(p: Pair, step: Step, id: string)
    requires KeptAway(p.younger, id) && AccountOk(p.younger) && Holds(p.older, id) && InOrder(p) && id != ""
    requires NoColon(id) && Proper(p, Younger(step), id)
    ensures var s' := Next(p.younger, step);
      && KeptAway(s', id) && (Aims(s', id) ==> Aims(p.younger, id))
      && (Armed(s', id) <= Armed(p.younger, id) || KeysOf(p.younger, id) != {})
  {
    if ByOperator(step) {
      PassKept(p, step, id);
    } else {
      WorldKept(p.younger, step, id);
      match step
      case RotateAddStep(password, at) => RotationArms(p.younger, password, at, id);
      case _ => WorldArms(p.younger, step, id);
    }
  }

  // ----- a stranger to the remote

  predicate Unrecorded(s: State, id: string) {
    && (s.live.Some? ==> s.live.value.status.id != id)
    && (!s.pass.Idle? ==> s.pass.copy.base.id != id && s.pass.copy.status.id != id)
  }

  /** No rotation goes on with a Secret for the remote. */
  predicate Unrotating(s: State, id: string) {
    Aims(s, id) ==>
      && s.rotating == {} && s.added == {} && (s.live.Some? ==> !s.live.value.status.initialized)
      && (!s.pass.Idle? ==> !s.pass.copy.status.initialized)
  }

  /** No pod of the resource can make the first key. */
  predicate Disarmed(s: State, id: string) {
    Armed(s, id) == {} || KeysOf(s, id) != {} || Gone(s, id)
  }

  /** The resource has not got past the conflict check with this remote, and its credentials make no key. */
  predicate Stranger(s: State, id: string) {
    Unrecorded(s, id) && KeptAway(s, id) && Unrotating(s, id) && Disarmed(s, id)
  }

  lemma UnrecordedSettle(p: Pair, calls: SettleCalls, id: string)
    requires Unrecorded(p.younger, id) && AccountOk(p.younger) && Holds(p.older, id) && InOrder(p) && id != ""
    requires Proper(p, Younger(SettleStep(calls)), id)
    ensures Unrecorded(SettleRemote(p.younger, calls), id)
  {
    if p.younger.pass.Settling? {
      SettleOutcome(p, calls, id);
    }
  }

  lemma UnrecordedPass(s: State, step: Step, id: string)
    requires Unrecorded(s, id) && ByOperator(step) && !step.SettleStep? && id != ""
    ensures Unrecorded(Next(s, step), id)
  {
    if step.ResolveStep? && s.pass.Resolving? && Answers(s, step.resolve) {
      ListedIsThere(step.resolve.listing, s.account, s.pass.copy.spec.name);
    }
  }

  lemma UnrecordedWorld(s: State, step: Step, id: string)
    requires Unrecorded(s, id) && !ByOperator(step)
    ensures Unrecorded(Next(s, step), id)
  {
  }

  lemma UnrotatingPass(s: State, step: Step, id: string)
    requires Unrotating(s, id) && KeptAway(s, id) && ByOperator(step) && (Aims(Next(s, step), id) ==> Aims(s, id))
    ensures Unrotating(Next(s, step), id)
  {
  }

  lemma UnrotatingWorld(s: State, step: Step, id: string)
    requires Unrotating(s, id) && !ByOperator(step) && (Aims(Next(s, step), id) ==> Aims(s, id))
    ensures Unrotating(Next(s, step), id)
  {
  }

  /** Keys change elsewhere only. */
  lemma KeysLeave(s: State, at: string, keys: set<string>, id: string)
    requires AccountOk(s) && at in s.keys && at != id
    ensures var s' := s.(keys := s.keys[at := keys]); AccountOk(s') && Leaves(s, s', id)
  {
  }

  lemma PodLeaves(s: State, pod: Pod, at: string, id: string)
    requires Disarmed(s, id) && AccountOk(s)
    ensures Leaves(s, RunPod(s, pod, at), id)
  {
    if pod in s.pods && Reaches(s, pod.url, at) {
      UrlLeadsHome(s.account[at]);
      if at == id {
        assert pod.password in Armed(s, id);
      } else {
        KeysLeave(s, at, {pod.password}, id);
      }
    }
  }

  lemma RotationLeaves(s: State, password: Password, at: string, id: string)
    requires Unrotating(s, id) && AccountOk(s)
    ensures Leaves(s, RotateAdd(s, password, at), id)
  {
    if password in s.rotating && s.secret.Some? && Reaches(s, s.secret.value.url, at) {
      UrlLeadsHome(s.account[at]);
      KeysLeave(s, at, s.keys[at] + {password}, id);
    }
  }

  /** What the younger resource does changes neither the remote nor its keys. */
  lemma StrangerLeaves(p: Pair, step: Step, id: string)
    requires Stranger(p.younger, id) && AccountOk(p.younger) && Holds(p.older, id) && InOrder(p) && id != ""
    requires NoColon(id) && Proper(p, Younger(step), id)
    ensures Leaves(p.younger, Next(p.younger, step), id)
  {
    var s := p.younger;
    match step
    case ResolveStep(calls) => ResolveKept(s, calls, id);
    case SettleStep(calls) => SettleKept(p, calls, id);
    case FinalizeStep(api, delete) => FinalizeLeaves(s, api, delete, id);
    case RunPodStep(pod, at) => PodLeaves(s, pod, at, id);
    case RotateAddStep(password, at) => RotationLeaves(s, password, at, id);
    case _ => QuietAccount(s, step);
  }

  lemma StaysUnrecorded(p: Pair, step: Step, id: string)
    requires Unrecorded(p.younger, id) && AccountOk(p.younger) && Holds(p.older, id) && InOrder(p) && id != ""
    requires Proper(p, Younger(step), id)
    ensures Unrecorded(Next(p.younger, step), id)
  {
    if step.SettleStep? {
      UnrecordedSettle(p, step.settle, id);
    } else if ByOperator(step) {
      UnrecordedPass(p.younger, step, id);
    } else {
      UnrecordedWorld(p.younger, step, id);
    }
  }

  /** Whatever the younger resource does, it stays a stranger to a remote that the older one holds. */
  lemma StrangerMove(p: Pair, step: Step, id: string)
    requires Stranger(p.younger, id) && AccountOk(p.younger) && Holds(p.older, id) && InOrder(p) && id != ""
    requires NoColon(id) && Proper(p, Younger(step), id)
    ensures var s := Next(p.younger, step); Stranger(s, id) && Leaves(p.younger, s, id) && AccountOk(s)
  {
    var s := p.younger;
    AccountOkStep(s, step);
    StrangerLeaves(p, step, id);
    ArmsShrink(p, step, id);
    StaysUnrecorded(p, step, id);
    if ByOperator(step) {
      UnrotatingPass(s, step, id);
    } else {
      UnrotatingWorld(s, step, id);
    }
    if Gone(s, id) {
      GoneStays(s, step, id);
    }
  }

  /** What the older resource and the world do leaves a stranger one. */
  lemma StrangerFollows(p: Pair, step: Step, id: string)
    requires SharesAccount(p) && Stranger(p.younger, id) && AccountOk(p.younger) && Proper(p, Older(step), id)
    ensures Stranger(Step2(p, Older(step)).younger, id)
  {
    var s := Next(p.older, step);
    assert Armed(Follow(p.younger, s), id) == Armed(p.younger, id);
    if Gone(p.older, id) {
      GoneStays(p.older, step, id);
    } else if KeysOf(p.older, id) != {} && Armed(p.younger, id) != {} {
      KeysRemain(p.older, step, id);
    }
  }

  // ----- whole runs

  /** The older resource holds the remote all along. */
  predicate HeldRun(p: Pair, moves: seq<Move>, id: string)
    decreases |moves|
  {
    Holds(p.older, id) && (moves == [] || (Proper(p, moves[0], id) && HeldRun(Step2(p, moves[0]), moves[1..], id)))
  }

  /** No move of the younger resource touches the remote. */
  predicate Untouched(p: Pair, moves: seq<Move>, id: string)
    decreases |moves|
  {
    moves == [] || (
      && (moves[0].Younger? ==> Leaves(p.younger, Next(p.younger, moves[0].step), id))
      && Untouched(Step2(p, moves[0]), moves[1..], id))
  }

  predicate Apart(p: Pair, id: string) {
    SharesAccount(p) && AccountOk(p.younger) && InOrder(p) && id != "" && NoColon(id) && Stranger(p.younger, id)
  }

  lemma ApartMove(p: Pair, move: Move, id: string)
    requires Apart(p, id) && Holds(p.older, id) && Proper(p, move, id)
    ensures Apart(Step2(p, move), id)
    ensures move.Younger? ==> Leaves(p.younger, Next(p.younger, move.step), id)
  {
    match move
    case Older(step) =>
      AccountOkStep(p.older, step);
      SameIdentity(p.older, step);
      StrangerFollows(p, step, id);
    case Younger(step) =>
      StrangerMove(p, step, id);
      SameIdentity(p.younger, step);
  }

  lemma SameIdentity(s: State, step: Step)
    ensures Next(s, step).me == s.me
  {
  }

  /**
   * As long as the older resource holds a remote, a younger one that is a stranger to it never edits, opens or deletes
   * it.
   */
  lemma {:induction false} OlderIsProtected(p: Pair, moves: seq<Move>, id: string)
    requires Apart(p, id) && HeldRun(p, moves, id)
    ensures Untouched(p, moves, id) && Apart(After2(p, moves), id)
    decreases |moves|
  {
    if moves != [] {
      ApartMove(p, moves[0], id);
      OlderIsProtected(Step2(p, moves[0]), moves[1..], id);
    }
  }

  // ----- the exact condition

  /** Proper moves up to the first one after which the older resource no longer holds the remote do not touch it. */
  ghost predicate Protected(p: Pair, id: string) {
    forall moves :: HeldRun(p, moves, id) ==> Untouched(p, moves, id)
  }

  /** Moves of which none removes a key. */
  predicate NoRemoval(moves: seq<Move>) {
    forall i :: 0 <= i < |moves| ==> !moves[i].step.RemoveKeyStep?
  }

  /** Some moves touch the remote, and none of them removes a key. */
  ghost predicate Touches(p: Pair, moves: seq<Move>, id: string) {
    HeldRun(p, moves, id) && !Untouched(p, moves, id) && NoRemoval(moves)
  }

  lemma TouchesLater(p: Pair, move: Move, moves: seq<Move>, id: string)
    requires Holds(p.older, id) && Proper(p, move, id) && !move.step.RemoveKeyStep?
    requires Touches(Step2(p, move), moves, id)
    ensures Touches(p, [move] + moves, id)
  {
    assert ([move] + moves)[1..] == moves;
  }

  /** A step that leaves the account is seen by its own resource only. */
  lemma OwnMove(p: Pair, step: Step)
    requires SharesAccount(p) && !TouchesAccount(step)
    ensures Step2(p, Younger(step)) == Pair(p.older, Next(p.younger, step)) && SharesAccount(Step2(p, Younger(step)))
  {
    QuietAccount(p.younger, step);
  }

  /** The last move: the finalizer deletes what is recorded. */
  lemma FinalizeTouches(p: Pair, id: string)
    requires SharesAccount(p) && Holds(p.older, id) && id in p.younger.account && p.younger.pass.Finalizing?
    requires p.younger.pass.copy.base.id == id != "" && p.younger.pass.copy.spec.policy.Delete?
    ensures Touches(p, [Younger(FinalizeStep(true, Applied))], id)
  {
    var move := Younger(FinalizeStep(true, Applied));
    assert id !in Next(p.younger, move.step).account;
    assert [move][1..] == [];
    assert Holds(Step2(p, move).older, id);
    assert HeldRun(Step2(p, move), [], id);
  }

  lemma BeginTouches(p: Pair, id: string) returns (moves: seq<Move>)
    requires SharesAccount(p) && Holds(p.older, id) && id in p.younger.account && p.younger.pass.Idle? && id != ""
    requires var s := p.younger; s.live.Some? && s.live.value.finalizer && s.live.value.deleting
    requires p.younger.live.value.status.id == id && p.younger.live.value.spec.policy.Delete?
    ensures Touches(p, moves, id)
  {
    var step := BeginStep(true, Applied);
    OwnMove(p, step);
    var next := Step2(p, Younger(step));
    assert next.younger.pass.Finalizing?;
    FinalizeTouches(next, id);
    moves := [Younger(FinalizeStep(true, Applied))];
    TouchesLater(p, Younger(step), moves, id);
    moves := [Younger(step)] + moves;
  }

  lemma DeleteTouches(p: Pair, id: string) returns (moves: seq<Move>)
    requires SharesAccount(p) && Holds(p.older, id) && id in p.younger.account && p.younger.pass.Idle? && id != ""
    requires var s := p.younger; s.live.Some? && s.live.value.finalizer && s.live.value.status.id == id
    requires p.younger.live.value.spec.policy.Delete?
    ensures Touches(p, moves, id)
  {
    OwnMove(p, DeleteStep);
    moves := BeginTouches(Step2(p, Younger(DeleteStep)), id);
    TouchesLater(p, Younger(DeleteStep), moves, id);
    moves := [Younger(DeleteStep)] + moves;
  }

  /** A younger resource that has recorded the remote can set the policy Delete, be deleted, and delete it. */
  lemma RecordedCanDelete(p: Pair, id: string) returns (moves: seq<Move>)
    requires SharesAccount(p) && Holds(p.older, id) && id in p.younger.account && id != ""
    requires var s := p.younger; s.pass.Idle? && s.live.Some? && s.live.value.finalizer && s.live.value.status.id == id
    requires WellFormed(p.younger.live.value.spec)
    ensures Touches(p, moves, id)
  {
    var step := EditStep(p.younger.live.value.spec.(policy := Delete));
    OwnMove(p, step);
    moves := DeleteTouches(Step2(p, Younger(step)), id);
    TouchesLater(p, Younger(step), moves, id);
    moves := [Younger(step)] + moves;
  }

  // ----- the other way: credentials make the first key

  /**
   * The older resource holds the remote, which is there, all along, and the demands of key safety on it and its remotes
   * are met.
   */
  predicate ContestRun(p: Pair, moves: seq<Move>, id: string)
    decreases |moves|
  {
    && Holds(p.older, id) && id in p.older.account
    && (moves == [] || (
          && Proper(p, moves[0], id) && (moves[0].Older? ==> Allowed(p.older, moves[0].step))
          && ContestRun(Step2(p, moves[0]), moves[1..], id)))
  }

  lemma {:induction false} ContestIsHeld(p: Pair, moves: seq<Move>, id: string)
    requires ContestRun(p, moves, id)
    ensures HeldRun(p, moves, id)
    decreases |moves|
  {
    if moves != [] {
      ContestIsHeld(Step2(p, moves[0]), moves[1..], id);
    }
  }

  /** The account is all that changes for the older resource. */
  predicate OnlyFollows(s: State, s': State) {
    s' == s.(account := s'.account, keys := s'.keys)
  }

  /** Allowed moves that touch the remote and make q its one key. */
  ghost predicate Fires(p: Pair, moves: seq<Move>, id: string, q: string) {
    && ContestRun(p, moves, id) && !Untouched(p, moves, id) && NoRemoval(moves)
    && var end := After2(p, moves);
       OnlyFollows(p.older, end.older) && id in end.older.account && KeysOf(end.older, id) == {q}
  }

  lemma FiresLater(p: Pair, move: Move, moves: seq<Move>, id: string, q: string)
    requires Holds(p.older, id) && Proper(p, move, id) && (move.Older? ==> Allowed(p.older, move.step))
    requires id in p.older.account && !move.step.RemoveKeyStep?
    requires Fires(Step2(p, move), moves, id, q) && OnlyFollows(p.older, Step2(p, move).older)
    ensures Fires(p, [move] + moves, id, q)
  {
    assert ([move] + moves)[1..] == moves;
  }

  /** A pod that reaches a remote without keys makes its password the first one. */
  lemma PodFires(p: Pair, id: string, pod: Pod)
    requires SharesAccount(p) && Holds(p.older, id) && KeysOf(p.younger, id) == {}
    requires pod in p.younger.pods && Reaches(p.younger, pod.url, id)
    ensures Fires(p, [Younger(RunPodStep(pod, id))], id, pod.password)
  {
    var move := Younger(RunPodStep(pod, id));
    assert [move][1..] == [];
    var s := Next(p.younger, move.step);
    assert KeysOf(s, id) == {pod.password};
    assert Step2(p, move).older == Follow(p.older, s);
    assert ContestRun(Step2(p, move), [], id) && After2(Step2(p, move), []) == Step2(p, move);
    assert !Untouched(p, [move], id);
  }

  /** The world can give the remote the REST password that a URL was made with. */
  lemma GivenReaches(url: string, r: Remote) returns (r': Remote)
    requires Given(url) && LeadsTo(url, r.id) && NoColon(r.id)
    ensures r' == r.(format := r'.format, htpasswd := r'.htpasswd) && ResticURL(r') == Ok(url)
  {
    var q: Remote :| NoColon(q.id) && ResticURL(q) == Ok(url);
    UrlLeadsHome(q);
    LeadsToOne(url, q.id, r.id);
    r' := r.(format := q.format, htpasswd := q.htpasswd);
  }

  lemma LooseFires(p: Pair, id: string, pod: Pod) returns (moves: seq<Move>)
    requires SharesAccount(p) && AccountOk(p.younger) && Holds(p.older, id) && KeysOf(p.younger, id) == {}
    requires id in p.younger.account && pod in p.younger.pods && LeadsTo(pod.url, id) && Given(pod.url)
    ensures Fires(p, moves, id, pod.password)
  {
    var r := GivenReaches(pod.url, p.older.account[id]);
    var move := Older(ChangeRemoteStep(r));
    var next := Step2(p, move);
    assert next.older == p.older.(account := p.older.account[id := r]);
    assert next.younger == p.younger.(account := p.younger.account[id := r]);
    PodFires(next, id, pod);
    moves := [Younger(RunPodStep(pod, id))];
    FiresLater(p, move, moves, id, pod.password);
    moves := [move] + moves;
  }

  lemma JobFires(p: Pair, id: string) returns (moves: seq<Move>)
    requires SharesAccount(p) && AccountOk(p.younger) && Holds(p.older, id) && KeysOf(p.younger, id) == {}
    requires id in p.younger.account && Supplied(p.younger) && Running(p.younger) && Aims(p.younger, id)
    requires p.younger.secret.value.password != ""
    ensures Fires(p, moves, id, p.younger.secret.value.password)
  {
    var s := p.younger;
    var pod := Pod(s.job.value.uid, s.secret.value.url, s.secret.value.password);
    var move := Younger(StartPodStep);
    OwnMove(p, StartPodStep);
    moves := LooseFires(Step2(p, move), id, pod);
    FiresLater(p, move, moves, id, pod.password);
    moves := [move] + moves;
  }

  /** Every password that the younger resource is armed with can become the one key of the remote. */
  lemma ArmedFires(p: Pair, id: string, q: string) returns (moves: seq<Move>)
    requires SharesAccount(p) && AccountOk(p.younger) && Holds(p.older, id) && KeysOf(p.younger, id) == {}
    requires id in p.younger.account && Supplied(p.younger) && q in Armed(p.younger, id)
    ensures Fires(p, moves, id, q)
  {
    var s := p.younger;
    if pod :| pod in s.pods && LeadsTo(pod.url, id) && pod.password == q {
      moves := LooseFires(p, id, pod);
    } else if q == s.secret.value.password {
      moves := JobFires(p, id);
    } else {
      var move := Younger(RotatePatchStep(q, Applied));
      OwnMove(p, RotatePatchStep(q, Applied));
      moves := JobFires(Step2(p, move), id);
      FiresLater(p, move, moves, id, q);
      moves := [move] + moves;
    }
  }

  // ----- whole histories

  /** A state as it stays sound when another resource changed the account. */
  lemma StraightFollows(s: State, other: State)
    requires Straight(s) && AccountOk(other) && s.issued <= other.issued
    ensures Straight(Follow(s, other))
  {
  }

  lemma IssuedGrows(s: State, step: Step)
    ensures s.issued <= Next(s, step).issued
  {
  }

  /** The younger of the two is new. */
  predicate StartsNew(p: Pair) {
    SharesAccount(p) && InOrder(p) && Newborn(p.younger) && WellFormed(p.younger.live.value.spec)
  }

  /** What a pair of resources always keeps. */
  ghost predicate Together(p: Pair) {
    SharesAccount(p) && InOrder(p) && Straight(p.younger)
  }

  lemma TogetherMove(p: Pair, move: Move)
    requires Together(p)
    ensures Together(Step2(p, move))
  {
    match move
    case Older(step) =>
      AccountOkStep(p.older, step);
      IssuedGrows(p.older, step);
      SameIdentity(p.older, step);
      StraightFollows(p.younger, Next(p.older, step));
    case Younger(step) =>
      StraightStep(p.younger, step);
      SameIdentity(p.younger, step);
  }

  lemma {:induction false} TogetherRun(p: Pair, moves: seq<Move>)
    requires Together(p)
    ensures Together(After2(p, moves))
    decreases |moves|
  {
    if moves != [] {
      TogetherMove(p, moves[0]);
      TogetherRun(Step2(p, moves[0]), moves[1..]);
    }
  }

  /** The resource is not about to record the remote, and has no credentials that could make its first key. */
  predicate Harmless(s: State, id: string) {
    Unrecorded(s, id) && (Armed(s, id) == {} || KeysOf(s, id) != {})
  }

  /** A pass of the resource has got past the conflict check with the remote. */
  predicate PastCheck(s: State, id: string) {
    (s.pass.Reading? || s.pass.Writing? || s.pass.Starting?) && s.pass.copy.status.id == id
  }

  lemma NotPastIsKeptAway(s: State, id: string)
    requires Straight(s) && !PastCheck(s, id) && id != "" && NoColon(id)
    ensures KeptAway(s, id)
  {
    if s.pass.Writing? && LeadsTo(s.pass.url, id) {
      LeadsToOne(s.pass.url, s.pass.copy.status.id, id);
    }
    if s.pass.Starting? && Aims(s, id) {
      LeadsToOne(s.secret.value.url, s.pass.copy.status.id, id);
    }
  }

  lemma HarmlessIsUnrotating(s: State, id: string)
    requires Straight(s) && s.live.Some? && Unrecorded(s, id) && id != "" && NoColon(id)
    ensures Unrotating(s, id)
  {
    if Aims(s, id) && WasInitialized(s) {
      LeadsToOne(s.secret.value.url, s.live.value.status.id, id);
    }
    if Aims(s, id) && !s.pass.Idle? && s.pass.copy.status.initialized {
      LeadsToOne(s.secret.value.url, s.pass.copy.status.id, id);
    }
  }

  /** In the states that are reached, what is harmless is a stranger. */
  lemma HarmlessIsStranger(s: State, id: string)
    requires Straight(s) && s.live.Some? && Harmless(s, id) && id != "" && NoColon(id)
    ensures Stranger(s, id)
  {
    NotPastIsKeptAway(s, id);
    HarmlessIsUnrotating(s, id);
  }

  // ----- from a pass that goes on

  /** The younger resource has the remote on record, or a pass that is past the conflict check with it. */
  predicate OnTheWay(s: State, id: string) {
    s.live.Some? && s.live.value.finalizer && (s.live.value.status.id == id || AboutToRecord(s, id))
  }

  predicate AboutToRecord(s: State, id: string) {
    && (s.pass.Reading? || s.pass.Writing? || s.pass.Starting? || s.pass.Ending?)
    && s.pass.copy.status.id == id && s.pass.copy.base.id != id
  }

  /** The next step of a pass towards its end, with calls that fail. */
  function Onward(s: State): Step {
    match s.pass
    case Reading(_, _) => ReadStep(false, false, false, "p")
    case Writing(_, _, _, _) => WriteStep(Rejected)
    case Starting(_) => InitStep(InitCalls(false, false, Rejected))
    case Ending(_) => PersistStep(Applied)
    case _ => CrashStep
  }

  /** How many such steps it takes. */
  function Left(s: State): nat {
    match s.pass
    case Reading(_, _) => 4
    case Writing(_, _, _, _) => 3
    case Starting(_) => 2
    case Ending(_) => 1
    case _ => 0
  }

  lemma OnwardRecords(s: State, id: string)
    requires s.live.Some? && s.live.value.finalizer && AboutToRecord(s, id)
    ensures var s' := Next(s, Onward(s));
      && !TouchesAccount(Onward(s)) && s'.live.Some? && s'.live.value.finalizer
      && s'.live.value.spec == s.live.value.spec && Left(s') < Left(s)
      && (if s.pass.Ending? then s'.pass.Idle? && s'.live.value.status.id == id else AboutToRecord(s', id))
  {
  }

  lemma {:induction false} OnTheWayTouches(p: Pair, id: string) returns (moves: seq<Move>)
    requires SharesAccount(p) && Holds(p.older, id) && id in p.younger.account && id != "" && OnTheWay(p.younger, id)
    requires WellFormed(p.younger.live.value.spec)
    ensures Touches(p, moves, id)
    decreases Left(p.younger)
  {
    var s := p.younger;
    if s.live.value.status.id == id {
      OwnMove(p, CrashStep);
      moves := RecordedCanDelete(Step2(p, Younger(CrashStep)), id);
      TouchesLater(p, Younger(CrashStep), moves, id);
      moves := [Younger(CrashStep)] + moves;
    } else {
      OnwardRecords(s, id);
      OwnMove(p, Onward(s));
      moves := OnTheWayTouches(Step2(p, Younger(Onward(s))), id);
      TouchesLater(p, Younger(Onward(s)), moves, id);
      moves := [Younger(Onward(s))] + moves;
    }
  }

  /** What is not harmless touches the remote. */
  lemma HarmTouches(p: Pair, id: string) returns (moves: seq<Move>)
    requires Together(p) && Holds(p.older, id) && id in p.younger.account && p.younger.live.Some?
    requires id != "" && !Harmless(p.younger, id)
    ensures Touches(p, moves, id)
  {
    if !Unrecorded(p.younger, id) {
      moves := OnTheWayTouches(p, id);
    } else {
      var q :| q in Armed(p.younger, id);
      moves := ArmedFires(p, id, q);
      ContestIsHeld(p, moves, id);
    }
  }

  /**
   * Whatever has happened before, and wherever the passes stand, the remote of the older one is protected exactly if
   * the younger one has not recorded it and no pass of it is past the conflict check with it, since finalizing makes no
   * such check, and the remote has keys or the younger one has no pods and no running Job with credentials for it,
   * since init makes none either.
   */
  lemma ProtectedExactly(start: Pair, history: seq<Move>, id: string)
    requires StartsNew(start)
    requires var p := After2(start, history); Holds(p.older, id) && id in p.younger.account && p.younger.live.Some?
    ensures var p := After2(start, history); Protected(p, id) <==> Harmless(p.younger, id)
  {
    NewbornIsStraight(start.younger);
    TogetherRun(start, history);
    var p := After2(start, history);
    if Harmless(p.younger, id) {
      HarmlessIsStranger(p.younger, id);
      forall moves | HeldRun(p, moves, id) ensures Untouched(p, moves, id) {
        OlderIsProtected(p, moves, id);
      }
    } else {
      var moves := HarmTouches(p, id);
    }
  }
}
