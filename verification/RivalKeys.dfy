/** Two Repositories of one account: exactly when the Secret of the older one keeps opening its repository. */
module RivalKeys {
  import opened Outcomes
  import opened BorgBase
  import opened Repository
  import opened RepositoryRuns
  import opened KeySafety
  import opened Credentials
  import opened Rivals

  // ----- what the younger resource does to the keys

  /** Keys are as before, or more if there were any, or the first one is a password that the resource was armed with. */
  predicate Unlocks(s: State, s': State, id: string) {
    || KeysOf(s', id) == KeysOf(s, id)
    || (KeysOf(s, id) != {} && KeysOf(s, id) <= KeysOf(s', id))
    || (KeysOf(s, id) == {} && exists q :: q in Armed(s, id) && KeysOf(s', id) == {q})
  }

  lemma LeavesUnlocks(s: State, s': State, id: string)
    requires Leaves(s, s', id)
    ensures Unlocks(s, s', id)
  {
  }

  lemma PodUnlocks(s: State, pod: Pod, at: string, id: string)
    requires AccountOk(s)
    ensures Unlocks(s, RunPod(s, pod, at), id)
  {
    if pod in s.pods && Reaches(s, pod.url, at) {
      UrlLeadsHome(s.account[at]);
      if at == id {
        assert pod.password in Armed(s, id);
      } else {
        KeysLeave(s, at, {pod.password}, id);
      }
    }
  }

  lemma RotationUnlocks(s: State, password: Password, at: string, id: string)
    requires AccountOk(s)
    ensures Unlocks(s, RotateAdd(s, password, at), id)
  {
  }

  lemma FinalizeUnlocks(s: State, api: bool, delete: Write, id: string)
    requires AccountOk(s) && id in Finalize(s, api, delete).account
    ensures Leaves(s, Finalize(s, api, delete), id)
  {
    if s.pass.Finalizing? && s.pass.copy.base.id != id {
      FinalizeLeaves(s, api, delete, id);
    }
  }

  lemma PassUnlocks(p: Pair, step: Step, id: string)
    requires KeptAway(p.younger, id) && AccountOk(p.younger) && Holds(p.older, id) && InOrder(p) && id != ""
    requires NoColon(id) && Proper(p, Younger(step), id) && ByOperator(step) && id in Next(p.younger, step).account
    ensures Leaves(p.younger, Next(p.younger, step), id)
  {
    match step
    case ResolveStep(calls) => ResolveKept(p.younger, calls, id);
    case SettleStep(calls) => SettleKept(p, calls, id);
    case FinalizeStep(api, delete) => FinalizeUnlocks(p.younger, api, delete, id);
    case _ => QuietAccount(p.younger, step);
  }

  lemma WorldUnlocks(s: State, step: Step, id: string)
    requires AccountOk(s) && !ByOperator(step)
    requires !step.ChangeRemoteStep? && !step.ForeignStep? && !step.RemoveKeyStep?
    ensures Next(s, step).account == s.account && Unlocks(s, Next(s, step), id)
  {
    match step
    case RunPodStep(pod, at) => PodUnlocks(s, pod, at, id);
    case RotateAddStep(password, at) => RotationUnlocks(s, password, at, id);
    case _ => QuietAccount(s, step);
  }

  /** As long as it does not delete the remote, the younger resource leaves its settings, and its keys as said. */
  lemma YoungerUnlocks(p: Pair, step: Step, id: string)
    requires KeptAway(p.younger, id) && AccountOk(p.younger) && Holds(p.older, id) && InOrder(p) && id != ""
    requires NoColon(id) && Proper(p, Younger(step), id)
    requires id in p.younger.account && id in Next(p.younger, step).account
    ensures var s' := Next(p.younger, step); s'.account[id] == p.younger.account[id] && Unlocks(p.younger, s', id)
  {
    if ByOperator(step) {
      PassUnlocks(p, step, id);
      LeavesUnlocks(p.younger, Next(p.younger, step), id);
    } else {
      WorldUnlocks(p.younger, step, id);
    }
  }

  // ----- what that is to the older one

  /** The keys have changed elsewhere, or in a way that the older resource can live with. */
  predicate Bearable(s: State, other: State, id: string) {
    && AccountOk(other) && s.issued <= other.issued
    && (id in s.account ==> id in other.account && other.account[id] == s.account[id])
    && (|| KeysOf(other, id) == KeysOf(s, id)
        || (KeysOf(s, id) != {} && KeysOf(s, id) <= KeysOf(other, id))
        || (id in s.account && KeysOf(s, id) == {} && s.written.Some? && KeysOf(other, id) == {s.written.value}))
  }

  /** If the resource looks for a remote by name, that still leads to the same one, or to none. */
  predicate NamesBearable(s: State, other: State, id: string) {
    s.live.Some? && s.live.value.spec.existingID == "" && s.live.value.status.id == "" ==>
      forall i :: i in other.account ==> (other.account[i].name == s.live.value.spec.name <==> i == id)
  }

  /** A remote that is not there only comes up if it is the one to adopt. */
  predicate NotBack(s: State, other: State, id: string) {
    (Holds(s, id) && id != "") || (id !in s.account ==> id !in other.account)
  }

  lemma FollowKeepsShape(s: State, other: State, id: string)
    requires Inv(s, id) && Bearable(s, other, id) && NamesBearable(s, other, id) && NotBack(s, other, id)
    ensures Shape(Follow(s, other), id)
  {
  }

  lemma FollowKeepsWritten(s: State, other: State, id: string)
    requires Inv(s, id) && Bearable(s, other, id) && NamesBearable(s, other, id) && NotBack(s, other, id)
    ensures WrittenOk(Follow(s, other), id)
  {
  }

  lemma FollowKeepsBlank(s: State, other: State, id: string)
    requires Inv(s, id) && Bearable(s, other, id) && NamesBearable(s, other, id) && NotBack(s, other, id)
    ensures BlankOk(Follow(s, other), id)
  {
    assert KeysOf(Follow(s, other), id) == KeysOf(other, id);
  }

  lemma FollowKeepsKeyed(s: State, other: State, id: string)
    requires Inv(s, id) && Bearable(s, other, id) && NamesBearable(s, other, id) && NotBack(s, other, id)
    ensures KeyedOk(Follow(s, other), id)
  {
    assert KeysOf(Follow(s, other), id) == KeysOf(other, id);
    if KeysOf(s, id) == {} && KeysOf(other, id) != {} {
      FirstIsWritten(s, other, id);
    } else if KeysOf(s, id) != {} {
      MoreKeys(s, other, id);
    }
  }

  lemma MoreKeys(s: State, other: State, id: string)
    requires Inv(s, id) && KeysOf(s, id) != {} && KeysOf(s, id) <= KeysOf(other, id)
    ensures KeyedOk(Follow(s, other), id)
  {
    var s' := Follow(s, other);
    assert id in s.keys.Keys;
    assert KeysOf(s', id) == KeysOf(other, id);
    forall key | key in KeysOf(s, id) ensures key in KeysOf(s', id) {
    }
  }

  /** The first key is the one password that is everywhere. */
  lemma FirstIsWritten(s: State, other: State, id: string)
    requires Inv(s, id) && id in s.account && KeysOf(s, id) == {}
    requires s.written.Some? && KeysOf(other, id) == {s.written.value}
    ensures KeyedOk(Follow(s, other), id)
  {
    assert KeysOf(Follow(s, other), id) == {s.written.value};
  }

  lemma FollowKeeps(s: State, other: State, id: string)
    requires Inv(s, id) && Bearable(s, other, id) && NamesBearable(s, other, id) && NotBack(s, other, id)
    ensures Inv(Follow(s, other), id)
  {
    FollowKeepsShape(s, other, id);
    FollowKeepsWritten(s, other, id);
    FollowKeepsBlank(s, other, id);
    FollowKeepsKeyed(s, other, id);
  }

  /** What a resource holds is what it is about. */
  lemma HeldIsFocus(s: State, id: string, id': string)
    requires Inv(s, id') && Holds(s, id) && id != ""
    ensures id' == id
  {
  }

  lemma OlderMoveKeeps(p: Pair, step: Step, id: string)
    requires Inv(p.older, id) && Allowed(p.older, step) && Holds(Next(p.older, step), id) && id != ""
    ensures Inv(Next(p.older, step), id)
  {
    var id' := id;
    if ByOperator(step) {
      PassStepKeeps(p.older, id, step);
      id' := Focus(p.older, id, step);
    } else {
      id' := OtherStepKeeps(p.older, id, step);
    }
    HeldIsFocus(Next(p.older, step), id, id');
  }

  // ----- against a stranger

  /** The older resource's moves are allowed ones. */
  predicate AllowedMoves(p: Pair, moves: seq<Move>)
    decreases |moves|
  {
    moves == [] || (
      && (moves[0].Older? ==> Allowed(p.older, moves[0].step))
      && AllowedMoves(Step2(p, moves[0]), moves[1..]))
  }

  lemma StrangerMoveKeeps(p: Pair, step: Step, id: string)
    requires Apart(p, id) && Inv(p.older, id) && Holds(p.older, id) && Proper(p, Younger(step), id)
    ensures Inv(Step2(p, Younger(step)).older, id)
  {
    StrangerMove(p, step, id);
    IssuedGrows(p.younger, step);
    FollowKeeps(p.older, Next(p.younger, step), id);
  }

  /** As long as the older resource holds its remote and a stranger competes for it, its Secret keeps opening it. */
  lemma {:induction false} OlderAlwaysOpens(p: Pair, moves: seq<Move>, id: string)
    requires Apart(p, id) && Inv(p.older, id) && HeldRun(p, moves, id) && AllowedMoves(p, moves)
    ensures Inv(After2(p, moves).older, id) && Opens(After2(p, moves).older)
    decreases |moves|
  {
    if moves == [] {
      InvOpens(p.older, id);
    } else {
      ApartMove(p, moves[0], id);
      match moves[0] {
        case Older(step) => OlderMoveKeeps(p, step, id);
        case Younger(step) => StrangerMoveKeeps(p, step, id);
      }
      OlderAlwaysOpens(Step2(p, moves[0]), moves[1..], id);
    }
  }

  // ----- against one with credentials

  /** If there is no key yet, all that the younger resource is armed with is the older one's password. */
  predicate Agreed(p: Pair, id: string) {
    KeysOf(p.older, id) != {}
    || forall q :: q in Armed(p.younger, id) ==> p.older.written.Some? && p.older.written.value == q
  }

  predicate Contest(p: Pair, id: string) {
    && SharesAccount(p) && AccountOk(p.younger) && InOrder(p) && id != "" && NoColon(id)
    && KeptAway(p.younger, id) && Inv(p.older, id) && Agreed(p, id)
  }

  lemma WrittenStays(s: State, step: Step)
    requires s.written.Some?
    ensures Next(s, step).written == s.written
  {
  }

  lemma OlderContest(p: Pair, step: Step, id: string)
    requires Contest(p, id) && Holds(p.older, id) && Allowed(p.older, step) && Proper(p, Older(step), id)
    requires var s := Next(p.older, step); Holds(s, id) && id in s.account
    ensures Contest(Step2(p, Older(step)), id)
  {
    AccountOkStep(p.older, step);
    SameIdentity(p.older, step);
    OlderMoveKeeps(p, step, id);
    OlderAgrees(p, step, id);
  }

  lemma OlderAgrees(p: Pair, step: Step, id: string)
    requires AccountOk(p.older) && Agreed(p, id) && Allowed(p.older, step) && id in Next(p.older, step).account
    ensures Agreed(Step2(p, Older(step)), id)
  {
    assert Armed(Follow(p.younger, Next(p.older, step)), id) == Armed(p.younger, id);
    if KeysOf(p.older, id) != {} {
      KeysRemain(p.older, step, id);
    } else if p.older.written.Some? {
      WrittenStays(p.older, step);
    }
  }

  lemma YoungerContest(p: Pair, step: Step, id: string)
    requires Contest(p, id) && Holds(p.older, id) && Proper(p, Younger(step), id)
    requires id in p.younger.account && id in Next(p.younger, step).account
    ensures Contest(Step2(p, Younger(step)), id)
  {
    var s := Next(p.younger, step);
    AccountOkStep(p.younger, step);
    SameIdentity(p.younger, step);
    ArmsShrink(p, step, id);
    YoungerUnlocks(p, step, id);
    IssuedGrows(p.younger, step);
    FollowKeeps(p.older, s, id);
  }

  lemma {:induction false} ContestOpens(p: Pair, moves: seq<Move>, id: string)
    requires Contest(p, id) && ContestRun(p, moves, id)
    ensures Opens(After2(p, moves).older)
    decreases |moves|
  {
    if moves == [] {
      InvOpens(p.older, id);
    } else {
      match moves[0] {
        case Older(step) => OlderContest(p, step, id);
        case Younger(step) => YoungerContest(p, step, id);
      }
      ContestOpens(Step2(p, moves[0]), moves[1..], id);
    }
  }

  /** As long as the remote is there, the older resource's Secret opens it. */
  ghost predicate KeepsOpening(p: Pair, id: string) {
    forall moves :: ContestRun(p, moves, id) ==> Opens(After2(p, moves).older)
  }

  /** There are keys, or all that the younger resource is armed with is the older one's password. */
  predicate SamePassword(p: Pair, id: string) {
    KeysOf(p.older, id) != {}
    || forall q :: q in Armed(p.younger, id) ==> p.older.secret.Some? && q == p.older.secret.value.password
  }

  lemma InvAgrees(p: Pair, id: string)
    requires Inv(p.older, id) && id in p.older.account && Managed(p.older.secret) && SamePassword(p, id)
    ensures Agreed(p, id)
  {
  }

  lemma OpensIfSame(p: Pair, id: string)
    requires Together(p) && Holds(p.older, id) && Inv(p.older, id) && id in p.older.account && id != ""
    requires KeptAway(p.younger, id) && Managed(p.older.secret)
    ensures KeepsOpening(p, id) <==> SamePassword(p, id)
  {
    if SamePassword(p, id) {
      InvAgrees(p, id);
      forall moves | ContestRun(p, moves, id) ensures Opens(After2(p, moves).older) {
        ContestOpens(p, moves, id);
      }
    } else {
      var q :| q in Armed(p.younger, id) && q != p.older.secret.value.password;
      var moves := ArmedFires(p, id, q);
      FiredLocksOut(p, moves, id, q);
    }
  }

  lemma FiredLocksOut(p: Pair, moves: seq<Move>, id: string, q: string)
    requires Fires(p, moves, id, q) && Managed(p.older.secret) && LeadsTo(p.older.secret.value.url, id)
    requires q != p.older.secret.value.password
    ensures !Opens(After2(p, moves).older)
  {
    var end := After2(p, moves).older;
    assert KeysOf(end, id) == {q} && end.secret == p.older.secret;
  }

  // ----- from a new resource

  /**
   * What happened to the account spares the resource: its own remotes are there, with keys that it can live with, and
   * nothing new looks like its own.
   */
  predicate Spares(s: State, other: State) {
    && s.live.Some?
    && (forall i :: i in s.account && Own(s, i) ==> Bearable(s, other, i))
    && (forall i :: i in other.account && i !in s.account ==> KeepsAway(s, other.account[i]))
    && (forall i :: i in other.account && i in s.account ==> other.account[i].name == s.account[i].name)
  }

  lemma SparesNames(s: State, other: State, id: string)
    requires Inv(s, id) && Spares(s, other) && AccountOk(other) && (Gone(s, id) ==> Gone(other, id))
    ensures NamesBearable(s, other, id) && NotBack(s, other, id)
  {
  }

  lemma SparesKeeps(s: State, other: State, id: string)
    requires Inv(s, id) && Spares(s, other) && AccountOk(other) && s.issued <= other.issued
    requires Gone(s, id) ==> Gone(other, id)
    ensures Inv(Follow(s, other), id)
  {
    SparesNames(s, other, id);
    if id in s.account {
      OwnIsFocus(s, id);
    }
    FollowKeeps(s, other, id);
  }

  /** The older resource's steps are allowed ones, and those of the younger one spare it. */
  predicate SparedRun(p: Pair, moves: seq<Move>)
    decreases |moves|
  {
    moves == [] || (
      && (match moves[0]
          case Older(step) => Allowed(p.older, step)
          case Younger(step) => Spares(p.older, Next(p.younger, step)))
      && SparedRun(Step2(p, moves[0]), moves[1..]))
  }

  lemma SparedMove(p: Pair, move: Move, id: string) returns (id': string)
    requires SharesAccount(p) && AccountOk(p.younger) && Inv(p.older, id) && SparedRun(p, [move])
    ensures Inv(Step2(p, move).older, id')
  {
    id' := id;
    match move
    case Older(step) =>
      if ByOperator(step) {
        PassStepKeeps(p.older, id, step);
        id' := Focus(p.older, id, step);
      } else {
        id' := OtherStepKeeps(p.older, id, step);
      }
    case Younger(step) =>
      AccountOkStep(p.younger, step);
      IssuedGrows(p.younger, step);
      if Gone(p.younger, id) {
        GoneStays(p.younger, step, id);
      }
      SparesKeeps(p.older, Next(p.younger, step), id);
  }

  lemma {:induction false} InvSparedRun(p: Pair, moves: seq<Move>, id: string) returns (id': string)
    requires Together(p) && Inv(p.older, id) && SparedRun(p, moves)
    ensures Inv(After2(p, moves).older, id')
    decreases |moves|
  {
    id' := id;
    if moves != [] {
      id' := SparedMove(p, moves[0], id);
      TogetherMove(p, moves[0]);
      id' := InvSparedRun(Step2(p, moves[0]), moves[1..], id');
    }
  }

  /**
   * Whatever the younger resource has done before the older one is new, and whatever the two do then that spares the
   * older one: the Secret of the older one, once it is there, opens its remote for as long as that is there exactly if
   * the remote has keys, or no other password than the Secret's is with the younger one's pods or its running Job.
   */
  lemma OpensExactly(start: Pair, before: seq<Move>, since: seq<Move>, id: string)
    requires StartsNew(start)
    requires var mid := After2(start, before); Fresh(mid.older) && SparedRun(mid, since)
    requires var p := After2(After2(start, before), since);
      && Holds(p.older, id) && id in p.younger.account && Managed(p.older.secret) && !PastCheck(p.younger, id)
    ensures var p := After2(After2(start, before), since); KeepsOpening(p, id) <==> SamePassword(p, id)
  {
    NewbornIsStraight(start.younger);
    TogetherRun(start, before);
    var mid := After2(start, before);
    var first := FreshInv(mid.older);
    var last := InvSparedRun(mid, since, first);
    TogetherRun(mid, since);
    var p := After2(mid, since);
    HeldIsFocus(p.older, id, last);
    NotPastIsKeptAway(p.younger, id);
    OpensIfSame(p, id);
  }
}
