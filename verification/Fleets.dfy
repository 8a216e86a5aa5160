/** Any number of Repositories on one account: the results for two hold for the oldest one and all the others. */
module Fleets {
  import opened RepositoryRuns
  import opened KeySafety
  import opened Credentials
  import opened Rivals
  import opened RivalKeys

  /** The older resource and the younger ones, which all see the same account. */
  datatype Fleet = Fleet(older: State, youngers: seq<State>)

  datatype FleetMove = Holder(step: Step) | Other(k: nat, step: Step)

  function Followers(youngers: seq<State>, s: State): (r: seq<State>)
    ensures |r| == |youngers| && forall i :: 0 <= i < |r| ==> r[i] == Follow(youngers[i], s)
  {
    seq(|youngers|, i requires 0 <= i < |youngers| => Follow(youngers[i], s))
  }

  function StepAll(f: Fleet, move: FleetMove): Fleet {
    match move
    case Holder(step) => var s := Next(f.older, step); Fleet(s, Followers(f.youngers, s))
    case Other(k, step) =>
      if k >= |f.youngers| then f
      else var s := Next(f.youngers[k], step); Fleet(Follow(f.older, s), Followers(f.youngers, s)[k := s])
  }

  function AfterAll(f: Fleet, moves: seq<FleetMove>): Fleet
    decreases |moves|
  {
    if moves == [] then f else AfterAll(StepAll(f, moves[0]), moves[1..])
  }

  /** The older resource and one of the others. */
  function PairOf(f: Fleet, k: nat): Pair
    requires k < |f.youngers|
  {
    Pair(f.older, f.youngers[k])
  }

  lemma HolderPair(f: Fleet, step: Step, k: nat)
    requires k < |f.youngers|
    ensures var f' := StepAll(f, Holder(step));
      |f'.youngers| == |f.youngers| && PairOf(f', k) == Step2(PairOf(f, k), Older(step))
  {
  }

  lemma OwnPair(f: Fleet, step: Step, k: nat)
    requires k < |f.youngers|
    ensures var f' := StepAll(f, Other(k, step));
      |f'.youngers| == |f.youngers| && PairOf(f', k) == Step2(PairOf(f, k), Younger(step))
  {
  }

  lemma BesidePair(f: Fleet, step: Step, j: nat, k: nat)
    requires j < |f.youngers| && k < |f.youngers| && j != k
    ensures var f' := StepAll(f, Other(j, step)); var s := Next(f.youngers[j], step);
      |f'.youngers| == |f.youngers| && PairOf(f', k) == Pair(Follow(f.older, s), Follow(f.youngers[k], s))
  {
  }

  // ----- whole histories

  predicate AllNew(f: Fleet) {
    forall k :: 0 <= k < |f.youngers| ==> StartsNew(PairOf(f, k))
  }

  ghost predicate Joined(f: Fleet) {
    forall k :: 0 <= k < |f.youngers| ==> Together(PairOf(f, k))
  }

  lemma BesideTogether(f: Fleet, step: Step, j: nat, k: nat)
    requires Joined(f) && j < |f.youngers| && k < |f.youngers| && j != k
    ensures Together(Pair(Follow(f.older, Next(f.youngers[j], step)), Follow(f.youngers[k], Next(f.youngers[j], step))))
  {
    assert Together(PairOf(f, j)) && Together(PairOf(f, k));
    AccountOkStep(f.youngers[j], step);
    IssuedGrows(f.youngers[j], step);
    StraightFollows(f.youngers[k], Next(f.youngers[j], step));
  }

  lemma JoinedMove(f: Fleet, move: FleetMove)
    requires Joined(f)
    ensures Joined(StepAll(f, move)) && |StepAll(f, move).youngers| == |f.youngers|
  {
    var f' := StepAll(f, move);
    forall k | 0 <= k < |f'.youngers| ensures Together(PairOf(f', k)) {
      assert Together(PairOf(f, k));
      match move
      case Holder(step) =>
        HolderPair(f, step, k);
        TogetherMove(PairOf(f, k), Older(step));
      case Other(j, step) =>
        if j == k {
          OwnPair(f, step, k);
          TogetherMove(PairOf(f, k), Younger(step));
        } else if j < |f.youngers| {
          BesidePair(f, step, j, k);
          BesideTogether(f, step, j, k);
        }
    }
  }

  lemma {:induction false} JoinedRun(f: Fleet, moves: seq<FleetMove>)
    requires Joined(f)
    ensures Joined(AfterAll(f, moves)) && |AfterAll(f, moves).youngers| == |f.youngers|
    decreases |moves|
  {
    if moves != [] {
      JoinedMove(f, moves[0]);
      JoinedRun(StepAll(f, moves[0]), moves[1..]);
    }
  }

  lemma NewIsJoined(f: Fleet)
    requires AllNew(f)
    ensures Joined(f)
  {
    forall k | 0 <= k < |f.youngers| ensures Together(PairOf(f, k)) {
      assert StartsNew(PairOf(f, k));
      NewbornIsStraight(f.youngers[k]);
    }
  }

  // ----- protection

  /** What is asked of the moves of two resources, for the older one and each of the others. */
  predicate ProperAll(f: Fleet, move: FleetMove, id: string) {
    match move
    case Holder(step) => forall k :: 0 <= k < |f.youngers| ==> Proper(PairOf(f, k), Older(step), id)
    case Other(k, step) => k < |f.youngers| && Proper(PairOf(f, k), Younger(step), id)
  }

  predicate HeldByAll(f: Fleet, moves: seq<FleetMove>, id: string)
    decreases |moves|
  {
    Holds(f.older, id)
    && (moves == [] || (ProperAll(f, moves[0], id) && HeldByAll(StepAll(f, moves[0]), moves[1..], id)))
  }

  /** No move of a younger resource touches the remote. */
  predicate UntouchedByAll(f: Fleet, moves: seq<FleetMove>, id: string)
    decreases |moves|
  {
    moves == [] || (
      && (moves[0].Other? && moves[0].k < |f.youngers| ==>
            var s := f.youngers[moves[0].k]; Leaves(s, Next(s, moves[0].step), id))
      && UntouchedByAll(StepAll(f, moves[0]), moves[1..], id))
  }

  ghost predicate ProtectedFromAll(f: Fleet, id: string) {
    forall moves :: HeldByAll(f, moves, id) ==> UntouchedByAll(f, moves, id)
  }

  predicate AllApart(f: Fleet, id: string) {
    forall k :: 0 <= k < |f.youngers| ==> Apart(PairOf(f, k), id)
  }

  /** What one stranger does leaves another one a stranger. */
  lemma BesideApart(f: Fleet, step: Step, j: nat, k: nat, id: string)
    requires AllApart(f, id) && Holds(f.older, id) && j < |f.youngers| && k < |f.youngers| && j != k
    requires Proper(PairOf(f, j), Younger(step), id)
    ensures var s := Next(f.youngers[j], step); Apart(Pair(Follow(f.older, s), Follow(f.youngers[k], s)), id)
  {
    var s, t := Next(f.youngers[j], step), f.youngers[k];
    assert Apart(PairOf(f, j), id) && Apart(PairOf(f, k), id);
    StrangerMove(PairOf(f, j), step, id);
    assert Armed(Follow(t, s), id) == Armed(t, id);
    if Gone(f.youngers[j], id) {
      GoneStays(f.youngers[j], step, id);
    }
  }

  lemma AllApartMove(f: Fleet, move: FleetMove, id: string)
    requires AllApart(f, id) && Holds(f.older, id) && ProperAll(f, move, id)
    ensures AllApart(StepAll(f, move), id)
    ensures move.Other? ==> Leaves(f.youngers[move.k], Next(f.youngers[move.k], move.step), id)
  {
    var f' := StepAll(f, move);
    forall k | 0 <= k < |f'.youngers| ensures Apart(PairOf(f', k), id) {
      assert Apart(PairOf(f, k), id);
      match move
      case Holder(step) =>
        HolderPair(f, step, k);
        ApartMove(PairOf(f, k), Older(step), id);
      case Other(j, step) =>
        if j == k {
          OwnPair(f, step, k);
          ApartMove(PairOf(f, k), Younger(step), id);
        } else {
          BesidePair(f, step, j, k);
          BesideApart(f, step, j, k, id);
        }
    }
    if move.Other? {
      assert Apart(PairOf(f, move.k), id);
      ApartMove(PairOf(f, move.k), Younger(move.step), id);
    }
  }

  lemma {:induction false} AllApartProtects(f: Fleet, moves: seq<FleetMove>, id: string)
    requires AllApart(f, id) && HeldByAll(f, moves, id)
    ensures UntouchedByAll(f, moves, id)
    decreases |moves|
  {
    if moves != [] {
      AllApartMove(f, moves[0], id);
      AllApartProtects(StepAll(f, moves[0]), moves[1..], id);
    }
  }

  // ----- runs of two of them are runs of all

  function Lift(moves: seq<Move>, k: nat): (r: seq<FleetMove>)
    ensures |r| == |moves|
  {
    seq(|moves|, i requires 0 <= i < |moves| => LiftMove(moves[i], k))
  }

  function LiftMove(move: Move, k: nat): FleetMove {
    match move
    case Older(step) => Holder(step)
    case Younger(step) => Other(k, step)
  }

  lemma LiftTail(moves: seq<Move>, k: nat)
    requires moves != []
    ensures Lift(moves, k)[0] == LiftMove(moves[0], k) && Lift(moves, k)[1..] == Lift(moves[1..], k)
  {
  }

  lemma LiftedPair(f: Fleet, move: Move, k: nat)
    requires k < |f.youngers|
    ensures var f' := StepAll(f, LiftMove(move, k));
      |f'.youngers| == |f.youngers| && PairOf(f', k) == Step2(PairOf(f, k), move)
  {
    match move
    case Older(step) => HolderPair(f, step, k);
    case Younger(step) => OwnPair(f, step, k);
  }

  lemma {:induction false} LiftTouches(f: Fleet, k: nat, moves: seq<Move>, id: string)
    requires k < |f.youngers| && Touches(PairOf(f, k), moves, id)
    ensures HeldByAll(f, Lift(moves, k), id) && !UntouchedByAll(f, Lift(moves, k), id)
    decreases |moves|
  {
    var p := PairOf(f, k);
    LiftTail(moves, k);
    LiftedPair(f, moves[0], k);
    assert !moves[0].step.RemoveKeyStep?;
    assert ProperAll(f, LiftMove(moves[0], k), id);
    var rest := moves[1..];
    assert NoRemoval(rest) by {
      assert forall i :: 0 <= i < |rest| ==> rest[i] == moves[i + 1];
    }
    if Untouched(Step2(p, moves[0]), rest, id) {
      LiftHeld(StepAll(f, LiftMove(moves[0], k)), k, rest, id);
    } else {
      LiftTouches(StepAll(f, LiftMove(moves[0], k)), k, rest, id);
    }
  }

  lemma {:induction false} LiftHeld(f: Fleet, k: nat, moves: seq<Move>, id: string)
    requires k < |f.youngers| && HeldRun(PairOf(f, k), moves, id) && NoRemoval(moves)
    ensures HeldByAll(f, Lift(moves, k), id)
    decreases |moves|
  {
    if moves != [] {
      LiftTail(moves, k);
      LiftedPair(f, moves[0], k);
      assert !moves[0].step.RemoveKeyStep?;
      var rest := moves[1..];
      assert forall i :: 0 <= i < |rest| ==> rest[i] == moves[i + 1];
      LiftHeld(StepAll(f, LiftMove(moves[0], k)), k, rest, id);
    }
  }

  /**
   * Whatever has happened before, and wherever the passes stand, the remote of the oldest of any number of resources is
   * protected from all the others exactly if each of them is harmless.
   */
  lemma AllProtectedExactly(start: Fleet, history: seq<FleetMove>, id: string)
    requires AllNew(start)
    requires var f := AfterAll(start, history);
      && Holds(f.older, id)
      && forall k :: 0 <= k < |f.youngers| ==> id in f.youngers[k].account && f.youngers[k].live.Some?
    ensures var f := AfterAll(start, history);
      ProtectedFromAll(f, id) <==> forall k :: 0 <= k < |f.youngers| ==> Harmless(f.youngers[k], id)
  {
    var f := AfterAll(start, history);
    NewIsJoined(start);
    JoinedRun(start, history);
    if forall k :: 0 <= k < |f.youngers| ==> Harmless(f.youngers[k], id) {
      HarmlessAreApart(f, id);
      forall moves | HeldByAll(f, moves, id) ensures UntouchedByAll(f, moves, id) {
        AllApartProtects(f, moves, id);
      }
    } else {
      var k :| 0 <= k < |f.youngers| && !Harmless(f.youngers[k], id);
      assert Together(PairOf(f, k));
      var moves := HarmTouches(PairOf(f, k), id);
      LiftTouches(f, k, moves, id);
    }
  }

  lemma HarmlessAreApart(f: Fleet, id: string)
    requires Joined(f) && forall k :: 0 <= k < |f.youngers| ==>
      id in f.youngers[k].account && f.youngers[k].live.Some? && Harmless(f.youngers[k], id)
    ensures AllApart(f, id)
  {
    forall k | 0 <= k < |f.youngers| ensures Apart(PairOf(f, k), id) {
      assert Together(PairOf(f, k));
      HarmlessIsStranger(f.youngers[k], id);
    }
  }

  // ----- the older one's Secret

  predicate ContestedByAll(f: Fleet, moves: seq<FleetMove>, id: string)
    decreases |moves|
  {
    && Holds(f.older, id) && id in f.older.account
    && (moves == [] || (
          && ProperAll(f, moves[0], id) && (moves[0].Holder? ==> Allowed(f.older, moves[0].step))
          && ContestedByAll(StepAll(f, moves[0]), moves[1..], id)))
  }

  /** As long as the remote is there, the older resource's Secret opens it. */
  ghost predicate KeepsOpeningForAll(f: Fleet, id: string) {
    forall moves :: ContestedByAll(f, moves, id) ==> Opens(AfterAll(f, moves).older)
  }

  predicate AllContest(f: Fleet, id: string) {
    f.youngers != [] && forall k :: 0 <= k < |f.youngers| ==> Contest(PairOf(f, k), id)
  }

  /** What one of the others does leaves another one a contender that agrees. */
  lemma BesideContest(f: Fleet, step: Step, j: nat, k: nat, id: string)
    requires AllContest(f, id) && Holds(f.older, id) && j < |f.youngers| && k < |f.youngers| && j != k
    requires Proper(PairOf(f, j), Younger(step), id)
    requires id in f.youngers[j].account && id in Next(f.youngers[j], step).account
    ensures var s := Next(f.youngers[j], step); Contest(Pair(Follow(f.older, s), Follow(f.youngers[k], s)), id)
  {
    var s, t := Next(f.youngers[j], step), f.youngers[k];
    assert Contest(PairOf(f, j), id) && Contest(PairOf(f, k), id);
    YoungerContest(PairOf(f, j), step, id);
    YoungerUnlocks(PairOf(f, j), step, id);
    assert Armed(Follow(t, s), id) == Armed(t, id);
  }

  lemma AllContestMove(f: Fleet, move: FleetMove, id: string)
    requires AllContest(f, id) && Holds(f.older, id) && id in f.older.account
    requires ProperAll(f, move, id) && (move.Holder? ==> Allowed(f.older, move.step))
    requires var s := StepAll(f, move).older; Holds(s, id) && id in s.account
    ensures AllContest(StepAll(f, move), id)
  {
    var f' := StepAll(f, move);
    forall k | 0 <= k < |f'.youngers| ensures Contest(PairOf(f', k), id) {
      assert Contest(PairOf(f, k), id);
      match move
      case Holder(step) =>
        HolderPair(f, step, k);
        OlderContest(PairOf(f, k), step, id);
      case Other(j, step) =>
        assert Contest(PairOf(f, j), id);
        if j == k {
          OwnPair(f, step, k);
          YoungerContest(PairOf(f, k), step, id);
        } else {
          BesidePair(f, step, j, k);
          BesideContest(f, step, j, k, id);
        }
    }
  }

  lemma {:induction false} AllContestOpens(f: Fleet, moves: seq<FleetMove>, id: string)
    requires AllContest(f, id) && ContestedByAll(f, moves, id)
    ensures Opens(AfterAll(f, moves).older)
    decreases |moves|
  {
    if moves == [] {
      assert Contest(PairOf(f, 0), id);
      InvOpens(f.older, id);
    } else {
      AllContestMove(f, moves[0], id);
      AllContestOpens(StepAll(f, moves[0]), moves[1..], id);
    }
  }

  lemma {:induction false} LiftContest(f: Fleet, k: nat, moves: seq<Move>, id: string)
    requires k < |f.youngers| && ContestRun(PairOf(f, k), moves, id) && NoRemoval(moves)
    ensures ContestedByAll(f, Lift(moves, k), id)
    ensures AfterAll(f, Lift(moves, k)).older == After2(PairOf(f, k), moves).older
    decreases |moves|
  {
    if moves != [] {
      LiftTail(moves, k);
      LiftedPair(f, moves[0], k);
      assert !moves[0].step.RemoveKeyStep?;
      var rest := moves[1..];
      assert forall i :: 0 <= i < |rest| ==> rest[i] == moves[i + 1];
      LiftContest(StepAll(f, LiftMove(moves[0], k)), k, rest, id);
    }
  }

  // ----- from a new resource

  predicate SparedByAll(f: Fleet, moves: seq<FleetMove>)
    decreases |moves|
  {
    moves == [] || (
      && (match moves[0]
          case Holder(step) => Allowed(f.older, step)
          case Other(k, step) => k < |f.youngers| ==> Spares(f.older, Next(f.youngers[k], step)))
      && SparedByAll(StepAll(f, moves[0]), moves[1..]))
  }

  lemma SparedByOne(f: Fleet, move: FleetMove, id: string) returns (id': string)
    requires Joined(f) && f.youngers != [] && Inv(f.older, id) && SparedByAll(f, [move])
    ensures Inv(StepAll(f, move).older, id')
  {
    assert Together(PairOf(f, 0));
    match move
    case Holder(step) =>
      HolderPair(f, step, 0);
      id' := SparedMove(PairOf(f, 0), Older(step), id);
    case Other(k, step) =>
      if k < |f.youngers| {
        assert Together(PairOf(f, k));
        OwnPair(f, step, k);
        id' := SparedMove(PairOf(f, k), Younger(step), id);
      } else {
        id' := id;
      }
  }

  lemma {:induction false} InvSparedByAll(f: Fleet, moves: seq<FleetMove>, id: string) returns (id': string)
    requires Joined(f) && f.youngers != [] && Inv(f.older, id) && SparedByAll(f, moves)
    ensures Inv(AfterAll(f, moves).older, id')
    decreases |moves|
  {
    id' := id;
    if moves != [] {
      id' := SparedByOne(f, moves[0], id);
      JoinedMove(f, moves[0]);
      id' := InvSparedByAll(StepAll(f, moves[0]), moves[1..], id');
    }
  }

  lemma AllOpensIfSame(f: Fleet, id: string)
    requires Joined(f) && f.youngers != [] && Holds(f.older, id) && Inv(f.older, id) && Managed(f.older.secret)
    requires id in f.older.account && id != "" && forall k :: 0 <= k < |f.youngers| ==> !PastCheck(f.youngers[k], id)
    ensures KeepsOpeningForAll(f, id) <==> forall k :: 0 <= k < |f.youngers| ==> SamePassword(PairOf(f, k), id)
  {
    if forall k :: 0 <= k < |f.youngers| ==> SamePassword(PairOf(f, k), id) {
      forall k | 0 <= k < |f.youngers| ensures Contest(PairOf(f, k), id) {
        assert Together(PairOf(f, k));
        NotPastIsKeptAway(f.youngers[k], id);
        InvAgrees(PairOf(f, k), id);
      }
      forall moves | ContestedByAll(f, moves, id) ensures Opens(AfterAll(f, moves).older) {
        AllContestOpens(f, moves, id);
      }
    } else {
      var k :| 0 <= k < |f.youngers| && !SamePassword(PairOf(f, k), id);
      OneLocksOut(f, k, id);
    }
  }

  lemma OneLocksOut(f: Fleet, k: nat, id: string)
    requires Joined(f) && Holds(f.older, id) && Inv(f.older, id) && Managed(f.older.secret)
    requires id in f.older.account && k < |f.youngers| && !SamePassword(PairOf(f, k), id)
    ensures !KeepsOpeningForAll(f, id)
  {
    var p := PairOf(f, k);
    assert Together(p);
    var q :| q in Armed(p.younger, id) && q != p.older.secret.value.password;
    var moves := ArmedFires(p, id, q);
    FiredLocksOut(p, moves, id, q);
    LiftContest(f, k, moves, id);
  }

  /**
   * Whatever the others have done before the older resource is new, and whatever happens then that spares it: its
   * Secret, once it is there, opens its remote for as long as that is there exactly if the remote has keys, or no other
   * password than the Secret's is with any pods or running Job of the others.
   */
  lemma AllOpensExactly(start: Fleet, before: seq<FleetMove>, since: seq<FleetMove>, id: string)
    requires AllNew(start) && start.youngers != []
    requires var mid := AfterAll(start, before); Fresh(mid.older) && SparedByAll(mid, since)
    requires var f := AfterAll(AfterAll(start, before), since);
      && Holds(f.older, id) && id in f.older.account && Managed(f.older.secret)
      && forall k :: 0 <= k < |f.youngers| ==> !PastCheck(f.youngers[k], id)
    ensures var f := AfterAll(AfterAll(start, before), since);
      KeepsOpeningForAll(f, id) <==> forall k :: 0 <= k < |f.youngers| ==> SamePassword(PairOf(f, k), id)
  {
    NewIsJoined(start);
    JoinedRun(start, before);
    var mid := AfterAll(start, before);
    var first := FreshInv(mid.older);
    var last := InvSparedByAll(mid, since, first);
    JoinedRun(mid, since);
    var f := AfterAll(mid, since);
    assert Together(PairOf(f, 0));
    HeldIsFocus(f.older, id, last);
    AllOpensIfSame(f, id);
  }
}
