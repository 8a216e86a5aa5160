/** The bounded run history of internal/controller/trigger.go. */
module History {
  import opened Outcomes

  datatype Trigger = Scheduled | Manual

  datatype RunResult = Running | Succeeded | Failed

  /** BackupRun; times are in seconds. */
  datatype BackupRun = BackupRun(
    jobName: string,
    trigger: Trigger,
    result: RunResult,
    start: Option<int>,
    completion: Option<int>)

  datatype ObservedRun = ObservedRun(run: BackupRun, active: bool)

  const HISTORY_LIMIT: nat := 10

  /** compareRunTimes: negative, zero or positive; a missing time is older than any other. */
  function CompareRunTimes(a: Option<int>, b: Option<int>): int {
    match (a, b)
    case (None, None) => 0
    case (None, Some(_)) => -1
    case (Some(_), None) => 1
    case (Some(x), Some(y)) => if x < y then -1 else if x == y then 0 else 1
  }

  /** a goes in front of b in a list with the newest run first. */
  predicate Newer(a: BackupRun, b: BackupRun) {
    CompareRunTimes(b.start, a.start) < 0
  }

  function MostComplete(recorded: BackupRun, live: BackupRun): BackupRun {
    live.(
      start := if live.start.None? then recorded.start else live.start,
      completion := if live.completion.None? then recorded.completion else live.completion)
  }

  /** Only a run with a start time is newer than another, which started earlier or not yet. */
  lemma NewerExactly(a: BackupRun, b: BackupRun)
    ensures Newer(a, b) <==> a.start.Some? && (b.start.None? || b.start.value < a.start.value)
  {
  }

  /** What is observed stands, and times that are no longer observed stay as they were recorded. */
  lemma MostCompleteExactly(recorded: BackupRun, live: BackupRun)
    ensures var r := MostComplete(recorded, live);
      && r.jobName == live.jobName && r.trigger == live.trigger && r.result == live.result
      && (live.start.Some? ==> r.start == live.start) && (live.start.None? ==> r.start == recorded.start)
      && (live.completion.Some? ==> r.completion == live.completion)
      && (live.completion.None? ==> r.completion == recorded.completion)
  {
  }

  // ----- slices.SortStableFunc, newest first

  function Insert(x: BackupRun, s: seq<BackupRun>): seq<BackupRun> {
    if s == [] || !Newer(s[0], x) then [x] + s else [s[0]] + Insert(x, s[1..])
  }

  function Sort(s: seq<BackupRun>): seq<BackupRun> {
    if s == [] then [] else Insert(s[0], Sort(s[1..]))
  }

  predicate Ordered(s: seq<BackupRun>) {
    forall i, j :: 0 <= i < j < |s| ==> !Newer(s[j], s[i])
  }

  lemma {:induction false} InsertPermutes(x: BackupRun, s: seq<BackupRun>)
    ensures multiset(Insert(x, s)) == multiset{x} + multiset(s)
    ensures |Insert(x, s)| == |s| + 1
    ensures forall y :: y in Insert(x, s) <==> y == x || y in s
  {
    if s != [] && Newer(s[0], x) {
      InsertPermutes(x, s[1..]);
      assert s == [s[0]] + s[1..];
    } else {
      assert multiset([x] + s) == multiset{x} + multiset(s);
    }
  }

  lemma {:induction false} InsertOrders(x: BackupRun, s: seq<BackupRun>)
    requires Ordered(s)
    ensures Ordered(Insert(x, s))
  {
    if s != [] && Newer(s[0], x) {
      InsertOrders(x, s[1..]);
      InsertPermutes(x, s[1..]);
      var r := Insert(x, s[1..]);
      forall j | 0 <= j < |r| ensures !Newer(r[j], s[0]) {
        assert r[j] in r;
      }
    } else {
      forall j | 0 <= j < |s| ensures !Newer(s[j], x) {
        assert 0 < j ==> !Newer(s[j], s[0]);
      }
    }
  }

  lemma {:induction false} SortLaws(s: seq<BackupRun>)
    ensures Ordered(Sort(s))
    ensures multiset(Sort(s)) == multiset(s)
    ensures |Sort(s)| == |s|
  {
    if s != [] {
      SortLaws(s[1..]);
      InsertOrders(s[0], Sort(s[1..]));
      InsertPermutes(s[0], Sort(s[1..]));
      assert s == [s[0]] + s[1..];
    }
  }

  /** Runs with the same start time keep their order: the sort is stable. */
  function SameStart(s: seq<BackupRun>, start: Option<int>): seq<BackupRun> {
    if s == [] then []
    else if s[0].start == start then [s[0]] + SameStart(s[1..], start)
    else SameStart(s[1..], start)
  }

  lemma {:induction false} InsertIsStable(x: BackupRun, s: seq<BackupRun>, start: Option<int>)
    ensures SameStart(Insert(x, s), start) == if x.start == start then [x] + SameStart(s, start)
      else SameStart(s, start)
  {
    if s == [] || !Newer(s[0], x) {
      assert ([x] + s)[1..] == s;
    } else {
      InsertIsStable(x, s[1..], start);
      assert ([s[0]] + Insert(x, s[1..]))[1..] == Insert(x, s[1..]);
    }
  }

  lemma {:induction false} SortIsStable(s: seq<BackupRun>, start: Option<int>)
    ensures SameStart(Sort(s), start) == SameStart(s, start)
  {
    if s != [] {
      SortIsStable(s[1..], start);
      InsertIsStable(s[0], Sort(s[1..]), start);
    }
  }

  // ----- mergeHistory

  function Runs(observed: seq<ObservedRun>): seq<BackupRun> {
    seq(|observed|, i requires 0 <= i < |observed| => observed[i].run)
  }

  /** The last position of a name in a list, or -1. */
  function LastIndex(merged: seq<BackupRun>, name: string): (i: int)
    ensures -1 <= i < |merged|
    ensures i >= 0 ==> merged[i].jobName == name
    ensures forall j :: i < j < |merged| ==> merged[j].jobName != name
  {
    if merged == [] then -1
    else if merged[|merged| - 1].jobName == name then |merged| - 1
    else LastIndex(merged[..|merged| - 1], name)
  }

  /** A recorded run completes the observed run of its name, or joins the list. */
  function MergeOne(merged: seq<BackupRun>, run: BackupRun): seq<BackupRun> {
    var i := LastIndex(merged, run.jobName);
    if i >= 0 then merged[i := MostComplete(run, merged[i])] else merged + [run]
  }

  function MergeAll(merged: seq<BackupRun>, existing: seq<BackupRun>): seq<BackupRun> {
    if existing == [] then merged
    else MergeOne(MergeAll(merged, existing[..|existing| - 1]), existing[|existing| - 1])
  }

  function Limit(s: seq<BackupRun>): seq<BackupRun> {
    if |s| > HISTORY_LIMIT then s[..HISTORY_LIMIT] else s
  }

  function Merged(existing: seq<BackupRun>, observed: seq<ObservedRun>): seq<BackupRun> {
    Limit(Sort(MergeAll(Runs(observed), existing)))
  }

  /** Of all the runs in order, the history keeps the first ten, or all if there are fewer. */
  lemma LimitExactly(existing: seq<BackupRun>, observed: seq<ObservedRun>)
    ensures var all, kept := Sort(MergeAll(Runs(observed), existing)), Merged(existing, observed);
      |kept| == (if |all| < 10 then |all| else 10) && kept == all[..|kept|]
  {
  }

  /** seen holds the position that the merge loop looks names up with. */
  ghost predicate Indexes(seen: map<string, nat>, merged: seq<BackupRun>) {
    forall name: string ::
      if LastIndex(merged, name) >= 0 then name in seen && seen[name] == LastIndex(merged, name) else name !in seen
  }

  lemma IndexesSnoc(seen: map<string, nat>, merged: seq<BackupRun>, run: BackupRun)
    requires Indexes(seen, merged)
    ensures Indexes(seen[run.jobName := |merged|], merged + [run])
  {
    var merged' := merged + [run];
    forall name: string
      ensures LastIndex(merged', name) == if name == run.jobName then |merged| else LastIndex(merged, name)
    {
      assert merged'[..|merged|] == merged;
    }
  }

  lemma IndexesUpdate(seen: map<string, nat>, merged: seq<BackupRun>, i: nat, run: BackupRun)
    requires Indexes(seen, merged) && i < |merged| && run.jobName == merged[i].jobName
    ensures Indexes(seen, merged[i := run])
  {
    var merged' := merged[i := run];
    assert forall j :: 0 <= j < |merged| ==> merged'[j].jobName == merged[j].jobName;
    forall name: string ensures LastIndex(merged', name) == LastIndex(merged, name) {
      SameNames(merged, merged', name);
    }
  }

  lemma SameNames(s: seq<BackupRun>, t: seq<BackupRun>, name: string)
    requires |s| == |t| && forall j :: 0 <= j < |s| ==> s[j].jobName == t[j].jobName
    ensures LastIndex(s, name) == LastIndex(t, name)
  {
    var a, b := LastIndex(s, name), LastIndex(t, name);
    assert a >= 0 ==> t[a].jobName == name;
    assert b >= 0 ==> s[b].jobName == name;
  }

  method MergeHistory(existing: seq<BackupRun>, observed: seq<ObservedRun>) returns (history: seq<BackupRun>)
    ensures history == Merged(existing, observed)
  {
    var merged: seq<BackupRun> := [];
    var seen: map<string, nat> := map[];
    for k := 0 to |observed|
      invariant merged == Runs(observed)[..k]
      invariant Indexes(seen, merged)
    {
      IndexesSnoc(seen, merged, observed[k].run);
      seen := seen[observed[k].run.jobName := |merged|];
      merged := merged + [observed[k].run];
    }
    assert Runs(observed)[..|observed|] == Runs(observed);
    for k := 0 to |existing|
      invariant merged == MergeAll(Runs(observed), existing[..k])
      invariant Indexes(seen, merged)
    {
      var run := existing[k];
      assert existing[..k + 1][..k] == existing[..k];
      assert LastIndex(merged, run.jobName) >= 0 <==> run.jobName in seen;
      if run.jobName in seen {
        var i := seen[run.jobName];
        IndexesUpdate(seen, merged, i, MostComplete(run, merged[i]));
        merged := merged[i := MostComplete(run, merged[i])];
      } else {
        IndexesSnoc(seen, merged, run);
        seen := seen[run.jobName := |merged|];
        merged := merged + [run];
      }
    }
    assert existing[..|existing|] == existing;
    history := Sort(merged);
    if |history| > HISTORY_LIMIT {
      history := history[..HISTORY_LIMIT];
    }
  }

  // ----- the merged list, when names are distinct

  predicate DistinctNames(s: seq<BackupRun>) {
    forall i, j :: 0 <= i < j < |s| ==> s[i].jobName != s[j].jobName
  }

  predicate HasName(s: seq<BackupRun>, name: string) {
    exists i :: 0 <= i < |s| && s[i].jobName == name
  }

  /** Merging keeps names distinct, and gives the names of both lists. */
  lemma {:induction false} MergeNames(merged: seq<BackupRun>, existing: seq<BackupRun>)
    requires DistinctNames(merged)
    ensures DistinctNames(MergeAll(merged, existing))
    ensures |MergeAll(merged, existing)| >= |merged|
    ensures forall name ::
      HasName(MergeAll(merged, existing), name) <==> HasName(merged, name) || HasName(existing, name)
  {
    if existing != [] {
      var n := |existing| - 1;
      MergeNames(merged, existing[..n]);
      var before := MergeAll(merged, existing[..n]);
      MergeOneNames(before, existing[n]);
      forall name ensures HasName(existing, name) <==> HasName(existing[..n], name) || existing[n].jobName == name {
        if HasName(existing, name) {
          var i :| 0 <= i < |existing| && existing[i].jobName == name;
          assert i < n ==> existing[..n][i].jobName == name;
        }
        if HasName(existing[..n], name) {
          var i :| 0 <= i < n && existing[..n][i].jobName == name;
          assert existing[i].jobName == name;
        }
      }
    }
  }

  lemma MergeOneNames(merged: seq<BackupRun>, run: BackupRun)
    requires DistinctNames(merged)
    ensures DistinctNames(MergeOne(merged, run)) && |MergeOne(merged, run)| >= |merged|
    ensures forall name :: HasName(MergeOne(merged, run), name) <==> HasName(merged, name) || run.jobName == name
  {
    var merged' := MergeOne(merged, run);
    assert forall i :: 0 <= i < |merged| ==> merged'[i].jobName == merged[i].jobName;
    assert |merged'| > |merged| ==> merged'[|merged|] == run;
    forall name ensures HasName(merged', name) <==> HasName(merged, name) || run.jobName == name {
      if HasName(merged, name) {
        var i :| 0 <= i < |merged| && merged[i].jobName == name;
        assert merged'[i].jobName == name;
      }
      if run.jobName == name {
        var i := LastIndex(merged, name);
        assert merged'[if i >= 0 then i else |merged|].jobName == name;
      }
    }
  }

  /** The recorded run of a name, if the list has one. */
  function Find(s: seq<BackupRun>, name: string): Option<BackupRun> {
    var i := LastIndex(s, name);
    if i >= 0 then Some(s[i]) else None
  }

  lemma FindAt(s: seq<BackupRun>, i: nat)
    requires DistinctNames(s) && i < |s|
    ensures Find(s, s[i].jobName) == Some(s[i])
  {
    var j := LastIndex(s, s[i].jobName);
    assert j >= i;
  }

  lemma FindNone(s: seq<BackupRun>, name: string)
    ensures Find(s, name).None? <==> !HasName(s, name)
  {
  }

  /** What a merge makes of an observed run, given what is recorded. */
  function Completed(run: BackupRun, existing: seq<BackupRun>): BackupRun {
    match Find(existing, run.jobName)
    case None => run
    case Some(recorded) => MostComplete(recorded, run)
  }

  function CompletedAll(runs: seq<BackupRun>, existing: seq<BackupRun>): seq<BackupRun> {
    seq(|runs|, i requires 0 <= i < |runs| => Completed(runs[i], existing))
  }

  /** The recorded runs that were not observed, in their order. */
  function Unobserved(existing: seq<BackupRun>, runs: seq<BackupRun>): seq<BackupRun> {
    if existing == [] then []
    else
      var n := |existing| - 1;
      var rest := Unobserved(existing[..n], runs);
      if HasName(runs, existing[n].jobName) then rest else rest + [existing[n]]
  }

  lemma {:induction false} UnobservedNames(existing: seq<BackupRun>, runs: seq<BackupRun>)
    ensures forall x :: x in Unobserved(existing, runs) ==> x in existing && !HasName(runs, x.jobName)
  {
    if existing != [] {
      UnobservedNames(existing[..|existing| - 1], runs);
    }
  }

  lemma NotNamed(s: seq<BackupRun>, name: string)
    requires forall x :: x in s ==> x.jobName != name
    ensures LastIndex(s, name) == -1
  {
  }

  /** With distinct names on both sides, merging completes the observed runs and adds the others. */
  lemma {:induction false} MergeParts(runs: seq<BackupRun>, existing: seq<BackupRun>)
    requires DistinctNames(runs) && DistinctNames(existing)
    ensures MergeAll(runs, existing) == CompletedAll(runs, existing) + Unobserved(existing, runs)
  {
    if existing == [] {
      assert CompletedAll(runs, []) == runs;
    } else {
      var n := |existing| - 1;
      var init, run := existing[..n], existing[n];
      MergeParts(runs, init);
      var before := CompletedAll(runs, init) + Unobserved(init, runs);
      CompletedSnoc(runs, init, run);
      assert init + [run] == existing;
      UnobservedNames(init, runs);
      if HasName(runs, run.jobName) {
        var i :| 0 <= i < |runs| && runs[i].jobName == run.jobName;
        LookUpObserved(runs, init, run, i);
      } else {
        NewName(runs, init, run);
      }
    }
  }

  /** One more recorded run changes only the observed run of its name. */
  lemma CompletedSnoc(runs: seq<BackupRun>, init: seq<BackupRun>, run: BackupRun)
    requires DistinctNames(runs) && DistinctNames(init + [run])
    ensures !HasName(init, run.jobName)
    ensures forall i :: 0 <= i < |runs| ==>
      CompletedAll(runs, init + [run])[i]
      == (if runs[i].jobName == run.jobName then MostComplete(run, runs[i]) else CompletedAll(runs, init)[i])
    ensures forall i :: 0 <= i < |runs| && runs[i].jobName == run.jobName ==> CompletedAll(runs, init)[i] == runs[i]
  {
    var existing := init + [run];
    var n := |init|;
    forall i | 0 <= i < n ensures init[i].jobName != run.jobName {
      assert existing[i].jobName != existing[n].jobName;
    }
    FindNone(init, run.jobName);
    forall name ensures Find(existing, name) == if name == run.jobName then Some(run) else Find(init, name) {
      assert existing[..n] == init;
    }
  }

  lemma LookUpObserved(runs: seq<BackupRun>, init: seq<BackupRun>, run: BackupRun, i: nat)
    requires DistinctNames(runs) && DistinctNames(init + [run]) && i < |runs| && runs[i].jobName == run.jobName
    ensures MergeOne(CompletedAll(runs, init) + Unobserved(init, runs), run)
         == CompletedAll(runs, init + [run]) + Unobserved(init, runs)
  {
    var a, b := CompletedAll(runs, init), Unobserved(init, runs);
    CompletedSnoc(runs, init, run);
    IndexOfObserved(runs, init, run.jobName, i);
    UpdateFront(a, b, i, MostComplete(run, a[i]));
    OneMoreCompleted(runs, init, run, i);
  }

  lemma OneMoreCompleted(runs: seq<BackupRun>, init: seq<BackupRun>, run: BackupRun, i: nat)
    requires DistinctNames(runs) && DistinctNames(init + [run]) && i < |runs| && runs[i].jobName == run.jobName
    ensures var a := CompletedAll(runs, init); a[i := MostComplete(run, a[i])] == CompletedAll(runs, init + [run])
  {
    var a, c := CompletedAll(runs, init), CompletedAll(runs, init + [run]);
    CompletedSnoc(runs, init, run);
    forall j | 0 <= j < |runs| ensures a[i := MostComplete(run, a[i])][j] == c[j] {
      assert j != i ==> runs[j].jobName != runs[i].jobName;
    }
  }

  lemma UpdateFront(a: seq<BackupRun>, b: seq<BackupRun>, i: nat, x: BackupRun)
    requires i < |a|
    ensures (a + b)[i := x] == a[i := x] + b && (a + b)[i] == a[i]
  {
  }

  /** An observed run stands in the merged list where it was observed. */
  lemma IndexOfObserved(runs: seq<BackupRun>, init: seq<BackupRun>, name: string, i: nat)
    requires DistinctNames(runs) && i < |runs| && runs[i].jobName == name
    ensures LastIndex(CompletedAll(runs, init) + Unobserved(init, runs), name) == i
  {
    var a, b := CompletedAll(runs, init), Unobserved(init, runs);
    UnobservedNames(init, runs);
    assert HasName(runs, name);
    var both := a + b;
    assert both[i].jobName == name;
    assert forall j :: 0 <= j < |b| ==> b[j] in b && b[j].jobName != name;
    assert forall j :: 0 <= j < |a| && j != i ==> a[j].jobName == runs[j].jobName != name;
  }

  lemma NewName(runs: seq<BackupRun>, init: seq<BackupRun>, run: BackupRun)
    requires DistinctNames(runs) && DistinctNames(init + [run]) && !HasName(runs, run.jobName)
    ensures MergeOne(CompletedAll(runs, init) + Unobserved(init, runs), run)
         == CompletedAll(runs, init + [run]) + (Unobserved(init, runs) + [run])
  {
    var a, b := CompletedAll(runs, init), Unobserved(init, runs);
    CompletedSnoc(runs, init, run);
    NotAmongMerged(runs, init, run);
    NotNamed(a + b, run.jobName);
    assert CompletedAll(runs, init + [run]) == a;
    assert a + b + [run] == a + (b + [run]);
  }

  lemma NotAmongMerged(runs: seq<BackupRun>, init: seq<BackupRun>, run: BackupRun)
    requires DistinctNames(init + [run]) && !HasName(runs, run.jobName)
    ensures forall x :: x in CompletedAll(runs, init) + Unobserved(init, runs) ==> x.jobName != run.jobName
  {
    var a, b := CompletedAll(runs, init), Unobserved(init, runs);
    UnobservedNames(init, runs);
    forall x: BackupRun | x in a ensures x.jobName != run.jobName {
      var i :| 0 <= i < |a| && a[i] == x;
      assert runs[i].jobName == x.jobName;
    }
    forall x: BackupRun | x in b ensures x.jobName != run.jobName {
      var j :| 0 <= j < |init| && init[j] == x;
      assert (init + [run])[j].jobName != (init + [run])[|init|].jobName;
    }
  }
}
