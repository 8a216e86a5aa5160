/** The bounded history always shows the newest runs of the unbounded log it truncates. */
module HistoryLog {
  import opened Outcomes
  import opened History

  // ----- the unbounded log

  function Names(runs: seq<BackupRun>): set<string> {
    set i | 0 <= i < |runs| :: runs[i].jobName
  }

  type Log = map<string, BackupRun>

  /** One observation: observed runs are completed by what the log already has; the others stay. */
  function LogStep(log: Log, runs: seq<BackupRun>): Log {
    map n | n in log.Keys + Names(runs) ::
      match Find(runs, n)
      case Some(run) => if n in log then MostComplete(log[n], run) else run
      case None => if n in log then log[n] else runs[0]
  }

  type Observations = seq<seq<ObservedRun>>

  function LogOf(obs: Observations): Log {
    if obs == [] then map[] else LogStep(LogOf(obs[..|obs| - 1]), Runs(obs[|obs| - 1]))
  }

  function HistoryOf(obs: Observations): seq<BackupRun> {
    if obs == [] then [] else Merged(HistoryOf(obs[..|obs| - 1]), obs[|obs| - 1])
  }

  // ----- what the log means

  /** The run as it was observed last. */
  function LastSeen(obs: Observations, name: string): Option<BackupRun> {
    if obs == [] then None
    else if Find(Runs(obs[|obs| - 1]), name).Some? then Find(Runs(obs[|obs| - 1]), name)
    else LastSeen(obs[..|obs| - 1], name)
  }

  /** The completion time that was observed last, if any ever was. */
  function LastCompletion(obs: Observations, name: string): Option<int> {
    if obs == [] then None
    else
      var run := Find(Runs(obs[|obs| - 1]), name);
      if run.Some? && run.value.completion.Some? then run.value.completion
      else LastCompletion(obs[..|obs| - 1], name)
  }

  /** Job start times, which never change. */
  type Clock = string -> int

  /** No two of these Jobs started at the same time. */
  ghost predicate DistinctStarts(names: set<string>, startOf: Clock) {
    forall a, b :: a in names && b in names && startOf(a) == startOf(b) ==> a == b
  }

  predicate Timed(run: BackupRun, startOf: Clock) {
    run.start == Some(startOf(run.jobName))
  }

  predicate Faithful(o: seq<ObservedRun>, startOf: Clock) {
    && DistinctNames(Runs(o))
    && forall i :: 0 <= i < |o| ==> Timed(o[i].run, startOf)
  }

  predicate AllFaithful(obs: Observations, startOf: Clock) {
    forall k :: 0 <= k < |obs| ==> Faithful(obs[k], startOf)
  }

  lemma FindTimed(o: seq<ObservedRun>, name: string, startOf: Clock)
    requires Faithful(o, startOf)
    ensures var r := Find(Runs(o), name); r.Some? ==> r.value.jobName == name && Timed(r.value, startOf)
  {
    var i := LastIndex(Runs(o), name);
    assert i >= 0 ==> Runs(o)[i] == o[i].run;
  }

  lemma NamesAreFound(runs: seq<BackupRun>, name: string)
    ensures name in Names(runs) <==> Find(runs, name).Some?
  {
    FindNone(runs, name);
  }

  /** The log has each run ever observed, as last observed, with the last completion time seen. */
  lemma {:induction false} LogMeaning(obs: Observations, name: string, startOf: Clock)
    requires AllFaithful(obs, startOf)
    ensures name in LogOf(obs) <==> LastSeen(obs, name).Some?
    ensures name in LogOf(obs) ==>
      && LogOf(obs)[name] == LastSeen(obs, name).value.(completion := LastCompletion(obs, name))
      && LogOf(obs)[name].jobName == name && Timed(LogOf(obs)[name], startOf)
    ensures LastSeen(obs, name).None? ==> LastCompletion(obs, name).None?
  {
    if obs != [] {
      var n := |obs| - 1;
      LogMeaning(obs[..n], name, startOf);
      NamesAreFound(Runs(obs[n]), name);
      FindTimed(obs[n], name, startOf);
    }
  }

  ghost predicate WellLogged(log: Log, startOf: Clock) {
    forall n :: n in log ==> log[n].jobName == n && Timed(log[n], startOf)
  }

  lemma LogIsWellLogged(obs: Observations, startOf: Clock)
    requires AllFaithful(obs, startOf)
    ensures WellLogged(LogOf(obs), startOf)
  {
    forall n | n in LogOf(obs) ensures LogOf(obs)[n].jobName == n && Timed(LogOf(obs)[n], startOf) {
      LogMeaning(obs, n, startOf);
    }
  }

  /** The runs of the log as they were observed last, without what earlier observations add. */
  function LastStep(last: Log, runs: seq<BackupRun>): Log {
    map n | n in last.Keys + Names(runs) ::
      match Find(runs, n)
      case Some(run) => run
      case None => if n in last then last[n] else runs[0]
  }

  function LastOf(obs: Observations): Log {
    if obs == [] then map[] else LastStep(LastOf(obs[..|obs| - 1]), Runs(obs[|obs| - 1]))
  }

  lemma {:induction false} LastMeaning(obs: Observations, name: string)
    ensures name in LastOf(obs) <==> LastSeen(obs, name).Some?
    ensures name in LastOf(obs) ==> LastOf(obs)[name] == LastSeen(obs, name).value
  {
    if obs != [] {
      var n := |obs| - 1;
      LastMeaning(obs[..n], name);
      NamesAreFound(Runs(obs[n]), name);
    }
  }

  // ----- the newest runs of a log

  predicate NewestFirst(h: seq<BackupRun>, startOf: Clock) {
    forall i, j :: 0 <= i < j < |h| ==> startOf(h[i].jobName) >= startOf(h[j].jobName)
  }

  function Min(a: nat, b: nat): nat {
    if a < b then a else b
  }

  /** A run of the log that is not in the list. */
  predicate Dropped(h: seq<BackupRun>, log: Log, n: string) {
    n in log && !HasName(h, n)
  }

  /** h is a choice of the newest runs of the log, newest first. */
  ghost predicate ChoosesNewest(h: seq<BackupRun>, log: Log, startOf: Clock) {
    && |h| == Min(HISTORY_LIMIT, |log|) && DistinctNames(h) && NewestFirst(h, startOf)
    && (forall i :: 0 <= i < |h| ==> h[i].jobName in log)
    && (forall n, i :: Dropped(h, log, n) && 0 <= i < |h| ==> startOf(h[i].jobName) >= startOf(n))
  }

  /** No dropped run started as late as this one. */
  ghost predicate Clear(h: seq<BackupRun>, log: Log, startOf: Clock, name: string) {
    forall n :: Dropped(h, log, n) ==> startOf(name) > startOf(n)
  }

  /**
   * h shows the newest runs of the log. Each run is as it was observed last, or as the log has it, with a completion
   * time from before; and it is as the log has it unless it started at the same time as one that was dropped.
   */
  ghost predicate ShowsNewest(h: seq<BackupRun>, log: Log, last: Log, startOf: Clock) {
    && ChoosesNewest(h, log, startOf) && last.Keys == log.Keys
    && (forall i :: 0 <= i < |h| ==> h[i] == log[h[i].jobName] || h[i] == last[h[i].jobName])
    && (forall i :: 0 <= i < |h| && Clear(h, log, startOf, h[i].jobName) ==> h[i] == log[h[i].jobName])
  }

  /** h is exactly the newest runs of the log, as the log has them. */
  ghost predicate IsNewest(h: seq<BackupRun>, log: Log, startOf: Clock) {
    && ChoosesNewest(h, log, startOf)
    && (forall i :: 0 <= i < |h| ==> h[i] == log[h[i].jobName])
  }

  /** Without equal start times, being the newest runs determines the list. */
  lemma NewestIsUnique(h: seq<BackupRun>, h': seq<BackupRun>, log: Log, startOf: Clock)
    requires DistinctStarts(log.Keys, startOf) && IsNewest(h, log, startOf) && IsNewest(h', log, startOf)
    ensures h == h'
  {
    forall i | 0 <= i < |h| ensures h[i] == h'[i] {
      NewestAgree(h, h', log, startOf, i);
    }
  }

  lemma {:induction false} NewestAgree(h: seq<BackupRun>, h': seq<BackupRun>, log: Log, startOf: Clock, i: nat)
    requires DistinctStarts(log.Keys, startOf) && IsNewest(h, log, startOf) && IsNewest(h', log, startOf)
    requires i < |h|
    ensures h[i] == h'[i]
  {
    forall j | 0 <= j < i ensures h[j] == h'[j] {
      NewestAgree(h, h', log, startOf, j);
    }
    NotNewer(h, h', log, startOf, i);
    NotNewer(h', h, log, startOf, i);
    assert startOf(h[i].jobName) == startOf(h'[i].jobName);
  }

  lemma NotNewer(h: seq<BackupRun>, h': seq<BackupRun>, log: Log, startOf: Clock, i: nat)
    requires IsNewest(h, log, startOf) && IsNewest(h', log, startOf) && i < |h|
    requires forall j :: 0 <= j < i ==> h[j] == h'[j]
    ensures startOf(h[i].jobName) <= startOf(h'[i].jobName)
  {
    var n := h[i].jobName;
    if HasName(h', n) {
      var k :| 0 <= k < |h'| && h'[k].jobName == n;
      assert k >= i by {
        assert forall j :: 0 <= j < i ==> h'[j].jobName != n;
      }
    } else {
      assert Dropped(h', log, n);
    }
  }

  // ----- counting

  lemma NamesSnoc(s: seq<BackupRun>)
    requires s != []
    ensures var n := |s| - 1; Names(s) == Names(s[..n]) + {s[n].jobName}
  {
    var n := |s| - 1;
    forall x | x in Names(s) ensures x in Names(s[..n]) + {s[n].jobName} {
      var i :| 0 <= i < |s| && s[i].jobName == x;
      assert i < n ==> s[..n][i].jobName == x;
    }
    forall x | x in Names(s[..n]) ensures x in Names(s) {
      var i :| 0 <= i < n && s[..n][i].jobName == x;
      assert s[i].jobName == x;
    }
  }

  lemma {:induction false} DistinctCount(s: seq<BackupRun>)
    requires DistinctNames(s)
    ensures |Names(s)| == |s|
  {
    if s != [] {
      var n := |s| - 1;
      DistinctCount(s[..n]);
      NamesSnoc(s);
      assert s[n].jobName !in Names(s[..n]);
    }
  }

  lemma SubsetCount(a: set<string>, b: set<string>)
    requires a <= b
    ensures |a| <= |b|
    ensures |a| == |b| ==> a == b
  {
    assert |b - a| == |b| - |a| by {
      assert b == a + (b - a);
    }
    if |a| == |b| {
      assert b - a == {};
    }
  }

  /** In an ordered list, the runs newer than the i-th are at most i. */
  lemma Rank(s: seq<BackupRun>, i: nat, newer: set<string>, startOf: Clock)
    requires NewestFirst(s, startOf) && DistinctNames(s) && i < |s|
    requires forall n :: n in newer ==> HasName(s, n) && startOf(n) > startOf(s[i].jobName)
    ensures |newer| <= i
  {
    DistinctCount(s[..i]);
    forall n | n in newer ensures n in Names(s[..i]) {
      var k :| 0 <= k < |s| && s[k].jobName == n;
      assert k < i;
      assert s[..i][k].jobName == n;
    }
    SubsetCount(newer, Names(s[..i]));
  }

  lemma DifferenceCount(a: set<string>, b: set<string>)
    ensures |a - b| >= |a| - |b|
  {
    assert a == a * b + (a - b);
    SubsetCount(a * b, b);
  }

  /** If more names qualify than the list holds, one of them is not in it. */
  lemma OneIsOut(h: seq<BackupRun>, names: set<string>) returns (n: string)
    requires |names| > |h|
    ensures n in names && !HasName(h, n)
  {
    CountDistinct(h);
    DifferenceCount(names, Names(h));
    n :| n in names - Names(h);
  }

  /** If more than i runs of an ordered list are no older than a time, the i-th is not. */
  lemma EnoughNewer(s: seq<BackupRun>, names: set<string>, time: int, i: nat, startOf: Clock)
    requires NewestFirst(s, startOf) && DistinctNames(s) && i < |s| && i < |names|
    requires forall n :: n in names ==> HasName(s, n) && startOf(n) >= time
    ensures startOf(s[i].jobName) >= time
  {
    var newer := set n | n in names && startOf(n) > startOf(s[i].jobName);
    Rank(s, i, newer, startOf);
    DifferenceCount(names, newer);
    var n :| n in names - newer;
  }

  // ----- one observation

  /** Each merged run is timed, and is either a completed observed run or an unobserved recorded one. */
  lemma MergedElements(h: seq<BackupRun>, o: seq<ObservedRun>, startOf: Clock, k: nat)
    requires Faithful(o, startOf) && DistinctNames(h)
    requires forall i :: 0 <= i < |h| ==> Timed(h[i], startOf)
    requires k < |MergeAll(Runs(o), h)|
    ensures var x := MergeAll(Runs(o), h)[k];
      && Timed(x, startOf)
      && (if HasName(Runs(o), x.jobName)
          then Find(Runs(o), x.jobName).Some? && x == Completed(Find(Runs(o), x.jobName).value, h)
          else x in h)
  {
    var runs := Runs(o);
    MergeParts(runs, h);
    if k < |runs| {
      assert runs[k] == o[k].run;
      FindAt(runs, k);
      assert HasName(runs, runs[k].jobName);
    } else {
      UnobservedNames(h, runs);
      assert MergeAll(runs, h)[k] in Unobserved(h, runs);
    }
  }

  lemma SortedNewest(m: seq<BackupRun>, startOf: Clock)
    requires DistinctNames(m) && forall i :: 0 <= i < |m| ==> Timed(m[i], startOf)
    ensures NewestFirst(Sort(m), startOf) && DistinctNames(Sort(m)) && |Sort(m)| == |m|
    ensures forall n :: HasName(Sort(m), n) <==> HasName(m, n)
    ensures forall x :: x in Sort(m) <==> x in m
  {
    SortLaws(m);
    var s := Sort(m);
    assert forall x :: x in s <==> x in multiset(s);
    assert forall x :: x in m <==> x in multiset(m);
    SameNameSets(s, m);
    SameNameSets(m, s);
    DistinctSorted(m);
    forall i, j | 0 <= i < j < |s| ensures startOf(s[i].jobName) >= startOf(s[j].jobName) {
      assert s[i] in m && s[j] in m;
      assert !Newer(s[j], s[i]);
    }
  }

  lemma SameNameSets(s: seq<BackupRun>, t: seq<BackupRun>)
    requires forall x :: x in s ==> x in t
    ensures forall n :: HasName(s, n) ==> HasName(t, n)
  {
    forall n | HasName(s, n) ensures HasName(t, n) {
      var i :| 0 <= i < |s| && s[i].jobName == n;
      assert s[i] in t;
    }
  }

  /** Sorting keeps names distinct. */
  lemma DistinctSorted(m: seq<BackupRun>)
    requires DistinctNames(m)
    ensures DistinctNames(Sort(m))
  {
    SortLaws(m);
    var s := Sort(m);
    DistinctCount(m);
    assert forall x :: x in s <==> x in multiset(s);
    assert forall x :: x in m <==> x in multiset(m);
    SameNameSets(s, m);
    SameNameSets(m, s);
    forall n ensures n in Names(s) <==> n in Names(m) {
      assert n in Names(s) <==> HasName(s, n);
      assert n in Names(m) <==> HasName(m, n);
    }
    assert Names(s) == Names(m);
    CountDistinct(s);
  }

  lemma {:induction false} CountDistinct(s: seq<BackupRun>)
    ensures |Names(s)| <= |s|
    ensures |Names(s)| == |s| ==> DistinctNames(s)
  {
    if s != [] {
      var n := |s| - 1;
      CountDistinct(s[..n]);
      var rest := Names(s[..n]);
      NamesSnoc(s);
      if |Names(s)| == |s| {
        assert s[n].jobName !in rest;
        forall i | 0 <= i < n ensures s[i].jobName != s[n].jobName {
          assert s[..n][i].jobName in rest;
        }
      }
    }
  }

  /** What a step starts from. */
  ghost predicate Ready(h: seq<BackupRun>, log: Log, last: Log, o: seq<ObservedRun>, startOf: Clock) {
    WellLogged(log, startOf) && WellLogged(last, startOf) && Faithful(o, startOf) && ShowsNewest(h, log, last, startOf)
  }

  /** The sorted merge, before it is cut. */
  function Candidates(h: seq<BackupRun>, o: seq<ObservedRun>): seq<BackupRun> {
    Sort(MergeAll(Runs(o), h))
  }

  lemma CutCandidates(h: seq<BackupRun>, o: seq<ObservedRun>)
    ensures Merged(h, o) <= Candidates(h, o)
    ensures |Merged(h, o)| == Min(HISTORY_LIMIT, |Candidates(h, o)|)
  {
  }

  lemma StepElements(h: seq<BackupRun>, log: Log, last: Log, o: seq<ObservedRun>, startOf: Clock)
    requires Ready(h, log, last, o, startOf)
    ensures var s := Candidates(h, o);
      && NewestFirst(s, startOf) && DistinctNames(s) && |s| == |MergeAll(Runs(o), h)|
      && (forall n :: HasName(s, n) <==> HasName(Runs(o), n) || HasName(h, n))
      && (forall x :: x in s <==> x in MergeAll(Runs(o), h))
  {
    var m := MergeAll(Runs(o), h);
    MergeNames(Runs(o), h);
    forall i | 0 <= i < |h| ensures Timed(h[i], startOf) {
      assert h[i] == log[h[i].jobName] || h[i] == last[h[i].jobName];
    }
    forall i | 0 <= i < |m| ensures Timed(m[i], startOf) {
      MergedElements(h, o, startOf, i);
    }
    SortedNewest(m, startOf);
  }

  /** A list that has dropped a run is full. */
  lemma DroppedIsFull(h: seq<BackupRun>, log: Log, startOf: Clock, n: string)
    requires ChoosesNewest(h, log, startOf) && Dropped(h, log, n)
    ensures |h| == HISTORY_LIMIT && |Names(h)| == HISTORY_LIMIT && Names(h) <= log.Keys && n !in Names(h)
  {
    DistinctCount(h);
    assert Names(h) <= log.Keys;
    SubsetCount(Names(h), log.Keys);
  }

  // ----- the size

  lemma StepSize(h: seq<BackupRun>, log: Log, last: Log, o: seq<ObservedRun>, startOf: Clock)
    requires Ready(h, log, last, o, startOf)
    ensures |Merged(h, o)| == Min(HISTORY_LIMIT, |LogStep(log, Runs(o))|)
  {
    StepElements(h, log, last, o, startOf);
    CutCandidates(h, o);
    CountCandidates(h, Runs(o));
    assert Names(h) <= log.Keys;
    DistinctCount(h);
    CountMerged(Names(Runs(o)), Names(h), log.Keys);
    LogStepKeys(log, Runs(o));
  }

  lemma CountCandidates(h: seq<BackupRun>, runs: seq<BackupRun>)
    requires DistinctNames(h) && DistinctNames(runs)
    ensures |MergeAll(runs, h)| == |Names(runs) + Names(h)|
  {
    MergeNames(runs, h);
    DistinctCount(MergeAll(runs, h));
    NamesMerged(runs, h);
  }

  lemma LogStepKeys(log: Log, runs: seq<BackupRun>)
    ensures LogStep(log, runs).Keys == log.Keys + Names(runs) && |LogStep(log, runs)| == |log.Keys + Names(runs)|
  {
    assert LogStep(log, runs).Keys == log.Keys + Names(runs);
  }

  lemma NamesMerged(runs: seq<BackupRun>, h: seq<BackupRun>)
    requires DistinctNames(runs)
    ensures Names(MergeAll(runs, h)) == Names(runs) + Names(h)
  {
    var m := MergeAll(runs, h);
    MergeNames(runs, h);
    forall n ensures n in Names(m) <==> n in Names(runs) || n in Names(h) {
      assert n in Names(m) <==> HasName(m, n);
      assert n in Names(runs) <==> HasName(runs, n);
      assert n in Names(h) <==> HasName(h, n);
    }
  }

  /** If the list has ten names or all, so has the merged list. */
  lemma CountMerged(runs: set<string>, h: set<string>, log: set<string>)
    requires h <= log && |h| == Min(HISTORY_LIMIT, |log|)
    ensures Min(HISTORY_LIMIT, |runs + h|) == Min(HISTORY_LIMIT, |log + runs|)
  {
    SubsetCount(h, log);
    SubsetCount(h, runs + h);
    SubsetCount(runs + h, log + runs);
    if |log| <= HISTORY_LIMIT {
      assert h == log;
      assert runs + h == log + runs;
    }
  }

  // ----- what is dropped

  lemma TakeKeepsName(s: seq<BackupRun>, h: seq<BackupRun>, k: nat)
    requires h <= s && k < |h|
    ensures HasName(h, s[k].jobName)
  {
    assert h[k] == s[k];
  }

  lemma TakeKeepsOrder(s: seq<BackupRun>, h: seq<BackupRun>, startOf: Clock)
    requires h <= s && NewestFirst(s, startOf) && DistinctNames(s)
    ensures NewestFirst(h, startOf) && DistinctNames(h)
  {
    assert forall i :: 0 <= i < |h| ==> h[i] == s[i];
  }

  /** A run that was dropped before and is not among the candidates is no newer than any that is kept. */
  lemma OutStaysOut(h: seq<BackupRun>, log: Log, s: seq<BackupRun>, startOf: Clock, i: nat, n: string)
    requires ChoosesNewest(h, log, startOf) && Dropped(h, log, n)
    requires NewestFirst(s, startOf) && DistinctNames(s) && forall name :: HasName(h, name) ==> HasName(s, name)
    requires i < |s| && i < HISTORY_LIMIT
    ensures startOf(s[i].jobName) >= startOf(n)
  {
    DroppedIsFull(h, log, startOf, n);
    forall name | name in Names(h) ensures HasName(s, name) && startOf(name) >= startOf(n) {
      assert HasName(h, name);
    }
    EnoughNewer(s, Names(h), startOf(n), i, startOf);
  }

  lemma StepOthers(h: seq<BackupRun>, log: Log, last: Log, o: seq<ObservedRun>, startOf: Clock, n: string, i: nat)
    requires Ready(h, log, last, o, startOf)
    requires Dropped(Merged(h, o), LogStep(log, Runs(o)), n) && i < |Merged(h, o)|
    ensures startOf(Merged(h, o)[i].jobName) >= startOf(n)
  {
    var s, h' := Candidates(h, o), Merged(h, o);
    StepElements(h, log, last, o, startOf);
    CutCandidates(h, o);
    if HasName(s, n) {
      forall k | 0 <= k < |h'| ensures HasName(h', s[k].jobName) {
        TakeKeepsName(s, h', k);
      }
      var k :| 0 <= k < |s| && s[k].jobName == n;
    } else {
      NamesAreFound(Runs(o), n);
      FindNone(Runs(o), n);
      OutStaysOut(h, log, s, startOf, i, n);
    }
  }

  // ----- the entries

  /** A merged run against the log: the same, if the history has the log's entry for it whenever there is one. */
  lemma EntryMatches(h: seq<BackupRun>, log: Log, runs: seq<BackupRun>, x: BackupRun)
    requires DistinctNames(h) && (HasName(h, x.jobName) ==> x.jobName in log)
    requires x.jobName in log ==> exists j :: 0 <= j < |h| && h[j].jobName == x.jobName && h[j] == log[x.jobName]
    requires if HasName(runs, x.jobName)
      then Find(runs, x.jobName).Some? && x == Completed(Find(runs, x.jobName).value, h) else x in h
    ensures var log' := LogStep(log, runs); x.jobName in log' && x == log'[x.jobName]
  {
    NamesAreFound(runs, x.jobName);
    FindNone(runs, x.jobName);
    FindNone(h, x.jobName);
    if x.jobName in log {
      var j :| 0 <= j < |h| && h[j].jobName == x.jobName && h[j] == log[x.jobName];
      FindAt(h, j);
    }
  }

  /** The log adds to the last observation at most a completion time that it lacks. */
  ghost predicate Extends(log: Log, last: Log) {
    && last.Keys == log.Keys
    && forall n :: n in log ==>
         log[n] == last[n].(completion := log[n].completion) && (last[n].completion.Some? ==> log[n] == last[n])
  }

  ghost predicate Mixes(h: seq<BackupRun>, log: Log, last: Log) {
    && last.Keys == log.Keys
    && forall i :: 0 <= i < |h| ==> h[i].jobName in log && (h[i] == log[h[i].jobName] || h[i] == last[h[i].jobName])
  }

  lemma ObservedShape(h: seq<BackupRun>, log: Log, last: Log, runs: seq<BackupRun>, name: string)
    requires DistinctNames(h) && Extends(log, last) && Mixes(h, log, last)
    requires Find(runs, name).Some? && Find(runs, name).value.start.Some? && Find(runs, name).value.jobName == name
    ensures var x := Completed(Find(runs, name).value, h); var log', last' := LogStep(log, runs), LastStep(last, runs);
      name in log' && name in last' && (x == log'[name] || x == last'[name])
  {
    NamesAreFound(runs, name);
    FindNone(h, name);
    if HasName(h, name) {
      var j :| 0 <= j < |h| && h[j].jobName == name;
      FindAt(h, j);
    }
  }

  lemma UnobservedShape(h: seq<BackupRun>, log: Log, last: Log, runs: seq<BackupRun>, x: BackupRun)
    requires Mixes(h, log, last) && !HasName(runs, x.jobName) && x in h
    ensures var log', last' := LogStep(log, runs), LastStep(last, runs); var name := x.jobName;
      name in log' && name in last' && (x == log'[name] || x == last'[name])
  {
    NamesAreFound(runs, x.jobName);
    FindNone(runs, x.jobName);
    var j :| 0 <= j < |h| && h[j] == x;
  }

  lemma ExtendsStep(log: Log, last: Log, o: seq<ObservedRun>, startOf: Clock)
    requires Extends(log, last) && Faithful(o, startOf) && WellLogged(log, startOf)
    ensures Extends(LogStep(log, Runs(o)), LastStep(last, Runs(o)))
  {
    var runs := Runs(o);
    forall n | n in LogStep(log, runs)
      ensures var a, b := LogStep(log, runs)[n], LastStep(last, runs)[n];
        a == b.(completion := a.completion) && (b.completion.Some? ==> a == b)
    {
      NamesAreFound(runs, n);
      FindTimed(o, n, startOf);
    }
  }

  /** Where a run of the new list comes from. */
  lemma StepOrigin(h: seq<BackupRun>, log: Log, last: Log, o: seq<ObservedRun>, startOf: Clock, i: nat)
    requires Ready(h, log, last, o, startOf) && i < |Merged(h, o)|
    ensures var x := Merged(h, o)[i];
      if HasName(Runs(o), x.jobName)
      then Find(Runs(o), x.jobName).Some? && x == Completed(Find(Runs(o), x.jobName).value, h) else x in h
  {
    var s := Candidates(h, o);
    StepElements(h, log, last, o, startOf);
    CutCandidates(h, o);
    assert s[i] in s;
    var m := MergeAll(Runs(o), h);
    var k :| 0 <= k < |m| && m[k] == s[i];
    forall i | 0 <= i < |h| ensures Timed(h[i], startOf) {
      assert h[i] == log[h[i].jobName] || h[i] == last[h[i].jobName];
    }
    MergedElements(h, o, startOf, k);
  }

  lemma StepShape(h: seq<BackupRun>, log: Log, last: Log, o: seq<ObservedRun>, startOf: Clock, i: nat)
    requires Ready(h, log, last, o, startOf) && Extends(log, last) && i < |Merged(h, o)|
    ensures var x := Merged(h, o)[i]; var log', last' := LogStep(log, Runs(o)), LastStep(last, Runs(o));
      x.jobName in log' && x.jobName in last' && (x == log'[x.jobName] || x == last'[x.jobName])
  {
    var x := Merged(h, o)[i];
    StepOrigin(h, log, last, o, startOf, i);
    if HasName(Runs(o), x.jobName) {
      FindTimed(o, x.jobName, startOf);
      ObservedShape(h, log, last, Runs(o), x.jobName);
    } else {
      UnobservedShape(h, log, last, Runs(o), x);
    }
  }

  /** For a run that was dropped before, a run that started no earlier is dropped now. */
  lemma CrowdDrops(h: seq<BackupRun>, log: Log, last: Log, o: seq<ObservedRun>, startOf: Clock, u: string)
      returns (v: string)
    requires Ready(h, log, last, o, startOf) && Dropped(h, log, u)
    ensures Dropped(Merged(h, o), LogStep(log, Runs(o)), v) && startOf(v) >= startOf(u)
  {
    DroppedIsFull(h, log, startOf, u);
    CutCandidates(h, o);
    v := OneIsOut(Merged(h, o), Names(h) + {u});
    if v != u {
      var j :| 0 <= j < |h| && h[j].jobName == v;
    }
  }

  /** A run that no dropped one ties with was in the old list, with none to tie with there either. */
  lemma ClearBefore(h: seq<BackupRun>, log: Log, last: Log, o: seq<ObservedRun>, startOf: Clock, x: BackupRun)
    requires Ready(h, log, last, o, startOf) && x.jobName in log
    requires Clear(Merged(h, o), LogStep(log, Runs(o)), startOf, x.jobName)
    ensures HasName(h, x.jobName) && Clear(h, log, startOf, x.jobName)
  {
    forall u | Dropped(h, log, u) ensures startOf(x.jobName) > startOf(u) {
      var v := CrowdDrops(h, log, last, o, startOf, u);
    }
  }

  lemma StepClear(h: seq<BackupRun>, log: Log, last: Log, o: seq<ObservedRun>, startOf: Clock, i: nat)
    requires Ready(h, log, last, o, startOf) && i < |Merged(h, o)|
    requires Clear(Merged(h, o), LogStep(log, Runs(o)), startOf, Merged(h, o)[i].jobName)
    ensures var x := Merged(h, o)[i]; var log' := LogStep(log, Runs(o)); x.jobName in log' && x == log'[x.jobName]
  {
    var x := Merged(h, o)[i];
    StepOrigin(h, log, last, o, startOf, i);
    if x.jobName in log {
      ClearBefore(h, log, last, o, startOf, x);
      var j :| 0 <= j < |h| && h[j].jobName == x.jobName;
    }
    EntryMatches(h, log, Runs(o), x);
  }

  lemma StepChooses(h: seq<BackupRun>, log: Log, last: Log, o: seq<ObservedRun>, startOf: Clock)
    requires Ready(h, log, last, o, startOf) && Extends(log, last)
    ensures ChoosesNewest(Merged(h, o), LogStep(log, Runs(o)), startOf)
  {
    var h', log' := Merged(h, o), LogStep(log, Runs(o));
    StepSize(h, log, last, o, startOf);
    StepElements(h, log, last, o, startOf);
    CutCandidates(h, o);
    TakeKeepsOrder(Candidates(h, o), h', startOf);
    forall i | 0 <= i < |h'| ensures h'[i].jobName in log' {
      StepShape(h, log, last, o, startOf, i);
    }
    forall n, i | Dropped(h', log', n) && 0 <= i < |h'| ensures startOf(h'[i].jobName) >= startOf(n) {
      StepOthers(h, log, last, o, startOf, n, i);
    }
  }

  /** One observation keeps the list showing the newest runs. */
  lemma StepShows(h: seq<BackupRun>, log: Log, last: Log, o: seq<ObservedRun>, startOf: Clock)
    requires Ready(h, log, last, o, startOf) && Extends(log, last)
    ensures ShowsNewest(Merged(h, o), LogStep(log, Runs(o)), LastStep(last, Runs(o)), startOf)
  {
    var h', log', last' := Merged(h, o), LogStep(log, Runs(o)), LastStep(last, Runs(o));
    StepChooses(h, log, last, o, startOf);
    forall i | 0 <= i < |h'| ensures h'[i] == log'[h'[i].jobName] || h'[i] == last'[h'[i].jobName] {
      StepShape(h, log, last, o, startOf, i);
    }
    forall i | 0 <= i < |h'| && Clear(h', log', startOf, h'[i].jobName) ensures h'[i] == log'[h'[i].jobName] {
      StepClear(h, log, last, o, startOf, i);
    }
  }

  // ----- whole histories

  lemma {:induction false} HistoryShows(obs: Observations, startOf: Clock)
    requires AllFaithful(obs, startOf)
    ensures ShowsNewest(HistoryOf(obs), LogOf(obs), LastOf(obs), startOf) && Extends(LogOf(obs), LastOf(obs))
  {
    if obs != [] {
      var n := |obs| - 1;
      HistoryShows(obs[..n], startOf);
      LogIsWellLogged(obs[..n], startOf);
      LastIsWellLogged(obs[..n], startOf);
      StepShows(HistoryOf(obs[..n]), LogOf(obs[..n]), LastOf(obs[..n]), obs[n], startOf);
      ExtendsStep(LogOf(obs[..n]), LastOf(obs[..n]), obs[n], startOf);
    }
  }

  lemma LastIsWellLogged(obs: Observations, startOf: Clock)
    requires AllFaithful(obs, startOf)
    ensures WellLogged(LastOf(obs), startOf)
  {
    forall n | n in LastOf(obs) ensures LastOf(obs)[n].jobName == n && Timed(LastOf(obs)[n], startOf) {
      LastMeaning(obs, n);
      LogMeaning(obs, n, startOf);
    }
  }

  /** The run as the log has it: as it was last observed, with the last completion time ever seen. */
  function Remembered(obs: Observations, name: string): Option<BackupRun> {
    match LastSeen(obs, name)
    case Some(run) => Some(run.(completion := LastCompletion(obs, name)))
    case None => None
  }

  /** At most ten runs of the log, itself among them, started as late as this one. */
  predicate AmongTen(log: Log, startOf: Clock, name: string) {
    |StartedSince(log, startOf, name)| <= HISTORY_LIMIT
  }

  function StartedSince(log: Log, startOf: Clock, name: string): set<string> {
    set n | n in log.Keys && startOf(n) >= startOf(name)
  }

  /** For the runs that a list of the newest has, that is the same as being clear. */
  lemma AmongTenIsClear(h: seq<BackupRun>, log: Log, startOf: Clock, i: nat)
    requires ChoosesNewest(h, log, startOf) && i < |h|
    ensures Clear(h, log, startOf, h[i].jobName) <==> AmongTen(log, startOf, h[i].jobName)
  {
    var name := h[i].jobName;
    var since := StartedSince(log, startOf, name);
    if Clear(h, log, startOf, name) {
      forall n | n in since ensures HasName(h, n) {
        assert !Dropped(h, log, n);
      }
      NamesBound(h, since);
    } else {
      var n :| Dropped(h, log, n) && startOf(n) >= startOf(name);
      DroppedAfterTen(h, log, n);
      forall j | 0 <= j < |h| ensures h[j].jobName in since {
        assert startOf(h[j].jobName) >= startOf(n);
      }
      NamesInside(h, since, n);
    }
  }

  lemma NamesBound(h: seq<BackupRun>, names: set<string>)
    requires |h| <= HISTORY_LIMIT && forall n :: n in names ==> HasName(h, n)
    ensures |names| <= HISTORY_LIMIT
  {
    if |names| > |h| {
      var n := OneIsOut(h, names);
    }
  }

  lemma DroppedAfterTen(h: seq<BackupRun>, log: Log, n: string)
    requires |h| == Min(HISTORY_LIMIT, |log|) && DistinctNames(h) && Dropped(h, log, n)
    requires forall i :: 0 <= i < |h| ==> h[i].jobName in log
    ensures |h| == HISTORY_LIMIT
  {
    NamesInside(h, log.Keys, n);
    assert |log| == |log.Keys|;
  }

  /** Names that all are in a set, next to another one. */
  lemma NamesInside(h: seq<BackupRun>, names: set<string>, n: string)
    requires DistinctNames(h) && n in names && !HasName(h, n) && forall i :: 0 <= i < |h| ==> h[i].jobName in names
    ensures |names| > |h|
  {
    DistinctCount(h);
    assert Names(h) < names;
    SubsetCount(Names(h), names);
  }

  /**
   * However runs are observed, collected and observed again, the history is ten of the newest runs ever observed, or
   * all of them, newest first. Each is as it was last observed; and it has the last completion time ever seen for it,
   * if no more than ten runs of the log started as late as it.
   */
  lemma HistoryRefinesLog(obs: Observations, startOf: Clock)
    requires AllFaithful(obs, startOf)
    ensures ChoosesNewest(HistoryOf(obs), LogOf(obs), startOf)
    ensures forall i :: 0 <= i < |HistoryOf(obs)| ==>
      var x := HistoryOf(obs)[i];
      && (Some(x) == Remembered(obs, x.jobName) || Some(x) == LastSeen(obs, x.jobName))
      && (AmongTen(LogOf(obs), startOf, x.jobName) ==> Some(x) == Remembered(obs, x.jobName))
  {
    HistoryShows(obs, startOf);
    forall i | 0 <= i < |HistoryOf(obs)|
      ensures var x := HistoryOf(obs)[i];
        && (Some(x) == Remembered(obs, x.jobName) || Some(x) == LastSeen(obs, x.jobName))
        && (AmongTen(LogOf(obs), startOf, x.jobName) ==> Some(x) == Remembered(obs, x.jobName))
    {
      AmongTenIsClear(HistoryOf(obs), LogOf(obs), startOf, i);
      LogMeaning(obs, HistoryOf(obs)[i].jobName, startOf);
      LastMeaning(obs, HistoryOf(obs)[i].jobName);
    }
  }

  /** Without equal start times the history is exactly the ten newest runs of the log, as the log has them. */
  lemma DistinctStartsAreExact(obs: Observations, startOf: Clock)
    requires AllFaithful(obs, startOf) && DistinctStarts(LogOf(obs).Keys, startOf)
    ensures IsNewest(HistoryOf(obs), LogOf(obs), startOf)
    ensures forall i :: 0 <= i < |HistoryOf(obs)| ==>
      Some(HistoryOf(obs)[i]) == Remembered(obs, HistoryOf(obs)[i].jobName)
  {
    var h, log := HistoryOf(obs), LogOf(obs);
    HistoryShows(obs, startOf);
    HistoryRefinesLog(obs, startOf);
    forall i | 0 <= i < |h| ensures Clear(h, log, startOf, h[i].jobName) && AmongTen(log, startOf, h[i].jobName) {
      forall n | Dropped(h, log, n) ensures startOf(h[i].jobName) > startOf(n) {
        assert HasName(h, h[i].jobName);
      }
      AmongTenIsClear(h, log, startOf, i);
    }
  }

  /** So it is when observed completion times do not disappear again, whatever the start times are. */
  lemma LastingCompletionsAreExact(obs: Observations, startOf: Clock)
    requires AllFaithful(obs, startOf)
    requires forall n :: n in LogOf(obs) ==> Remembered(obs, n) == LastSeen(obs, n)
    ensures IsNewest(HistoryOf(obs), LogOf(obs), startOf)
  {
    HistoryShows(obs, startOf);
    forall i | 0 <= i < |HistoryOf(obs)| ensures HistoryOf(obs)[i] == LogOf(obs)[HistoryOf(obs)[i].jobName] {
      LogMeaning(obs, HistoryOf(obs)[i].jobName, startOf);
      LastMeaning(obs, HistoryOf(obs)[i].jobName);
    }
  }
}
