/** What the history forgets when runs start at the same time. */
module HistoryTies {
  import opened Outcomes
  import opened History
  import opened HistoryLog
  import opened HistoryIdempotence

  /** All runs started at the same time. */
  predicate Tied(s: seq<BackupRun>, start: int) {
    forall i :: 0 <= i < |s| ==> s[i].start == Some(start)
  }

  lemma TiedIsSorted(s: seq<BackupRun>, start: int)
    requires Tied(s, start)
    ensures Sort(s) == s
  {
    SortOrdered(s);
  }

  function AsObserved(s: seq<BackupRun>): (o: seq<ObservedRun>)
    ensures Runs(o) == s
  {
    var o := seq(|s|, i requires 0 <= i < |s| => ObservedRun(s[i], false));
    assert Runs(o) == s;
    o
  }

  lemma {:induction false} NothingObserved(s: seq<BackupRun>, runs: seq<BackupRun>)
    requires forall i :: 0 <= i < |s| ==> !HasName(runs, s[i].jobName)
    ensures Unobserved(s, runs) == s
  {
    if s != [] {
      NothingObserved(s[..|s| - 1], runs);
      assert s[..|s| - 1] + [s[|s| - 1]] == s;
    }
  }

  /** Eleven runs that started together: the last one is cut off, with its completion time. */
  lemma FirstObservation(a: seq<BackupRun>, k: BackupRun, start: int)
    requires |a| == HISTORY_LIMIT && Tied(a + [k], start)
    ensures Merged([], AsObserved(a + [k])) == a
  {
    TiedIsSorted(a + [k], start);
    assert (a + [k])[..HISTORY_LIMIT] == a;
  }

  /** When it is observed again without a completion time, it comes in again without one. */
  lemma SecondObservation(a: seq<BackupRun>, k: BackupRun, start: int)
    requires |a| == HISTORY_LIMIT && Tied(a + [k], start) && DistinctNames(a + [k])
    ensures Merged(a, AsObserved([k])) == [k] + a[..HISTORY_LIMIT - 1]
  {
    assert (a + [k])[|a|] == k;
    assert forall i :: 0 <= i < |a| ==> (a + [k])[i] == a[i];
    assert DistinctNames([k]);
    assert !HasName(a, k.jobName);
    MergeParts([k], a);
    FindNone(a, k.jobName);
    assert CompletedAll([k], a) == [k];
    assert forall i :: 0 <= i < |a| ==> !HasName([k], a[i].jobName);
    NothingObserved(a, [k]);
    TiedIsSorted([k] + a, start);
    assert ([k] + a)[..HISTORY_LIMIT] == [k] + a[..HISTORY_LIMIT - 1];
  }

  /** So a completion time can be forgotten: the condition that a run ties with none that was dropped is needed. */
  lemma TieForgetsCompletion(a: seq<BackupRun>, k: BackupRun, start: int)
    requires |a| == HISTORY_LIMIT && Tied(a + [k], start) && DistinctNames(a + [k]) && k.completion.Some?
    ensures var again := k.(completion := None); var obs := [AsObserved(a + [k]), AsObserved([again])];
      && HistoryOf(obs) == [again] + a[..HISTORY_LIMIT - 1]
      && Remembered(obs, k.jobName) == Some(k)
  {
    var again := k.(completion := None);
    var first, second := AsObserved(a + [k]), AsObserved([again]);
    var obs := [first, second];
    assert obs[..1] == [first] && [first][..0] == [];
    assert HistoryOf([first]) == Merged(HistoryOf([first][..0]), first);
    FirstObservation(a, k, start);
    assert forall i :: 0 <= i < |a| + 1 ==> (a + [again])[i].jobName == (a + [k])[i].jobName;
    assert Tied(a + [again], start) && DistinctNames(a + [again]) by {
      assert forall i :: 0 <= i < |a| ==> (a + [again])[i] == (a + [k])[i];
      assert (a + [k])[|a|] == k;
    }
    SecondObservation(a, again, start);
    FindAt([again], 0);
    FindAt(a + [k], |a|);
    assert LastCompletion([first], k.jobName) == k.completion;
  }
}
