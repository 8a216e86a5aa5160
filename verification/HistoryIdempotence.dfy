/** Merging the same observation again changes nothing, ties and truncation included. */
module HistoryIdempotence {
  import opened History
  import opened HistoryLog

  // ----- stable sorting as merging

  /** Two ordered lists into one; on ties the first list goes first. */
  function Merge(a: seq<BackupRun>, b: seq<BackupRun>): seq<BackupRun>
    decreases |a| + |b|
  {
    if a == [] then b
    else if b == [] then a
    else if Newer(b[0], a[0]) then [b[0]] + Merge(a, b[1..])
    else [a[0]] + Merge(a[1..], b)
  }

  lemma {:induction false} InsertMerge(x: BackupRun, a: seq<BackupRun>, b: seq<BackupRun>)
    ensures Insert(x, Merge(a, b)) == Merge(Insert(x, a), b)
    decreases |a| + |b|
  {
    if b == [] {
      assert Insert(x, a) != [];
    } else if a == [] {
      InsertAsMerge(x, b);
      assert Insert(x, a) == [x];
    } else {
      var m := Merge(a, b);
      if Newer(b[0], a[0]) {
        assert m[1..] == Merge(a, b[1..]);
        if Newer(b[0], x) {
          InsertMerge(x, a, b[1..]);
          assert Insert(x, a)[0] == if Newer(a[0], x) then a[0] else x;
        } else {
          assert ([x] + a)[1..] == a;
        }
      } else {
        assert m[1..] == Merge(a[1..], b);
        if Newer(a[0], x) {
          InsertMerge(x, a[1..], b);
          assert Insert(x, a)[1..] == Insert(x, a[1..]);
        } else {
          assert ([x] + a)[1..] == a;
        }
      }
    }
  }

  lemma {:induction false} InsertAsMerge(x: BackupRun, b: seq<BackupRun>)
    ensures Insert(x, b) == Merge([x], b)
  {
    if b != [] {
      if Newer(b[0], x) {
        InsertAsMerge(x, b[1..]);
      } else {
        assert [x][1..] == [];
      }
    }
  }

  lemma {:induction false} SortConcat(a: seq<BackupRun>, b: seq<BackupRun>)
    ensures Sort(a + b) == Merge(Sort(a), Sort(b))
  {
    if a == [] {
      assert a + b == b;
    } else {
      assert (a + b)[1..] == a[1..] + b;
      SortConcat(a[1..], b);
      InsertMerge(a[0], Sort(a[1..]), Sort(b));
    }
  }

  lemma {:induction false} SortOrdered(s: seq<BackupRun>)
    requires Ordered(s)
    ensures Sort(s) == s
  {
    if s != [] {
      SortOrdered(s[1..]);
      assert |s| > 1 ==> !Newer(s[1], s[0]);
      assert [s[0]] + s[1..] == s;
    }
  }

  // ----- how far a prefix of a merge reaches into the two lists

  function FromFirst(n: nat, a: seq<BackupRun>, b: seq<BackupRun>): (k: nat)
    ensures k <= |a|
  {
    if n == 0 || a == [] then 0
    else if b != [] && Newer(b[0], a[0]) then FromFirst(n - 1, a, b[1..])
    else 1 + FromFirst(n - 1, a[1..], b)
  }

  function FromSecond(n: nat, a: seq<BackupRun>, b: seq<BackupRun>): (k: nat)
    ensures k <= |b|
  {
    if n == 0 || b == [] then 0
    else if a == [] || Newer(b[0], a[0]) then 1 + FromSecond(n - 1, a, b[1..])
    else FromSecond(n - 1, a[1..], b)
  }

  function Take(s: seq<BackupRun>, n: nat): seq<BackupRun> {
    if |s| > n then s[..n] else s
  }

  lemma TakeCons(x: BackupRun, s: seq<BackupRun>, n: nat)
    requires n > 0
    ensures Take([x] + s, n) == [x] + Take(s, n - 1)
  {
  }

  predicate SameStarts(a: seq<BackupRun>, b: seq<BackupRun>) {
    |a| == |b| && forall i :: 0 <= i < |a| ==> a[i].start == b[i].start
  }

  /** The prefix only depends on what it takes from either list, and on start times beyond that. */
  lemma {:induction false} PrefixDepends(n: nat, a: seq<BackupRun>, a': seq<BackupRun>, b: seq<BackupRun>)
    requires SameStarts(a, a')
    requires forall i :: 0 <= i < FromFirst(n, a, b) ==> a[i] == a'[i]
    ensures Take(Merge(a, b), n) == Take(Merge(a', b[..FromSecond(n, a, b)]), n)
  {
    var k := FromSecond(n, a, b);
    var b' := b[..k];
    if n > 0 && (a != [] || b != []) {
      if b != [] && (a == [] || Newer(b[0], a[0])) {
        PrefixDepends(n - 1, a, a', b[1..]);
        assert b'[1..] == b[1..][..k - 1] && b'[0] == b[0];
        TakeSecond(n, a, b);
        TakeSecond(n, a', b');
      } else {
        assert forall i :: 0 <= i < FromFirst(n - 1, a[1..], b) ==> a[1..][i] == a[i + 1] && a'[1..][i] == a'[i + 1];
        PrefixDepends(n - 1, a[1..], a'[1..], b);
        assert a[0] == a'[0];
        TakeFirst(n, a, b);
        TakeFirst(n, a', b');
      }
    }
  }

  lemma MergeFirst(a: seq<BackupRun>, b: seq<BackupRun>)
    requires a != [] && (b == [] || !Newer(b[0], a[0]))
    ensures Merge(a, b) == [a[0]] + Merge(a[1..], b)
  {
    if b == [] {
      assert [a[0]] + a[1..] == a;
    }
  }

  lemma MergeSecond(a: seq<BackupRun>, b: seq<BackupRun>)
    requires b != [] && (a == [] || Newer(b[0], a[0]))
    ensures Merge(a, b) == [b[0]] + Merge(a, b[1..])
  {
    if a == [] {
      assert [b[0]] + b[1..] == b;
    }
  }

  lemma TakeFirst(n: nat, a: seq<BackupRun>, b: seq<BackupRun>)
    requires n > 0 && a != [] && (b == [] || !Newer(b[0], a[0]))
    ensures Take(Merge(a, b), n) == [a[0]] + Take(Merge(a[1..], b), n - 1)
  {
    MergeFirst(a, b);
    TakeCons(a[0], Merge(a[1..], b), n);
  }

  lemma TakeSecond(n: nat, a: seq<BackupRun>, b: seq<BackupRun>)
    requires n > 0 && b != [] && (a == [] || Newer(b[0], a[0]))
    ensures Take(Merge(a, b), n) == [b[0]] + Take(Merge(a, b[1..]), n - 1)
  {
    MergeSecond(a, b);
    TakeCons(b[0], Merge(a, b[1..]), n);
  }

  // ----- what the prefix holds

  lemma {:induction false} UnobservedConcat(a: seq<BackupRun>, b: seq<BackupRun>, runs: seq<BackupRun>)
    ensures Unobserved(a + b, runs) == Unobserved(a, runs) + Unobserved(b, runs)
  {
    if b == [] {
      assert a + b == a;
    } else {
      var n := |b| - 1;
      assert (a + b)[..|a| + n] == a + b[..n];
      UnobservedConcat(a, b[..n], runs);
    }
  }

  lemma UnobservedCons(x: BackupRun, s: seq<BackupRun>, runs: seq<BackupRun>)
    ensures Unobserved([x] + s, runs) == if HasName(runs, x.jobName) then Unobserved(s, runs)
      else [x] + Unobserved(s, runs)
  {
    UnobservedConcat([x], s, runs);
    assert [x][..0] == [];
    assert Unobserved([x][..0], runs) == [];
  }

  lemma ConsPrefix(b: seq<BackupRun>, k: nat)
    requires k < |b|
    ensures [b[0]] + b[1..][..k] == b[..k + 1]
  {
  }

  /** All runs of the first list were observed, and none of the second. */
  predicate Sided(a: seq<BackupRun>, b: seq<BackupRun>, runs: seq<BackupRun>) {
    && (forall i :: 0 <= i < |a| ==> HasName(runs, a[i].jobName))
    && (forall i :: 0 <= i < |b| ==> !HasName(runs, b[i].jobName))
  }

  lemma SidedTails(a: seq<BackupRun>, b: seq<BackupRun>, runs: seq<BackupRun>)
    requires Sided(a, b, runs)
    ensures a != [] ==> Sided(a[1..], b, runs) && HasName(runs, a[0].jobName)
    ensures b != [] ==> Sided(a, b[1..], runs) && !HasName(runs, b[0].jobName)
  {
  }

  /** The unobserved runs of the prefix are the ones taken from the second list. */
  lemma {:induction false} PrefixUnobserved(n: nat, a: seq<BackupRun>, b: seq<BackupRun>, runs: seq<BackupRun>)
    requires Sided(a, b, runs)
    ensures Unobserved(Take(Merge(a, b), n), runs) == b[..FromSecond(n, a, b)]
  {
    SidedTails(a, b, runs);
    if n == 0 || (a == [] && b == []) {
      assert Take(Merge(a, b), n) == [];
    } else if b != [] && (a == [] || Newer(b[0], a[0])) {
      PrefixUnobserved(n - 1, a, b[1..], runs);
      SecondTaken(n, a, b, runs);
    } else {
      PrefixUnobserved(n - 1, a[1..], b, runs);
      FirstTaken(n, a, b, runs);
    }
  }

  lemma SecondTaken(n: nat, a: seq<BackupRun>, b: seq<BackupRun>, runs: seq<BackupRun>)
    requires n > 0 && b != [] && (a == [] || Newer(b[0], a[0])) && !HasName(runs, b[0].jobName)
    requires Unobserved(Take(Merge(a, b[1..]), n - 1), runs) == b[1..][..FromSecond(n - 1, a, b[1..])]
    ensures Unobserved(Take(Merge(a, b), n), runs) == b[..FromSecond(n, a, b)]
  {
    TakeSecond(n, a, b);
    UnobservedCons(b[0], Take(Merge(a, b[1..]), n - 1), runs);
    ConsPrefix(b, FromSecond(n - 1, a, b[1..]));
  }

  lemma FirstTaken(n: nat, a: seq<BackupRun>, b: seq<BackupRun>, runs: seq<BackupRun>)
    requires n > 0 && a != [] && (b == [] || !Newer(b[0], a[0])) && HasName(runs, a[0].jobName)
    requires Unobserved(Take(Merge(a[1..], b), n - 1), runs) == b[..FromSecond(n - 1, a[1..], b)]
    ensures Unobserved(Take(Merge(a, b), n), runs) == b[..FromSecond(n, a, b)]
  {
    TakeFirst(n, a, b);
    UnobservedCons(a[0], Take(Merge(a[1..], b), n - 1), runs);
  }

  /** The prefix holds what was taken from the first list. */
  lemma {:induction false} PrefixHolds(n: nat, a: seq<BackupRun>, b: seq<BackupRun>, i: nat)
    requires i < FromFirst(n, a, b)
    ensures a[i] in Take(Merge(a, b), n)
  {
    if b != [] && Newer(b[0], a[0]) {
      PrefixHolds(n - 1, a, b[1..], i);
      MergeSecond(a, b);
      TakeCons(b[0], Merge(a, b[1..]), n);
    } else {
      MergeFirst(a, b);
      TakeCons(a[0], Merge(a[1..], b), n);
      if i > 0 {
        PrefixHolds(n - 1, a[1..], b, i - 1);
      }
    }
  }

  // ----- relabelling

  function Map(f: BackupRun -> BackupRun, s: seq<BackupRun>): seq<BackupRun> {
    seq(|s|, i requires 0 <= i < |s| => f(s[i]))
  }

  ghost predicate KeepsStart(f: BackupRun -> BackupRun, s: seq<BackupRun>) {
    forall x :: x in s ==> f(x).start == x.start
  }

  lemma {:induction false} InsertMap(f: BackupRun -> BackupRun, x: BackupRun, s: seq<BackupRun>)
    requires KeepsStart(f, [x] + s)
    ensures Insert(f(x), Map(f, s)) == Map(f, Insert(x, s))
  {
    assert x in [x] + s;
    assert f(x).start == x.start;
    if s == [] || !Newer(s[0], x) {
      assert s != [] ==> s[0] in [x] + s;
      assert [f(x)] + Map(f, s) == Map(f, [x] + s);
    } else {
      assert s[0] in [x] + s;
      assert KeepsStart(f, [x] + s[1..]) by {
        assert forall y :: y in [x] + s[1..] ==> y in [x] + s;
      }
      InsertMap(f, x, s[1..]);
      assert Map(f, s)[1..] == Map(f, s[1..]);
      assert [f(s[0])] + Map(f, Insert(x, s[1..])) == Map(f, [s[0]] + Insert(x, s[1..]));
    }
  }

  lemma {:induction false} SortMap(f: BackupRun -> BackupRun, s: seq<BackupRun>)
    requires KeepsStart(f, s)
    ensures Sort(Map(f, s)) == Map(f, Sort(s))
  {
    if s != [] {
      assert forall y :: y in s[1..] ==> y in s;
      SortMap(f, s[1..]);
      assert Map(f, s)[1..] == Map(f, s[1..]);
      SortLaws(s[1..]);
      assert KeepsStart(f, [s[0]] + Sort(s[1..])) by {
        forall y | y in [s[0]] + Sort(s[1..]) ensures y in s {
          assert y in multiset([s[0]] + Sort(s[1..]));
          assert y == s[0] || y in multiset(s[1..]);
        }
      }
      InsertMap(f, s[0], Sort(s[1..]));
    }
  }

  // ----- the observed part of a merge

  /** a is the run b, possibly with a completion time that b lacks. */
  predicate Extends(a: BackupRun, b: BackupRun) {
    a == b.(completion := a.completion) && (b.completion.Some? ==> a == b)
  }

  predicate Started(runs: seq<BackupRun>) {
    forall i :: 0 <= i < |runs| ==> runs[i].start.Some?
  }

  lemma {:induction false} ObservedPart(runs: seq<BackupRun>, existing: seq<BackupRun>)
    requires DistinctNames(runs) && Started(runs)
    ensures |MergeAll(runs, existing)| >= |runs|
    ensures forall i :: 0 <= i < |runs| ==> Extends(MergeAll(runs, existing)[i], runs[i])
  {
    if existing != [] {
      ObservedPart(runs, existing[..|existing| - 1]);
    }
  }

  // ----- the second merge

  /** The run as the second merge sees it: completed if the first merge kept it. */
  function Again(history: seq<BackupRun>, runs: seq<BackupRun>, x: BackupRun): BackupRun {
    if HasName(history, x.jobName) || Find(runs, x.jobName).None? then x else Find(runs, x.jobName).value
  }

  lemma LimitIsTake(s: seq<BackupRun>)
    ensures Limit(s) == Take(s, HISTORY_LIMIT)
  {
  }

  /** The observed runs completed from the history are the ones the history was made of. */
  lemma CompletedAgain(runs: seq<BackupRun>, m: seq<BackupRun>, history: seq<BackupRun>)
    requires DistinctNames(runs) && Started(runs) && DistinctNames(m) && |m| >= |runs|
    requires forall i :: 0 <= i < |runs| ==> Extends(m[i], runs[i])
    requires DistinctNames(history) && forall x :: x in history ==> x in m
    ensures CompletedAll(runs, history) == Map(x => Again(history, runs, x), m[..|runs|])
    ensures KeepsStart(x => Again(history, runs, x), m[..|runs|])
  {
    var o := m[..|runs|];
    forall i | 0 <= i < |runs|
      ensures Completed(runs[i], history) == Again(history, runs, o[i])
      ensures Again(history, runs, o[i]).start == o[i].start
    {
      FindAt(runs, i);
      FindNone(history, runs[i].jobName);
      if HasName(history, runs[i].jobName) {
        var j :| 0 <= j < |history| && history[j].jobName == runs[i].jobName;
        FindAt(history, j);
        assert history[j] in m;
        var k :| 0 <= k < |m| && m[k] == history[j];
        assert m[k].jobName == m[i].jobName;
        assert k == i;
      }
    }
    forall x | x in o ensures Again(history, runs, x).start == x.start {
      var i :| 0 <= i < |o| && o[i] == x;
      assert o[i] == m[i];
    }
  }

  lemma TakeElements(s: seq<BackupRun>, n: nat)
    requires DistinctNames(s)
    ensures DistinctNames(Take(s, n)) && forall x :: x in Take(s, n) ==> x in s
  {
  }

  lemma SortElements(s: seq<BackupRun>)
    ensures forall x :: x in Sort(s) <==> x in s
    ensures |Sort(s)| == |s|
  {
    SortLaws(s);
    assert forall x :: x in Sort(s) <==> x in multiset(Sort(s));
    assert forall x :: x in s <==> x in multiset(s);
  }

  /** Which of the merged runs were observed. */
  lemma PartNames(runs: seq<BackupRun>, m: seq<BackupRun>)
    requires DistinctNames(m) && |m| >= |runs| && forall i :: 0 <= i < |runs| ==> m[i].jobName == runs[i].jobName
    ensures forall x :: x in m[..|runs|] ==> HasName(runs, x.jobName)
    ensures forall x :: x in m[|runs|..] ==> !HasName(runs, x.jobName)
  {
    forall x | x in m[|runs|..] ensures !HasName(runs, x.jobName) {
      var k :| |runs| <= k < |m| && m[k] == x;
      forall i | 0 <= i < |runs| ensures runs[i].jobName != x.jobName {
        assert m[i].jobName != m[k].jobName;
      }
    }
  }

  lemma OrderedPrefix(s: seq<BackupRun>, k: nat)
    requires Ordered(s) && k <= |s|
    ensures Ordered(s[..k])
  {
  }

  /** The lists behind the two merges differ only beyond the limit. */
  lemma SecondMerge(o: seq<BackupRun>, x: seq<BackupRun>, f: BackupRun -> BackupRun, n: nat)
    requires KeepsStart(f, o)
    requires forall i :: 0 <= i < FromFirst(n, Sort(o), Sort(x)) ==> f(Sort(o)[i]) == Sort(o)[i]
    ensures var kept := Sort(x)[..FromSecond(n, Sort(o), Sort(x))];
      Take(Sort(Map(f, o) + kept), n) == Take(Sort(o + x), n)
  {
    var a, b := Sort(o), Sort(x);
    var kept := b[..FromSecond(n, a, b)];
    SortConcat(o, x);
    SortConcat(Map(f, o), kept);
    SortLaws(x);
    OrderedPrefix(b, FromSecond(n, a, b));
    SortOrdered(kept);
    SortMap(f, o);
    SortElements(o);
    assert SameStarts(a, Map(f, a)) by {
      forall i | 0 <= i < |a| ensures a[i].start == Map(f, a)[i].start {
        assert a[i] in a;
      }
    }
    PrefixDepends(n, a, Map(f, a), b);
  }

  /** Merging the same observation a second time returns the same list. */
  lemma MergeIsIdempotent(existing: seq<BackupRun>, observed: seq<ObservedRun>)
    requires DistinctNames(Runs(observed)) && Started(Runs(observed))
    ensures Merged(Merged(existing, observed), observed) == Merged(existing, observed)
  {
    var runs := Runs(observed);
    var m, history := MergeAll(runs, existing), Merged(existing, observed);
    ObservedPart(runs, existing);
    MergeNames(runs, existing);
    var o, x := m[..|runs|], m[|runs|..];
    assert m == o + x;
    SortConcat(o, x);
    LimitIsTake(Sort(m));
    DistinctSorted(m);
    SortElements(m);
    TakeElements(Sort(m), HISTORY_LIMIT);
    PartNames(runs, m);
    SortElements(o);
    SortElements(x);
    PrefixUnobserved(HISTORY_LIMIT, Sort(o), Sort(x), runs);
    MergeParts(runs, history);
    CompletedAgain(runs, m, history);
    var f := y => Again(history, runs, y);
    forall i | 0 <= i < FromFirst(HISTORY_LIMIT, Sort(o), Sort(x)) ensures f(Sort(o)[i]) == Sort(o)[i] {
      PrefixHolds(HISTORY_LIMIT, Sort(o), Sort(x), i);
      KeptHasName(history, Sort(o)[i]);
    }
    SecondMerge(o, x, f, HISTORY_LIMIT);
    LimitIsTake(Sort(MergeAll(runs, history)));
  }

  lemma KeptHasName(history: seq<BackupRun>, x: BackupRun)
    requires x in history
    ensures HasName(history, x.jobName)
  {
    var i :| 0 <= i < |history| && history[i] == x;
    assert history[i].jobName == x.jobName;
  }
}
