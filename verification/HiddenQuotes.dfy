/**
 * A single quote in the path of a backup: exactly when migrate reads another path and parity does not see it, so that
 * another path is backed up and no difference is reported.
 */
module HiddenQuotes {
  import opened Outcomes
  import opened Text
  import opened Shell
  import opened Backup
  import opened Script
  import opened ScriptMeaning
  import opened ScriptParser
  import opened ReadBack
  import opened ArgsReading
  import opened SourceReading
  import opened RoundTrip
  import opened Normalize
  import opened Schedule
  import opened Cadence
  import opened Migration
  import opened Parity
  import opened Detection

  // ----- texts without blanks, and texts that end in an ignored flag

  predicate NoSpace(s: string) {
    forall i :: 0 <= i < |s| ==> !RegexSpace(s[i])
  }

  /** An ignored flag that takes the whole text. */
  predicate FlagHere(s: string) {
    || (LOCK_FLAG <= s && NoSpace(s[|LOCK_FLAG|..]))
    || (SECRET_FLAG <= s && NoSpace(s[|SECRET_FLAG|..]))
  }

  /** The last word of the text is an ignored flag, with or without a value so far. */
  predicate EndsInFlag(s: string) {
    exists i :: 0 <= i < |s| && FlagHere(s[i..])
  }

  predicate IsFlag(flag: string) {
    flag == LOCK_FLAG || flag == SECRET_FLAG
  }

  lemma FlagShape(flag: string)
    requires IsFlag(flag)
    ensures |flag| > 1 && flag[0] == ' ' && forall i :: 1 <= i < |flag| ==> !RegexSpace(flag[i])
    ensures '\'' !in flag && '\\' !in flag && '\n' !in flag
  {
    assert forall i :: 0 <= i < |LOCK_FLAG| ==> LOCK_FLAG[i] != '\'' && LOCK_FLAG[i] != '\\' && LOCK_FLAG[i] != '\n';
    assert forall i :: 0 <= i < |SECRET_FLAG| ==>
      SECRET_FLAG[i] != '\'' && SECRET_FLAG[i] != '\\' && SECRET_FLAG[i] != '\n';
  }

  // ----- what stripping makes of such texts

  lemma {:induction false} RunBefore(a: string, b: string)
    ensures RunLength(a + (" " + b)) == RunLength(a)
  {
    var s := a + (" " + b);
    if a == [] {
      assert s[0] == ' ';
    } else {
      assert s[0] == a[0] && s[1..] == a[1..] + (" " + b);
      RunBefore(a[1..], b);
    }
  }

  lemma MatchBefore(a: string, b: string, flag: string)
    requires a != [] && IsFlag(flag)
    ensures MatchLength(a + (" " + b), flag) == MatchLength(a, flag)
  {
    var s := a + (" " + b);
    FlagShape(flag);
    PrefixInside(a, " " + b, flag);
    if flag <= a {
      assert s[|flag|..] == a[|flag|..] + (" " + b);
      RunBefore(a[|flag|..], b);
    }
  }

  lemma PrefixInside(p: string, y: string, flag: string)
    requires y != [] && (|p| < |flag| ==> flag[|p|] != y[0])
    ensures flag <= p + y <==> flag <= p
  {
    if |flag| <= |p| {
      assert (p + y)[..|flag|] == p[..|flag|];
    } else {
      assert (p + y)[|p|] == y[0];
    }
  }

  lemma IgnoredBefore(a: string, b: string)
    requires a != []
    ensures IgnoredLength(a + (" " + b)) == IgnoredLength(a)
  {
    MatchBefore(a, b, LOCK_FLAG);
    MatchBefore(a, b, SECRET_FLAG);
  }

  lemma FlagTakesAll(s: string, x: string)
    requires FlagHere(s) && NoSpace(x) && x != []
    ensures StripFlags(s + x) == []
  {
    var w := s + x;
    FlagShape(LOCK_FLAG);
    FlagShape(SECRET_FLAG);
    if LOCK_FLAG <= s && NoSpace(s[|LOCK_FLAG|..]) {
      TakesAll(s, x, LOCK_FLAG);
    } else {
      TakesAll(s, x, SECRET_FLAG);
    }
    WholeFlag(w);
  }

  lemma TakesAll(s: string, x: string, flag: string)
    requires IsFlag(flag) && flag <= s && NoSpace(s[|flag|..]) && NoSpace(x) && x != []
    ensures MatchLength(s + x, flag) > 0 && forall i :: 1 <= i < |s + x| ==> !RegexSpace((s + x)[i])
  {
    var w := s + x;
    FlagShape(flag);
    assert w[|flag|..] == s[|flag|..] + x;
    forall i | 1 <= i < |w| ensures !RegexSpace(w[i]) {
      if i < |flag| {
        assert w[i] == flag[i];
      } else {
        assert w[i] == w[|flag|..][i - |flag|];
      }
    }
    SolidRun(w[|flag|..]);
  }

  /** Behind a text that ends in a flag it makes no difference how its last word goes on. */
  lemma {:induction false} FlagEats(p: string, i: nat, x: string, y: string)
    requires i < |p| && FlagHere(p[i..]) && NoSpace(x) && NoSpace(y) && x != [] && y != []
    ensures StripFlags(p + x) == StripFlags(p + y)
    decreases |p|
  {
    if i == 0 {
      assert p[0..] == p;
      FlagTakesAll(p, x);
      FlagTakesAll(p, y);
    } else {
      IgnoredUpTo(p, i, x);
      IgnoredUpTo(p, i, y);
      var n := IgnoredLength(p[..i]);
      var m := if n > 0 then n else 1;
      assert p[m..][i - m..] == p[i..];
      FlagEats(p[m..], i - m, x, y);
      EatsStep(p, x, y, n);
    }
  }

  lemma IgnoredUpTo(p: string, i: nat, x: string)
    requires 0 < i < |p| && FlagHere(p[i..])
    ensures IgnoredLength(p + x) == IgnoredLength(p[..i]) <= i
  {
    SpaceThere(p, i);
    TextAround(p, i, x);
    IgnoredBefore(p[..i], p[i + 1..] + x);
  }

  lemma EatsStep(p: string, x: string, y: string, n: nat)
    requires p != [] && n == IgnoredLength(p + x) == IgnoredLength(p + y) <= |p|
    requires var m := if n > 0 then n else 1; StripFlags(p[m..] + x) == StripFlags(p[m..] + y)
    ensures StripFlags(p + x) == StripFlags(p + y)
  {
    Unstripped(p, x, n);
    Unstripped(p, y, n);
  }

  lemma SpaceThere(p: string, i: nat)
    requires i < |p| && FlagHere(p[i..])
    ensures p[i] == ' '
  {
    FlagShape(LOCK_FLAG);
    FlagShape(SECRET_FLAG);
    assert p[i..][0] == p[i];
  }

  lemma TextAround(p: string, i: nat, x: string)
    requires i < |p| && p[i] == ' '
    ensures p + x == p[..i] + (" " + (p[i + 1..] + x))
  {
  }

  /** One step of stripping in the front part. */
  lemma Unstripped(p: string, x: string, n: nat)
    requires p != [] && n == IgnoredLength(p + x) <= |p|
    ensures StripFlags(p + x) == if n > 0 then StripFlags(p[n..] + x) else [p[0]] + StripFlags(p[1..] + x)
  {
    assert (p + x)[n..] == p[n..] + x;
    assert (p + x)[0] == p[0] && (p + x)[1..] == p[1..] + x;
    if n == 0 {
      StripStep(p + x);
    }
  }

  lemma {:induction false} RunInside(a: string, x: string)
    requires !NoSpace(a)
    ensures RunLength(a + x) == RunLength(a)
  {
    assert (a + x)[0] == a[0];
    if !RegexSpace(a[0]) {
      assert (a + x)[1..] == a[1..] + x;
      var i :| 0 <= i < |a| && RegexSpace(a[i]);
      assert a[1..][i - 1] == a[i];
      RunInside(a[1..], x);
    }
  }

  lemma MatchInside(p: string, x: string, flag: string)
    requires IsFlag(flag) && !FlagHere(p) && x != [] && (x[0] == '\'' || x[0] == '\\')
    ensures MatchLength(p + x, flag) == MatchLength(p, flag)
  {
    FlagShape(flag);
    if |p| < |flag| {
      assert flag[|p|] in flag;
    }
    PrefixInside(p, x, flag);
    if flag <= p {
      assert (p + x)[|flag|..] == p[|flag|..] + x;
      RunInside(p[|flag|..], x);
    }
  }

  lemma EndsLater(p: string, m: nat)
    requires m <= |p|
    ensures EndsInFlag(p[m..]) ==> EndsInFlag(p)
  {
    if i :| 0 <= i < |p[m..]| && FlagHere(p[m..][i..]) {
      assert p[m..][i..] == p[m + i..];
    }
  }

  lemma IgnoredInside(p: string, x: string)
    requires p != [] && !EndsInFlag(p) && x != [] && (x[0] == '\'' || x[0] == '\\')
    ensures IgnoredLength(p + x) == IgnoredLength(p)
  {
    assert p[0..] == p;
    MatchInside(p, x, LOCK_FLAG);
    MatchInside(p, x, SECRET_FLAG);
  }

  /** A text that does not end in a flag is stripped by itself. */
  lemma {:induction false} StripApart(p: string, x: string)
    requires !EndsInFlag(p) && NoSpace(x) && x != [] && (x[0] == '\'' || x[0] == '\\')
    ensures StripFlags(p + x) == StripFlags(p) + x
    decreases |p|
  {
    if p == [] {
      assert p + x == x;
      StripSolid(x);
    } else {
      IgnoredInside(p, x);
      var n := IgnoredLength(p);
      var m := if n > 0 then n else 1;
      EndsLater(p, m);
      StripApart(p[m..], x);
      ApartStep(p, x, n);
    }
  }

  lemma ApartStep(p: string, x: string, n: nat)
    requires p != [] && n == IgnoredLength(p) == IgnoredLength(p + x)
    requires var m := if n > 0 then n else 1; StripFlags(p[m..] + x) == StripFlags(p[m..]) + x
    ensures StripFlags(p + x) == StripFlags(p) + x
  {
    if n > 0 {
      Unstripped(p, x, n);
      OneStep(p, n);
    } else {
      ConsAppend(p[0], StripFlags(p[1..]), x);
      Unstripped(p, x, 0);
      OneStep(p, 0);
    }
  }

  lemma ConsAppend(c: char, r: string, x: string)
    ensures [c] + (r + x) == [c] + r + x
  {
  }

  lemma OneStep(p: string, n: nat)
    requires p != [] && n == IgnoredLength(p)
    ensures StripFlags(p) == if n > 0 then StripFlags(p[n..]) else [p[0]] + StripFlags(p[1..])
  {
    if n == 0 {
      StripStep(p);
    }
  }

  lemma {:induction false} StripSolid(x: string)
    requires NoSpace(x)
    ensures StripFlags(x) == x
  {
    if x != [] {
      FlagShape(LOCK_FLAG);
      FlagShape(SECRET_FLAG);
      assert RegexSpace(' ');
      StripStep(x);
      StripSolid(x[1..]);
      assert [x[0]] + x[1..] == x;
    }
  }

  // ----- stripping makes no exclude flag

  lemma {:induction false} RunStopsAtSpace(s: string)
    ensures RunLength(s) == |s| || RegexSpace(s[RunLength(s)])
  {
    if s != [] && !RegexSpace(s[0]) {
      RunStopsAtSpace(s[1..]);
    }
  }

  lemma IgnoredStopsAtSpace(s: string)
    ensures var n := IgnoredLength(s); n == 0 || n == |s| || RegexSpace(s[n])
  {
    if LOCK_FLAG <= s {
      RunStopsAtSpace(s[|LOCK_FLAG|..]);
    }
    if SECRET_FLAG <= s {
      RunStopsAtSpace(s[|SECRET_FLAG|..]);
    }
  }

  lemma {:induction false} SpaceFirst(s: string)
    requires s == [] || RegexSpace(s[0])
    ensures var t := StripFlags(s); t == [] || RegexSpace(t[0])
    decreases |s|
  {
    if s != [] && IgnoredLength(s) > 0 {
      IgnoredStopsAtSpace(s);
      SpaceFirst(s[IgnoredLength(s)..]);
    }
  }

  /** A word at the start of a stripped text was there before. */
  lemma {:induction false} WordKept(e: string, s: string)
    requires NoSpace(e) && e <= StripFlags(s)
    ensures e <= s
  {
    if e != [] {
      var n := IgnoredLength(s);
      assert e[0] == StripFlags(s)[0];
      if n > 0 {
        IgnoredStopsAtSpace(s);
        SpaceFirst(s[n..]);
      } else {
        OneStep(s, 0);
        WordTail(e, s[0], StripFlags(s[1..]));
        WordKept(e[1..], s[1..]);
        assert s == [s[0]] + s[1..];
      }
    }
  }

  lemma WordTail(e: string, c: char, r: string)
    requires e != [] && e <= [c] + r
    ensures e == [c] + e[1..] && e[1..] <= r
  {
  }

  lemma {:induction false} NoNewExclude(s: string)
    ensures Contains(StripFlags(s), EXCLUDE) ==> Contains(s, EXCLUDE)
    decreases |s|
  {
    if s != [] {
      var n := IgnoredLength(s);
      var m := if n > 0 then n else 1;
      NoNewExclude(s[m..]);
      SuffixContains(s, m);
      OneStep(s, n);
      if n == 0 {
        ExcludeAtStart(s);
      }
    }
  }

  lemma ExcludeAtStart(s: string)
    requires s != [] && IgnoredLength(s) == 0
    ensures Contains(StripFlags(s), EXCLUDE) ==> Contains(s, EXCLUDE) || Contains(StripFlags(s[1..]), EXCLUDE)
  {
    var rest := StripFlags(s[1..]);
    OneStep(s, 0);
    ExcludeKept(s);
    ConsContains(s[0], rest);
  }

  lemma ExcludeKept(s: string)
    ensures EXCLUDE <= StripFlags(s) ==> Contains(s, EXCLUDE)
  {
    if EXCLUDE <= StripFlags(s) {
      ExcludeSolid();
      WordKept(EXCLUDE, s);
      assert s[0..] == s;
    }
  }

  lemma ExcludeSolid()
    ensures NoSpace(EXCLUDE)
  {
  }

  lemma ConsContains(c: char, r: string)
    ensures Contains([c] + r, EXCLUDE) ==> EXCLUDE <= [c] + r || Contains(r, EXCLUDE)
  {
    var t := [c] + r;
    if i :| 0 <= i <= |t| && EXCLUDE <= t[i..] {
      if i == 0 {
        assert t[0..] == t;
      } else {
        assert t[i..] == r[i - 1..];
      }
    }
  }

  lemma SuffixContains(s: string, m: nat)
    requires m <= |s|
    ensures Contains(s[m..], EXCLUDE) ==> Contains(s, EXCLUDE)
  {
    if i :| 0 <= i <= |s[m..]| && EXCLUDE <= s[m..][i..] {
      assert s[m..][i..] == s[m + i..];
    }
  }

  /** No exclude flag on either side of a character that is not part of one. */
  lemma ExcludeAcross(a: string, c: char, b: string)
    requires c == '\'' || c == '\\' || c == ' '
    ensures !Contains(a + [c] + b, EXCLUDE) <==> !Contains(a, EXCLUDE) && !Contains(b, EXCLUDE)
  {
    assert c !in EXCLUDE;
    CountAcross(a, c, b, EXCLUDE);
    CountZero(a, EXCLUDE);
    CountZero(b, EXCLUDE);
    CountZero(a + [c] + b, EXCLUDE);
  }

  // ----- the path and what it is read as

  /** A path with one single quote, and no blank or other quote behind it. */
  predicate OneQuote(p: string, w: string) {
    && '\'' !in p && '\n' !in p
    && NoSpace(w) && forall i :: 0 <= i < |w| ==> !QuoteChar(w[i])
  }

  function QuotedPath(p: string, w: string): string {
    p + "'" + w
  }

  /** The reader takes the backslash in front of the quote for a character. */
  function ReadPath(p: string, w: string): string {
    p + "\\" + w
  }

  lemma TailIs(w: string)
    requires OneQuote([], w)
    ensures '\'' !in w && '\n' !in w && (w == [] || BareText(w))
  {
    assert RegexSpace(' ') && RegexSpace('\t') && RegexSpace('\n');
  }

  lemma QuotedText(p: string, w: string)
    requires '\'' !in p && '\'' !in w
    ensures ShellQuote(p + "'" + w) == "'" + p + "'" + "\\" + ("''" + w + "'")
  {
    ReplaceAfter(p, w);
    NothingToReplace(w);
    assert "'\\''" == "'" + "\\" + "''";
  }

  lemma SplitTail(w: string, st: Splitter)
    requires st.quote.None? && st.inWord && (w == [] || BareText(w))
    ensures SplitRun("''" + w + "'", st) == st.(current := st.current + w, quote := Some('\''))
  {
    SplitConcat("''" + w, "'", st);
    SplitConcat("''", w, st);
    NothingToReplace([]);
    SplitQuoted([], st);
    assert ShellQuote([]) == "''" && st.current + [] == st.current;
    if w != [] {
      SplitBare(w, st);
    }
    SplitQuote(st.(current := st.current + w));
  }

  /** The last quote stays open. */
  lemma SplitHiding(p: string, w: string, st: Splitter)
    requires OneQuote(p, w) && st.quote.None? && st.current == []
    ensures ArgsOf(SplitRun(ShellQuote(QuotedPath(p, w)), st)) == st.args + [ReadPath(p, w)]
  {
    TailIs(w);
    QuotedText(p, w);
    SplitDirty(p, w, st);
    assert st.current + p + "\\" == p + "\\";
    SplitConcat("'" + p + "'" + "\\", "''" + w + "'", st);
    SplitTail(w, st.(current := p + "\\", inWord := true));
  }

  function FilesAt(path: string): Source {
    Source(Files, [], path, [], [], [])
  }

  lemma SplitStart(src: Source)
    requires Admitted(src)
    ensures var st := SplitRun(FilesStart(src), START);
      st.quote.None? && st.inWord && ArgsOf(st) == StartWords(src, None)
  {
    var start := StartWords(src, None);
    StartPlain(src, None);
    TidyBares(start);
    PlainBares(start);
    StartText(src, None);
    Glue("restic backup", " --tag=", src.EffectiveTag(), []);
    Glue("restic backup", [], [], []);
    SplitLine(Bares(start));
  }

  /** One more word behind the start of a line. */
  lemma SplitPathLine(src: Source, q: string, read: string)
    requires Admitted(src)
    requires ArgsOf(SplitRun(q, Splitter(StartWords(src, None), [], false, None))) == StartWords(src, None) + [read]
    ensures Args(FilesStart(src) + (" " + q)) == StartWords(src, None) + [read]
  {
    var st := SplitRun(FilesStart(src), START);
    SplitStart(src);
    SplitSpace(st);
    SplitConcat(FilesStart(src), " " + q, START);
    SplitConcat(" ", q, st);
  }

  /** The source that is meant, and the one that the line reads as. */
  function Meant(p: string, w: string): Source {
    FilesAt(QuotedPath(p, w))
  }

  function Other(p: string, w: string): Source {
    FilesAt(ReadPath(p, w))
  }

  lemma HidingAdmitted(p: string, w: string)
    requires OneQuote(p, w)
    ensures var src, mis := Meant(p, w), Other(p, w);
      && Admitted(src) && OneLine(src) && Admitted(mis) && OneLine(mis) && Unquoted(mis)
      && src.path != mis.path && src.path != [] && mis.path != []
      && !SafeBare(src.path) && !SafeBare(mis.path)
  {
    TailIs(w);
    assert QuotedPath(p, w)[|p|] == '\'' && ReadPath(p, w)[|p|] == '\\';
    assert !SafeChar('\'') && !SafeChar('\\');
  }

  /** When the other path is read at all. */
  lemma OtherIsClean(p: string, w: string)
    requires OneQuote(p, w)
    ensures Clean(Other(p, w)) <==> !("-" <= p) && !Contains(ReadPath(p, w), EXCLUDE)
    ensures Dashed(Other(p, w)) <==> "-" <= p
    ensures Dashed(Meant(p, w)) <==> "-" <= p
  {
    HidingAdmitted(p, w);
    var a, b := QuotedPath(p, w), ReadPath(p, w);
    if p != [] {
      assert a[0] == p[0] && b[0] == p[0];
    } else {
      assert a[0] == '\'' && b[0] == '\\';
    }
  }

  lemma HidingArgs(p: string, w: string, bare: Style)
    requires OneQuote(p, w)
    ensures Args(HandLine(Meant(p, w), bare)) == FilesArgs(Other(p, w), None)
  {
    var src := Meant(p, w);
    HidingAdmitted(p, w);
    SplitHiding(p, w, Splitter(StartWords(src, None), [], false, None));
    SplitPathLine(src, ShellQuote(src.path), ReadPath(p, w));
    PathLine(src, false);
    assert HandTail(src, bare) == [] && HeadWords(src, None, false) + [] == HeadWords(src, None, false);
    assert ExcludeArgs([]) == [] && [ReadPath(p, w)] + [] == [ReadPath(p, w)];
    assert StartWords(src, None) == StartWords(Other(p, w), None);
  }

  /** The line is refused, or read as the line of the other path. */
  lemma OtherRead(p: string, w: string)
    requires OneQuote(p, w)
    ensures var args := FilesArgs(Other(p, w), None); var r := ParseBackupLine(args);
      && |args| >= 2 && args[0] == "restic" && args[1] == "backup"
      && (r.Ok? ==> r.value == (Misread(Other(p, w)), None))
      && (Clean(Other(p, w)) ==> r.Ok?)
      && (!Clean(Other(p, w)) && !("-" <= p) ==> r.Err?)
  {
    var mis := Other(p, w);
    HidingAdmitted(p, w);
    OtherIsClean(p, w);
    assert ExcludeArgs([]) == [];
    BackupStart(mis, None, [mis.EffectivePath()], FilesArgs(mis, None));
    if "-" <= p {
      DashedRead(mis);
    } else {
      FilesRead(mis, None);
      CountZero(mis.EffectivePath(), EXCLUDE);
      CleanOrMisread(mis);
    }
  }

  // ----- normal forms of both lines

  lemma QuoteKept(x: string)
    ensures StripFlags(" '" + x) == " '" + StripFlags(x)
  {
    QuoteHere(x);
    QuoteText(x);
    StripStep(" '" + x);
    StripStep("'" + x);
    QuoteText(StripFlags(x));
  }

  lemma QuoteHere(x: string)
    ensures IgnoredLength(" '" + x) == 0 && IgnoredLength("'" + x) == 0
  {
    assert LOCK_FLAG[1] == '-' && SECRET_FLAG[1] == '-' && LOCK_FLAG[0] == ' ' && SECRET_FLAG[0] == ' ';
    assert (" '" + x)[1] == '\'';
  }

  lemma QuoteText(x: string)
    ensures var s := " '" + x; s[0] == ' ' && s[1..] == "'" + x && ("'" + x)[0] == '\'' && ("'" + x)[1..] == x
    ensures [' '] + (['\''] + x) == " '" + x && ['\''] + x == "'" + x
  {
  }

  lemma QuotedShape(p: string, w: string)
    requires OneQuote(p, w)
    ensures " " + ShellQuote(QuotedPath(p, w)) == " '" + (p + ("'\\''" + w + "'"))
    ensures " " + ShellQuote(ReadPath(p, w)) == " '" + (p + ("\\" + w + "'"))
  {
    TailIs(w);
    QuotedText(p, w);
    assert '\'' !in ReadPath(p, w);
    NothingToReplace(ReadPath(p, w));
    Regroup(p, w);
  }

  lemma Regroup(p: string, w: string)
    ensures " " + ("'" + p + "'" + "\\" + ("''" + w + "'")) == " '" + (p + ("'\\''" + w + "'"))
    ensures " " + ("'" + (p + "\\" + w) + "'") == " '" + (p + ("\\" + w + "'"))
  {
    assert "'\\''" == "'" + "\\" + "''";
  }

  /** What comes behind the quote, as it is printed and as it is printed again. */
  lemma TailsAreWords(w: string)
    requires NoSpace(w)
    ensures var x, y := "'\\''" + w + "'", "\\" + w + "'";
      NoSpace(x) && NoSpace(y) && x != [] && y != [] && x[0] == '\'' && y[0] == '\\'
      && x[|x| - 1] == '\'' && y[|y| - 1] == '\''
  {
    var x, y := "'\\''" + w + "'", "\\" + w + "'";
    assert !RegexSpace('\'') && !RegexSpace('\\');
    forall i | 0 <= i < |x| ensures !RegexSpace(x[i]) {
      assert i < 4 || i == |x| - 1 || x[i] == w[i - 4];
    }
    forall i | 0 <= i < |y| ensures !RegexSpace(y[i]) {
      assert i == 0 || i == |y| - 1 || y[i] == w[i - 1];
    }
  }

  lemma HidingFirm(p: string, w: string)
    requires OneQuote(p, w)
    ensures var src, mis := Meant(p, w), Other(p, w); var a := FilesStart(src);
      && a == FilesStart(mis)
      && NormalLine(Line(HeadWords(src, None, false)))
        == TrimSpace(Unquote(a + StripFlags(" '" + (p + ("'\\''" + w + "'")))))
      && NormalLine(Line(HeadWords(mis, None, true)))
        == TrimSpace(Unquote(a + StripFlags(" '" + (p + ("\\" + w + "'")))))
  {
    var src, mis := Meant(p, w), Other(p, w);
    HidingAdmitted(p, w);
    QuotedShape(p, w);
    PathLine(src, false);
    PathLine(mis, true);
    FilesTidy(src, None, false);
    FilesTidy(mis, None, true);
    TidyLineFirm(HeadWords(src, None, false));
    TidyLineFirm(HeadWords(mis, None, true));
    FilesStartIs(src);
    StripGuarded(FilesStart(src), " " + ShellQuote(src.path));
    StripGuarded(FilesStart(src), " " + ShellQuote(mis.path));
    FirmNormal(Line(HeadWords(src, None, false)));
    FirmNormal(Line(HeadWords(mis, None, true)));
  }

  /** Behind the text of an ignored flag the quote is erased. */
  lemma HidingAlike(p: string, w: string)
    requires OneQuote(p, w) && EndsInFlag(p)
    ensures NormalLine(Line(HeadWords(Other(p, w), None, true)))
         == NormalLine(Line(HeadWords(Meant(p, w), None, false)))
  {
    var x, y := "'\\''" + w + "'", "\\" + w + "'";
    TailsAreWords(w);
    HidingFirm(p, w);
    QuoteKept(p + x);
    QuoteKept(p + y);
    var i :| 0 <= i < |p| && FlagHere(p[i..]);
    FlagEats(p, i, x, y);
  }

  lemma TailsLackExclude(w: string)
    requires !Contains(w, EXCLUDE)
    ensures !Contains("\\''" + w + "'", EXCLUDE) && !Contains(w + "'", EXCLUDE)
  {
    NothingContained();
    ExcludeAcross(w, '\'', []);
    Ends(w);
    ExcludeAcross([], '\'', w + "'");
    ExcludeAcross([], '\'', "'" + w + "'");
    ExcludeAcross([], '\\', "''" + w + "'");
  }

  lemma NothingContained()
    ensures !Contains([], EXCLUDE)
  {
    CountZero([], EXCLUDE);
  }

  lemma Ends(w: string)
    ensures w + ['\''] + [] == w + "'"
    ensures [] + ['\''] + (w + "'") == "'" + w + "'"
    ensures [] + ['\''] + ("'" + w + "'") == "''" + w + "'"
    ensures [] + ['\\'] + ("''" + w + "'") == "\\''" + w + "'"
  {
  }

  /** A line behind the start of a files source, without an exclude flag in it. */
  lemma LineLacksExclude(a: string, s: string, c: char, x: string)
    requires !Contains(a, EXCLUDE) && !Contains(s, EXCLUDE) && !Contains(x, EXCLUDE) && (c == '\'' || c == '\\')
    ensures !Contains(a + (" '" + (s + ([c] + x))), EXCLUDE)
  {
    NothingContained();
    ExcludeAcross(s, c, x);
    assert s + [c] + x == s + ([c] + x);
    ExcludeAcross([], '\'', s + ([c] + x));
    assert [] + ['\''] + (s + ([c] + x)) == "'" + (s + ([c] + x));
    ExcludeAcross(a, ' ', "'" + (s + ([c] + x)));
    assert a + [' '] + ("'" + (s + ([c] + x))) == a + (" '" + (s + ([c] + x)));
  }

  /** Nothing of such a line is normalized away. */
  lemma PlainLine(line: string)
    requires !Contains(line, EXCLUDE) && Solid(line, IsSpace)
    ensures TrimSpace(Unquote(line)) == line
  {
    TrimSolid(line);
  }

  lemma PlainTail(src: Source, s: string, c: char, x: string)
    requires Admitted(src) && !Contains(s, EXCLUDE) && !Contains(x, EXCLUDE) && (c == '\'' || c == '\\')
    requires ([c] + x)[|x|] == '\''
    ensures var line := FilesStart(src) + (" '" + (s + ([c] + x))); TrimSpace(Unquote(line)) == line
  {
    var a := FilesStart(src);
    var line := a + (" '" + (s + ([c] + x)));
    FilesStartIs(src);
    ExcludeAcross(a, ' ', ".");
    assert a + [' '] + "." == a + " .";
    LineLacksExclude(a, s, c, x);
    assert line[0] == a[0];
    assert line[|line| - 1] == ([c] + x)[|x|];
    PlainLine(line);
  }

  lemma DifferThere(a: string, s: string, x: string, y: string)
    requires x != [] && y != [] && x[0] != y[0]
    ensures a + (" '" + (s + x)) != a + (" '" + (s + y))
  {
    var n := |a| + 2 + |s|;
    assert (a + (" '" + (s + x)))[n] == x[0] && (a + (" '" + (s + y)))[n] == y[0];
  }

  lemma StrippedQuoted(p: string, x: string)
    requires !EndsInFlag(p) && NoSpace(x) && x != [] && (x[0] == '\'' || x[0] == '\\')
    ensures StripFlags(" '" + (p + x)) == " '" + (StripFlags(p) + x)
  {
    QuoteKept(p + x);
    StripApart(p, x);
  }

  lemma PartsLackExclude(p: string, w: string)
    requires !Contains(ReadPath(p, w), EXCLUDE)
    ensures !Contains(StripFlags(p), EXCLUDE) && !Contains(w, EXCLUDE)
  {
    ExcludeAcross(p, '\\', w);
    assert p + ['\\'] + w == ReadPath(p, w);
    NoNewExclude(p);
  }

  /** The normal form of a line with a quoted path that does not end in a flag. */
  lemma QuotedNormal(p: string, w: string, c: char, x: string)
    requires OneQuote(p, w) && !EndsInFlag(p) && !Contains(ReadPath(p, w), EXCLUDE) && !Contains(x, EXCLUDE)
    requires NoSpace([c] + x) && (c == '\'' || c == '\\') && ([c] + x)[|x|] == '\''
    ensures var a := FilesStart(Meant(p, w));
      TrimSpace(Unquote(a + StripFlags(" '" + (p + ([c] + x))))) == a + (" '" + (StripFlags(p) + ([c] + x)))
  {
    HidingAdmitted(p, w);
    StrippedQuoted(p, [c] + x);
    PartsLackExclude(p, w);
    PlainTail(Meant(p, w), StripFlags(p), c, x);
  }

  /** Behind any other text the quote tells. */
  lemma HidingTells(p: string, w: string)
    requires OneQuote(p, w) && !EndsInFlag(p) && !Contains(ReadPath(p, w), EXCLUDE)
    ensures Tell(Line(HeadWords(Meant(p, w), None, false)), Line(HeadWords(Other(p, w), None, true)))
  {
    var x, y := "'\\''" + w + "'", "\\" + w + "'";
    TailsAreWords(w);
    PartsLackExclude(p, w);
    TailsLackExclude(w);
    TailHeads(w);
    HidingFirm(p, w);
    QuotedNormal(p, w, '\'', "\\''" + w + "'");
    QuotedNormal(p, w, '\\', w + "'");
    DifferThere(FilesStart(Meant(p, w)), StripFlags(p), x, y);
  }

  lemma TailHeads(w: string)
    ensures "'\\''" + w + "'" == ['\''] + ("\\''" + w + "'") && "\\" + w + "'" == ['\\'] + (w + "'")
  {
  }

  // ----- scripts of one command

  lemma OneCommand(c: Command)
    requires TidyCommand(c)
    ensures TidyCommands([c]) && Physical([c]) == PhysicalLines(c.head, c.tail)
  {
    LastCommand([c]);
    assert [c][..0] == [] && [] + PhysicalLines(c.head, c.tail) == PhysicalLines(c.head, c.tail);
  }

  /** Scripts of one command each normalize alike if their lines do. */
  lemma OneAlike(c: Command, d: Command)
    requires TidyCommand(c) && TidyCommand(d) && Alike(PhysicalLines(c.head, c.tail), PhysicalLines(d.head, d.tail))
    ensures TidyCommands([c]) && TidyCommands([d])
    ensures Normalized(WholeScript([c], [])) == Normalized(WholeScript([d], []))
  {
    OneCommand(c);
    OneCommand(d);
    WholeScriptLines([c], []);
    WholeScriptLines([d], []);
    AlikeConcat(PREAMBLE, PREAMBLE, Physical([c]), Physical([d]));
    AlikeConcat(PREAMBLE + Physical([c]), PREAMBLE + Physical([d]), [POSTAMBLE], [POSTAMBLE]);
    assert [] + [POSTAMBLE] == [POSTAMBLE];
    AlikeConcat(PREAMBLE + Physical([c]) + [POSTAMBLE], PREAMBLE + Physical([d]) + [POSTAMBLE], [[]], [[]]);
    AlikeNormalLines(Split(WholeScript([c], []), '\n'), Split(WholeScript([d], []), '\n'));
  }

  /** They do not if their first lines tell. */
  lemma OneTells(c: Command, d: Command)
    requires TidyCommand(c) && TidyCommand(d)
    requires Tell(PhysicalLines(c.head, c.tail)[0], PhysicalLines(d.head, d.tail)[0])
    ensures TidyCommands([c]) && TidyCommands([d])
    ensures Normalized(WholeScript([c], [])) != Normalized(WholeScript([d], []))
  {
    var x, y := PhysicalLines(c.head, c.tail)[0], PhysicalLines(d.head, d.tail)[0];
    OneCommand(c);
    OneCommand(d);
    ScriptGoesOn([c], [], 0, x);
    ScriptGoesOn([d], [], 0, y);
    assert [c][..0] == [] && [d][..0] == [];
    assert PREAMBLE + [] == PREAMBLE;
    AlikeSame(PREAMBLE);
    ScriptsTell(WholeScript([c], []), WholeScript([d], []), PREAMBLE, PREAMBLE, x, y);
  }

  lemma AlikeSame(a: seq<string>)
    ensures Alike(a, a)
  {
  }

  // ----- migrate and parity

  /** The backup of one directory. */
  function HidingSpec(p: string, w: string): Spec {
    Spec([Meant(p, w)], [], None, None)
  }

  /** Its script, as it is written by hand. */
  function HidingText(p: string, w: string, bare: Style): string
    requires OneQuote(p, w)
  {
    HidingAdmitted(p, w);
    HandScript(HidingSpec(p, w), bare)
  }

  /** What is read of a script of one line. */
  function OneResult(args: seq<string>): Result<Parsed, ParseError>
    requires |args| >= 2
  {
    match ParseBackupLine(args)
    case Err(e) => Err(e)
    case Ok((source, engine)) => Ok(Parsed([source], None, engine))
  }

  lemma OneLineParse(line: string)
    requires var args := Args(line); |args| >= 2 && args[0] == "restic" && args[1] == "backup"
    ensures ParseLines([line], NOTHING) == OneResult(Args(line))
  {
    ParseOneLine(line, NOTHING);
    var r := ParseBackupLine(Args(line));
    if r.Ok? {
      assert [] + [r.value.0] == [r.value.0];
    }
  }

  lemma OneParse(spec: Spec, bare: Style)
    requires OneLineSpec(spec) && |spec.sources| == 1 && spec.retention == None
    requires var args := Args(HandLine(spec.sources[0], bare));
      |args| >= 2 && args[0] == "restic" && args[1] == "backup"
    ensures ParseScript(HandScript(spec, bare)) == OneResult(Args(HandLine(spec.sources[0], bare)))
  {
    var line := HandLine(spec.sources[0], bare);
    HandParse(spec, bare);
    assert HandLines(spec.sources, bare) == [line];
    ParseLinesConcat([line], ForgetTexts(None, None) + [POSTAMBLE], NOTHING);
    OneLineParse(line);
    var r := OneResult(Args(line));
    if r.Ok? {
      EndParse(spec.(retryLock := None), r.value);
    }
  }

  /** What is generated if the script is taken for that of the other path. */
  function ReadAsOther(p: string, w: string, hr: HelmRelease): Generated {
    Generated(Migration.Shorthand(hr.schedule), hr.timeZone, Spec([Misread(Other(p, w))], [], None, None))
  }

  /** Migrate refuses the script, or takes it for that of the other path. */
  lemma HidingMigrates(p: string, w: string, bare: Style, hr: HelmRelease)
    requires OneQuote(p, w) && hr.script == HidingText(p, w, bare)
    ensures Migrated(hr).Ok? ==> Migrated(hr).value == ReadAsOther(p, w, hr)
    ensures Clean(Other(p, w)) ==> Migrated(hr).Ok?
    ensures !Clean(Other(p, w)) && !("-" <= p) ==> Migrated(hr).Err?
  {
    HidingAdmitted(p, w);
    HidingArgs(p, w, bare);
    OtherRead(p, w);
    OneParse(HidingSpec(p, w), bare);
  }

  function OtherCommand(p: string, w: string): Command {
    CommandOf(None, true)(Misread(Other(p, w)))
  }

  /** The script that is rendered for the other path. */
  lemma OtherRendered(p: string, w: string)
    requires OneQuote(p, w)
    ensures TidyCommand(OtherCommand(p, w)) && TidyCommands([OtherCommand(p, w)])
    ensures ScriptText(Spec([Misread(Other(p, w))], [], None, None), true) == Ok(WholeScript([OtherCommand(p, w)], []))
  {
    var mis := Other(p, w);
    HidingAdmitted(p, w);
    ReadScript(Spec([mis], [], None, None));
    assert Misreads([mis]) == [Misread(mis)];
    assert ReadCommands([mis]) == [OtherCommand(p, w)];
    assert TidyCommand(ReadCommands([mis])[0]);
  }

  lemma MeantWritten(p: string, w: string, bare: Style)
    requires OneQuote(p, w)
    ensures TidyCommand(HandCommand(Meant(p, w), bare)) && TidyCommands([HandCommand(Meant(p, w), bare)])
    ensures HidingText(p, w, bare) == WholeScript([HandCommand(Meant(p, w), bare)], [])
  {
    HidingAdmitted(p, w);
    HandTidy([Meant(p, w)], bare);
    assert HandCommands([Meant(p, w)], bare) == [HandCommand(Meant(p, w), bare)];
    assert TidyCommand(HandCommands([Meant(p, w)], bare)[0]);
  }

  /** The two scripts have the same normal form exactly behind the text of an ignored flag. */
  lemma HidingScripts(p: string, w: string, bare: Style)
    requires OneQuote(p, w) && (Clean(Other(p, w)) || "-" <= p)
    ensures var text := ScriptText(Spec([Misread(Other(p, w))], [], None, None), true);
      text.Ok? && (Normalized(text.value) == Normalized(HidingText(p, w, bare)) <==> Missed(p, w))
  {
    OtherRendered(p, w);
    MeantWritten(p, w, bare);
    if Missed(p, w) {
      HidingLinesAlike(p, w, bare);
      OneAlike(OtherCommand(p, w), HandCommand(Meant(p, w), bare));
    } else {
      HidingLinesTell(p, w, bare);
      OneTells(OtherCommand(p, w), HandCommand(Meant(p, w), bare));
    }
  }

  /** No dash in front, no exclude flag, and the text before the quote ends in an ignored flag. */
  predicate Missed(p: string, w: string) {
    !("-" <= p) && !Contains(ReadPath(p, w), EXCLUDE) && EndsInFlag(p)
  }

  lemma HidingLinesAlike(p: string, w: string, bare: Style)
    requires OneQuote(p, w) && Missed(p, w)
    ensures var mis := Misread(Other(p, w)); var src := Meant(p, w);
      Alike(PhysicalLines(HeadWords(mis, None, true), TailWords(mis)),
            PhysicalLines(HeadWords(src, None, false), HandTail(src, bare)))
  {
    HidingAlike(p, w);
    OtherLine(p, w);
    AlikeOne(Line(HeadWords(Other(p, w), None, true)), Line(HeadWords(Meant(p, w), None, false)));
  }

  /** Reading the other path and printing it again gives its line. */
  lemma OtherLine(p: string, w: string)
    requires OneQuote(p, w) && !("-" <= p)
    ensures var mis := Misread(Other(p, w));
      HeadWords(mis, None, true) == HeadWords(Other(p, w), None, true) && TailWords(mis) == []
  {
    OtherIsClean(p, w);
    ExpectedWords(Other(p, w), None, true);
  }

  lemma HidingLinesTell(p: string, w: string, bare: Style)
    requires OneQuote(p, w) && !Missed(p, w) && (Clean(Other(p, w)) || "-" <= p)
    ensures Tell(ReadFirst(Other(p, w)), HandFirst(Meant(p, w), bare))
  {
    HidingAdmitted(p, w);
    OtherIsClean(p, w);
    if "-" <= p {
      DashedTells(Meant(p, w), bare);
      DashedTells(Other(p, w), bare);
      DashedFirst(p, w);
    } else {
      OtherLine(p, w);
      HidingTells(p, w);
    }
  }

  /** A path with a dash in front is not read, whatever it is. */
  lemma DashedFirst(p: string, w: string)
    requires OneQuote(p, w) && "-" <= p
    ensures NormalLine(ReadFirst(Other(p, w))) == NormalLine(ReadFirst(Meant(p, w)))
  {
    HidingAdmitted(p, w);
    OtherIsClean(p, w);
    DashedFirstIs(Other(p, w));
    DashedFirstIs(Meant(p, w));
    assert FilesStart(Other(p, w)) == FilesStart(Meant(p, w));
  }

  lemma DashedFirstIs(src: Source)
    requires Admitted(src) && Dashed(src)
    ensures NormalLine(ReadFirst(src)) == FilesStart(src) + " ."
  {
    var mis := Misread(src);
    FirstIs(HeadWords(mis, None, true), TailWords(mis));
    PathLine(mis, true);
    EffectiveTagAdmitted(src);
    assert FilesStart(mis) == FilesStart(src);
    assert SafeBare(".");
    assert " " + "." == " .";
    DotNormal(src, End(TailWords(mis)));
  }

  lemma HidingCompares(hr: HelmRelease, sb: Generated, h: nat, parse: DurationParser)
    requires ParsesHours(parse) && CadenceOfExpr(hr.schedule).Ok?
    requires Migration.Shorthand(hr.schedule) == hr.schedule || EvenHours(hr.schedule)
    requires sb.schedule == Migration.Shorthand(hr.schedule) && sb.timeZone == hr.timeZone && Migrated(hr) == Ok(sb)
    requires ScriptText(sb.spec, true).Ok?
    ensures Unreported(hr, h, parse) <==> Normalized(ScriptText(sb.spec, true).value) == Normalized(hr.script)
  {
    MigrationKeepsCadence(hr.schedule, h, parse);
    if Normalized(ScriptText(sb.spec, true).value) == Normalized(hr.script) {
      AlikePlans(sb, hr, h, parse);
    } else {
      DifferenceReported(sb, hr, h, parse);
    }
  }

  /**
   * A backup of a path with one single quote, and nothing behind it that splits or quotes: migrate accepts it and
   * parity reports no difference, for a schedule that resolves, exactly if the text before the quote ends in an ignored
   * flag, no dash is in front and no exclude flag in the path. The path that is read is always another one.
   */
  lemma QuoteMissedExactly(p: string, w: string, bare: Style, hr: HelmRelease, h: nat, parse: DurationParser)
    requires OneQuote(p, w) && hr.script == HidingText(p, w, bare)
    requires ParsesHours(parse) && CadenceOfExpr(hr.schedule).Ok?
    requires Migration.Shorthand(hr.schedule) == hr.schedule || EvenHours(hr.schedule)
    ensures Unreported(hr, h, parse) <==> Missed(p, w)
    ensures Migrated(hr).Ok? ==> var read := Migrated(hr).value.spec.sources;
      |read| == 1 && read[0].path != QuotedPath(p, w)
  {
    HidingAdmitted(p, w);
    OtherIsClean(p, w);
    HidingMigrates(p, w, bare, hr);
    if Migrated(hr).Ok? {
      HidingScripts(p, w, bare);
      HidingCompares(hr, Migrated(hr).value, h, parse);
    }
  }

  // ----- such paths

  predicate Letters(s: string) {
    s != [] && forall i :: 0 <= i < |s| ==> 'a' <= s[i] <= 'z'
  }

  /** A directory name with the text of an ignored flag in it. */
  function Stem(u: string, v: string): string {
    u + LOCK_FLAG + v
  }

  /** The characters of a path like "a --retry-lock=b'c". */
  lemma CharAt(u: string, v: string, w: string, i: nat)
    requires Letters(u) && Letters(v) && Letters(w) && i < |ReadPath(Stem(u, v), w)|
    ensures var c := ReadPath(Stem(u, v), w)[i]; var n := |u| + |LOCK_FLAG|;
      if |u| <= i < n then c == LOCK_FLAG[i - |u|] else c == '\\' || 'a' <= c <= 'z'
  {
    var s := ReadPath(Stem(u, v), w);
    assert s == u + (LOCK_FLAG + (v + ("\\" + w)));
    var n := |u| + |LOCK_FLAG|;
    if i < |u| {
      assert s[i] == u[i];
    } else if i < n {
      assert s[i] == LOCK_FLAG[i - |u|];
    } else if i < n + |v| {
      assert s[i] == v[i - n];
    } else if i == n + |v| {
      assert s[i] == '\\';
    } else {
      assert s[i] == w[i - n - |v| - 1];
    }
  }

  /** The read path has no exclude flag in it. */
  lemma NoFlagInPath(u: string, v: string, w: string)
    requires Letters(u) && Letters(v) && Letters(w)
    ensures !Contains(ReadPath(Stem(u, v), w), EXCLUDE)
  {
    var s := ReadPath(Stem(u, v), w);
    var n := |u| + |LOCK_FLAG|;
    assert |LOCK_FLAG| == 14 && LOCK_FLAG[13] == '=' && LOCK_FLAG[4] == 'e';
    forall i | 9 <= i < |s| && s[i] == '=' ensures s[i - 9] != '-' {
      CharAt(u, v, w, i);
      assert i == n - 1;
      CharAt(u, v, w, i - 9);
    }
    NoExcludeFlag(s);
    CountZero(s, EXCLUDE);
  }

  lemma StemIs(u: string, v: string)
    requires Letters(u) && Letters(v)
    ensures var p := Stem(u, v); '\'' !in p && '\n' !in p && !("-" <= p) && EndsInFlag(p)
  {
    var p := Stem(u, v);
    FlagShape(LOCK_FLAG);
    assert p == u + (LOCK_FLAG + v);
    assert p[0] == u[0] && p[|u|..] == LOCK_FLAG + v;
    assert forall i :: 0 <= i < |u| ==> u[i] != '\'' && u[i] != '\n';
    assert forall i :: 0 <= i < |v| ==> v[i] != '\'' && v[i] != '\n' && !RegexSpace(v[i]);
    assert FlagHere(p[|u|..]);
  }

  /** For words of letters, such a path is missed. */
  lemma QuoteIsMissed(
    u: string, v: string, w: string, bare: Style, hr: HelmRelease, h: nat, parse: DurationParser)
    requires Letters(u) && Letters(v) && Letters(w)
    requires OneQuote(Stem(u, v), w) && hr.script == HidingText(Stem(u, v), w, bare)
    requires ParsesHours(parse) && CadenceOfExpr(hr.schedule).Ok?
    requires Migration.Shorthand(hr.schedule) == hr.schedule || EvenHours(hr.schedule)
    ensures Unreported(hr, h, parse)
    ensures var read := Migrated(hr).value.spec.sources;
      |read| == 1 && read[0].path == ReadPath(Stem(u, v), w) != QuotedPath(Stem(u, v), w)
  {
    var p := Stem(u, v);
    StemIs(u, v);
    NoFlagInPath(u, v, w);
    HidingAdmitted(p, w);
    OtherIsClean(p, w);
    HidingMigrates(p, w, bare, hr);
    QuoteMissedExactly(p, w, bare, hr, h, parse);
  }
}
