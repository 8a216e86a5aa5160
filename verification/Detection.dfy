/** What corg migrate makes of sources that it does not read back, and that corg parity then reports a difference. */
module Detection {
  import opened Outcomes
  import opened Text
  import opened Mapping
  import opened Shell
  import opened Backup
  import opened Script
  import opened ScriptMeaning
  import opened ScriptParser
  import opened ReadBack
  import opened ArgsReading
  import opened SourceReading
  import opened RoundTrip
  import opened Normalize
  import opened Schedule
  import opened Cadence
  import opened Migration
  import opened Parity

  // ----- what a line without quotes in its texts is read as

  predicate Dashed(src: Source) {
    src.kind.Files? && "-" <= src.EffectivePath()
  }

  /** The exclude flags that are read: a path that is one counts. */
  function ReadExcludes(src: Source): seq<string> {
    FlagValues([src.EffectivePath()], "exclude") + src.exclude
  }

  /** What the reader makes of a source, if it makes anything of it. */
  function Misread(src: Source): Source {
    if Dashed(src) then Expected(src).(path := [], exclude := ReadExcludes(src))
    else if src.kind.Files? then Expected(src)
    else Expected(src).(database := ReadDatabase(src))
  }

  lemma {:induction false} NoDumpdbFails(args: seq<string>)
    requires "dumpdb" !in args
    ensures ParseDumpdb(args).Err?
  {
    if |args| >= 2 {
      assert args[0] in args;
      NoDumpdbFails(args[1..]);
    }
  }

  lemma ExcludesAreDashed(exclude: seq<string>)
    ensures forall i :: 0 <= i < |exclude| ==> "-" <= ExcludeArgs(exclude)[i] && ExcludeArgs(exclude)[i] != "dumpdb"
  {
    forall i | 0 <= i < |exclude| ensures "-" <= ExcludeArgs(exclude)[i] && ExcludeArgs(exclude)[i] != "dumpdb" {
      assert ExcludeArgs(exclude)[i][0] == '-' && "dumpdb"[0] == 'd';
    }
  }

  lemma NoPositional(args: seq<string>)
    requires forall i :: 0 <= i < |args| ==> "-" <= args[i]
    ensures FirstPositional(args) == []
  {
    FirstPositionalSkips(args, []);
    assert args + [] == args;
  }

  lemma DashedExcludes(src: Source)
    requires Dashed(src)
    ensures FlagValues(FilesArgs(src, None), "exclude") == ReadExcludes(src)
  {
    var path := src.EffectivePath();
    var start, rest := StartWords(src, None), [path] + ExcludeArgs(src.exclude);
    StartFacts(src, None);
    ExcludesRead(src.exclude);
    LackingFlag(start, "exclude");
    FlagValuesConcat(start, rest, "exclude");
    FlagValuesConcat([path], ExcludeArgs(src.exclude), "exclude");
  }

  lemma DashedPositional(src: Source)
    requires Dashed(src)
    ensures FirstPositional(FilesArgs(src, None)[2..]) == []
  {
    var rest := [src.EffectivePath()] + ExcludeArgs(src.exclude);
    ExcludesAreDashed(src.exclude);
    PositionalRead(src, None, rest);
    NoPositional(rest);
  }

  lemma DashedDump(src: Source)
    requires Dashed(src)
    ensures var args := FilesArgs(src, None); var i := IndexOf(args, "--stdin-from-command");
      i < |args| ==> ParseDumpdb(args[i..]).Err?
  {
    var path := src.EffectivePath();
    var start, rest := StartWords(src, None), [path] + ExcludeArgs(src.exclude);
    StartFacts(src, None);
    ExcludesAreDashed(src.exclude);
    IndexOfConcat(start, rest, "--stdin-from-command");
    var k := IndexOf(rest, "--stdin-from-command");
    assert (start + rest)[|start| + k..] == rest[k..];
    assert "dumpdb" !in rest by {
      assert path[0] == '-' && "dumpdb"[0] == 'd';
    }
    NoDumpdbFails(rest[k..]);
  }

  /** A path with a dash in front is not read as the path. */
  lemma DashedRead(src: Source)
    requires Dashed(src)
    ensures var r := ParseBackupLine(FilesArgs(src, None)); r.Ok? ==> r.value == (Misread(src), None)
  {
    TagRead(src, None, [src.EffectivePath()] + ExcludeArgs(src.exclude));
    DashedExcludes(src);
    DashedPositional(src);
    DashedDump(src);
  }

  /** The line of a hand-written source without quotes is refused or read as said. */
  lemma LineMisreads(src: Source, bare: Style)
    requires Admitted(src) && OneLine(src) && Unquoted(src)
    ensures var args := Args(HandLine(src, bare));
      && |args| >= 2 && args[0] == "restic" && args[1] == "backup"
      && var r := ParseBackupLine(args); r.Ok? ==> r.value == (Misread(src), Engine(src))
  {
    HandArgs(src, bare);
    IntendedFiles(src, None, false);
    if Dashed(src) {
      DashedRead(src);
    } else if src.kind.Files? {
      FilesRead(src, None);
    } else {
      DumpRead(src, None, false);
    }
  }

  lemma ReadExcludesAre(src: Source)
    ensures ReadExcludes(src) == if EXCLUDE <= src.EffectivePath()
                                 then [src.EffectivePath()[|EXCLUDE|..]] + src.exclude
                                 else src.exclude
  {
    var path := src.EffectivePath();
    FlagLiterals();
    assert [path][1..] == [];
    assert FlagValues([path], "exclude") ==
      if CutPrefix(path, EXCLUDE).Some? then [CutPrefix(path, EXCLUDE).value] else [];
  }

  lemma MisreadIsPrintable(src: Source)
    requires Admitted(src) && OneLine(src) && Unquoted(src)
    ensures Admitted(Misread(src)) && OneLine(Misread(src)) && Unquoted(Misread(src))
  {
    EffectiveTagAdmitted(src);
    if src.kind.IsDatabase() {
      SmuggledIsSafe(src.extraArgs);
    } else if Dashed(src) {
      ReadExcludesAre(src);
    }
  }

  /** A database name among the extra arguments is part of a plain word. */
  lemma {:induction false} SmuggledIsSafe(args: seq<string>)
    requires forall i :: 0 <= i < |args| ==> SafeBare(args[i])
    ensures var d := ValueOr(FlagValue(args, "database")); d == [] || SafeBare(d)
    ensures var d := ValueOr(FlagValue(args, "database")); '\n' !in d && '\'' !in d
  {
    if args != [] {
      SmuggledIsSafe(args[1..]);
      var v := CutPrefix(args[0], FlagPrefix("database"));
      if v.Some? {
        var n := |FlagPrefix("database")|;
        forall i | 0 <= i < |v.value| ensures SafeChar(v.value[i]) {
          assert v.value[i] == args[0][n + i];
        }
        assert !SafeChar('\n') && !SafeChar('\'');
      }
    }
  }

  /** A source is clean exactly if, when it is read at all, it is read as expected. */
  lemma CleanOrMisread(src: Source)
    requires OneLine(src) && Unquoted(src)
    ensures Clean(src) ==> Misread(src) == Expected(src)
    ensures !Clean(src) && !Dashed(src) && src.kind.Files? ==> !NoEmbeddedFlag(src)
    ensures !Clean(src) && !src.kind.Files? ==> src.database == [] && ReadDatabase(src) != []
  {
  }

  // ----- the whole script

  function Misreads(sources: seq<Source>): seq<Source> {
    Mapped(Misread, sources)
  }

  /** Every line is refused or read as said. */
  lemma {:induction false} SourcesMisread(sources: seq<Source>, bare: Style, st: Parsed)
    requires forall i :: 0 <= i < |sources| ==> Admitted(sources[i]) && OneLine(sources[i]) && Unquoted(sources[i])
    ensures var r := ParseLines(HandLines(sources, bare), st);
      r.Ok? ==> r.value.sources == st.sources + Misreads(sources) && r.value.retention == st.retention
  {
    if sources == [] {
      assert st.sources + [] == st.sources;
    } else {
      var lines := HandLines(sources, bare);
      LineMisreads(sources[0], bare);
      MappedTail(HandLineOf(bare), sources);
      MappedTail(Misread, sources);
      var next := ParseStep(st, Args(lines[0]));
      if next.Ok? {
        SourcesMisread(sources[1..], bare, next.value);
        ConsAssoc(st.sources, Misread(sources[0]), Misreads(sources[1..]), Misreads(sources));
      }
    }
  }

  lemma ConsAssoc(a: seq<Source>, x: Source, b: seq<Source>, c: seq<Source>)
    requires c != [] && c[0] == x && c[1..] == b
    ensures a + [x] + b == a + c
  {
  }

  // ----- what normalizing keeps

  /** No character is new. */
  predicate CharsOf(t: string, s: string) {
    forall c :: c in t ==> c in s
  }

  lemma {:induction false} StripKeepsChars(s: string)
    ensures CharsOf(StripFlags(s), s)
  {
    if s != [] {
      if IgnoredLength(s) > 0 {
        StripKeepsChars(s[IgnoredLength(s)..]);
      } else {
        StripKeepsChars(s[1..]);
      }
    }
  }

  lemma {:induction false} ReplaceKeepsFree(s: string, c: char)
    requires c !in s && c !in EXCLUDE
    ensures c !in ReplaceAll(s, QUOTED_EXCLUDE, EXCLUDE)
  {
    if |s| >= |QUOTED_EXCLUDE| {
      if QUOTED_EXCLUDE <= s {
        ReplaceKeepsFree(s[|QUOTED_EXCLUDE|..], c);
      } else {
        ReplaceKeepsFree(s[1..], c);
      }
    }
  }

  lemma NormalIsOneLine(line: string)
    requires '\n' !in line
    ensures '\n' !in NormalLine(line)
  {
    var a := TrimRight(line, TrailerChar);
    var pad := TrimRightIsPrefix(line, TrailerChar);
    var b := StripFlags(a);
    StripKeepsChars(a);
    var c := ReplaceAll(b, "--exclude='", EXCLUDE);
    assert '\n' !in EXCLUDE;
    ReplaceKeepsFree(b, '\n');
    var pad' := TrimRightIsPrefix(c, TabOrSpace);
    var d := Unquote(b);
    assert '\n' !in d;
    var left, right := TrimSpaceParts(d);
  }

  lemma {:induction false} NormalLinesConcat(a: seq<string>, b: seq<string>)
    ensures NormalLines(a + b) == NormalLines(a) + NormalLines(b)
  {
    if b == [] {
      assert a + b == a;
    } else {
      assert (a + b)[..|a + b| - 1] == a + b[..|b| - 1];
      NormalLinesConcat(a, b[..|b| - 1]);
    }
  }

  lemma {:induction false} NormalLinesAreLines(lines: seq<string>)
    requires OneLined(lines)
    ensures OneLined(NormalLines(lines))
  {
    if lines != [] {
      NormalLinesAreLines(lines[..|lines| - 1]);
      NormalIsOneLine(lines[|lines| - 1]);
    }
  }

  lemma {:induction false} SplitJoin(lines: seq<string>)
    requires lines != [] && OneLined(lines)
    ensures Split(Join(lines, "\n"), '\n') == lines
  {
    if |lines| == 1 {
      SplitNone(lines[0], '\n');
    } else {
      SplitJoin(lines[1..]);
      SplitAt(lines[0], '\n', Join(lines[1..], "\n"));
      assert lines[0] + "\n" + Join(lines[1..], "\n") == lines[0] + ['\n'] + Join(lines[1..], "\n");
    }
  }

  /** Different lines behind the same ones make different texts. */
  lemma LinesTell(n: seq<string>, x: string, y: string, a: seq<string>, b: seq<string>)
    requires OneLined(n + [x] + a) && OneLined(n + [y] + b) && x != y
    ensures Join(n + [x] + a, "\n") != Join(n + [y] + b, "\n")
  {
    SplitJoin(n + [x] + a);
    SplitJoin(n + [y] + b);
    assert (n + [x] + a)[|n|] == x && (n + [y] + b)[|n|] == y;
  }

  lemma OneNormalLine(line: string)
    requires NormalLine(line) != []
    ensures NormalLines([line]) == [NormalLine(line)]
  {
    assert [line][..0] == [];
    assert NormalLines([line][..0]) == [];
  }

  /** Scripts that go on with lines of different normal forms have different normal forms. */
  lemma ScriptsTell(s: string, t: string, a: seq<string>, b: seq<string>, x: string, y: string)
    requires a + [x] <= Split(s, '\n') && b + [y] <= Split(t, '\n') && Alike(a, b)
    requires NormalLine(x) != [] && NormalLine(y) != [] && NormalLine(x) != NormalLine(y)
    ensures Normalized(s) != Normalized(t)
  {
    var ls, lt := Split(s, '\n'), Split(t, '\n');
    var more, more' := ls[|a| + 1..], lt[|b| + 1..];
    Remainder(a, x, ls);
    Remainder(b, y, lt);
    NormalSplit(a, x, more);
    NormalSplit(b, y, more');
    AlikeNormalLines(a, b);
    SplitIsOneLined(s);
    SplitIsOneLined(t);
    NormalLinesAreLines(ls);
    NormalLinesAreLines(lt);
    LinesTell(NormalLines(a), NormalLine(x), NormalLine(y), NormalLines(more), NormalLines(more'));
  }

  lemma Remainder(a: seq<string>, x: string, s: seq<string>)
    requires a + [x] <= s
    ensures s == a + [x] + s[|a| + 1..]
  {
  }

  lemma SplitIsOneLined(s: string)
    ensures OneLined(Split(s, '\n'))
  {
    var lines := Split(s, '\n');
    assert forall i :: 0 <= i < |lines| ==> lines[i] in lines;
  }

  lemma NormalSplit(a: seq<string>, x: string, more: seq<string>)
    requires NormalLine(x) != []
    ensures NormalLines(a + [x] + more) == NormalLines(a) + [NormalLine(x)] + NormalLines(more)
  {
    NormalLinesConcat(a + [x], more);
    NormalLinesConcat(a, [x]);
    OneNormalLine(x);
  }

  // ----- lines that start alike

  lemma {:induction false} TrimKeeps(a: string, b: string, drop: char -> bool)
    requires a != [] && !drop(a[|a| - 1])
    ensures a <= TrimRight(a + b, drop) <= a + b
    decreases |b|
  {
    if b == [] {
      assert a + b == a;
    } else if drop(b[|b| - 1]) {
      assert (a + b)[..|a + b| - 1] == a + b[..|b| - 1];
      TrimKeeps(a, b[..|b| - 1], drop);
    }
  }

  /** What the end of normalization leaves of a line: it starts with a, and goes on as the line does. */
  lemma EndKeeps(a: string, b: string)
    requires Solid(a, IsSpace) && a[|a| - 1] != '\''
    ensures var t := TrimSpace(DropQuote(TrimRight(a + b, TabOrSpace))); a <= t <= a + b
    ensures a <= TrimSpace(a + b) <= a + b
  {
    assert !TabOrSpace(a[|a| - 1]);
    TrimKeeps(a, b, TabOrSpace);
    var t := TrimRight(a + b, TabOrSpace);
    var u := DropQuote(t);
    QuoteDropped(a, t);
    SpaceKeeps(a, u[|a|..]);
    assert a + u[|a|..] == u;
    SpaceKeeps(a, b);
  }

  lemma QuoteDropped(a: string, t: string)
    requires a != [] && a[|a| - 1] != '\'' && a <= t
    ensures a <= DropQuote(t) <= t
  {
    assert t[..|a|] == a;
    if |t| == |a| {
      assert t == a;
    }
  }

  lemma SpaceKeeps(a: string, b: string)
    requires Solid(a, IsSpace)
    ensures a <= TrimSpace(a + b) <= a + b
  {
    assert (a + b)[0] == a[0];
    assert TrimLeft(a + b, IsSpace) == a + b;
    TrimKeeps(a, b, IsSpace);
  }

  // ----- sources that are not read back

  /** The line of a files source up to its path. */
  function FilesStart(src: Source): string {
    "restic backup" + (" --tag=" + src.EffectiveTag())
  }

  lemma FilesStartIs(src: Source)
    requires Admitted(src)
    ensures var a := FilesStart(src);
      && Guarded(a) && Solid(a, IsSpace) && a[|a| - 1] != '\'' && '\'' !in a && !Contains(a + " .", EXCLUDE)
  {
    var a := FilesStart(src);
    var tag := src.EffectiveTag();
    EffectiveTagAdmitted(src);
    StartGuarded();
    TagGuarded(tag);
    GuardedConcat("restic backup", " --tag=" + tag);
    assert forall i :: 0 <= i < |tag| ==> TagChar(tag[i]) && tag[i] != '\'' && tag[i] != '=' && !IsSpace(tag[i]);
    forall i | 20 <= i < |a| ensures a[i] == tag[i - 20] {
    }
    assert a[..20] == "restic backup --tag=";
    var w := a + " .";
    forall i | 9 <= i < |w| && w[i] == '=' ensures w[i - 9] != '-' {
      assert i == 19 || i < 19;
      assert w[10] == a[10] == "restic backup --tag="[10] == 'k';
    }
    NoExcludeFlag(w);
    CountZero(w, EXCLUDE);
  }

  lemma DotStays()
    ensures StripFlags(" .") == " ."
  {
    var s := " .";
    assert IgnoredLength(s) == 0;
    assert s[1..] == ".";
    assert StripFlags(".") == [s[1]] + StripFlags(s[2..]);
  }

  /** The line of a source that is read without a path. */
  lemma DotNormal(src: Source, end: string)
    requires Admitted(src) && (end == [] || end == " \\")
    ensures NormalLine(FilesStart(src) + " ." + end) == FilesStart(src) + " ."
  {
    var a := FilesStart(src);
    FilesStartIs(src);
    TrimEnd(a + " .", end);
    StripGuarded(a, " .");
    DotStays();
    TrimSolid(a + " .");
  }

  /** What stripping leaves of a word behind a space: nothing, or a word that starts as it does. */
  predicate Headed(y: string, c: char) {
    y == [] || (|y| >= 2 && y[0] == ' ' && y[1] == c)
  }

  lemma {:induction false} SolidRun(s: string)
    requires forall i :: 0 <= i < |s| ==> !RegexSpace(s[i])
    ensures RunLength(s) == |s|
  {
    if s != [] {
      SolidRun(s[1..]);
    }
  }

  lemma WordStripped(s: string)
    requires s != [] && s[0] == '-'
    ensures var q := ShellQuoteIfNeeded(s); Headed(StripFlags(" " + q), q[0]) && (q[0] == '-' || q[0] == '\'')
  {
    var q := ShellQuoteIfNeeded(s);
    var w := " " + q;
    assert w[1..] == q;
    if IgnoredLength(w) > 0 {
      assert LOCK_FLAG <= w || SECRET_FLAG <= w;
      assert LOCK_FLAG[1] == '-' && SECRET_FLAG[1] == '-' && q[0] == w[1];
      assert SafeBare(s);
      forall i | 1 <= i < |w| ensures !RegexSpace(w[i]) {
        assert SafeChar(s[i - 1]);
      }
      WholeFlag(w);
    } else {
      assert LOCK_FLAG[0] == ' ' && SECRET_FLAG[0] == ' ';
      assert IgnoredLength(q) == 0;
      assert StripFlags(q) == [q[0]] + StripFlags(q[1..]);
    }
  }

  lemma WholeFlag(w: string)
    requires IgnoredLength(w) > 0 && forall i :: 1 <= i < |w| ==> !RegexSpace(w[i])
    ensures StripFlags(w) == []
  {
    MatchWhole(w, LOCK_FLAG);
    MatchWhole(w, SECRET_FLAG);
    assert IgnoredLength(w) == |w|;
    assert w[|w|..] == [];
  }

  lemma MatchWhole(w: string, flag: string)
    requires flag != [] && forall i :: 1 <= i < |w| ==> !RegexSpace(w[i])
    ensures MatchLength(w, flag) == 0 || MatchLength(w, flag) == |w|
  {
    if flag <= w {
      SolidRun(w[|flag|..]);
    }
  }

  lemma ReplaceHead(s: string)
    requires s != []
    ensures var t := ReplaceAll(s, QUOTED_EXCLUDE, EXCLUDE); t != [] && t[0] == s[0]
  {
    if QUOTED_EXCLUDE <= s {
      assert s[0] == QUOTED_EXCLUDE[0] == EXCLUDE[0];
    }
  }

  lemma {:induction false} ReplaceBehind(a: string, y: string)
    requires '\'' !in a && (y == [] || y[0] == ' ')
    ensures ReplaceAll(a + y, QUOTED_EXCLUDE, EXCLUDE) == a + ReplaceAll(y, QUOTED_EXCLUDE, EXCLUDE)
  {
    if a == [] {
      assert a + y == y;
    } else if |a + y| >= |QUOTED_EXCLUDE| {
      NoQuotedHere(a, y);
      HeadAndTail(a, y);
      ReplaceBehind(a[1..], y);
      HeadAndTail(a, ReplaceAll(y, QUOTED_EXCLUDE, EXCLUDE));
    }
  }

  lemma NoQuotedHere(a: string, y: string)
    requires '\'' !in a && (y == [] || y[0] == ' ') && a != []
    ensures !(QUOTED_EXCLUDE <= a + y)
  {
    assert QUOTED_EXCLUDE[10] == '\'' && |QUOTED_EXCLUDE| == 11;
    if |a| > 10 {
      assert a[10] in a && (a + y)[10] == a[10];
    } else if y != [] {
      assert (a + y)[|a|] == ' ' && QUOTED_EXCLUDE[|a|] != ' ';
    }
  }

  /** The end of normalization behind a solid start. */
  lemma UnquoteKeeps(a: string, y: string, c: char)
    requires Solid(a, IsSpace) && a[|a| - 1] != '\'' && '\'' !in a && Headed(y, c)
    ensures var n := TrimSpace(Unquote(a + y)); a <= n && (|n| > |a| + 1 ==> n[|a| + 1] == c)
  {
    var v := ReplaceAll(y, QUOTED_EXCLUDE, EXCLUDE);
    ReplaceBehind(a, y);
    if y != [] {
      ReplaceHead(y[1..]);
      assert !(QUOTED_EXCLUDE <= y);
      assert v == y || v == [y[0]] + ReplaceAll(y[1..], QUOTED_EXCLUDE, EXCLUDE);
    }
    assert Headed(v, c);
    EndKeeps(a, v);
    EndKeeps(a, y);
  }

  /** The line of a source with a dash in front of its path. */
  lemma DashedNormal(src: Source, end: string)
    requires Admitted(src) && Dashed(src) && (end == [] || end == " \\")
    ensures var n := NormalLine(FilesStart(src) + (" " + ShellQuoteIfNeeded(src.EffectivePath())) + end);
      n != [] && n != FilesStart(src) + " ."
  {
    var a, path := FilesStart(src), src.EffectivePath();
    var q := ShellQuoteIfNeeded(path);
    FilesStartIs(src);
    QuotedEnd(path);
    TrimEnd(a + (" " + q), end);
    StripGuarded(a, " " + q);
    WordStripped(path);
    UnquoteKeeps(a, StripFlags(" " + q), q[0]);
    assert (a + " .")[|a| + 1] == '.';
  }

  lemma QuotedEnd(s: string)
    requires s != []
    ensures var q := ShellQuoteIfNeeded(s); q != [] && !TrailerChar(q[|q| - 1])
  {
    if SafeBare(s) {
      assert SafeChar(s[|s| - 1]);
    }
  }

  // ----- a database among the extra arguments

  /** Plain words behind spaces. */
  predicate SpacedWords(s: string) {
    forall i :: 0 <= i < |s| ==> s[i] == ' ' || SafeChar(s[i])
  }

  lemma {:induction false} WordsSpaced(texts: seq<string>)
    requires forall i :: 0 <= i < |texts| ==> SafeBare(texts[i])
    ensures SpacedWords(Separated(Bares(texts), " "))
    ensures texts != [] ==> " " + texts[0] <= Separated(Bares(texts), " ")
  {
    if texts != [] {
      WordsSpaced(texts[1..]);
      assert Bares(texts)[1..] == Bares(texts[1..]);
      PrintOne(Bare(texts[0]));
      assert Separated(Bares(texts), " ") == " " + texts[0] + Separated(Bares(texts[1..]), " ");
    }
  }

  lemma {:induction false} StripLeavesWords(s: string)
    requires SpacedWords(s) && (s == [] || s[0] == ' ')
    ensures var t := StripFlags(s); SpacedWords(t) && (t == [] || t[0] == ' ')
    decreases |s|
  {
    StripKeepsChars(s);
    var t := StripFlags(s);
    assert forall i :: 0 <= i < |t| ==> t[i] in s;
    if s != [] && IgnoredLength(s) > 0 {
      RunEnds(s, LOCK_FLAG);
      RunEnds(s, SECRET_FLAG);
      StripLeavesWords(s[IgnoredLength(s)..]);
    }
  }

  lemma RunEnds(s: string, flag: string)
    requires SpacedWords(s)
    ensures var n := MatchLength(s, flag); n == 0 || n == |s| || s[n] == ' '
  {
    if flag <= s {
      RunStops(s[|flag|..]);
    }
  }

  lemma {:induction false} RunStops(s: string)
    requires SpacedWords(s)
    ensures RunLength(s) == |s| || s[RunLength(s)] == ' '
  {
    if s != [] && !RegexSpace(s[0]) {
      RunStops(s[1..]);
    } else if s != [] {
      assert !SafeChar('\n') && !SafeChar('\t') && !SafeChar('\r') && !SafeChar('\U{0C}');
    }
  }

  /** Stripping leaves a double dash that is a word of its own, or starts another word than an ignored flag. */
  lemma StripDashes(r: string)
    requires r == [] || r[0] == ' ' || r[0] == 'd'
    ensures StripFlags(" --" + r) == " --" + StripFlags(r)
  {
    var s := " --" + r;
    DashesStart(s, r);
    StripStep(s);
    DashesText(r);
    DashKept("-" + r);
    DashKept(r);
    DashesText(StripFlags(r));
    assert StripFlags(s[1..]) == "-" + ("-" + StripFlags(r));
  }

  lemma DashesText(x: string)
    ensures " --" + x == " " + ("-" + ("-" + x)) && (" --" + x)[1..] == "-" + ("-" + x) && (" --" + x)[0] == ' '
  {
  }

  lemma DashesStart(s: string, r: string)
    requires s == " --" + r && (r == [] || r[0] == ' ' || r[0] == 'd')
    ensures IgnoredLength(s) == 0
  {
    assert LOCK_FLAG[3] == 'r' && SECRET_FLAG[3] == 's';
    if r != [] {
      assert s[3] == r[0];
    }
  }

  lemma DashKept(r: string)
    ensures StripFlags("-" + r) == "-" + StripFlags(r)
  {
    var s := "-" + r;
    assert s[1..] == r && s[0] == '-';
    assert LOCK_FLAG[0] == ' ' && SECRET_FLAG[0] == ' ';
    StripStep(s);
  }

  lemma PlainUnquote(a: string, y: string)
    requires Solid(a, IsSpace) && SpacedWords(y) && '\'' !in a
    ensures a <= TrimSpace(Unquote(a + y)) <= a + y
  {
    var s := a + y;
    assert !SafeChar('\'');
    forall i | 0 <= i < |s| ensures s[i] != '\'' {
      assert i < |a| ==> a[i] in a;
    }
    forall i | 0 <= i <= |s| && QUOTED_EXCLUDE <= s[i..] ensures false {
      QuoteAt(s, i);
    }
    NothingReplaced(s, QUOTED_EXCLUDE, EXCLUDE);
    assert a[|a| - 1] in a;
    EndKeeps(a, y);
  }

  /** The line of a database source up to its flags. */
  function DumpFront(src: Source): string {
    "restic backup" + (" --tag=" + src.EffectiveTag()) + (" --stdin-from-command -- dumpdb " + src.kind.Name())
  }

  lemma DumpFrontIs(src: Source)
    requires Admitted(src) && src.kind.IsDatabase()
    ensures var b := DumpFront(src); Guarded(b) && b != [] && !IsSpace(b[0]) && '\'' !in b
  {
    var tag := src.EffectiveTag();
    EffectiveTagAdmitted(src);
    StartGuarded();
    TagGuarded(tag);
    DumpGuarded(src.kind);
    GuardedConcat("restic backup", " --tag=" + tag);
    GuardedConcat("restic backup" + (" --tag=" + tag), " --stdin-from-command -- dumpdb " + src.kind.Name());
    assert forall i :: 0 <= i < |tag| ==> TagChar(tag[i]) && tag[i] != '\'';
  }

  lemma FrontAssoc(a: string, b: string, c: string, d: string)
    ensures a + [] + (b + c + ([] + d)) == a + b + c + d
  {
  }

  /** Both lines of a database source, hand-written and rendered, have the same front. */
  lemma DumpFronts(src: Source)
    requires Admitted(src) && src.kind.IsDatabase()
    ensures StripFlags(Line(HeadWords(src, None, false))) == DumpFront(src) + StripFlags(DumpEnd(src))
    ensures StripFlags(Line(HeadWords(src, None, true))) == DumpFront(src) + StripFlags(DumpEnd(src))
  {
    DumpFrontIs(src);
    DumpLineText(src, None, false);
    MountWordsText();
    FrontAssoc("restic backup", " --tag=" + src.EffectiveTag(), " --stdin-from-command -- dumpdb " + src.kind.Name(),
      DumpEnd(src));
    StripGuarded(DumpFront(src), DumpEnd(src));
    DumpStripped(src, None);
  }

  /** A database source without a database of its own ends in a double dash and its extra arguments. */
  lemma ExtraEnd(src: Source) returns (r: string)
    requires Admitted(src) && src.kind.IsDatabase() && src.database == [] && src.extraArgs != []
    ensures DumpEnd(src) == " --" + r && (r == [] || r[0] == ' ') && SpacedWords(r)
  {
    var extra := ExtraWords(src.extraArgs);
    assert SafeBare("--");
    WordsSpaced(src.extraArgs);
    assert Bares(extra)[1..] == Bares(src.extraArgs);
    PrintOne(Bare("--"));
    r := Separated(Bares(src.extraArgs), " ");
    assert DatabaseWords(src.database) + Bares(extra) == Bares(extra);
  }

  /** One with a plain database starts with the flag. */
  lemma FlagEnd(src: Source) returns (r: string)
    requires Admitted(src) && src.kind.IsDatabase() && SafeBare(src.database)
    ensures DumpEnd(src) == " --" + r && r != [] && r[0] == 'd' && SpacedWords(r)
  {
    var extra := Bares(ExtraWords(src.extraArgs));
    var w := [Bare("--database="), IfNeeded(src.database)];
    assert SafeBare("--");
    WordsSpaced(ExtraWords(src.extraArgs));
    assert DatabaseWords(src.database) + extra == [w] + extra;
    assert ([w] + extra)[1..] == extra;
    PrintTwo(Bare("--database="), IfNeeded(src.database));
    r := "database=" + src.database + Separated(extra, " ");
    FlagText(src.database, Separated(extra, " "));
    assert SpacedWords("database=");
  }

  lemma FlagText(d: string, x: string)
    ensures " " + ("--database=" + d) + x == " --" + ("database=" + d + x)
  {
  }

  lemma StrippedWords(r: string)
    requires SpacedWords(r)
    ensures SpacedWords(StripFlags(r))
  {
    StripKeepsChars(r);
    var t := StripFlags(r);
    assert forall i :: 0 <= i < |t| ==> t[i] in r;
  }

  lemma FirmNormal(line: string)
    requires Firm(line)
    ensures NormalLine(line) == TrimSpace(Unquote(StripFlags(line)))
  {
    FirmTrim(line, []);
    Glue(line, [], [], []);
  }

  /** A text goes on with a double dash, and then with c or not at all. */
  predicate GoesOn(n: string, b: string, c: char) {
    b + " --" <= n && (|n| > |b| + 3 ==> n[|b| + 3] == c)
  }

  /** The end of normalization behind a front and a double dash. */
  lemma DashesKept(b: string, y: string, c: char)
    requires b != [] && !IsSpace(b[0]) && '\'' !in b && SpacedWords(y) && (y == [] || y[0] == c)
    ensures var n := TrimSpace(Unquote(b + " --" + y));
      GoesOn(n, b, c) && (y != [] && !IsSpace(c) && c != '\'' ==> |n| > |b| + 3)
  {
    var a := b + " --";
    DashesSolid(b, a);
    PlainUnquote(a, y);
    var n := TrimSpace(Unquote(a + y));
    assert a <= n <= a + y;
    if y != [] {
      assert (a + y)[|a|] == c;
      if !IsSpace(c) && c != '\'' {
        OneMore(a, y, c);
      }
    }
  }

  lemma DashesSolid(b: string, a: string)
    requires a == b + " --" && b != [] && !IsSpace(b[0]) && '\'' !in b
    ensures Solid(a, IsSpace) && '\'' !in a
  {
    assert a[|a| - 1] == '-' && a[0] == b[0];
    assert '\'' !in " --";
  }

  lemma OneMore(a: string, y: string, c: char)
    requires Solid(a, IsSpace) && SpacedWords(y) && '\'' !in a && y != [] && y[0] == c && !IsSpace(c) && c != '\''
    ensures |TrimSpace(Unquote(a + y))| > |a|
  {
    assert a + [c] + y[1..] == a + y;
    PlainUnquote(a + [c], y[1..]);
  }

  lemma DumpNormal(src: Source, mount: bool)
    requires Admitted(src) && OneLine(src) && src.kind.IsDatabase()
    ensures NormalLine(Line(HeadWords(src, None, mount)))
         == TrimSpace(Unquote(DumpFront(src) + StripFlags(DumpEnd(src))))
  {
    DumpFronts(src);
    DumpTidy(src, None, mount);
    TidyLineFirm(HeadWords(src, None, mount));
    FirmNormal(Line(HeadWords(src, None, mount)));
  }

  lemma DashedEnd(src: Source, r: string)
    requires DumpEnd(src) == " --" + r && (r == [] || r[0] == ' ' || r[0] == 'd')
    ensures DumpFront(src) + StripFlags(DumpEnd(src)) == DumpFront(src) + " --" + StripFlags(r)
  {
    StripDashes(r);
    Glue(DumpFront(src), " --", StripFlags(r), []);
  }

  /** The line of a database source without a database, and of one with a plain one. */
  lemma ExtraNormal(src: Source, mount: bool)
    requires Admitted(src) && OneLine(src) && src.kind.IsDatabase() && src.database == [] && src.extraArgs != []
    ensures GoesOn(NormalLine(Line(HeadWords(src, None, mount))), DumpFront(src), ' ')
  {
    var r := ExtraEnd(src);
    DumpNormal(src, mount);
    DashedEnd(src, r);
    DumpFrontIs(src);
    StripLeavesWords(r);
    DashesKept(DumpFront(src), StripFlags(r), ' ');
  }

  lemma FlagNormal(src: Source, mount: bool)
    requires Admitted(src) && OneLine(src) && src.kind.IsDatabase() && SafeBare(src.database)
    ensures var n := NormalLine(Line(HeadWords(src, None, mount)));
      GoesOn(n, DumpFront(src), 'd') && |n| > |DumpFront(src)| + 3
  {
    var r := FlagEnd(src);
    DumpNormal(src, mount);
    DashedEnd(src, r);
    DumpFrontIs(src);
    StrippedWords(r);
    StripFirst(r);
    DashesKept(DumpFront(src), StripFlags(r), 'd');
  }

  /** The line with a database that was smuggled in, hand-written and rendered. */
  lemma SmuggledNormal(src: Source)
    requires Admitted(src) && OneLine(src) && Unquoted(src) && !Clean(src) && src.kind.IsDatabase()
    ensures var x := NormalLine(Line(HeadWords(src, None, false)));
      var y := NormalLine(Line(HeadWords(Misread(src), None, true)));
      x != [] && y != [] && x != y
  {
    MisreadIsPrintable(src);
    SmuggledIsSafe(src.extraArgs);
    assert DumpFront(Misread(src)) == DumpFront(src);
    ExtraNormal(src, false);
    FlagNormal(Misread(src), true);
  }

  lemma StripFirst(s: string)
    requires s != [] && s[0] == 'd'
    ensures var t := StripFlags(s); t != [] && t[0] == 'd'
  {
    assert LOCK_FLAG[0] == ' ' && SECRET_FLAG[0] == ' ';
    StripStep(s);
  }

  // ----- one source, exactly

  lemma PathLine(src: Source, mount: bool)
    requires src.kind.Files?
    ensures Line(HeadWords(src, None, mount)) == FilesStart(src) + (" " + ShellQuoteIfNeeded(src.EffectivePath()))
  {
    assert HeadWords(src, None, mount) == HeadWords(src, None, true);
    FilesLine(src, None);
    StartText(src, None);
    var q := ShellQuoteIfNeeded(src.EffectivePath());
    PathText("restic backup", " --tag=", src.EffectiveTag(), " ", q);
  }

  lemma PathText(a: string, b: string, c: string, d: string, e: string)
    ensures a + [] + b + c + d + e == a + (b + c) + (d + e)
  {
  }

  /** The first line of a source, hand-written and as it is rendered after it was read. */
  function HandFirst(src: Source, bare: Style): string {
    PhysicalLines(HeadWords(src, None, false), HandTail(src, bare))[0]
  }

  function ReadFirst(src: Source): string {
    PhysicalLines(HeadWords(Misread(src), None, true), TailWords(Misread(src)))[0]
  }

  predicate Tell(x: string, y: string) {
    NormalLine(x) != [] && NormalLine(y) != [] && NormalLine(x) != NormalLine(y)
  }

  function End(tail: seq<Word>): string {
    if tail == [] then [] else " \\"
  }

  lemma FirstIs(head: seq<Word>, tail: seq<Word>)
    requires head != []
    ensures PhysicalLines(head, tail)[0] == Line(head) + End(tail)
  {
    Glue(Line(head), [], [], []);
  }

  lemma DashedTells(src: Source, bare: Style)
    requires Admitted(src) && Dashed(src)
    ensures Tell(HandFirst(src, bare), ReadFirst(src))
  {
    var mis := Misread(src);
    FirstIs(HeadWords(src, None, false), HandTail(src, bare));
    FirstIs(HeadWords(mis, None, true), TailWords(mis));
    PathLine(src, false);
    PathLine(mis, true);
    EffectiveTagAdmitted(src);
    assert FilesStart(mis) == FilesStart(src);
    assert SafeBare(".");
    assert " " + "." == " .";
    DashedNormal(src, End(HandTail(src, bare)));
    DotNormal(src, End(TailWords(mis)));
  }

  /** A source that is not clean is refused, or its first line tells. */
  lemma UncleanTells(src: Source, bare: Style)
    requires Admitted(src) && OneLine(src) && Unquoted(src) && !Clean(src)
    requires |Args(HandLine(src, bare))| >= 2 && ParseBackupLine(Args(HandLine(src, bare))).Ok?
    ensures Tell(HandFirst(src, bare), ReadFirst(src))
  {
    CleanOrMisread(src);
    if src.kind.IsDatabase() {
      FirstIs(HeadWords(src, None, false), HandTail(src, bare));
      FirstIs(HeadWords(Misread(src), None, true), TailWords(Misread(src)));
      SmuggledNormal(src);
      Glue(Line(HeadWords(src, None, false)), [], [], []);
      Glue(Line(HeadWords(Misread(src), None, true)), [], [], []);
    } else if Dashed(src) {
      DashedTells(src, bare);
    } else {
      HandArgs(src, bare);
      IntendedFiles(src, None, false);
      EmbeddedRefused(src);
    }
  }

  lemma EmbeddedRefused(src: Source)
    requires Admitted(src) && src.kind.Files? && !Dashed(src) && !NoEmbeddedFlag(src)
    ensures ParseBackupLine(FilesArgs(src, None)).Err?
  {
    FilesRead(src, None);
    NoPatterns(src.exclude);
    CountZero(src.EffectivePath(), EXCLUDE);
  }

  // ----- whole scripts

  predicate Quoteless(spec: Spec) {
    OneLineSpec(spec) && forall i :: 0 <= i < |spec.sources| ==> Unquoted(spec.sources[i])
  }

  lemma {:induction false} PhysicalPrefix(cs: seq<Command>, k: nat)
    requires TidyCommands(cs) && k <= |cs|
    ensures TidyCommands(cs[..k]) && Physical(cs[..k]) <= Physical(cs)
    decreases |cs|
  {
    if k < |cs| {
      var init := cs[..|cs| - 1];
      LastCommand(cs);
      PhysicalPrefix(init, k);
      assert init[..k] == cs[..k];
    } else {
      assert cs[..k] == cs;
    }
  }

  lemma PhysicalSnoc(cs: seq<Command>, k: nat)
    requires TidyCommands(cs) && k < |cs|
    ensures TidyCommands(cs[..k]) && TidyCommands(cs[..k + 1])
    ensures Physical(cs[..k + 1]) == Physical(cs[..k]) + PhysicalLines(cs[k].head, cs[k].tail)
  {
    var some := cs[..k + 1];
    assert some[..|some| - 1] == cs[..k] && some[|some| - 1] == cs[k];
    LastCommand(some);
  }

  /** Behind the lines of the commands before it comes the first line of a command. */
  lemma PhysicalGoesOn(cs: seq<Command>, k: nat)
    requires TidyCommands(cs) && k < |cs|
    ensures TidyCommands(cs[..k])
    ensures Physical(cs[..k]) + [PhysicalLines(cs[k].head, cs[k].tail)[0]] <= Physical(cs)
  {
    PhysicalPrefix(cs, k);
    PhysicalPrefix(cs, k + 1);
    PhysicalSnoc(cs, k);
    assert cs[k].head != [];
    FirstOf(Physical(cs[..k]), PhysicalLines(cs[k].head, cs[k].tail), Physical(cs));
  }

  lemma FirstOf(a: seq<string>, b: seq<string>, c: seq<string>)
    requires b != [] && a + b <= c
    ensures a + [b[0]] <= c
  {
    assert a + b == a + [b[0]] + b[1..];
  }

  lemma MappedUpTo<T, U>(f: T -> U, s: seq<T>, k: nat)
    requires k <= |s|
    ensures Mapped(f, s)[..k] == Mapped(f, s[..k])
  {
  }

  /** The commands that a migrated script renders to. */
  function ReadCommands(sources: seq<Source>): seq<Command> {
    SourceCommands(Misreads(sources), None, true)
  }

  lemma ReadTidy(sources: seq<Source>)
    requires forall i :: 0 <= i < |sources| ==> Admitted(sources[i]) && OneLine(sources[i]) && Unquoted(sources[i])
    ensures TidyCommands(ReadCommands(sources))
  {
    forall i | 0 <= i < |sources| ensures Admitted(Misreads(sources)[i]) && OneLine(Misreads(sources)[i]) {
      MisreadIsPrintable(sources[i]);
    }
    TidySources(Misreads(sources), None, true);
  }

  /** Sources in front that are clean render to lines that are alike. */
  lemma CleanAlike(sources: seq<Source>, bare: Style)
    requires forall i :: 0 <= i < |sources| ==> Admitted(sources[i]) && Clean(sources[i])
    requires TidyCommands(ReadCommands(sources)) && TidyCommands(HandCommands(sources, bare))
    ensures Alike(Physical(ReadCommands(sources)), Physical(HandCommands(sources, bare)))
  {
    forall i | 0 <= i < |sources| ensures Misreads(sources)[i] == ExpectedSources(sources)[i] {
      CleanOrMisread(sources[i]);
    }
    assert Misreads(sources) == ExpectedSources(sources);
    ExpectedCommands(sources, None);
    SourcesAlike(sources, None, bare);
  }

  /** The first source that is not clean tells the scripts apart. */
  lemma {:induction false} FirstUnclean(sources: seq<Source>) returns (k: nat)
    requires exists i :: 0 <= i < |sources| && !Clean(sources[i])
    ensures k < |sources| && !Clean(sources[k]) && forall i :: 0 <= i < k ==> Clean(sources[i])
  {
    if !Clean(sources[0]) {
      k := 0;
    } else {
      var i :| 0 <= i < |sources| && !Clean(sources[i]);
      assert sources[1..][i - 1] == sources[i];
      var j := FirstUnclean(sources[1..]);
      k := j + 1;
      assert forall i :: 1 <= i < k ==> sources[i] == sources[1..][i - 1];
    }
  }

  /** Of lines that are all read each is read. */
  lemma {:induction false} AllRead(lines: seq<string>, st: Parsed, k: nat)
    requires ParseLines(lines, st).Ok? && k < |lines|
    requires |Args(lines[k])| >= 2 && Args(lines[k])[0] == "restic" && Args(lines[k])[1] == "backup"
    ensures ParseBackupLine(Args(lines[k])).Ok?
  {
    if k > 0 {
      AllRead(lines[1..], ParseStep(st, Args(lines[0])).value, k - 1);
    }
  }

  // ----- migrate and parity

  /** What migrate makes of the script, if it does not refuse it. */
  lemma MigratedSources(spec: Spec, bare: Style)
    requires Quoteless(spec)
    ensures var r := ParseScript(HandScript(spec, bare));
      r.Ok? ==>
        && r.value.sources == Misreads(spec.sources) && r.value.retention == ExpectedRetention(spec.retention)
        && ParseLines(HandLines(spec.sources, bare), NOTHING).Ok?
  {
    var lines := HandLines(spec.sources, bare);
    HandParse(spec, bare);
    ParseLinesConcat(lines, ForgetTexts(spec.retention, None) + [POSTAMBLE], NOTHING);
    SourcesMisread(spec.sources, bare, NOTHING);
    var r := ParseLines(lines, NOTHING);
    if r.Ok? {
      EndParse(spec.(retryLock := None), r.value);
      NothingFirst(Misreads(spec.sources));
    }
  }

  lemma NothingFirst(s: seq<Source>)
    ensures NOTHING.sources + s == s
  {
  }

  /** The script that is rendered afterwards. */
  lemma ReadScript(spec: Spec)
    requires Quoteless(spec)
    ensures TidyCommands(ReadCommands(spec.sources))
    ensures ScriptText(Spec(Misreads(spec.sources), [], ExpectedRetention(spec.retention), None), true)
         == Ok(WholeScript(ReadCommands(spec.sources), ForgetTexts(spec.retention, None)))
  {
    ReadTidy(spec.sources);
    ExpectedForget(spec.retention, None);
    forall i | 0 <= i < |spec.sources| ensures !Misreads(spec.sources)[i].kind.Unknown? {
      MisreadIsPrintable(spec.sources[i]);
    }
    TextsOfSources(Misreads(spec.sources), None, true);
  }

  lemma ReadUpTo(sources: seq<Source>, k: nat)
    requires k < |sources|
    ensures ReadCommands(sources)[..k] == ReadCommands(sources[..k])
    ensures var c := ReadCommands(sources)[k];
      c.head != [] && PhysicalLines(c.head, c.tail)[0] == ReadFirst(sources[k])
  {
    MappedUpTo(Misread, sources, k);
    MappedUpTo(CommandOf(None, true), Misreads(sources), k);
  }

  lemma HandUpTo(sources: seq<Source>, bare: Style, k: nat)
    requires k < |sources|
    ensures HandCommands(sources, bare)[..k] == HandCommands(sources[..k], bare)
    ensures var c := HandCommands(sources, bare)[k];
      c.head != [] && PhysicalLines(c.head, c.tail)[0] == HandFirst(sources[k], bare)
  {
    MappedUpTo(HandCommandOf(bare), sources, k);
  }

  /** Where a script stands when it comes to its k-th command. */
  lemma ScriptGoesOn(cs: seq<Command>, forget: seq<string>, k: nat, x: string)
    requires TidyCommands(cs) && k < |cs| && x == PhysicalLines(cs[k].head, cs[k].tail)[0]
    requires forall i :: 0 <= i < |forget| ==> Firm(forget[i])
    ensures TidyCommands(cs[..k])
    ensures PREAMBLE + Physical(cs[..k]) + [x] <= Split(WholeScript(cs, forget), '\n')
  {
    WholeScriptLines(cs, forget);
    PhysicalGoesOn(cs, k);
    Prefixed(PREAMBLE, Physical(cs[..k]), [x], Physical(cs), forget + [POSTAMBLE], [[]]);
  }

  lemma Prefixed(p: seq<string>, a: seq<string>, x: seq<string>, b: seq<string>, c: seq<string>, d: seq<string>)
    requires a + x <= b
    ensures p + a + x <= p + b + c + d
  {
    assert b == a + x + b[|a + x|..];
    assert p + b + c + d == p + a + x + (b[|a + x|..] + c + d);
  }

  lemma ScriptsDiffer(spec: Spec, bare: Style, k: nat)
    requires Quoteless(spec) && ParseScript(HandScript(spec, bare)).Ok? && k < |spec.sources|
    requires !Clean(spec.sources[k]) && forall i :: 0 <= i < k ==> Clean(spec.sources[i])
    ensures TidyCommands(ReadCommands(spec.sources))
    ensures Normalized(WholeScript(ReadCommands(spec.sources), ForgetTexts(spec.retention, None)))
         != Normalized(HandScript(spec, bare))
  {
    var sources, src := spec.sources, spec.sources[k];
    var forget := ForgetTexts(spec.retention, None);
    ReadTidy(sources);
    HandTidy(sources, bare);
    ForgetFirm(spec.retention, None);
    UncleanRead(spec, bare, k);
    ReadUpTo(sources, k);
    HandUpTo(sources, bare, k);
    ScriptGoesOn(ReadCommands(sources), forget, k, ReadFirst(src));
    ScriptGoesOn(HandCommands(sources, bare), forget, k, HandFirst(src, bare));
    CleanAlike(sources[..k], bare);
    AlikeConcat(PREAMBLE, PREAMBLE, Physical(ReadCommands(sources)[..k]), Physical(HandCommands(sources, bare)[..k]));
    ScriptsTell(WholeScript(ReadCommands(sources), forget), HandScript(spec, bare),
      PREAMBLE + Physical(ReadCommands(sources)[..k]), PREAMBLE + Physical(HandCommands(sources, bare)[..k]),
      ReadFirst(src), HandFirst(src, bare));
  }

  /** The source that is not clean was read as another one. */
  lemma UncleanRead(spec: Spec, bare: Style, k: nat)
    requires Quoteless(spec) && ParseScript(HandScript(spec, bare)).Ok? && k < |spec.sources|
    requires !Clean(spec.sources[k])
    ensures Tell(HandFirst(spec.sources[k], bare), ReadFirst(spec.sources[k]))
  {
    MigratedSources(spec, bare);
    LineMisreads(spec.sources[k], bare);
    AllRead(HandLines(spec.sources, bare), NOTHING, k);
    UncleanTells(spec.sources[k], bare);
  }

  lemma DifferenceReported(sb: Generated, hr: HelmRelease, h: nat, parse: DurationParser)
    requires ScriptText(sb.spec, true).Ok? && Normalized(ScriptText(sb.spec, true).value) != Normalized(hr.script)
    ensures var plan := RenderedPlan(sb, h, parse);
      plan.Ok? ==> var r := Compared(plan.value, OriginalPlan(hr)); r.Ok? ==> ScriptDiffers in r.value.differences
  {
    var plan := RenderedPlan(sb, h, parse);
    if plan.Ok? {
      var r := Compared(plan.value, OriginalPlan(hr));
      if r.Ok? {
        assert r.value.differences[0] == ScriptDiffers;
      }
    }
  }

  /**
   * A hand-written backup with a source that would not be read back is refused by migrate, or parity reports that the
   * scripts differ, as long as it compares at all.
   */
  lemma UncleanIsFound(spec: Spec, bare: Style, hr: HelmRelease, h: nat, parse: DurationParser)
    requires Quoteless(spec) && !AllClean(spec) && hr.script == HandScript(spec, bare)
    ensures Migrated(hr).Ok? ==> var r := ParityAfterMigration(hr, h, parse);
      r.Ok? ==> ScriptDiffers in r.value.differences
  {
    if Migrated(hr).Ok? {
      var k := FirstUnclean(spec.sources);
      MigratedSources(spec, bare);
      ReadScript(spec);
      ScriptsDiffer(spec, bare, k);
      DifferenceReported(Migrated(hr).value, hr, h, parse);
    }
  }

  /** Migrate accepts the backup and parity finds nothing. */
  predicate Unreported(hr: HelmRelease, h: nat, parse: DurationParser) {
    && Migrated(hr).Ok?
    && var r := ParityAfterMigration(hr, h, parse); r.Ok? && r.value.differences == []
  }

  /**
   * For a hand-written backup without newlines and single quotes in its texts, and a schedule that resolves after
   * migration: migrate accepts it and parity reports no difference exactly if every source is clean.
   */
  lemma ParityExactly(spec: Spec, bare: Style, schedule: string, timeZone: string, h: nat, parse: DurationParser)
    requires Quoteless(spec) && ParsesHours(parse) && CadenceOfExpr(schedule).Ok?
    requires Migration.Shorthand(schedule) == schedule || EvenHours(schedule)
    ensures var hr := HelmRelease(schedule, timeZone, HandScript(spec, bare));
      AllClean(spec) <==> Unreported(hr, h, parse)
  {
    var hr := HelmRelease(schedule, timeZone, HandScript(spec, bare));
    if AllClean(spec) {
      MigrateThenParity(spec, bare, schedule, timeZone, h, parse);
    } else {
      UncleanIsFound(spec, bare, hr, h, parse);
    }
  }
}
