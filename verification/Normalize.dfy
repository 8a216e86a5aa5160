/** The script normalizer of internal/cli/develop.go and what it erases. */
module Normalize {
  import opened Outcomes
  import opened Text
  import opened Shell
  import opened Backup
  import opened Script
  import opened ScriptMeaning
  import opened ReadBack
  import opened ArgsReading

  // ----- removing the ignored flags

  /** What \s stands for in a Go regular expression. */
  predicate RegexSpace(c: char) {
    c == ' ' || c == '\t' || c == '\n' || c == '\U{0C}' || c == '\r'
  }

  function RunLength(s: string): (n: nat)
    ensures n <= |s|
  {
    if s == [] || RegexSpace(s[0]) then 0 else 1 + RunLength(s[1..])
  }

  const LOCK_FLAG := " --retry-lock="
  const SECRET_FLAG := " --secret-mount="

  function MatchLength(s: string, flag: string): (n: nat)
    ensures n <= |s|
  {
    if flag <= s && RunLength(s[|flag|..]) > 0 then |flag| + RunLength(s[|flag|..]) else 0
  }

  /** The length of an ignored flag at the start of s, or 0. */
  function IgnoredLength(s: string): (n: nat)
    ensures n <= |s|
  {
    if MatchLength(s, LOCK_FLAG) > 0 then MatchLength(s, LOCK_FLAG) else MatchLength(s, SECRET_FLAG)
  }

  /** ignoredFlags.ReplaceAllString(s, ""). */
  function StripFlags(s: string): string {
    if s == [] then []
    else if IgnoredLength(s) > 0 then StripFlags(s[IgnoredLength(s)..])
    else [s[0]] + StripFlags(s[1..])
  }

  // ----- one line

  predicate TrailerChar(c: char) {
    c == ' ' || c == '\t' || c == '\\'
  }

  predicate TabOrSpace(c: char) {
    c == ' ' || c == '\t'
  }

  function DropQuote(s: string): string {
    match CutLast(s, '\'')
    case Some(t) => t
    case None => s
  }

  /** The end of the line's normalization, after the flags are gone. */
  function Unquote(line: string): string {
    if Contains(line, EXCLUDE) then
      DropQuote(TrimRight(ReplaceAll(line, "--exclude='", EXCLUDE), TabOrSpace))
    else line
  }

  function NormalLine(line: string): string {
    TrimSpace(Unquote(StripFlags(TrimRight(line, TrailerChar))))
  }

  function NormalLines(lines: seq<string>): seq<string> {
    if lines == [] then []
    else
      var rest, t := NormalLines(lines[..|lines| - 1]), NormalLine(lines[|lines| - 1]);
      if t == [] then rest else rest + [t]
  }

  function Normalized(script: string): string {
    Join(NormalLines(Split(script, '\n')), "\n")
  }

  method NormalizeScript(script: string) returns (text: string)
    ensures text == Normalized(script)
  {
    var lines: seq<string> := [];
    var physical := Split(script, '\n');
    for i := 0 to |physical|
      invariant lines == NormalLines(physical[..i])
    {
      assert physical[..i + 1][..i] == physical[..i];
      var line := TrimRight(physical[i], TrailerChar);
      line := StripFlags(line);
      if Contains(line, EXCLUDE) {
        line := ReplaceAll(line, "--exclude='", EXCLUDE);
        line := DropQuote(TrimRight(line, TabOrSpace));
      }
      var trimmed := TrimSpace(line);
      if trimmed != [] {
        lines := lines + [trimmed];
      }
    }
    assert physical[..|physical|] == physical;
    return Join(lines, "\n");
  }

  /** Scripts whose lines normalize alike normalize alike. */
  lemma {:induction false} SameNormalLines(a: seq<string>, b: seq<string>)
    requires |a| == |b|
    requires forall i :: 0 <= i < |a| ==> NormalLine(a[i]) == NormalLine(b[i])
    ensures NormalLines(a) == NormalLines(b)
  {
    if a != [] {
      SameNormalLines(a[..|a| - 1], b[..|b| - 1]);
    }
  }

  // ----- what stripping leaves alone

  /** Text in which no ignored flag starts, whatever follows it. */
  predicate Guarded(a: string) {
    forall i :: 0 <= i < |a| && a[i] == ' ' ==> i + 4 < |a| && !FlagStart(a, i)
  }

  predicate FlagStart(a: string, i: nat)
    requires i + 4 < |a|
  {
    a[i + 1] == '-' && a[i + 2] == '-' && (a[i + 3] == 'r' || a[i + 3] == 's') && a[i + 4] == 'e'
  }

  lemma NoFlagHere(a: string, x: string)
    requires a != [] && (a[0] == ' ' ==> 4 < |a| && !FlagStart(a, 0))
    ensures IgnoredLength(a + x) == 0
  {
    var s := a + x;
    if LOCK_FLAG <= s {
      FlagLetters(s, LOCK_FLAG);
    }
    if SECRET_FLAG <= s {
      FlagLetters(s, SECRET_FLAG);
    }
  }

  lemma FlagLetters(s: string, flag: string)
    requires (flag == LOCK_FLAG || flag == SECRET_FLAG) && flag <= s
    ensures |s| > 4 && s[0] == ' ' && FlagStart(s, 0)
  {
    assert s[0] == flag[0] && s[1] == flag[1] && s[2] == flag[2] && s[3] == flag[3] && s[4] == flag[4];
  }

  lemma {:induction false} StripGuarded(a: string, x: string)
    requires Guarded(a)
    ensures StripFlags(a + x) == a + StripFlags(x)
  {
    if a == [] {
      assert a + x == x;
    } else {
      NoFlagHere(a, x);
      HeadAndTail(a, x);
      HeadAndTail(a, StripFlags(x));
      StripStep(a + x);
      GuardedTail(a);
      StripGuarded(a[1..], x);
    }
  }

  lemma StripStep(s: string)
    requires s != [] && IgnoredLength(s) == 0
    ensures StripFlags(s) == [s[0]] + StripFlags(s[1..])
  {
  }

  lemma HeadAndTail(a: string, y: string)
    requires a != []
    ensures (a + y)[0] == a[0] && (a + y)[1..] == a[1..] + y
    ensures [a[0]] + (a[1..] + y) == a + y
  {
  }

  lemma GuardedTail(a: string)
    requires a != [] && Guarded(a)
    ensures Guarded(a[1..])
  {
    var b := a[1..];
    forall i | 0 <= i < |b| && b[i] == ' ' ensures i + 4 < |b| && !FlagStart(b, i) {
      assert a[i + 1] == ' ' && !FlagStart(a, i + 1);
    }
  }

  lemma StripWhole(a: string)
    requires Guarded(a)
    ensures StripFlags(a) == a
  {
    StripGuarded(a, []);
    assert a + [] == a && a + StripFlags([]) == a;
  }

  lemma {:induction false} RunOf(d: string, x: string)
    requires forall i :: 0 <= i < |d| ==> !RegexSpace(d[i])
    requires x == [] || RegexSpace(x[0])
    ensures RunLength(d + x) == |d|
  {
    if d == [] {
      assert d + x == x;
    } else {
      assert (d + x)[1..] == d[1..] + x;
      RunOf(d[1..], x);
    }
  }

  /** An ignored flag disappears. */
  lemma StripIgnored(flag: string, d: string, x: string)
    requires flag == LOCK_FLAG || flag == SECRET_FLAG
    requires d != [] && forall i :: 0 <= i < |d| ==> !RegexSpace(d[i])
    requires x == [] || RegexSpace(x[0])
    ensures StripFlags(flag + d + x) == StripFlags(x)
  {
    var s := flag + d + x;
    RunOf(d, x);
    assert s == flag + (d + x);
    assert s[|flag|..] == d + x;
    if flag == SECRET_FLAG {
      assert s[3] == 's' && LOCK_FLAG[3] == 'r';
      assert MatchLength(s, LOCK_FLAG) == 0;
    }
    assert s[|flag| + |d|..] == x;
  }

  // ----- exclude lines, quoted or bare

  lemma {:induction false} NothingReplaced(s: string, sub: string, with: string)
    requires sub != [] && !Contains(s, sub)
    ensures ReplaceAll(s, sub, with) == s
  {
    if |s| >= |sub| {
      assert s[0..] == s;
      assert !(sub <= s);
      forall i | 0 <= i <= |s[1..]| ensures !(sub <= s[1..][i..]) {
        assert s[1..][i..] == s[i + 1..];
      }
      NothingReplaced(s[1..], sub, with);
      assert [s[0]] + s[1..] == s;
    }
  }

  const QUOTED_EXCLUDE := "--exclude='"

  lemma EmbeddedExclude(ex: string)
    requires '\'' !in ex && Contains(ex + "'", QUOTED_EXCLUDE)
    ensures Contains(ex, EXCLUDE)
  {
    var s := ex + "'";
    var i :| 0 <= i <= |s| && QUOTED_EXCLUDE <= s[i..];
    QuoteAt(s, i);
    assert s[i + 10] == '\'' && i + 10 == |ex|;
    assert QUOTED_EXCLUDE[..10] == EXCLUDE;
    assert ex[i..] == s[i..][..10];
  }

  lemma NoQuotedExclude(ex: string)
    requires SafeBare(ex) && !Contains(ex, EXCLUDE)
    ensures !Contains(ex + "'", QUOTED_EXCLUDE)
    ensures !Contains("  " + (EXCLUDE + ex), QUOTED_EXCLUDE)
  {
    NoSingleQuote(ex);
    if Contains(ex + "'", QUOTED_EXCLUDE) {
      EmbeddedExclude(ex);
    }
    var t := "  " + (EXCLUDE + ex);
    forall i | 0 <= i < |t| ensures t[i] != '\'' {
      assert i < 12 ==> t[i] == ("  " + EXCLUDE)[i];
      assert i >= 12 ==> t[i] == ex[i - 12];
    }
    forall i | 0 <= i <= |t| && QUOTED_EXCLUDE <= t[i..] ensures false {
      QuoteAt(t, i);
    }
  }

  lemma QuoteAt(t: string, i: nat)
    requires i <= |t| && QUOTED_EXCLUDE <= t[i..]
    ensures i + 10 < |t| && t[i + 10] == '\''
  {
    assert t[i + 10] == t[i..][10] == QUOTED_EXCLUDE[10];
  }

  lemma NoSingleQuote(ex: string)
    requires SafeBare(ex)
    ensures forall i :: 0 <= i < |ex| ==> ex[i] != '\'' && !TrailerChar(ex[i]) && !IsSpace(ex[i])
    ensures '\'' !in ex
  {
    forall i | 0 <= i < |ex| ensures ex[i] != '\'' && !TrailerChar(ex[i]) && !IsSpace(ex[i]) {
      assert SafeChar(ex[i]);
    }
  }

  lemma ExcludeGuarded(t: string)
    requires forall i :: 0 <= i < |t| ==> t[i] != ' '
    ensures StripFlags("  " + (EXCLUDE + t)) == "  " + (EXCLUDE + t)
  {
    var start := "  --exclude=";
    ExcludeStart();
    GuardedConcat(start, t);
    Glue("  ", EXCLUDE, t, []);
    StripWhole(start + t);
  }

  lemma ExcludeStart()
    ensures "  " + EXCLUDE == "  --exclude="
    ensures Guarded("  --exclude=")
  {
  }

  lemma HasExclude(t: string)
    ensures Contains("  " + (EXCLUDE + t), EXCLUDE)
  {
    assert ("  " + (EXCLUDE + t))[2..] == EXCLUDE + t;
  }

  /** A bare exclude line normalizes to its flag and pattern. */
  lemma BareExcludeNormal(ex: string)
    requires SafeBare(ex) && !Contains(ex, EXCLUDE)
    ensures Unquote(StripFlags("  " + (EXCLUDE + ex))) == "  " + (EXCLUDE + ex)
  {
    var a := "  " + (EXCLUDE + ex);
    NoSingleQuote(ex);
    ExcludeGuarded(ex);
    HasExclude(ex);
    NoQuotedExclude(ex);
    NothingReplaced(a, QUOTED_EXCLUDE, EXCLUDE);
    KeepsEnd(a, ex);
  }

  lemma KeepsEnd(a: string, ex: string)
    requires a == "  " + (EXCLUDE + ex) && ex != []
    requires ex[|ex| - 1] != '\'' && !TabOrSpace(ex[|ex| - 1])
    ensures DropQuote(TrimRight(a, TabOrSpace)) == a
  {
    assert a[|a| - 1] == ex[|ex| - 1];
  }

  lemma ReplaceFirst(ex: string)
    requires !Contains(ex + "'", QUOTED_EXCLUDE)
    ensures ReplaceAll("  " + (EXCLUDE + ("'" + ex + "'")), QUOTED_EXCLUDE, EXCLUDE) == "  " + (EXCLUDE + (ex + "'"))
  {
    QuotedStart(ex);
    NothingReplaced(ex + "'", QUOTED_EXCLUDE, EXCLUDE);
    ReplaceIndented(QUOTED_EXCLUDE, EXCLUDE, ex + "'");
  }

  lemma QuotedStart(ex: string)
    ensures EXCLUDE + ("'" + ex + "'") == QUOTED_EXCLUDE + (ex + "'") && QUOTED_EXCLUDE != []
    ensures QUOTED_EXCLUDE[0] == '-'
  {
    assert EXCLUDE + "'" == QUOTED_EXCLUDE;
  }

  /** Replacing at the start of an indented line. */
  lemma ReplaceIndented(sub: string, with: string, rest: string)
    requires sub != [] && sub[0] == '-' && ReplaceAll(rest, sub, with) == rest
    ensures ReplaceAll("  " + (sub + rest), sub, with) == "  " + (with + rest)
  {
    var c := sub + rest;
    var b := " " + c;
    var a := "  " + c;
    assert b[1..] == c && a[1..] == b && c[|sub|..] == rest;
    assert ReplaceAll(c, sub, with) == with + rest;
    assert ReplaceAll(b, sub, with) == [b[0]] + ReplaceAll(c, sub, with);
    assert ReplaceAll(a, sub, with) == [a[0]] + ReplaceAll(b, sub, with);
  }

  /** The quoted exclude line normalizes to the same text. */
  lemma QuotedExcludeNormal(ex: string)
    requires SafeBare(ex) && !Contains(ex, EXCLUDE)
    ensures Unquote(StripFlags("  " + (EXCLUDE + ShellQuote(ex)))) == "  " + (EXCLUDE + ex)
  {
    NoSingleQuote(ex);
    NothingToReplace(ex);
    var q := "'" + ex + "'";
    assert ShellQuote(ex) == q;
    forall i | 0 <= i < |q| ensures q[i] != ' ' {
      assert 0 < i < |q| - 1 ==> q[i] == ex[i - 1] && !TrailerChar(ex[i - 1]);
    }
    ExcludeGuarded(q);
    HasExclude(q);
    NoQuotedExclude(ex);
    ReplaceFirst(ex);
    LastQuoteCut(EXCLUDE, ex);
  }

  /** The closing quote is the last character, and goes. */
  lemma LastQuoteCut(flag: string, ex: string)
    ensures var line := "  " + (flag + (ex + "'"));
      TrimRight(line, TabOrSpace) == line && CutLast(line, '\'') == Some("  " + (flag + ex))
  {
    var line := "  " + (flag + (ex + "'"));
    assert line[|line| - 1] == '\'';
    assert line == "  " + (flag + ex) + ['\''];
  }

  /** Whether a pattern is quoted makes no difference to its normalized line. */
  lemma ExcludeQuotingErased(ex: string, end: string)
    requires SafeBare(ex) && !Contains(ex, EXCLUDE)
    requires end == [] || end == " \\"
    ensures NormalLine("  " + (EXCLUDE + ShellQuote(ex)) + end) == NormalLine("  " + (EXCLUDE + ex) + end)
  {
    var a, b := "  " + (EXCLUDE + ShellQuote(ex)), "  " + (EXCLUDE + ex);
    NoSingleQuote(ex);
    assert a[|a| - 1] == '\'' && b[|b| - 1] == ex[|ex| - 1];
    TrimEnd(a, end);
    TrimEnd(b, end);
    BareExcludeNormal(ex);
    QuotedExcludeNormal(ex);
  }

  lemma TrimEnd(a: string, end: string)
    requires a != [] && !TrailerChar(a[|a| - 1]) && (end == [] || end == " \\")
    ensures TrimRight(a + end, TrailerChar) == a
  {
    assert forall i :: 0 <= i < |end| ==> TrailerChar(end[i]);
    TrimRightSkips(a, end, TrailerChar);
  }

  // ----- the lines of rendered and hand-written commands

  lemma StartGuarded()
    ensures Guarded("restic backup") && Guarded("restic forget --prune")
  {
  }

  lemma TagGuarded(tag: string)
    requires TagAdmitted(tag) && tag != []
    ensures Guarded(" --tag=" + tag)
  {
    var a := " --tag=" + tag;
    assert forall j :: 0 <= j < |tag| ==> TagChar(tag[j]) && tag[j] != ' ';
    assert forall j :: 7 <= j < |a| ==> a[j] == tag[j - 7];
    assert a[3] == 't';
  }

  lemma DumpGuarded(kind: SourceType)
    requires kind.IsDatabase()
    ensures Guarded(" --stdin-from-command -- dumpdb " + kind.Name())
  {
    var a := " --stdin-from-command";
    var b := " -- dumpdb";
    var c := " " + kind.Name();
    assert Guarded(a);
    assert Guarded(b);
    assert Guarded(c);
    GuardedConcat(a, b);
    GuardedConcat(a + b, c);
    assert a + b == " --stdin-from-command -- dumpdb";
    assert a + b + " " == " --stdin-from-command -- dumpdb ";
    Glue(a + b, " ", kind.Name(), []);
  }

  lemma GuardedConcat(a: string, b: string)
    requires Guarded(a) && Guarded(b)
    ensures Guarded(a + b)
  {
    var s := a + b;
    forall i | 0 <= i < |s| && s[i] == ' ' ensures i + 4 < |s| && !FlagStart(s, i) {
      if i < |a| {
        assert a[i] == ' ' && !FlagStart(a, i);
      } else {
        assert b[i - |a|] == ' ' && !FlagStart(b, i - |a|);
      }
    }
  }

  /** The retry lock disappears behind a guarded start. */
  lemma LockErased(start: string, lock: Option<Duration>, x: string)
    requires Guarded(start) && PlainLock(lock) && x != [] && x[0] == ' '
    ensures StripFlags(start + RetryLockFlag(lock) + x) == StripFlags(start + x)
  {
    StripGuarded(start, x);
    StripGuarded(start, RetryLockFlag(lock) + x);
    Glue(start, RetryLockFlag(lock), x, []);
    LockIgnored(lock, x);
  }

  lemma LockIgnored(lock: Option<Duration>, x: string)
    requires PlainLock(lock) && x != [] && x[0] == ' '
    ensures StripFlags(RetryLockFlag(lock) + x) == StripFlags(x)
  {
    if RetryLockFlag(lock) == [] {
      assert [] + x == x;
    } else {
      var d := lock.value.text;
      forall i | 0 <= i < |d| ensures !RegexSpace(d[i]) {
        assert DurationChar(d[i]);
      }
      StripIgnored(LOCK_FLAG, d, x);
    }
  }

  lemma MountPathSolid()
    ensures DB_SECRET_MOUNT_PATH != []
    ensures forall i :: 0 <= i < |DB_SECRET_MOUNT_PATH| ==> !RegexSpace(DB_SECRET_MOUNT_PATH[i])
  {
    PathPlain();
    forall i | 0 <= i < |DB_SECRET_MOUNT_PATH| ensures !RegexSpace(DB_SECRET_MOUNT_PATH[i]) {
      assert WordChar(DB_SECRET_MOUNT_PATH[i]);
    }
  }

  /** The mount flag disappears behind a guarded start. */
  lemma MountErased(start: string, x: string)
    requires Guarded(start) && (x == [] || x[0] == ' ')
    ensures StripFlags(start + (SECRET_FLAG + DB_SECRET_MOUNT_PATH) + x) == StripFlags(start + x)
  {
    StripGuarded(start, x);
    var flag := SECRET_FLAG + DB_SECRET_MOUNT_PATH;
    assert start + flag + x == start + (flag + x);
    StripGuarded(start, flag + x);
    MountPathSolid();
    StripIgnored(SECRET_FLAG, DB_SECRET_MOUNT_PATH, x);
  }
}
