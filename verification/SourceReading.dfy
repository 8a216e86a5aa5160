/** When the reader gets one printed source back: the exact condition on its texts. */
module SourceReading {
  import opened Outcomes
  import opened Text
  import opened Shell
  import opened Backup
  import opened Script
  import opened ScriptMeaning
  import opened ScriptParser
  import opened ReadBack
  import opened ArgsReading

  /** No text of the source that gets printed holds a newline. */
  predicate OneLine(src: Source) {
    if src.kind.Files? then
      '\n' !in src.EffectivePath() && forall i :: 0 <= i < |src.exclude| ==> '\n' !in src.exclude[i]
    else
      '\n' !in src.database
  }

  /** No text of the source that gets printed holds a single quote. */
  predicate Unquoted(src: Source) {
    if src.kind.Files? then
      '\'' !in src.EffectivePath() && forall i :: 0 <= i < |src.exclude| ==> '\'' !in src.exclude[i]
    else
      '\'' !in src.database
  }

  /** Neither the path nor a pattern holds the text of an exclude flag. */
  predicate NoEmbeddedFlag(src: Source) {
    && !Contains(src.EffectivePath(), EXCLUDE)
    && forall i :: 0 <= i < |src.exclude| ==> !Contains(src.exclude[i], EXCLUDE)
  }

  /**
   The condition under which the reader gets a source back. The reader works line by line, knows
   no escape character, takes the first word without a dash for the path, counts exclude flags
   by their text, and looks for the database flag among the extra arguments too.
   */
  predicate Clean(src: Source) {
    && OneLine(src)
    && Unquoted(src)
    && (if src.kind.Files? then
          !("-" <= src.EffectivePath()) && NoEmbeddedFlag(src)
        else
          src.database == [] ==> ValueOr(FlagValue(src.extraArgs, "database")) == [])
  }

  // ----- printed words on one line

  predicate TidyPiece(p: Piece) {
    if p.Bare? then Plain(p.text) else '\n' !in p.text
  }

  predicate TidyWord(w: Word) {
    w != [] && forall i :: 0 <= i < |w| ==> TidyPiece(w[i])
  }

  predicate Tidy(ws: seq<Word>) {
    forall i :: 0 <= i < |ws| ==> TidyWord(ws[i])
  }

  lemma {:induction false} EscapedOneLine(t: string)
    requires '\n' !in t
    ensures '\n' !in ReplaceAll(t, "'", "'\\''")
  {
    if t != [] {
      EscapedOneLine(t[1..]);
      assert t[0] in t;
    }
  }

  lemma TidyPieceFirm(p: Piece)
    requires TidyPiece(p)
    ensures Firm(PrintPiece(p))
  {
    match p {
      case Bare(t) =>
        assert forall i :: 0 <= i < |t| ==> WordChar(t[i]) && !IsSpace(t[i]) && t[i] != '\\' && t[i] != '\n';
      case Quoted(t) =>
        EscapedOneLine(t);
        var q := ShellQuote(t);
        assert q[0] == '\'' && q[|q| - 1] == '\'';
    }
  }

  lemma FirmConcat(a: string, b: string)
    requires Firm(a) && Firm(b)
    ensures Firm(a + b) && Firm(a + " " + b)
  {
  }

  lemma {:induction false} TidyWordFirm(w: Word)
    requires TidyWord(w)
    ensures Firm(Print(w))
  {
    TidyPieceFirm(w[0]);
    if |w| == 1 {
      PrintOne(w[0]);
      assert w == [w[0]];
    } else {
      TidyWordFirm(w[1..]);
      FirmConcat(PrintPiece(w[0]), Print(w[1..]));
    }
  }

  lemma LineInit(ws: seq<Word>)
    requires ws != []
    ensures var n := |ws| - 1;
      Line(ws) == if n == 0 then Print(ws[0]) else Line(ws[..n]) + " " + Print(ws[n])
  {
    var n := |ws| - 1;
    if n == 0 {
      Glue(Print(ws[0]), [], [], []);
    } else {
      LineSnoc(ws[..n], ws[n]);
      assert ws[..n] + [ws[n]] == ws;
    }
  }

  lemma {:induction false} TidyLineFirm(ws: seq<Word>)
    requires ws != [] && Tidy(ws)
    ensures Firm(Line(ws))
  {
    var n := |ws| - 1;
    TidyWordFirm(ws[n]);
    LineInit(ws);
    if n > 0 {
      TidyLineFirm(ws[..n]);
      FirmConcat(Line(ws[..n]), Print(ws[n]));
    }
  }

  lemma TidyBares(texts: seq<string>)
    requires AllPlain(texts)
    ensures Tidy(Bares(texts)) && Readable(Bares(texts))
  {
    forall i | 0 <= i < |texts| ensures TidyWord(Bares(texts)[i]) && ReadableWord(Bares(texts)[i]) {
      assert Plain(texts[i]);
      PlainIsBare(texts[i]);
    }
  }

  lemma PlainIsBare(t: string)
    requires Plain(t)
    ensures BareText(t)
  {
    assert forall i :: 0 <= i < |t| ==> WordChar(t[i]) && !QuoteChar(t[i]) && !BlankChar(t[i]);
  }

  lemma TidyIfNeeded(flag: string, s: string)
    requires '\n' !in s
    requires Plain(flag)
    ensures TidyWord([IfNeeded(s)]) && TidyWord([Bare(flag), IfNeeded(s)])
    ensures '\'' !in s ==> ReadableWord([IfNeeded(s)]) && ReadableWord([Bare(flag), IfNeeded(s)])
  {
    PlainIsBare(flag);
    if SafeBare(s) {
      SafeIsPlain(s);
      PlainIsBare(s);
    }
  }

  lemma ConcatWords(a: seq<Word>, b: seq<Word>)
    ensures Tidy(a) && Tidy(b) ==> Tidy(a + b)
    ensures Readable(a) && Readable(b) ==> Readable(a + b)
  {
  }

  lemma FilesTidy(src: Source, lock: Option<Duration>, mount: bool)
    requires Admitted(src) && PlainLock(lock) && src.kind.Files? && OneLine(src)
    ensures Tidy(HeadWords(src, lock, mount)) && Tidy(TailWords(src))
    ensures '\'' !in src.EffectivePath() ==> Readable(HeadWords(src, lock, mount))
  {
    StartPlain(src, lock);
    TidyBares(StartWords(src, lock));
    LongFlagsPlain();
    TidyIfNeeded(EXCLUDE, src.EffectivePath());
    var path := [[IfNeeded(src.EffectivePath())]];
    ConcatWords(Bares(StartWords(src, lock)), path);
    forall i | 0 <= i < |src.exclude| ensures TidyWord(ExcludeWord(src.exclude[i])) {
    }
  }

  lemma ExcludesReadable(exclude: seq<string>)
    requires forall i :: 0 <= i < |exclude| ==> '\'' !in exclude[i]
    ensures Readable(ExcludeWords(exclude))
  {
    LongFlagsPlain();
    PlainIsBare(EXCLUDE);
  }

  lemma DumpTidy(src: Source, lock: Option<Duration>, mount: bool)
    requires Admitted(src) && PlainLock(lock) && src.kind.IsDatabase() && OneLine(src)
    ensures Tidy(HeadWords(src, lock, mount)) && Tidy(TailWords(src))
    ensures '\'' !in src.database ==> Readable(HeadWords(src, lock, mount))
  {
    StartPlain(src, lock);
    DumpPlain(src);
    MountPlain(mount);
    LongFlagsPlain();
    var a, b, c := Bares(StartWords(src, lock)), Bares(DumpWords(src.kind)), Bares(MountWords(mount));
    var d, e := DatabaseWords(src.database), Bares(ExtraWords(src.extraArgs));
    TidyBares(StartWords(src, lock));
    TidyBares(DumpWords(src.kind));
    TidyBares(MountWords(mount));
    TidyBares(ExtraWords(src.extraArgs));
    TidyIfNeeded("--database=", src.database);
    ConcatWords(b, c);
    ConcatWords(b + c, d);
    ConcatWords(b + c + d, e);
    ConcatWords(a, b + c + d + e);
  }

  // ----- the arguments of one source's line

  function SourceLine(src: Source, lock: Option<Duration>, mount: bool): string {
    Line(HeadWords(src, lock, mount) + TailWords(src))
  }

  lemma IntendedFiles(src: Source, lock: Option<Duration>, mount: bool)
    ensures src.kind.Files? ==> IntendedArgs(src, lock, mount) == FilesArgs(src, lock)
    ensures !src.kind.Files? ==> IntendedArgs(src, lock, mount) == DumpArgs(src, lock, mount)
  {
    if !src.kind.Files? {
      var db := if src.database == [] then [] else ["--database=" + src.database];
      Assoc(DumpWords(src.kind), MountWords(mount), db);
      Assoc(DumpWords(src.kind), MountWords(mount) + db, ExtraWords(src.extraArgs));
      Assoc(MountWords(mount), db, ExtraWords(src.extraArgs));
    }
  }

  /** Without quotes in its texts, a source's line splits into the intended arguments. */
  lemma UnquotedArgs(src: Source, lock: Option<Duration>, mount: bool)
    requires Admitted(src) && PlainLock(lock) && OneLine(src) && Unquoted(src)
    ensures Args(SourceLine(src, lock, mount)) == IntendedArgs(src, lock, mount)
  {
    SourceWordsMean(src, lock, mount);
    if src.kind.Files? {
      FilesTidy(src, lock, mount);
      ExcludesReadable(src.exclude);
    } else {
      DumpTidy(src, lock, mount);
    }
    ConcatWords(HeadWords(src, lock, mount), TailWords(src));
    ArgsOfLine(HeadWords(src, lock, mount) + TailWords(src));
  }

  /** The path a files line is read with never starts with a dash. */
  lemma {:induction false} PositionalHasNoDash(args: seq<string>)
    ensures !("-" <= FirstPositional(args))
  {
    if args != [] && "-" <= args[0] {
      PositionalHasNoDash(args[1..]);
    }
  }

  lemma LineSplit(a: seq<Word>, w: Word, b: seq<Word>)
    requires a != []
    ensures Line(a + [w] + b) == Line(a) + " " + Print(w) + Separated(b, " ")
  {
    var ws := a + [w] + b;
    assert ws[1..] == (a + [w])[1..] + b;
    SeparatedConcat((a + [w])[1..], b, " ");
    LineSnoc(a, w);
    Glue(Print(ws[0]), Separated((a + [w])[1..], " "), Separated(b, " "), []);
  }

  lemma NotSafe(s: string)
    requires '\'' in s
    ensures !SafeBare(s)
  {
    var i :| 0 <= i < |s| && s[i] == '\'';
    assert !SafeChar(s[i]);
  }

  /** With a quote in the path, the path's word reads as what precedes the quote and a backslash. */
  lemma DirtyPathArgs(src: Source, lock: Option<Duration>, mount: bool) returns (p: string)
    requires Admitted(src) && PlainLock(lock) && src.kind.Files? && '\'' in src.EffectivePath()
    ensures p + "'" <= src.EffectivePath()
    ensures var args, n := Args(SourceLine(src, lock, mount)), |StartWords(src, lock)|;
      |args| > n && args[..n] == StartWords(src, lock) && p + "\\" <= args[n]
  {
    var path := src.EffectivePath();
    var q;
    p, q := FirstQuote(path);
    NotSafe(path);
    var start := Bares(StartWords(src, lock));
    StartPlain(src, lock);
    TidyBares(StartWords(src, lock));
    PlainBares(StartWords(src, lock));
    var w := [Quoted(path)];
    PrintOne(Quoted(path));
    assert HeadWords(src, lock, mount) == start + [w];
    LineSplit(start, w, TailWords(src));
    ArgsOfDirtyLine(start, [], p, q, Separated(TailWords(src), " "));
    NothingBefore(ShellQuote(path));
    NothingBefore(p);
  }

  lemma NothingBefore(s: string)
    ensures [] + s == s
  {
  }

  /** The same for the first pattern with a quote in it. */
  lemma DirtyExcludeArgs(src: Source, lock: Option<Duration>, mount: bool, k: nat) returns (p: string)
    requires Admitted(src) && PlainLock(lock) && src.kind.Files? && OneLine(src) && '\'' !in src.EffectivePath()
    requires k < |src.exclude| && '\'' in src.exclude[k]
    requires forall i :: 0 <= i < k ==> '\'' !in src.exclude[i]
    ensures p + "'" <= src.exclude[k]
    ensures var args := Args(SourceLine(src, lock, mount));
      var good := StartWords(src, lock) + ([src.EffectivePath()] + ExcludeArgs(src.exclude[..k]));
      |args| > |good| && args[..|good|] == good && EXCLUDE + p + "\\" <= args[|good|]
  {
    var q;
    p, q := FirstQuote(src.exclude[k]);
    var head, some := HeadWords(src, lock, mount), ExcludeWords(src.exclude[..k]);
    var w := ExcludeWord(src.exclude[k]);
    var more := ExcludeWords(src.exclude[k + 1..]);
    FilesTidy(src, lock, mount);
    ExcludesReadable(src.exclude[..k]);
    ConcatWords(head, some);
    var good := head + some;
    ExcludeParts(src.exclude, k);
    assert head + TailWords(src) == good + [w] + more;
    LineSplit(good, w, more);
    PrintTwo(Bare(EXCLUDE), Quoted(src.exclude[k]));
    LongFlagsPlain();
    PlainIsBare(EXCLUDE);
    ArgsOfDirtyLine(good, EXCLUDE, p, q, Separated(more, " "));
    GoodValues(src, lock, mount, k);
  }

  lemma ExcludeParts(exclude: seq<string>, k: nat)
    requires k < |exclude|
    ensures ExcludeWords(exclude)
      == ExcludeWords(exclude[..k]) + ([ExcludeWord(exclude[k])] + ExcludeWords(exclude[k + 1..]))
  {
  }

  lemma GoodValues(src: Source, lock: Option<Duration>, mount: bool, k: nat)
    requires Admitted(src) && PlainLock(lock) && src.kind.Files? && k < |src.exclude|
    ensures Values(HeadWords(src, lock, mount) + ExcludeWords(src.exclude[..k]))
         == StartWords(src, lock) + ([src.EffectivePath()] + ExcludeArgs(src.exclude[..k]))
  {
    var prefix := src.(exclude := src.exclude[..k]);
    assert HeadWords(prefix, lock, mount) == HeadWords(src, lock, mount);
    assert StartWords(prefix, lock) == StartWords(src, lock);
    SourceWordsMean(prefix, lock, mount);
    IntendedFiles(prefix, lock, mount);
  }

  /** The same for a database name with a quote in it. */
  lemma DirtyDatabaseArgs(src: Source, lock: Option<Duration>, mount: bool) returns (p: string)
    requires Admitted(src) && PlainLock(lock) && src.kind.IsDatabase() && '\'' in src.database
    ensures p + "'" <= src.database
    ensures var args := Args(SourceLine(src, lock, mount));
      var good := StartWords(src, lock) + (DumpWords(src.kind) + MountWords(mount));
      |args| > |good| && args[..|good|] == good && "--database=" + p + "\\" <= args[|good|]
  {
    var q;
    p, q := FirstQuote(src.database);
    NotSafe(src.database);
    var texts := StartWords(src, lock) + (DumpWords(src.kind) + MountWords(mount));
    StartPlain(src, lock);
    DumpPlain(src);
    MountPlain(mount);
    TidyBares(texts);
    PlainBares(texts);
    var w := [Bare("--database="), Quoted(src.database)];
    PrintTwo(Bare("--database="), Quoted(src.database));
    var extra := Bares(ExtraWords(src.extraArgs));
    DumpLineShape(src, lock, mount);
    LineSplit(Bares(texts), w, extra);
    LongFlagsPlain();
    PlainIsBare("--database=");
    ArgsOfDirtyLine(Bares(texts), "--database=", p, q, Separated(extra, " "));
  }

  lemma DumpLineShape(src: Source, lock: Option<Duration>, mount: bool)
    requires src.kind.IsDatabase()
    ensures HeadWords(src, lock, mount) + TailWords(src)
         == Bares(StartWords(src, lock) + (DumpWords(src.kind) + MountWords(mount)))
          + DatabaseWords(src.database) + Bares(ExtraWords(src.extraArgs))
  {
  }

  // ----- one source, exactly

  /** What the reader makes of the line of a source. */
  function ReadSource(
    src: Source, lock: Option<Duration>, mount: bool
  ): Result<(Source, Option<SourceType>), ParseError>
    requires |Args(SourceLine(src, lock, mount))| >= 2
  {
    ParseBackupLine(Args(SourceLine(src, lock, mount)))
  }

  lemma BackupStart(src: Source, lock: Option<Duration>, more: seq<string>, args: seq<string>)
    requires StartWords(src, lock) + more <= args
    ensures |args| >= 2 && args[0] == "restic" && args[1] == "backup"
  {
  }

  /** The line of a source is recognised as a backup command. */
  lemma LineIsBackup(src: Source, lock: Option<Duration>, mount: bool)
    requires Admitted(src) && PlainLock(lock) && OneLine(src)
    ensures var args := Args(SourceLine(src, lock, mount));
      |args| >= 2 && args[0] == "restic" && args[1] == "backup"
  {
    var args := Args(SourceLine(src, lock, mount));
    if Unquoted(src) {
      UnquotedArgs(src, lock, mount);
      IntendedFiles(src, lock, mount);
    } else if src.kind.IsDatabase() {
      var p := DirtyDatabaseArgs(src, lock, mount);
      BackupStart(src, lock, DumpWords(src.kind) + MountWords(mount), args);
    } else if '\'' in src.EffectivePath() {
      var p := DirtyPathArgs(src, lock, mount);
      assert StartWords(src, lock) + [] == StartWords(src, lock);
      BackupStart(src, lock, [], args);
    } else {
      var k := FirstDirty(src.exclude);
      var p := DirtyExcludeArgs(src, lock, mount, k);
      BackupStart(src, lock, [src.EffectivePath()] + ExcludeArgs(src.exclude[..k]), args);
    }
  }

  lemma {:induction false} FirstDirty(exclude: seq<string>) returns (k: nat)
    requires exists i :: 0 <= i < |exclude| && '\'' in exclude[i]
    ensures k < |exclude| && '\'' in exclude[k]
    ensures forall i :: 0 <= i < k ==> '\'' !in exclude[i]
  {
    if '\'' in exclude[0] {
      k := 0;
    } else {
      var i :| 0 <= i < |exclude| && '\'' in exclude[i];
      assert exclude[1..][i - 1] == exclude[i];
      var j := FirstDirty(exclude[1..]);
      k := j + 1;
    }
  }

  /** A text cannot go on with a quote and with a backslash at the same place. */
  lemma Diverge(p: string, text: string, read: string)
    requires p + "'" <= text && p + "\\" <= read
    ensures text != read
  {
    assert text[|p|] == (p + "'")[|p|] && read[|p|] == (p + "\\")[|p|];
  }

  lemma DashedPathFails(src: Source, lock: Option<Duration>, mount: bool)
    requires src.kind.Files? && "-" <= src.EffectivePath()
    requires |Args(SourceLine(src, lock, mount))| >= 2
    ensures var r := ReadSource(src, lock, mount); r.Ok? ==> r.value.0 != Expected(src)
  {
    PositionalHasNoDash(Args(SourceLine(src, lock, mount))[2..]);
  }

  lemma DirtyPathFails(src: Source, lock: Option<Duration>, mount: bool)
    requires Admitted(src) && PlainLock(lock) && src.kind.Files?
    requires '\'' in src.EffectivePath() && !("-" <= src.EffectivePath())
    requires |Args(SourceLine(src, lock, mount))| >= 2
    ensures var r := ReadSource(src, lock, mount); r.Ok? ==> r.value.0 != Expected(src)
  {
    var p := DirtyPathArgs(src, lock, mount);
    var args, n := Args(SourceLine(src, lock, mount)), |StartWords(src, lock)|;
    assert args == StartWords(src, lock) + args[n..];
    PositionalRead(src, lock, args[n..]);
    assert args[n][0] == (p + "\\")[0];
    assert src.EffectivePath()[0] == (p + "'")[0];
    assert FirstPositional(args[n..]) == args[n];
    Diverge(p, src.EffectivePath(), args[n]);
  }

  lemma CutExtended(prefix: string, p: string, s: string)
    requires prefix + p <= s
    ensures CutPrefix(s, prefix).Some? && p <= CutPrefix(s, prefix).value
  {
    assert prefix <= prefix + p;
  }

  lemma DirtyExcludeFails(src: Source, lock: Option<Duration>, mount: bool)
    requires Admitted(src) && PlainLock(lock) && src.kind.Files? && OneLine(src)
    requires '\'' !in src.EffectivePath() && !("-" <= src.EffectivePath()) && !Unquoted(src)
    requires |Args(SourceLine(src, lock, mount))| >= 2
    ensures var r := ReadSource(src, lock, mount); r.Ok? ==> r.value.0 != Expected(src)
  {
    var k := FirstDirty(src.exclude);
    DirtyExcludeRead(src, lock, mount, k);
    WrongExclude(src, lock, mount, k);
  }

  /** The first exclude with a quote is read as something else. */
  lemma DirtyExcludeRead(src: Source, lock: Option<Duration>, mount: bool, k: nat)
    requires Admitted(src) && PlainLock(lock) && src.kind.Files? && OneLine(src)
    requires '\'' !in src.EffectivePath() && !("-" <= src.EffectivePath())
    requires k < |src.exclude| && '\'' in src.exclude[k] && forall i :: 0 <= i < k ==> '\'' !in src.exclude[i]
    ensures var values := FlagValues(Args(SourceLine(src, lock, mount)), "exclude");
      k < |values| && values[k] != src.exclude[k]
  {
    var p := DirtyExcludeArgs(src, lock, mount, k);
    var args := Args(SourceLine(src, lock, mount));
    var prefix := src.(exclude := src.exclude[..k]);
    assert FilesArgs(prefix, lock) == StartWords(src, lock) + ([src.EffectivePath()] + ExcludeArgs(src.exclude[..k]));
    FilesFlags(prefix, lock);
    NextExclude(args, FilesArgs(prefix, lock), p + "\\");
    Diverge(p, src.exclude[k], FlagValues(args, "exclude")[k]);
  }

  lemma WrongExclude(src: Source, lock: Option<Duration>, mount: bool, k: nat)
    requires |Args(SourceLine(src, lock, mount))| >= 2 && src.kind.Files? && k < |src.exclude|
    requires var values := FlagValues(Args(SourceLine(src, lock, mount)), "exclude");
      k < |values| && values[k] != src.exclude[k]
    ensures var r := ReadSource(src, lock, mount); r.Ok? ==> r.value.0 != Expected(src)
  {
  }

  /** The value of an --exclude flag comes after those of the flags in front of it. */
  lemma NextExclude(args: seq<string>, good: seq<string>, value: string)
    requires |args| > |good| && args[..|good|] == good && EXCLUDE + value <= args[|good|]
    ensures var n, values := |FlagValues(good, "exclude")|, FlagValues(args, "exclude");
      n < |values| && value <= values[n]
  {
    var rest := args[|good|..];
    assert args == good + rest;
    FlagValuesConcat(good, rest, "exclude");
    FlagLiterals();
    CutExtended(EXCLUDE, value, rest[0]);
  }

  lemma DirtyDatabaseFails(src: Source, lock: Option<Duration>, mount: bool)
    requires Admitted(src) && PlainLock(lock) && src.kind.IsDatabase() && '\'' in src.database
    requires |Args(SourceLine(src, lock, mount))| >= 2
    ensures var r := ReadSource(src, lock, mount); r.Ok? ==> r.value.0 != Expected(src)
  {
    var p := DirtyDatabaseArgs(src, lock, mount);
    var args := Args(SourceLine(src, lock, mount));
    var start, dump, flag := StartWords(src, lock), DumpWords(src.kind), MountWords(mount);
    var n := |start| + |dump| + |flag|;
    var rest := flag + args[n..];
    FourParts(args, start, dump, flag);
    StartFacts(src, lock);
    IndexOfConcat(start, dump + rest, "--stdin-from-command");
    DumpStart(src.kind, rest);
    DumpdbRead(src.kind, rest);
    DirtyDatabaseRead(p, flag, args[n..], mount);
    Diverge(p, src.database, FlagValue(rest, "database").value);
  }

  lemma FourParts(args: seq<string>, a: seq<string>, b: seq<string>, c: seq<string>)
    requires a + (b + c) <= args
    ensures var d := args[|a| + |b| + |c|..];
      args == a + (b + (c + d)) && args[|a|..] == b + (c + d)
  {
  }

  lemma DumpStart(kind: SourceType, rest: seq<string>)
    ensures IndexOf(DumpWords(kind) + rest, "--stdin-from-command") == 0
  {
  }

  lemma DirtyDatabaseRead(p: string, flag: seq<string>, more: seq<string>, mount: bool)
    requires flag == MountWords(mount)
    requires more != [] && "--database=" + p + "\\" <= more[0]
    ensures var v := FlagValue(flag + more, "database"); v.Some? && p + "\\" <= v.value
  {
    FlagLiterals();
    FlagValueConcat(flag, more, "database");
    forall i | 0 <= i < |flag| ensures !("--database=" <= flag[i]) {
      assert flag[i][2] == 's';
    }
    LackingFlag(flag, "database");
    assert "--database=" + p + "\\" == "--database=" + (p + "\\");
    assert "--database=" <= more[0];
  }

  /**
   For a source whose texts hold no newline, the reader recognises its line, gets exactly the
   source back if it is clean, and never gets it back if it is not.
   */
  lemma SourceReadExactly(src: Source, lock: Option<Duration>, mount: bool)
    requires Admitted(src) && PlainLock(lock) && OneLine(src)
    ensures var args := Args(SourceLine(src, lock, mount));
      |args| >= 2 && args[0] == "restic" && args[1] == "backup"
    ensures Clean(src) ==> ReadSource(src, lock, mount) == Ok((Expected(src), Engine(src)))
    ensures !Clean(src) ==> var r := ReadSource(src, lock, mount); r.Ok? ==> r.value.0 != Expected(src)
  {
    LineIsBackup(src, lock, mount);
    if src.kind.IsDatabase() {
      if '\'' in src.database {
        DirtyDatabaseFails(src, lock, mount);
      } else {
        UnquotedArgs(src, lock, mount);
        IntendedFiles(src, lock, mount);
        DumpRead(src, lock, mount);
      }
    } else if "-" <= src.EffectivePath() {
      DashedPathFails(src, lock, mount);
    } else if '\'' in src.EffectivePath() {
      DirtyPathFails(src, lock, mount);
    } else if !Unquoted(src) {
      DirtyExcludeFails(src, lock, mount);
    } else {
      UnquotedArgs(src, lock, mount);
      IntendedFiles(src, lock, mount);
      FilesRead(src, lock);
      NoPatterns(src.exclude);
      CountZero(src.EffectivePath(), EXCLUDE);
    }
  }
}
