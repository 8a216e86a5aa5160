/** The script printer of internal/backup/script.go. */
module Script {
  import opened Outcomes
  import opened Text
  import opened Shell
  import opened Backup

  /** What exec redirects to: every line gets the time in front. */
  const REDIRECT := "> >(ts '%H:%M:%S') 2>&1"
  const PREAMBLE := ["exec" + " " + REDIRECT, "set" + " " + "-eu"]
  const POSTAMBLE := "restic cache --cleanup"
  const DB_SECRET_MOUNT_PATH := "/var/run/secrets/borgbase/database"

  // ----- the words of each command

  function Bares(texts: seq<string>): seq<Word> {
    seq(|texts|, i requires 0 <= i < |texts| => [Bare(texts[i])])
  }

  function LockWords(lock: Option<Duration>): seq<string> {
    if lock.None? || lock.value.nanos <= 0 then [] else ["--retry-lock=" + lock.value.text]
  }

  function StartWords(src: Source, lock: Option<Duration>): seq<string> {
    ["restic", "backup"] + LockWords(lock) + ["--tag=" + src.EffectiveTag()]
  }

  function DumpWords(kind: SourceType): seq<string> {
    ["--stdin-from-command", "--", "dumpdb", kind.Name()]
  }

  function MountWords(mount: bool): seq<string> {
    if mount then ["--secret-mount=" + DB_SECRET_MOUNT_PATH] else []
  }

  function DatabaseWords(database: string): seq<Word> {
    if database == [] then [] else [[Bare("--database="), IfNeeded(database)]]
  }

  function ExtraWords(args: seq<string>): seq<string> {
    if args == [] then [] else ["--"] + args
  }

  /** The words a source's command has on its first line. */
  function HeadWords(src: Source, lock: Option<Duration>, mount: bool): (ws: seq<Word>)
    ensures ws != []
  {
    Bares(StartWords(src, lock))
    + (if src.kind.Files? then
         [[IfNeeded(src.EffectivePath())]]
       else
         Bares(DumpWords(src.kind)) + Bares(MountWords(mount))
         + DatabaseWords(src.database) + Bares(ExtraWords(src.extraArgs)))
  }

  function ExcludeWord(pattern: string): Word {
    [Bare("--exclude="), Quoted(pattern)]
  }

  function ExcludeWords(exclude: seq<string>): seq<Word> {
    seq(|exclude|, i requires 0 <= i < |exclude| => ExcludeWord(exclude[i]))
  }

  /** The words that go on continuation lines. */
  function TailWords(src: Source): seq<Word> {
    if src.kind.Files? then ExcludeWords(src.exclude) else []
  }

  function RetentionUnits(r: Retention): seq<(string, Option<int32>)> {
    [("last", r.last), ("hourly", r.hourly), ("daily", r.daily),
     ("weekly", r.weekly), ("monthly", r.monthly), ("yearly", r.yearly)]
  }

  function KeepFlag(unit: (string, Option<int32>)): seq<string> {
    if unit.1.None? then [] else ["--keep-" + unit.0 + "=" + DecInt(unit.1.value)]
  }

  function KeepFlags(units: seq<(string, Option<int32>)>): seq<string> {
    if units == [] then [] else KeepFlags(units[..|units| - 1]) + KeepFlag(units[|units| - 1])
  }

  function ForgetWords(r: Option<Retention>, lock: Option<Duration>): seq<string> {
    if r.None? || KeepFlags(RetentionUnits(r.value)) == [] then []
    else ["restic", "forget", "--prune"] + LockWords(lock) + KeepFlags(RetentionUnits(r.value))
  }

  // ----- the script

  /** The text of one source: its words, or the name of a type the printer does not know. */
  function SourceText(src: Source, lock: Option<Duration>, mount: bool): Result<string, string> {
    if src.kind.Unknown? then Err(src.kind.name)
    else Ok(PrintCommand(HeadWords(src, lock, mount), TailWords(src)))
  }

  /** The texts of the sources, or the error of the first one that has no text. */
  function SourceTexts(sources: seq<Source>, lock: Option<Duration>, mount: bool): (r: Result<seq<string>, string>)
    ensures r.Ok? ==> |r.value| == |sources|
  {
    if sources == [] then Ok([])
    else
      var n := |sources| - 1;
      match SourceTexts(sources[..n], lock, mount)
      case Err(e) => Err(e)
      case Ok(texts) =>
        match SourceText(sources[n], lock, mount)
        case Err(e) => Err(e)
        case Ok(text) => Ok(texts + [text])
  }

  function ForgetTexts(r: Option<Retention>, lock: Option<Duration>): seq<string> {
    if ForgetWords(r, lock) == [] then [] else [Join(ForgetWords(r, lock), " ")]
  }

  /**
   The script of a spec. mount is true in what the operator renders; without it, and without
   a retry lock, this is the script of a hand-written backup.
   */
  function ScriptText(spec: Spec, mount: bool): Result<string, string> {
    if spec.script != [] then
      Ok(Unlines(PREAMBLE + [TrimRight(spec.script, c => c == '\n'), POSTAMBLE]))
    else
      match SourceTexts(spec.sources, spec.retryLock, mount)
      case Err(e) => Err(e)
      case Ok(texts) => Ok(Unlines(PREAMBLE + texts + ForgetTexts(spec.retention, spec.retryLock) + [POSTAMBLE]))
  }

  // ----- the printer

  function RetryLockFlag(lock: Option<Duration>): string {
    if lock.None? || lock.value.nanos <= 0 then [] else " --retry-lock=" + lock.value.text
  }

  function ExtraText(args: seq<string>): string {
    if args == [] then [] else ExtraText(args[..|args| - 1]) + (" " + args[|args| - 1])
  }

  method RenderFiles(src: Source, start: string, lock: Option<Duration>) returns (text: string)
    requires src.kind.Files?
    requires start == Line(Bares(StartWords(src, lock)))
    ensures text == PrintCommand(HeadWords(src, lock, true), TailWords(src))
  {
    var line := start + " " + ShellQuoteIfNeeded(src.EffectivePath());
    FilesLine(src, lock);
    if src.exclude == [] {
      return line;
    }
    var parts := [line];
    for i := 0 to |src.exclude|
      invariant |parts| == i + 1
      invariant Join(parts, " \\\n") == line + Separated(ExcludeWords(src.exclude[..i]), BREAK)
    {
      JoinSnoc(parts, "  --exclude=" + ShellQuote(src.exclude[i]), " \\\n");
      ExcludeSnoc(src.exclude, i, line);
      parts := parts + ["  --exclude=" + ShellQuote(src.exclude[i])];
    }
    assert src.exclude[..|src.exclude|] == src.exclude;
    return Join(parts, " \\\n");
  }

  method RenderExtra(line: string, args: seq<string>) returns (text: string)
    ensures text == line + ExtraText(args)
  {
    text := line;
    for i := 0 to |args|
      invariant text == line + ExtraText(args[..i])
    {
      assert args[..i + 1][..i] == args[..i];
      Glue(line, ExtraText(args[..i]), " " + args[i], []);
      text := text + (" " + args[i]);
    }
    assert args[..|args|] == args;
  }

  method RenderDump(src: Source, start: string, lock: Option<Duration>) returns (text: string)
    requires src.kind.IsDatabase()
    requires start == Line(Bares(StartWords(src, lock)))
    ensures text == PrintCommand(HeadWords(src, lock, true), TailWords(src))
  {
    text := start + " --stdin-from-command -- dumpdb " + src.kind.Name() + " --secret-mount=" + DB_SECRET_MOUNT_PATH;
    ghost var words := Bares(StartWords(src, lock)) + Bares(DumpWords(src.kind)) + Bares(MountWords(true));
    DumpText(src, lock);
    DatabaseLine(words, src.database);
    if src.database != [] {
      text := text + " --database=" + ShellQuoteIfNeeded(src.database);
    }
    words := words + DatabaseWords(src.database);
    ExtraLine(words, src.extraArgs);
    HeadShape(src, lock);
    if src.extraArgs != [] {
      text := RenderExtra(text + " --", src.extraArgs);
    }
  }

  method RenderSource(src: Source, lock: Option<Duration>) returns (r: Result<string, string>)
    ensures r == SourceText(src, lock, true)
  {
    var start := "restic backup" + RetryLockFlag(lock) + " --tag=" + src.EffectiveTag();
    StartText(src, lock);
    match src.kind {
      case Files =>
        var text := RenderFiles(src, start, lock);
        return Ok(text);
      case Unknown(name) =>
        return Err(name);
      case _ =>
        var text := RenderDump(src, start, lock);
        return Ok(text);
    }
  }

  method RenderForget(r: Option<Retention>, lock: Option<Duration>) returns (text: string)
    ensures text == Join(ForgetWords(r, lock), " ")
  {
    if r.None? {
      return [];
    }
    var flags: seq<string> := [];
    var units := RetentionUnits(r.value);
    for i := 0 to |units|
      invariant flags == KeepFlags(units[..i])
    {
      if units[i].1.Some? {
        flags := flags + ["--keep-" + units[i].0 + "=" + DecInt(units[i].1.value)];
      }
      assert units[..i + 1][..i] == units[..i];
    }
    assert units[..|units|] == units;
    if flags == [] {
      return [];
    }
    ForgetLine(lock, flags);
    return "restic forget --prune" + RetryLockFlag(lock) + " " + Join(flags, " ");
  }

  method RenderSources(sources: seq<Source>, lock: Option<Duration>) returns (r: Result<string, string>)
    ensures r == match SourceTexts(sources, lock, true)
                 case Err(e) => Err(e)
                 case Ok(texts) => Ok(Unlines(texts))
  {
    var b := "";
    ghost var texts: seq<string> := [];
    for i := 0 to |sources|
      invariant SourceTexts(sources[..i], lock, true) == Ok(texts)
      invariant b == Unlines(texts)
    {
      var line := RenderSource(sources[i], lock);
      OneMoreSource(sources, i, lock, true);
      if line.Err? {
        FirstError(sources, i + 1, lock, true);
        return Err(line.error);
      }
      UnlinesSnoc(texts, line.value);
      texts := texts + [line.value];
      b := b + line.value;
      b := b + "\n";
    }
    assert sources[..|sources|] == sources;
    return Ok(b);
  }

  /** Render: the shell script the backup container runs. */
  method Render(spec: Spec) returns (r: Result<string, string>)
    ensures r == ScriptText(spec, true)
  {
    var b := Unlines(PREAMBLE);
    if spec.script != [] {
      var body := TrimRight(spec.script, c => c == '\n');
      TwoMoreLines(PREAMBLE, body, POSTAMBLE);
      return Ok(b + body + "\n" + POSTAMBLE + "\n");
    }
    var body := RenderSources(spec.sources, spec.retryLock);
    if body.Err? {
      return Err(body.error);
    }
    b := b + body.value;
    var forget := RenderForget(spec.retention, spec.retryLock);
    ghost var words := ForgetWords(spec.retention, spec.retryLock);
    JoinEmpty(words);
    Glue(b, [], [], []);
    if forget != [] {
      b := b + (forget + "\n");
    }
    ghost var texts := SourceTexts(spec.sources, spec.retryLock, true).value;
    ScriptLines(PREAMBLE, texts, words, POSTAMBLE);
    return Ok(b + POSTAMBLE + "\n");
  }

  // ----- proof of the printer

  /** The words of one line, a space between each two. */
  function Line(ws: seq<Word>): string
    requires ws != []
  {
    Print(ws[0]) + Separated(ws[1..], " ")
  }

  lemma Glue(x: string, a: string, b: string, y: string)
    ensures x + a + (b + y) == x + (a + b) + y
    ensures x + (a + b) == x + a + b
    ensures x + [] == x
  {
  }

  lemma LineSnoc(ws: seq<Word>, w: Word)
    requires ws != []
    ensures Line(ws + [w]) == Line(ws) + " " + Print(w)
  {
    assert (ws + [w])[1..] == ws[1..] + [w];
    SeparatedConcat(ws[1..], [w], " ");
    SeparatedOne(w, " ");
    Glue(Print(ws[0]) + Separated(ws[1..], " "), " ", Print(w), []);
  }

  lemma SeparatedOne(w: Word, sep: string)
    ensures Separated([w], sep) == sep + Print(w)
  {
    assert [w][1..] == [];
    Glue(sep + Print(w), [], [], []);
  }

  lemma BareSnoc(ws: seq<Word>, texts: seq<string>, t: string)
    requires ws + Bares(texts) != []
    ensures Line(ws + Bares(texts + [t])) == Line(ws + Bares(texts)) + " " + t
  {
    assert ws + Bares(texts + [t]) == ws + Bares(texts) + [[Bare(t)]];
    LineSnoc(ws + Bares(texts), [Bare(t)]);
    PrintOne(Bare(t));
  }

  lemma WholeLine(ws: seq<Word>)
    requires ws != []
    ensures PrintCommand(ws, []) == Line(ws)
  {
    Glue(Line(ws), [], [], []);
  }

  lemma Literals()
    ensures "restic" + " " + "backup" == "restic backup"
    ensures " " + "--retry-lock=" == " --retry-lock="
    ensures " " + "--tag=" == " --tag="
    ensures " " + "--secret-mount=" == " --secret-mount="
    ensures " " + "--database=" == " --database="
    ensures "restic" + " " + "forget" + " " + "--prune" == "restic forget --prune"
  {
  }

  lemma DumpLiteral()
    ensures " " + "--stdin-from-command" + " " + "--" + " " + "dumpdb" + " " == " --stdin-from-command -- dumpdb "
  {
  }

  /** The retry-lock flag, with its leading space, extends a line by the retry-lock word. */
  lemma LockText(texts: seq<string>, lock: Option<Duration>)
    requires texts != []
    ensures Line(Bares(texts + LockWords(lock))) == Line(Bares(texts)) + RetryLockFlag(lock)
  {
    if LockWords(lock) == [] {
      assert texts + LockWords(lock) == texts;
      Glue(Line(Bares(texts)), [], [], []);
    } else {
      var d := lock.value.text;
      assert [] + Bares(texts) == Bares(texts);
      assert [] + Bares(texts + LockWords(lock)) == Bares(texts + LockWords(lock));
      BareSnoc([], texts, "--retry-lock=" + d);
      Literals();
      Glue([], " ", "--retry-lock=", d);
      Glue(Line(Bares(texts)), " ", "--retry-lock=", d);
      Glue(Line(Bares(texts)), " --retry-lock=", d, []);
    }
  }

  lemma StartText(src: Source, lock: Option<Duration>)
    ensures Line(Bares(StartWords(src, lock)))
         == "restic backup" + RetryLockFlag(lock) + " --tag=" + src.EffectiveTag()
  {
    var two := ["restic", "backup"];
    assert Line(Bares(two)) == "restic backup" by {
      assert [] + Bares(two) == Bares(two) && [] + Bares(["restic"]) == Bares(["restic"]);
      BareSnoc([], ["restic"], "backup");
      assert ["restic"] + ["backup"] == two;
      PrintOne(Bare("restic"));
      assert Bares(["restic"])[1..] == [];
      Glue("restic", [], [], []);
      Literals();
    }
    LockText(two, lock);
    var start := two + LockWords(lock);
    assert [] + Bares(start) == Bares(start);
    assert [] + Bares(StartWords(src, lock)) == Bares(StartWords(src, lock));
    BareSnoc([], start, "--tag=" + src.EffectiveTag());
    Literals();
    Glue("restic backup" + RetryLockFlag(lock), " ", "--tag=", src.EffectiveTag());
  }

  lemma FilesLine(src: Source, lock: Option<Duration>)
    requires src.kind.Files?
    ensures Line(HeadWords(src, lock, true))
         == Line(Bares(StartWords(src, lock))) + " " + ShellQuoteIfNeeded(src.EffectivePath())
    ensures Separated(ExcludeWords([]), BREAK) == []
    ensures Line(HeadWords(src, lock, true)) + [] == Line(HeadWords(src, lock, true))
  {
    var path := IfNeeded(src.EffectivePath());
    LineSnoc(Bares(StartWords(src, lock)), [path]);
    PrintOne(path);
    Glue(Line(HeadWords(src, lock, true)), [], [], []);
  }

  lemma ExcludeSnoc(exclude: seq<string>, i: nat, line: string)
    requires i < |exclude|
    ensures line + Separated(ExcludeWords(exclude[..i]), BREAK) + " \\\n" + ("  --exclude=" + ShellQuote(exclude[i]))
         == line + Separated(ExcludeWords(exclude[..i + 1]), BREAK)
  {
    var w := ExcludeWord(exclude[i]);
    assert ExcludeWords(exclude[..i + 1]) == ExcludeWords(exclude[..i]) + [w];
    SeparatedConcat(ExcludeWords(exclude[..i]), [w], BREAK);
    SeparatedOne(w, BREAK);
    PrintTwo(Bare("--exclude="), Quoted(exclude[i]));
    BreakText(line + Separated(ExcludeWords(exclude[..i]), BREAK), ShellQuote(exclude[i]));
    Glue(line, Separated(ExcludeWords(exclude[..i]), BREAK), Separated([w], BREAK), []);
  }

  lemma BreakText(x: string, q: string)
    ensures x + " \\\n" + ("  --exclude=" + q) == x + (BREAK + ("--exclude=" + q))
  {
    assert "  " + "--exclude=" == "  --exclude=";
    assert " \\\n" + "  " == BREAK;
    assert " \\\n" + ("  --exclude=" + q) == BREAK + ("--exclude=" + q) by {
      Glue(" \\\n", "  ", "--exclude=", q);
      Glue(" \\\n", "  --exclude=", q, []);
      Glue(BREAK, "--exclude=", q, []);
    }
    Glue(x, " \\\n", "  --exclude=" + q, []);
  }

  lemma DumpText(src: Source, lock: Option<Duration>)
    ensures Line(Bares(StartWords(src, lock)) + Bares(DumpWords(src.kind)) + Bares(MountWords(true)))
         == Line(Bares(StartWords(src, lock))) + " --stdin-from-command -- dumpdb " + src.kind.Name()
          + " --secret-mount=" + DB_SECRET_MOUNT_PATH
  {
    var ws := Bares(StartWords(src, lock));
    var x := Line(ws);
    var a, b, c, k := "--stdin-from-command", "--", "dumpdb", src.kind.Name();
    assert ws + Bares([]) == ws;
    assert [] + [a] == [a] && [a] + [b] == [a, b] && [a, b] + [c] == [a, b, c] && [a, b, c] + [k] == [a, b, c, k];
    BareSnoc(ws, [], a);
    BareSnoc(ws, [a], b);
    BareSnoc(ws, [a, b], c);
    BareSnoc(ws, [a, b, c], k);
    FourWords(x, a, b, c, k);
    DumpLiteral();
    var ws2 := ws + Bares(DumpWords(src.kind));
    assert ws2 + Bares([]) == ws2;
    assert [] + MountWords(true) == MountWords(true);
    BareSnoc(ws2, [], "--secret-mount=" + DB_SECRET_MOUNT_PATH);
    Literals();
    Glue(Line(ws2), " ", "--secret-mount=", DB_SECRET_MOUNT_PATH);
  }

  lemma FourWords(x: string, a: string, b: string, c: string, k: string)
    ensures x + " " + a + " " + b + " " + c + " " + k == x + (" " + a + " " + b + " " + c + " ") + k
  {
  }

  lemma DatabaseLine(ws: seq<Word>, database: string)
    requires ws != []
    ensures Line(ws + DatabaseWords(database))
         == if database == [] then Line(ws) else Line(ws) + " --database=" + ShellQuoteIfNeeded(database)
  {
    if database == [] {
      assert ws + [] == ws;
    } else {
      var w := DatabaseWords(database)[0];
      LineSnoc(ws, w);
      PrintTwo(Bare("--database="), IfNeeded(database));
      Literals();
      Glue(Line(ws), " ", "--database=", ShellQuoteIfNeeded(database));
    }
  }

  lemma ExtraLine(ws: seq<Word>, args: seq<string>)
    requires ws != []
    ensures PrintCommand(ws + Bares(ExtraWords(args)), [])
         == if args == [] then Line(ws) else Line(ws) + " --" + ExtraText(args)
  {
    WholeLine(ws + Bares(ExtraWords(args)));
    if args == [] {
      assert ws + Bares([]) == ws;
    } else {
      ExtraArgsLine(ws, args);
    }
  }

  lemma {:induction false} ExtraArgsLine(ws: seq<Word>, args: seq<string>)
    requires ws != []
    ensures Line(ws + Bares(["--"] + args)) == Line(ws) + " --" + ExtraText(args)
  {
    if args == [] {
      assert ws + Bares([]) == ws && [] + ["--"] == ["--"] + args;
      BareSnoc(ws, [], "--");
      assert " " + "--" == " --";
      Glue(Line(ws), " ", "--", []);
      Glue(Line(ws) + " --", [], [], []);
    } else {
      var init, last := args[..|args| - 1], args[|args| - 1];
      ExtraArgsLine(ws, init);
      BareSnoc(ws, ["--"] + init, last);
      assert ["--"] + init + [last] == ["--"] + args;
      Glue(Line(ws) + " --", ExtraText(init), " " + last, []);
      Glue(Line(ws) + " --" + ExtraText(init), " ", last, []);
    }
  }

  lemma HeadShape(src: Source, lock: Option<Duration>)
    requires src.kind.IsDatabase()
    ensures Bares(StartWords(src, lock)) + Bares(DumpWords(src.kind)) + Bares(MountWords(true))
          + DatabaseWords(src.database) + Bares(ExtraWords(src.extraArgs))
         == HeadWords(src, lock, true)
  {
  }

  lemma {:induction false} LineOfBares(texts: seq<string>)
    requires texts != []
    ensures Line(Bares(texts)) == Join(texts, " ")
  {
    PrintOne(Bare(texts[0]));
    if |texts| == 1 {
      assert Bares(texts)[1..] == [];
      Glue(texts[0], [], [], []);
    } else {
      LineOfBares(texts[1..]);
      assert Bares(texts)[1..] == Bares(texts[1..]);
      Glue(texts[0], " ", Line(Bares(texts[1..])), []);
      Glue(" ", Print(Bares(texts[1..])[0]), Separated(Bares(texts[1..])[1..], " "), []);
    }
  }

  lemma {:induction false} JoinConcat(a: seq<string>, b: seq<string>, sep: string)
    requires a != [] && b != []
    ensures Join(a + b, sep) == Join(a, sep) + sep + Join(b, sep)
  {
    if |a| == 1 {
      assert (a + b)[1..] == b;
    } else {
      assert (a + b)[1..] == a[1..] + b;
      JoinConcat(a[1..], b, sep);
      Glue(a[0] + sep, Join(a[1..], sep), sep, Join(b, sep));
      Glue(a[0] + sep, Join(a[1..], sep) + sep, Join(b, sep), []);
    }
  }

  lemma JoinEmpty(words: seq<string>)
    requires words != [] ==> words[0] != []
    ensures Join(words, " ") == [] <==> words == []
  {
  }

  lemma ForgetLine(lock: Option<Duration>, flags: seq<string>)
    requires flags != []
    ensures Join(["restic", "forget", "--prune"] + LockWords(lock) + flags, " ")
         == "restic forget --prune" + RetryLockFlag(lock) + " " + Join(flags, " ")
  {
    var three := ["restic", "forget", "--prune"];
    assert Join(three, " ") == "restic forget --prune" by {
      assert ["restic"] + ["forget"] == ["restic", "forget"] && ["restic", "forget"] + ["--prune"] == three;
      JoinSnoc(["restic"], "forget", " ");
      JoinSnoc(["restic", "forget"], "--prune", " ");
      Literals();
    }
    LineOfBares(three);
    LockText(three, lock);
    LineOfBares(three + LockWords(lock));
    JoinConcat(three + LockWords(lock), flags, " ");
  }

  lemma UnlinesSnoc(lines: seq<string>, line: string)
    ensures Unlines(lines + [line]) == Unlines(lines) + line + "\n"
  {
    UnlinesConcat(lines, [line]);
    assert [line][1..] == [];
    Glue(Unlines(lines), line, "\n", []);
    Glue(line + "\n", [], [], []);
  }

  lemma TwoMoreLines(lines: seq<string>, a: string, b: string)
    ensures Unlines(lines + [a, b]) == Unlines(lines) + a + "\n" + b + "\n"
  {
    assert lines + [a, b] == lines + [a] + [b];
    UnlinesSnoc(lines, a);
    UnlinesSnoc(lines + [a], b);
  }

  lemma ScriptLines(pre: seq<string>, texts: seq<string>, forget: seq<string>, post: string)
    ensures Unlines(pre + texts + (if forget == [] then [] else [Join(forget, " ")]) + [post])
         == Unlines(pre) + Unlines(texts) + (if forget == [] then [] else Join(forget, " ") + "\n") + post + "\n"
  {
    UnlinesConcat(pre, texts);
    var lines := pre + texts;
    if forget == [] {
      assert lines + [] == lines;
      UnlinesSnoc(lines, post);
      Glue(Unlines(lines), [], [], []);
    } else {
      UnlinesSnoc(lines, Join(forget, " "));
      UnlinesSnoc(lines + [Join(forget, " ")], post);
      Glue(Unlines(lines), Join(forget, " "), "\n", []);
    }
  }

  lemma OneMoreSource(sources: seq<Source>, i: nat, lock: Option<Duration>, mount: bool)
    requires i < |sources| && SourceTexts(sources[..i], lock, mount).Ok?
    ensures SourceTexts(sources[..i + 1], lock, mount)
      == match SourceText(sources[i], lock, mount)
         case Err(e) => Err(e)
         case Ok(text) => Ok(SourceTexts(sources[..i], lock, mount).value + [text])
  {
    assert sources[..i + 1][..i] == sources[..i];
  }

  lemma {:induction false} FirstError(sources: seq<Source>, n: nat, lock: Option<Duration>, mount: bool)
    requires n <= |sources|
    requires SourceTexts(sources[..n], lock, mount).Err?
    ensures SourceTexts(sources, lock, mount) == SourceTexts(sources[..n], lock, mount)
    decreases |sources|
  {
    if n < |sources| {
      var init := sources[..|sources| - 1];
      assert init[..n] == sources[..n];
      FirstError(init, n, lock, mount);
    } else {
      assert sources[..n] == sources;
    }
  }
}
