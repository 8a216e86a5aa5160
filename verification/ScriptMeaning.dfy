/** What a POSIX shell makes of the rendered script: exactly the intended argument lists. */
module ScriptMeaning {
  import opened Outcomes
  import opened Text
  import opened Shell
  import opened Backup
  import opened Script

  /**
   What the API server admits, with extra arguments that are plain words: the program prints
   those unquoted, so that others mean whatever the user's shell text says.
   */
  predicate Admitted(src: Source) {
    && TagAdmitted(src.tag)
    && !src.kind.Unknown?
    && (src.kind.IsDatabase() ==> forall i :: 0 <= i < |src.extraArgs| ==> SafeBare(src.extraArgs[i]))
  }

  /** A retry lock in force is printed as a Go duration. */
  predicate PlainLock(lock: Option<Duration>) {
    lock.Some? && lock.value.nanos > 0 ==> DurationText(lock.value.text)
  }

  predicate AdmittedSpec(spec: Spec) {
    && spec.script == []
    && PlainLock(spec.retryLock)
    && forall i :: 0 <= i < |spec.sources| ==> Admitted(spec.sources[i])
  }

  /** The argument list the backup of one source is meant to run with. */
  function IntendedArgs(src: Source, lock: Option<Duration>, mount: bool): seq<string> {
    StartWords(src, lock)
    + (if src.kind.Files? then
         [src.EffectivePath()] + seq(|src.exclude|, i requires 0 <= i < |src.exclude| => "--exclude=" + src.exclude[i])
       else
         DumpWords(src.kind) + MountWords(mount)
         + (if src.database == [] then [] else ["--database=" + src.database])
         + ExtraWords(src.extraArgs))
  }

  function IntendedSources(sources: seq<Source>, lock: Option<Duration>): seq<seq<string>> {
    seq(|sources|, i requires 0 <= i < |sources| => IntendedArgs(sources[i], lock, true))
  }

  /** The commands a run is meant to execute after the preamble, in order. */
  function IntendedCommands(spec: Spec): seq<seq<string>> {
    var forget := ForgetWords(spec.retention, spec.retryLock);
    IntendedSources(spec.sources, spec.retryLock)
    + (if forget == [] then [] else [forget])
    + [["restic", "cache", "--cleanup"]]
  }

  // ----- bare texts

  /** The characters of the words that the program prints unquoted. */
  predicate WordChar(c: char) {
    SafeChar(c) || c == '\U{B5}'
  }

  predicate Plain(t: string) {
    t != [] && forall i :: 0 <= i < |t| ==> WordChar(t[i])
  }

  predicate AllPlain(texts: seq<string>) {
    forall i :: 0 <= i < |texts| ==> Plain(texts[i])
  }

  lemma PlainBares(texts: seq<string>)
    requires AllPlain(texts)
    ensures Printable(Bares(texts))
    ensures Values(Bares(texts)) == texts
  {
    forall i | 0 <= i < |texts| ensures PrintableWord(Bares(texts)[i]) && Value(Bares(texts)[i]) == texts[i] {
      assert Plain(texts[i]);
      assert forall j :: 0 <= j < |texts[i]| ==> WordChar(texts[i][j]) && Ordinary(texts[i][j]);
      PrintOne(Bare(texts[i]));
    }
  }

  lemma PlainPiece(t: string)
    requires Plain(t)
    ensures PrintableWord([Bare(t)])
  {
    assert forall j :: 0 <= j < |t| ==> WordChar(t[j]) && Ordinary(t[j]);
  }

  lemma PlainConcat(a: string, b: string)
    requires Plain(a) && Plain(b)
    ensures Plain(a + b)
  {
  }

  lemma ShortWordsPlain()
    ensures Plain("restic") && Plain("backup") && Plain("forget") && Plain("cache")
    ensures Plain("--") && Plain("dumpdb") && Plain("cnpg") && Plain("mariadb") && Plain("files") && Plain("db")
  {
  }

  lemma FlagsPlain()
    ensures Plain("--tag=") && Plain("--keep-") && Plain("=") && Plain("--prune") && Plain("--cleanup")
  {
  }

  lemma LongFlagsPlain()
    ensures Plain("--retry-lock=") && Plain("--database=") && Plain("--exclude=")
  {
  }

  lemma StdinFlagPlain()
    ensures Plain("--stdin-from-command")
  {
  }

  lemma MountPlain(mount: bool)
    ensures AllPlain(MountWords(mount))
  {
    assert Plain("--secret-mount=");
    PathPlain();
    PlainConcat("--secret-mount=", DB_SECRET_MOUNT_PATH);
  }

  lemma PathPlain()
    ensures Plain(DB_SECRET_MOUNT_PATH)
  {
    var a, b := "/var/run/secrets", "/borgbase/database";
    assert a + b == DB_SECRET_MOUNT_PATH;
    PlainConcat(a, b);
  }

  lemma StartPlain(src: Source, lock: Option<Duration>)
    requires TagAdmitted(src.tag) && PlainLock(lock)
    ensures AllPlain(LockWords(lock)) && AllPlain(StartWords(src, lock))
  {
    ShortWordsPlain();
    FlagsPlain();
    LongFlagsPlain();
    forall i | 0 <= i < |src.tag| ensures WordChar(src.tag[i]) {
      assert TagChar(src.tag[i]);
    }
    PlainConcat("--tag=", src.EffectiveTag());
    if LockWords(lock) != [] {
      var d := lock.value.text;
      forall i | 0 <= i < |d| ensures WordChar(d[i]) {
        assert DurationChar(d[i]);
      }
      PlainConcat("--retry-lock=", d);
    }
  }

  lemma SafeIsPlain(t: string)
    requires SafeBare(t)
    ensures Plain(t)
  {
    forall i | 0 <= i < |t| ensures WordChar(t[i]) {
      assert SafeChar(t[i]);
    }
  }

  lemma DumpPlain(src: Source)
    requires src.kind.IsDatabase() && Admitted(src)
    ensures AllPlain(DumpWords(src.kind)) && AllPlain(ExtraWords(src.extraArgs))
  {
    ShortWordsPlain();
    StdinFlagPlain();
    forall i | 0 <= i < |src.extraArgs| ensures Plain(src.extraArgs[i]) {
      SafeIsPlain(src.extraArgs[i]);
    }
  }

  // ----- commands

  lemma PrintableConcat(a: seq<Word>, b: seq<Word>)
    requires Printable(a) && Printable(b)
    ensures Printable(a + b)
  {
  }

  lemma DatabaseMeaning(database: string)
    ensures Printable(DatabaseWords(database))
    ensures Values(DatabaseWords(database)) == if database == [] then [] else ["--database=" + database]
  {
    if database != [] {
      LongFlagsPlain();
      PlainPiece("--database=");
      PrintTwo(Bare("--database="), IfNeeded(database));
      assert PrintableWord([IfNeeded(database)]);
      assert IfNeeded(database) in [IfNeeded(database)];
    }
  }

  lemma ExcludeMeaning(exclude: seq<string>)
    ensures Printable(ExcludeWords(exclude))
    ensures Values(ExcludeWords(exclude)) == seq(|exclude|, i requires 0 <= i < |exclude| => "--exclude=" + exclude[i])
  {
    LongFlagsPlain();
    PlainPiece("--exclude=");
    forall i | 0 <= i < |exclude|
      ensures PrintableWord(ExcludeWords(exclude)[i]) && Value(ExcludeWords(exclude)[i]) == "--exclude=" + exclude[i]
    {
      PrintTwo(Bare("--exclude="), Quoted(exclude[i]));
    }
  }

  lemma FilesWordsMean(src: Source, lock: Option<Duration>, mount: bool)
    requires Admitted(src) && PlainLock(lock) && src.kind.Files?
    ensures Printable(HeadWords(src, lock, mount)) && Printable(TailWords(src))
    ensures Values(HeadWords(src, lock, mount)) + Values(TailWords(src)) == IntendedArgs(src, lock, mount)
  {
    var start := Bares(StartWords(src, lock));
    StartPlain(src, lock);
    PlainBares(StartWords(src, lock));
    var path := [IfNeeded(src.EffectivePath())];
    PrintOne(path[0]);
    PrintableConcat(start, [path]);
    ValuesConcat(start, [path]);
    assert Values([path]) == [src.EffectivePath()];
    ExcludeMeaning(src.exclude);
  }

  lemma DumpWordsMean(src: Source, lock: Option<Duration>, mount: bool)
    requires Admitted(src) && PlainLock(lock) && src.kind.IsDatabase()
    ensures Printable(HeadWords(src, lock, mount)) && Printable(TailWords(src))
    ensures Values(HeadWords(src, lock, mount)) == IntendedArgs(src, lock, mount)
  {
    StartPlain(src, lock);
    DumpPlain(src);
    MountPlain(mount);
    PlainBares(StartWords(src, lock));
    PlainBares(DumpWords(src.kind));
    PlainBares(MountWords(mount));
    PlainBares(ExtraWords(src.extraArgs));
    DatabaseMeaning(src.database);
    FiveParts(Bares(StartWords(src, lock)), Bares(DumpWords(src.kind)), Bares(MountWords(mount)),
              DatabaseWords(src.database), Bares(ExtraWords(src.extraArgs)));
  }

  /** The words behind a source's text are printable and stand for the intended arguments. */
  lemma SourceWordsMean(src: Source, lock: Option<Duration>, mount: bool)
    requires Admitted(src) && PlainLock(lock)
    ensures Printable(HeadWords(src, lock, mount)) && Printable(TailWords(src))
    ensures Values(HeadWords(src, lock, mount) + TailWords(src)) == IntendedArgs(src, lock, mount)
  {
    ValuesConcat(HeadWords(src, lock, mount), TailWords(src));
    if src.kind.Files? {
      FilesWordsMean(src, lock, mount);
    } else {
      DumpWordsMean(src, lock, mount);
      assert HeadWords(src, lock, mount) + [] == HeadWords(src, lock, mount);
    }
  }

  lemma FiveParts(a: seq<Word>, b: seq<Word>, c: seq<Word>, d: seq<Word>, e: seq<Word>)
    requires Printable(a) && Printable(b) && Printable(c) && Printable(d) && Printable(e)
    ensures Printable(a + (b + c + d + e))
    ensures Values(a + (b + c + d + e)) == Values(a) + (Values(b) + Values(c) + Values(d) + Values(e))
  {
    ValuesConcat(a, b + c + d + e);
    ValuesConcat(b + c + d, e);
    ValuesConcat(b + c, d);
    ValuesConcat(b, c);
  }

  lemma DecIntPlain(n: int)
    ensures Plain(DecInt(n))
  {
    var digits := Dec(if n < 0 then -n else n);
    forall i | 0 <= i < |digits| ensures WordChar(digits[i]) {
      assert IsDigit(digits[i]);
    }
  }

  lemma KeepFlagPlain(unit: (string, Option<int32>))
    requires Plain(unit.0)
    ensures AllPlain(KeepFlag(unit))
  {
    FlagsPlain();
    if unit.1.Some? {
      DecIntPlain(unit.1.value);
      PlainConcat("--keep-", unit.0);
      PlainConcat("--keep-" + unit.0, "=");
      PlainConcat("--keep-" + unit.0 + "=", DecInt(unit.1.value));
    }
  }

  lemma {:induction false} KeepFlagsPlain(units: seq<(string, Option<int32>)>)
    requires forall i :: 0 <= i < |units| ==> Plain(units[i].0)
    ensures AllPlain(KeepFlags(units))
  {
    if units != [] {
      KeepFlagsPlain(units[..|units| - 1]);
      KeepFlagPlain(units[|units| - 1]);
    }
  }

  lemma UnitsPlain(r: Retention)
    ensures forall i :: 0 <= i < |RetentionUnits(r)| ==> Plain(RetentionUnits(r)[i].0)
  {
    assert Plain("last") && Plain("hourly") && Plain("daily");
    assert Plain("weekly") && Plain("monthly") && Plain("yearly");
  }

  lemma ForgetPlain(r: Option<Retention>, lock: Option<Duration>)
    requires PlainLock(lock)
    ensures AllPlain(ForgetWords(r, lock))
  {
    if ForgetWords(r, lock) != [] {
      ShortWordsPlain();
      FlagsPlain();
      StartPlain(Source(Files, [], [], [], [], []), lock);
      UnitsPlain(r.value);
      KeepFlagsPlain(RetentionUnits(r.value));
    }
  }

  // ----- the whole script

  function Fresh(done: seq<seq<string>>): Lexer {
    Reading(Outside, None, [], done)
  }

  /** A line of plain words is one command. */
  lemma PlainLineLexes(texts: seq<string>, done: seq<seq<string>>)
    requires texts != [] && AllPlain(texts)
    ensures Lex(Join(texts, " ") + "\n", Fresh(done)) == Fresh(done + [texts])
  {
    PlainBares(texts);
    LineOfBares(texts);
    WholeLine(Bares(texts));
    LexCommandLine(Bares(texts), [], done);
    assert Bares(texts) + [] == Bares(texts);
  }

  /** The text of a source is one command, with the intended arguments. */
  lemma SourceLexes(src: Source, lock: Option<Duration>, done: seq<seq<string>>)
    requires Admitted(src) && PlainLock(lock)
    ensures SourceText(src, lock, true).Ok?
    ensures Lex(SourceText(src, lock, true).value + "\n", Fresh(done)) == Fresh(done + [IntendedArgs(src, lock, true)])
  {
    SourceWordsMean(src, lock, true);
    LexCommandLine(HeadWords(src, lock, true), TailWords(src), done);
  }

  lemma IntendedSnoc(sources: seq<Source>, lock: Option<Duration>)
    requires sources != []
    ensures var n := |sources| - 1;
      IntendedSources(sources[..n], lock) + [IntendedArgs(sources[n], lock, true)] == IntendedSources(sources, lock)
  {
  }

  lemma {:induction false} SourcesLex(sources: seq<Source>, lock: Option<Duration>)
    requires PlainLock(lock)
    requires forall i :: 0 <= i < |sources| ==> Admitted(sources[i])
    ensures SourceTexts(sources, lock, true).Ok?
    ensures Lex(Unlines(SourceTexts(sources, lock, true).value), Fresh([])) == Fresh(IntendedSources(sources, lock))
  {
    if sources != [] {
      var n := |sources| - 1;
      var init, src := sources[..n], sources[n];
      SourcesLex(init, lock);
      var texts := SourceTexts(init, lock, true).value;
      var text := SourceText(src, lock, true).value;
      UnlinesSnoc(texts, text);
      Glue(Unlines(texts), text, "\n", []);
      LexConcat(Unlines(texts), text + "\n", Fresh([]));
      SourceLexes(src, lock, IntendedSources(init, lock));
      IntendedSnoc(sources, lock);
    }
  }

  /** The texts of a script after its preamble. */
  function BodyTexts(spec: Spec, mount: bool): seq<string>
    requires SourceTexts(spec.sources, spec.retryLock, mount).Ok?
  {
    SourceTexts(spec.sources, spec.retryLock, mount).value
    + ForgetTexts(spec.retention, spec.retryLock)
    + [POSTAMBLE]
  }

  /**
   The rendered script is the preamble followed by a text in which the shell reads exactly the
   intended commands: every path, exclude pattern and database name arrives as one word with
   its original characters, quotes, blanks and newlines included.
   */
  lemma ScriptRunsIntendedCommands(spec: Spec)
    requires AdmittedSpec(spec)
    ensures SourceTexts(spec.sources, spec.retryLock, true).Ok?
    ensures ScriptText(spec, true) == Ok(Unlines(PREAMBLE) + Unlines(BodyTexts(spec, true)))
    ensures Commands(Unlines(BodyTexts(spec, true))) == Some(IntendedCommands(spec))
  {
    SourcesLex(spec.sources, spec.retryLock);
    BodyAfterPreamble(spec);
    BodyLexes(spec);
  }

  lemma Behind(pre: seq<string>, texts: seq<string>, forget: seq<string>, post: string)
    ensures Unlines(pre + texts + forget + [post]) == Unlines(pre) + Unlines(texts + forget + [post])
  {
    assert pre + texts + forget + [post] == pre + (texts + forget + [post]);
    UnlinesConcat(pre, texts + forget + [post]);
  }

  lemma BodyAfterPreamble(spec: Spec)
    requires spec.script == [] && SourceTexts(spec.sources, spec.retryLock, true).Ok?
    ensures ScriptText(spec, true) == Ok(Unlines(PREAMBLE) + Unlines(BodyTexts(spec, true)))
  {
    Behind(PREAMBLE, SourceTexts(spec.sources, spec.retryLock, true).value, ForgetTexts(spec.retention, spec.retryLock),
      POSTAMBLE);
  }

  lemma BodyLexes(spec: Spec)
    requires AdmittedSpec(spec) && SourceTexts(spec.sources, spec.retryLock, true).Ok?
    ensures Commands(Unlines(BodyTexts(spec, true))) == Some(IntendedCommands(spec))
  {
    var lock := spec.retryLock;
    SourcesLex(spec.sources, lock);
    var texts := SourceTexts(spec.sources, lock, true).value;
    var forget := ForgetTexts(spec.retention, lock);
    UnlinesConcat(texts + forget, [POSTAMBLE]);
    UnlinesConcat(texts, forget);
    LexConcat(Unlines(texts) + Unlines(forget), Unlines([POSTAMBLE]), Fresh([]));
    LexConcat(Unlines(texts), Unlines(forget), Fresh([]));
    var done := IntendedSources(spec.sources, lock);
    ForgetLexes(spec.retention, lock, done);
    var words := ForgetWords(spec.retention, lock);
    PostambleLexes(done + if words == [] then [] else [words]);
  }

  lemma ForgetLexes(r: Option<Retention>, lock: Option<Duration>, done: seq<seq<string>>)
    requires PlainLock(lock)
    ensures var words := ForgetWords(r, lock);
      Lex(Unlines(ForgetTexts(r, lock)), Fresh(done)) == Fresh(done + if words == [] then [] else [words])
  {
    var words := ForgetWords(r, lock);
    if words == [] {
      assert done + [] == done;
    } else {
      ForgetPlain(r, lock);
      PlainLineLexes(words, done);
      UnlinesOne(Join(words, " "));
    }
  }

  lemma UnlinesOne(t: string)
    ensures Unlines([t]) == t + "\n"
  {
    assert [t][1..] == [];
    Glue(t + "\n", [], [], []);
  }

  lemma PostambleWords()
    ensures Join(["restic", "cache", "--cleanup"], " ") == POSTAMBLE
  {
    var words := ["restic", "cache", "--cleanup"];
    assert words[1..] == ["cache", "--cleanup"] && words[1..][1..] == ["--cleanup"];
    assert Join(words[1..], " ") == "cache" + " " + "--cleanup";
    assert "restic" + " " + ("cache" + " " + "--cleanup") == POSTAMBLE;
  }

  lemma PostambleLexes(done: seq<seq<string>>)
    ensures Lex(Unlines([POSTAMBLE]), Fresh(done)) == Fresh(done + [["restic", "cache", "--cleanup"]])
  {
    var words := ["restic", "cache", "--cleanup"];
    assert AllPlain(words) by {
      ShortWordsPlain();
      FlagsPlain();
    }
    PlainLineLexes(words, done);
    UnlinesOne(POSTAMBLE);
    PostambleWords();
  }
}
