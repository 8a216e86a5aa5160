/** corg migrate followed by corg parity: what a supported hand-written backup is compared as. */
module Parity {
  import opened Outcomes
  import opened Text
  import opened Mapping
  import opened Shell
  import opened Backup
  import opened Script
  import opened ScriptMeaning
  import opened ScriptParser
  import opened ReadBack
  import opened ArgsReading
  import opened SourceReading
  import opened RoundTrip
  import opened Normalize
  import opened Schedule
  import opened Cadence
  import opened Migration

  // ----- hand-written backups

  /** Which patterns the author of a backup left unquoted. */
  type Style = string -> bool

  function HandExclude(pattern: string, bare: Style): Word {
    if bare(pattern) && SafeBare(pattern) then [Bare(EXCLUDE), Bare(pattern)] else ExcludeWord(pattern)
  }

  function HandPatterns(exclude: seq<string>, bare: Style): seq<Word> {
    seq(|exclude|, i requires 0 <= i < |exclude| => HandExclude(exclude[i], bare))
  }

  function HandTail(src: Source, bare: Style): seq<Word> {
    if src.kind.Files? then HandPatterns(src.exclude, bare) else []
  }

  /** The commands of a hand-written backup: no retry lock, no mount flag, patterns quoted or not. */
  function HandCommand(src: Source, bare: Style): Command {
    Command(HeadWords(src, None, false), HandTail(src, bare))
  }

  function HandCommandOf(bare: Style): Source -> Command {
    src => HandCommand(src, bare)
  }

  function HandCommands(sources: seq<Source>, bare: Style): seq<Command> {
    Mapped(HandCommandOf(bare), sources)
  }

  /** What the API server admits, with no newline in the texts that get printed. */
  predicate OneLineSpec(spec: Spec) {
    && AdmittedSpec(spec)
    && forall i :: 0 <= i < |spec.sources| ==> OneLine(spec.sources[i])
  }

  predicate AllClean(spec: Spec) {
    forall i :: 0 <= i < |spec.sources| ==> Clean(spec.sources[i])
  }

  predicate Supported(spec: Spec) {
    AdmittedSpec(spec) && AllClean(spec)
  }

  lemma HandTailTidy(src: Source, bare: Style)
    requires Admitted(src) && OneLine(src)
    ensures Tidy(HandTail(src, bare))
    ensures Unquoted(src) ==> Readable(HandTail(src, bare))
  {
    LongFlagsPlain();
    PlainIsBare(EXCLUDE);
    if src.kind.Files? {
      forall i | 0 <= i < |src.exclude|
        ensures TidyWord(HandExclude(src.exclude[i], bare))
        ensures Unquoted(src) ==> ReadableWord(HandExclude(src.exclude[i], bare))
      {
        if SafeBare(src.exclude[i]) {
          SafeIsPlain(src.exclude[i]);
          PlainIsBare(src.exclude[i]);
        }
      }
    }
  }

  lemma HandTailValues(src: Source, bare: Style)
    ensures Values(HandTail(src, bare)) == Values(TailWords(src))
  {
    if src.kind.Files? {
      forall i | 0 <= i < |src.exclude|
        ensures Value(HandExclude(src.exclude[i], bare)) == Value(ExcludeWord(src.exclude[i]))
      {
        PrintTwo(Bare(EXCLUDE), Bare(src.exclude[i]));
        PrintTwo(Bare(EXCLUDE), Quoted(src.exclude[i]));
      }
    }
  }

  lemma HandTidy(sources: seq<Source>, bare: Style)
    requires forall i :: 0 <= i < |sources| ==> Admitted(sources[i]) && OneLine(sources[i])
    ensures TidyCommands(HandCommands(sources, bare))
  {
    forall i | 0 <= i < |sources| ensures TidyCommand(HandCommands(sources, bare)[i]) {
      HandTailTidy(sources[i], bare);
      if sources[i].kind.Files? {
        FilesTidy(sources[i], None, false);
      } else {
        DumpTidy(sources[i], None, false);
      }
    }
  }

  /** The script of a hand-written backup. */
  function HandScript(spec: Spec, bare: Style): string
    requires OneLineSpec(spec)
  {
    HandTidy(spec.sources, bare);
    WholeScript(HandCommands(spec.sources, bare), ForgetTexts(spec.retention, None))
  }

  // ----- migrate reads it

  function HandLine(src: Source, bare: Style): string {
    Line(HeadWords(src, None, false) + HandTail(src, bare))
  }

  function HandLineOf(bare: Style): Source -> string {
    src => HandLine(src, bare)
  }

  function HandLines(sources: seq<Source>, bare: Style): seq<string> {
    Mapped(HandLineOf(bare), sources)
  }

  lemma LastHand(sources: seq<Source>, bare: Style)
    requires sources != []
    ensures var n := |sources| - 1; var c := HandCommands(sources, bare)[n];
      Line(c.head + c.tail) == HandLine(sources[n], bare) && c == HandCommand(sources[n], bare)
  {
  }

  lemma {:induction false} HandLogical(sources: seq<Source>, bare: Style)
    requires TidyCommands(HandCommands(sources, bare))
    ensures Logical(HandCommands(sources, bare)) == HandLines(sources, bare)
  {
    if sources != [] {
      var n := |sources| - 1;
      HandInit(sources, bare);
      LastCommand(HandCommands(sources, bare));
      LastHand(sources, bare);
      HandLogical(sources[..n], bare);
    }
  }

  lemma HandInit(sources: seq<Source>, bare: Style)
    requires sources != []
    ensures var n := |sources| - 1;
      && HandCommands(sources, bare)[..n] == HandCommands(sources[..n], bare)
      && HandLines(sources, bare) == HandLines(sources[..n], bare) + [HandLine(sources[n], bare)]
  {
    MappedInit(HandCommandOf(bare), sources);
    MappedInit(HandLineOf(bare), sources);
  }

  lemma HandArgs(src: Source, bare: Style)
    requires Admitted(src) && OneLine(src) && Unquoted(src)
    ensures Args(HandLine(src, bare)) == IntendedArgs(src, None, false)
  {
    var head, tail := HeadWords(src, None, false), HandTail(src, bare);
    HandTailTidy(src, bare);
    if src.kind.Files? {
      FilesTidy(src, None, false);
    } else {
      DumpTidy(src, None, false);
    }
    ConcatWords(head, tail);
    ArgsOfLine(head + tail);
    HandTailValues(src, bare);
    ValuesConcat(head, tail);
    ValuesConcat(head, TailWords(src));
    SourceWordsMean(src, None, false);
  }

  lemma HandLineReads(src: Source, bare: Style)
    requires Admitted(src) && Clean(src)
    ensures ReadsAs(HandLine(src, bare), src)
  {
    HandArgs(src, bare);
    UnquotedArgs(src, None, false);
    SourceReadExactly(src, None, false);
  }

  lemma HandParse(spec: Spec, bare: Style)
    requires OneLineSpec(spec)
    ensures ParseScript(HandScript(spec, bare))
         == ParseLines(HandLines(spec.sources, bare) + (ForgetTexts(spec.retention, None) + [POSTAMBLE]), NOTHING)
  {
    HandTidy(spec.sources, bare);
    ForgetFirm(spec.retention, None);
    var forget := ForgetTexts(spec.retention, None);
    LogicalScript(HandCommands(spec.sources, bare), forget);
    HandLogical(spec.sources, bare);
    PreambleIgnored(NOTHING);
    ParseLinesConcat(PREAMBLE, HandLines(spec.sources, bare) + (forget + [POSTAMBLE]), NOTHING);
  }

  /** Reading a supported hand-written script gives the backup it was written for. */
  lemma HandScriptReads(spec: Spec, bare: Style)
    requires Supported(spec)
    ensures ParseScript(HandScript(spec, bare)) == Ok(ReadBackOf(spec))
  {
    var sources, lines := spec.sources, HandLines(spec.sources, bare);
    HandParse(spec, bare);
    ParseLinesConcat(lines, ForgetTexts(spec.retention, None) + [POSTAMBLE], NOTHING);
    forall i | 0 <= i < |sources| ensures ReadsAs(lines[i], sources[i]) {
      HandLineReads(sources[i], bare);
    }
    CleanSourcesRead(sources, lines, NOTHING);
    assert [] + ExpectedSources(sources) == ExpectedSources(sources);
    EndParse(spec.(retryLock := None), ReadBackOf(spec).(retention := None));
  }

  // ----- the generated resource renders the same words

  lemma ExpectedWords(src: Source, lock: Option<Duration>, mount: bool)
    ensures HeadWords(Expected(src), lock, mount) == HeadWords(src, lock, mount)
    ensures TailWords(Expected(src)) == TailWords(src)
  {
    var e := Expected(src);
    assert e.EffectiveTag() == src.EffectiveTag();
    assert src.kind.Files? ==> e.EffectivePath() == src.EffectivePath();
  }

  lemma ExpectedCommands(sources: seq<Source>, lock: Option<Duration>)
    ensures SourceCommands(ExpectedSources(sources), lock, true) == SourceCommands(sources, lock, true)
  {
    forall i | 0 <= i < |sources|
      ensures SourceCommands(ExpectedSources(sources), lock, true)[i] == SourceCommands(sources, lock, true)[i]
    {
      ExpectedWords(sources[i], lock, true);
    }
  }

  lemma ExpectedForget(r: Option<Retention>, lock: Option<Duration>)
    ensures ForgetTexts(ExpectedRetention(r), lock) == ForgetTexts(r, lock)
  {
    if r.Some? {
      UnitsWritten(r.value);
    }
  }

  /** The script a migrated backup renders to. */
  lemma MigratedScript(spec: Spec, lock: Option<Duration>)
    requires Supported(spec) && PlainLock(lock)
    ensures TidyCommands(SourceCommands(spec.sources, lock, true))
    ensures ScriptText(Spec(ExpectedSources(spec.sources), [], ExpectedRetention(spec.retention), lock), true)
         == Ok(WholeScript(SourceCommands(spec.sources, lock, true), ForgetTexts(spec.retention, lock)))
  {
    TidySources(spec.sources, lock, true);
    ExpectedCommands(spec.sources, lock);
    ExpectedForget(spec.retention, lock);
    TextsOfSources(ExpectedSources(spec.sources), lock, true);
  }

  // ----- and normalizes to the hand-written one

  predicate Alike(a: seq<string>, b: seq<string>) {
    Mapped(NormalLine, a) == Mapped(NormalLine, b)
  }

  lemma AlikeOne(x: string, y: string)
    requires NormalLine(x) == NormalLine(y)
    ensures Alike([x], [y])
  {
  }

  lemma AlikeNormalLines(a: seq<string>, b: seq<string>)
    requires Alike(a, b)
    ensures NormalLines(a) == NormalLines(b)
  {
    assert |Mapped(NormalLine, a)| == |a| && |Mapped(NormalLine, b)| == |b|;
    forall i | 0 <= i < |a| ensures NormalLine(a[i]) == NormalLine(b[i]) {
      assert Mapped(NormalLine, a)[i] == Mapped(NormalLine, b)[i];
    }
    SameNormalLines(a, b);
  }

  lemma AlikeConcat(a: seq<string>, b: seq<string>, c: seq<string>, d: seq<string>)
    requires Alike(a, b) && Alike(c, d)
    ensures Alike(a + c, b + d)
  {
    MappedConcat(NormalLine, a, c);
    MappedConcat(NormalLine, b, d);
  }

  lemma FirmTrim(t: string, end: string)
    requires Firm(t) && (end == [] || end == " \\")
    ensures TrimRight(t + end, TrailerChar) == t
  {
    TrimEnd(t, end);
  }

  lemma SameStripped(a: string, b: string, end: string)
    requires Firm(a) && Firm(b) && StripFlags(a) == StripFlags(b) && (end == [] || end == " \\")
    ensures NormalLine(a + end) == NormalLine(b + end)
  {
    FirmTrim(a, end);
    FirmTrim(b, end);
  }

  /** The first line of a files source, with and without a retry lock. */
  lemma FilesLineAlike(src: Source, lock: Option<Duration>, end: string)
    requires Admitted(src) && OneLine(src) && src.kind.Files? && PlainLock(lock)
    requires end == [] || end == " \\"
    ensures NormalLine(Line(HeadWords(src, lock, true)) + end) == NormalLine(Line(HeadWords(src, None, false)) + end)
  {
    var a, b := Line(HeadWords(src, lock, true)), Line(HeadWords(src, None, false));
    assert HeadWords(src, None, false) == HeadWords(src, None, true);
    FilesTidy(src, lock, true);
    FilesTidy(src, None, false);
    TidyLineFirm(HeadWords(src, lock, true));
    TidyLineFirm(HeadWords(src, None, false));
    FilesLine(src, lock);
    FilesLine(src, None);
    StartText(src, lock);
    StartText(src, None);
    var x := " --tag=" + src.EffectiveTag() + " " + ShellQuoteIfNeeded(src.EffectivePath());
    FilesLineText(src, RetryLockFlag(lock));
    FilesLineText(src, RetryLockFlag(None));
    assert a == "restic backup" + RetryLockFlag(lock) + x;
    Glue("restic backup", [], x, []);
    assert b == "restic backup" + x;
    StartGuarded();
    LockErased("restic backup", lock, x);
    SameStripped(a, b, end);
  }

  lemma FilesLineText(src: Source, flag: string)
    ensures "restic backup" + flag + " --tag=" + src.EffectiveTag() + " " + ShellQuoteIfNeeded(src.EffectivePath())
         == "restic backup" + flag + (" --tag=" + src.EffectiveTag() + " " + ShellQuoteIfNeeded(src.EffectivePath()))
  {
  }

  lemma LineConcat(a: seq<Word>, b: seq<Word>)
    requires a != []
    ensures Line(a + b) == Line(a) + Separated(b, " ")
  {
    assert (a + b)[1..] == a[1..] + b;
    SeparatedConcat(a[1..], b, " ");
    Glue(Print(a[0]), Separated(a[1..], " "), Separated(b, " "), []);
  }

  lemma DumpWordsText(kind: SourceType)
    ensures Separated(Bares(DumpWords(kind)), " ") == " --stdin-from-command -- dumpdb " + kind.Name()
  {
    var a, b, c, k := "--stdin-from-command", "--", "dumpdb", kind.Name();
    var ws := Bares([a, b, c, k]);
    assert ws == [[Bare(a)]] + ([[Bare(b)]] + ([[Bare(c)]] + [[Bare(k)]]));
    SeparatedConcat([[Bare(a)]], [[Bare(b)]] + ([[Bare(c)]] + [[Bare(k)]]), " ");
    SeparatedConcat([[Bare(b)]], [[Bare(c)]] + [[Bare(k)]], " ");
    SeparatedConcat([[Bare(c)]], [[Bare(k)]], " ");
    OneBare(a);
    OneBare(b);
    OneBare(c);
    OneBare(k);
    DumpLiteral();
    FourSpaced(a, b, c, k);
  }

  lemma OneBare(t: string)
    ensures Separated([[Bare(t)]], " ") == " " + t
  {
    SeparatedOne([Bare(t)], " ");
    PrintOne(Bare(t));
  }

  lemma FourSpaced(a: string, b: string, c: string, k: string)
    ensures (" " + a) + ((" " + b) + ((" " + c) + (" " + k))) == " " + a + " " + b + " " + c + " " + k
  {
  }

  lemma MountWordsText()
    ensures Separated(Bares(MountWords(true)), " ") == SECRET_FLAG + DB_SECRET_MOUNT_PATH
    ensures Separated(Bares(MountWords(false)), " ") == []
  {
    var w := "--secret-mount=" + DB_SECRET_MOUNT_PATH;
    assert Bares(MountWords(true)) == [[Bare(w)]];
    OneBare(w);
    Literals();
    Glue(" ", "--secret-mount=", DB_SECRET_MOUNT_PATH, []);
  }

  /** What follows the mount flag of a database source: nothing, or text behind a space. */
  function DumpEnd(src: Source): string {
    Separated(DatabaseWords(src.database) + Bares(ExtraWords(src.extraArgs)), " ")
  }

  lemma DumpEndStart(src: Source)
    ensures DumpEnd(src) == [] || DumpEnd(src)[0] == ' '
  {
  }

  lemma DumpLineText(src: Source, lock: Option<Duration>, mount: bool)
    requires src.kind.IsDatabase()
    ensures Line(HeadWords(src, lock, mount))
         == "restic backup" + RetryLockFlag(lock)
          + (" --tag=" + src.EffectiveTag() + (" --stdin-from-command -- dumpdb " + src.kind.Name())
             + (Separated(Bares(MountWords(mount)), " ") + DumpEnd(src)))
  {
    var start, dump, flag := Bares(StartWords(src, lock)), Bares(DumpWords(src.kind)), Bares(MountWords(mount));
    var end := DatabaseWords(src.database) + Bares(ExtraWords(src.extraArgs));
    DumpHeadShape(src, lock, mount);
    LineConcat(start, dump + (flag + end));
    SeparatedConcat(dump, flag + end, " ");
    SeparatedConcat(flag, end, " ");
    StartText(src, lock);
    DumpWordsText(src.kind);
    DumpAssoc("restic backup" + RetryLockFlag(lock), " --tag=", src.EffectiveTag(),
              " --stdin-from-command -- dumpdb " + src.kind.Name(), Separated(flag, " ") + Separated(end, " "));
  }

  lemma DumpHeadShape(src: Source, lock: Option<Duration>, mount: bool)
    requires src.kind.IsDatabase()
    ensures HeadWords(src, lock, mount)
         == Bares(StartWords(src, lock))
          + (Bares(DumpWords(src.kind))
            + (Bares(MountWords(mount)) + (DatabaseWords(src.database) + Bares(ExtraWords(src.extraArgs)))))
  {
    RightNested(Bares(DumpWords(src.kind)), Bares(MountWords(mount)), DatabaseWords(src.database),
      Bares(ExtraWords(src.extraArgs)));
  }

  lemma RightNested(a: seq<Word>, b: seq<Word>, c: seq<Word>, d: seq<Word>)
    ensures a + b + c + d == a + (b + (c + d))
  {
  }

  lemma DumpAssoc(a: string, b: string, c: string, d: string, e: string)
    ensures a + b + c + (d + e) == a + (b + c + d + e)
  {
  }

  /** The line of a database source, with and without the retry lock and the mount flag. */
  lemma DumpLineAlike(src: Source, lock: Option<Duration>)
    requires Admitted(src) && OneLine(src) && src.kind.IsDatabase() && PlainLock(lock)
    ensures NormalLine(Line(HeadWords(src, lock, true))) == NormalLine(Line(HeadWords(src, None, false)))
  {
    var a, b := Line(HeadWords(src, lock, true)), Line(HeadWords(src, None, false));
    DumpTidy(src, lock, true);
    DumpTidy(src, None, false);
    TidyLineFirm(HeadWords(src, lock, true));
    TidyLineFirm(HeadWords(src, None, false));
    DumpStripped(src, lock);
    SameStripped(a, b, []);
    Glue(a, [], [], []);
    Glue(b, [], [], []);
  }

  lemma DumpStripped(src: Source, lock: Option<Duration>)
    requires Admitted(src) && src.kind.IsDatabase() && PlainLock(lock)
    ensures StripFlags(Line(HeadWords(src, lock, true))) == StripFlags(Line(HeadWords(src, None, false)))
  {
    var tag := " --tag=" + src.EffectiveTag();
    var dump := " --stdin-from-command -- dumpdb " + src.kind.Name();
    var mount, end := SECRET_FLAG + DB_SECRET_MOUNT_PATH, DumpEnd(src);
    DumpLineText(src, lock, true);
    DumpLineText(src, None, false);
    MountWordsText();
    EffectiveTagAdmitted(src);
    StartGuarded();
    TagGuarded(src.EffectiveTag());
    DumpGuarded(src.kind);
    GuardedConcat("restic backup", tag);
    GuardedConcat("restic backup" + tag, dump);
    LockErased("restic backup", lock, tag + dump + (mount + end));
    DumpEndStart(src);
    MountErased("restic backup" + tag + dump, end);
    MountAssoc("restic backup", tag, dump, mount, end);
  }

  lemma MountAssoc(a: string, b: string, c: string, m: string, e: string)
    ensures a + (b + c + (m + e)) == a + b + c + m + e
    ensures a + [] + (b + c + ([] + e)) == a + b + c + e
  {
  }

  lemma EffectiveTagAdmitted(src: Source)
    requires TagAdmitted(src.tag)
    ensures TagAdmitted(src.EffectiveTag())
  {
  }

  /** Continuation lines, patterns quoted by the printer or bare by hand. */
  lemma {:induction false} ContinuedAlike(exclude: seq<string>, bare: Style)
    requires exclude != []
    requires forall i :: 0 <= i < |exclude| ==> !Contains(exclude[i], EXCLUDE)
    ensures Alike(Continued(ExcludeWords(exclude)), Continued(HandPatterns(exclude, bare)))
  {
    var a, b := "  " + Print(ExcludeWord(exclude[0])), "  " + Print(HandExclude(exclude[0], bare));
    PatternsTail(exclude, bare);
    if |exclude| > 1 {
      HandPatternAlike(exclude[0], bare, " \\");
      AlikeOne(a + " \\", b + " \\");
      ContinuedAlike(exclude[1..], bare);
      AlikeConcat([a + " \\"], [b + " \\"], Continued(ExcludeWords(exclude[1..])),
        Continued(HandPatterns(exclude[1..], bare)));
    } else {
      HandPatternAlike(exclude[0], bare, []);
      Glue(a, [], [], []);
      Glue(b, [], [], []);
      AlikeOne(a, b);
    }
  }

  lemma PatternsTail(exclude: seq<string>, bare: Style)
    requires exclude != []
    ensures ExcludeWords(exclude)[1..] == ExcludeWords(exclude[1..])
    ensures HandPatterns(exclude, bare)[1..] == HandPatterns(exclude[1..], bare)
  {
  }

  lemma HandPatternAlike(ex: string, bare: Style, end: string)
    requires !Contains(ex, EXCLUDE) && (end == [] || end == " \\")
    ensures NormalLine("  " + Print(ExcludeWord(ex)) + end) == NormalLine("  " + Print(HandExclude(ex, bare)) + end)
  {
    PrintTwo(Bare(EXCLUDE), Quoted(ex));
    if bare(ex) && SafeBare(ex) {
      PrintTwo(Bare(EXCLUDE), Bare(ex));
      ExcludeQuotingErased(ex, end);
    }
  }

  lemma SourceAlike(src: Source, lock: Option<Duration>, bare: Style)
    requires Admitted(src) && Clean(src) && PlainLock(lock)
    ensures Alike(PhysicalLines(HeadWords(src, lock, true), TailWords(src)),
                  PhysicalLines(HeadWords(src, None, false), HandTail(src, bare)))
  {
    if src.kind.IsDatabase() {
      DumpLineAlike(src, lock);
      AlikeOne(Line(HeadWords(src, lock, true)), Line(HeadWords(src, None, false)));
    } else if src.exclude == [] {
      BareFilesAlike(src, lock, bare);
    } else {
      ExcludingFilesAlike(src, lock, bare);
    }
  }

  lemma BareFilesAlike(src: Source, lock: Option<Duration>, bare: Style)
    requires Admitted(src) && Clean(src) && PlainLock(lock) && src.kind.Files? && src.exclude == []
    ensures Alike(PhysicalLines(HeadWords(src, lock, true), TailWords(src)),
                  PhysicalLines(HeadWords(src, None, false), HandTail(src, bare)))
  {
    var a, b := Line(HeadWords(src, lock, true)), Line(HeadWords(src, None, false));
    FilesLineAlike(src, lock, []);
    Glue(a, [], [], []);
    Glue(b, [], [], []);
    AlikeOne(a, b);
  }

  lemma ExcludingFilesAlike(src: Source, lock: Option<Duration>, bare: Style)
    requires Admitted(src) && Clean(src) && PlainLock(lock) && src.kind.Files? && src.exclude != []
    ensures Alike(PhysicalLines(HeadWords(src, lock, true), TailWords(src)),
                  PhysicalLines(HeadWords(src, None, false), HandTail(src, bare)))
  {
    FilesLineAlike(src, lock, " \\");
    AlikeOne(Line(HeadWords(src, lock, true)) + " \\", Line(HeadWords(src, None, false)) + " \\");
    ContinuedAlike(src.exclude, bare);
    AlikeConcat([Line(HeadWords(src, lock, true)) + " \\"], [Line(HeadWords(src, None, false)) + " \\"],
                Continued(TailWords(src)), Continued(HandTail(src, bare)));
  }

  lemma AlikeParts(p: seq<string>, q: seq<string>, a: seq<string>, b: seq<string>, c: seq<string>, d: seq<string>)
    requires Alike(a, b) && Alike(c, d) && p == a + c && q == b + d
    ensures Alike(p, q)
  {
    AlikeConcat(a, b, c, d);
  }

  lemma {:induction false} SourcesAlike(sources: seq<Source>, lock: Option<Duration>, bare: Style)
    requires PlainLock(lock)
    requires forall i :: 0 <= i < |sources| ==> Admitted(sources[i]) && Clean(sources[i])
    requires TidyCommands(SourceCommands(sources, lock, true)) && TidyCommands(HandCommands(sources, bare))
    ensures Alike(Physical(SourceCommands(sources, lock, true)), Physical(HandCommands(sources, bare)))
  {
    if sources != [] {
      var n := |sources| - 1;
      SourceCommandsInit(sources, lock, true);
      HandInit(sources, bare);
      LastCommand(SourceCommands(sources, lock, true));
      LastCommand(HandCommands(sources, bare));
      SourcesAlike(sources[..n], lock, bare);
      LastAlike(sources, lock, bare);
      var cs, ds := SourceCommands(sources, lock, true), HandCommands(sources, bare);
      AlikeParts(Physical(cs), Physical(ds), Physical(cs[..n]), Physical(ds[..n]),
                 PhysicalLines(cs[n].head, cs[n].tail), PhysicalLines(ds[n].head, ds[n].tail));
    }
  }

  lemma LastAlike(sources: seq<Source>, lock: Option<Duration>, bare: Style)
    requires PlainLock(lock) && sources != [] && Admitted(sources[|sources| - 1]) && Clean(sources[|sources| - 1])
    requires TidyCommands(SourceCommands(sources, lock, true)) && TidyCommands(HandCommands(sources, bare))
    ensures var c, d := SourceCommands(sources, lock, true)[|sources| - 1], HandCommands(sources, bare)[|sources| - 1];
      Alike(PhysicalLines(c.head, c.tail), PhysicalLines(d.head, d.tail))
  {
    LastHand(sources, bare);
    SourceAlike(sources[|sources| - 1], lock, bare);
  }

  lemma ForgetAlike(r: Option<Retention>, lock: Option<Duration>)
    requires PlainLock(lock)
    ensures Alike(ForgetTexts(r, lock), ForgetTexts(r, None))
  {
    if r.Some? && KeepFlags(RetentionUnits(r.value)) != [] {
      ForgetLinesAlike(r.value, lock);
      AlikeOne(Join(ForgetWords(r, lock), " "), Join(ForgetWords(r, None), " "));
    }
  }

  lemma ForgetLinesAlike(r: Retention, lock: Option<Duration>)
    requires PlainLock(lock) && KeepFlags(RetentionUnits(r)) != []
    ensures NormalLine(Join(ForgetWords(Some(r), lock), " ")) == NormalLine(Join(ForgetWords(Some(r), None), " "))
  {
    var flags := KeepFlags(RetentionUnits(r));
    var a, b := Join(ForgetWords(Some(r), lock), " "), Join(ForgetWords(Some(r), None), " ");
    ForgetFirm(Some(r), lock);
    ForgetFirm(Some(r), None);
    assert ForgetTexts(Some(r), lock)[0] == a && ForgetTexts(Some(r), None)[0] == b;
    ForgetLine(lock, flags);
    ForgetLine(None, flags);
    ForgetStripped(lock, Join(flags, " "));
    ForgetSame(a, b);
  }

  lemma ForgetSame(a: string, b: string)
    requires Firm(a) && Firm(b) && StripFlags(a) == StripFlags(b)
    ensures NormalLine(a) == NormalLine(b)
  {
    SameStripped(a, b, []);
    Glue(a, [], [], []);
    Glue(b, [], [], []);
  }

  lemma ForgetStripped(lock: Option<Duration>, flags: string)
    requires PlainLock(lock)
    ensures StripFlags("restic forget --prune" + RetryLockFlag(lock) + " " + flags)
         == StripFlags("restic forget --prune" + RetryLockFlag(None) + " " + flags)
  {
    var start, x := "restic forget --prune", " " + flags;
    StartGuarded();
    LockErased(start, lock, x);
    LockErased(start, None, x);
    Glue(start + RetryLockFlag(lock), " ", flags, []);
    Glue(start + RetryLockFlag(None), " ", flags, []);
  }

  /** Up to what the normalizer erases, a migrated backup renders to the hand-written script. */
  lemma ScriptsNormalizeAlike(spec: Spec, lock: Option<Duration>, bare: Style)
    requires Supported(spec) && PlainLock(lock)
    requires TidyCommands(SourceCommands(spec.sources, lock, true))
    ensures Normalized(WholeScript(SourceCommands(spec.sources, lock, true), ForgetTexts(spec.retention, lock)))
         == Normalized(HandScript(spec, bare))
  {
    var rendered, hand := SourceCommands(spec.sources, lock, true), HandCommands(spec.sources, bare);
    var forget, forget' := ForgetTexts(spec.retention, lock), ForgetTexts(spec.retention, None);
    HandTidy(spec.sources, bare);
    ForgetFirm(spec.retention, lock);
    ForgetFirm(spec.retention, None);
    WholeScriptLines(rendered, forget);
    WholeScriptLines(hand, forget');
    SourcesAlike(spec.sources, lock, bare);
    ForgetAlike(spec.retention, lock);
    AlikeConcat(PREAMBLE, PREAMBLE, Physical(rendered), Physical(hand));
    AlikeConcat(forget, forget', [POSTAMBLE], [POSTAMBLE]);
    AlikeConcat(PREAMBLE + Physical(rendered), PREAMBLE + Physical(hand), forget + [POSTAMBLE], forget' + [POSTAMBLE]);
    AlikeConcat(PREAMBLE + Physical(rendered) + (forget + [POSTAMBLE]),
                PREAMBLE + Physical(hand) + (forget' + [POSTAMBLE]), [[]], [[]]);
    AlikeNormalLines(Split(WholeScript(rendered, forget), '\n'), Split(HandScript(spec, bare), '\n'));
  }

  // ----- the parity command

  const DEFAULT_TIME_ZONE := "America/Chicago"

  /** The fields of a HelmRelease that parity compares. */
  datatype HelmRelease = HelmRelease(schedule: string, timeZone: string, script: string)

  /** The fields of a generated ScheduledBackup that parity compares. */
  datatype Generated = Generated(schedule: string, timeZone: string, spec: Spec)

  /** migrateHelmRelease, as far as parity looks. */
  function Migrated(hr: HelmRelease): Result<Generated, ParseError> {
    match ParseScript(hr.script)
    case Err(e) => Err(e)
    case Ok(parsed) =>
      Ok(Generated(Migration.Shorthand(hr.schedule), hr.timeZone, Spec(parsed.sources, [], parsed.retention, None)))
  }

  datatype Plan = Plan(script: string, schedule: string, timeZone: string)

  datatype ParityError =
    | Unrenderable(name: string)
    | Unresolvable(schedule: ScheduleError)
    | BadGeneratedSchedule(cron: CronError)
    | BadOriginalSchedule(cron: CronError)

  datatype Difference = ScriptDiffers | CadenceDiffers | TimeZoneDiffers

  /** What parity reports: the differences, and whether the schedule was moved. */
  datatype Report = Report(differences: seq<Difference>, rescheduled: bool)

  function ZoneOf(tz: string): string {
    if tz == [] then DEFAULT_TIME_ZONE else tz
  }

  function RenderedPlan(sb: Generated, h: nat, parse: DurationParser): Result<Plan, ParityError> {
    match ScriptText(sb.spec, true)
    case Err(name) => Err(Unrenderable(name))
    case Ok(script) =>
      match ResolveSchedule(sb.schedule, h, parse)
      case Err(e) => Err(Unresolvable(e))
      case Ok(schedule) => Ok(Plan(script, schedule, ZoneOf(sb.timeZone)))
  }

  function OriginalPlan(hr: HelmRelease): Plan {
    Plan(hr.script, hr.schedule, ZoneOf(hr.timeZone))
  }

  function When(c: bool, d: Difference): seq<Difference> {
    if c then [d] else []
  }

  function Verdict(script: bool, a: Cadence, b: Cadence, schedule: bool, zone: bool): Report {
    Report(
      When(!script, ScriptDiffers) + When(a != b, CadenceDiffers) + When(!zone, TimeZoneDiffers),
      a == b && !schedule)
  }

  function Compared(rendered: Plan, original: Plan): Result<Report, ParityError> {
    var a, b := CadenceOfExpr(rendered.schedule), CadenceOfExpr(original.schedule);
    if a.Err? then Err(BadGeneratedSchedule(a.error))
    else if b.Err? then Err(BadOriginalSchedule(b.error))
    else
      Ok(Verdict(Normalized(rendered.script) == Normalized(original.script), a.value, b.value,
                 rendered.schedule == original.schedule, rendered.timeZone == original.timeZone))
  }

  method Judge(script: bool, a: Cadence, b: Cadence, schedule: bool, zone: bool) returns (r: Report)
    ensures r == Verdict(script, a, b, schedule, zone)
    ensures ScriptDiffers in r.differences <==> !script
    ensures CadenceDiffers in r.differences <==> a != b
    ensures TimeZoneDiffers in r.differences <==> !zone
    ensures r.rescheduled <==> a == b && !schedule
  {
    VerdictExactly(script, a, b, schedule, zone);
    var differences: seq<Difference> := [];
    var rescheduled := false;
    if !script {
      differences := differences + [ScriptDiffers];
    }
    if a != b {
      differences := differences + [CadenceDiffers];
    } else if !schedule {
      rescheduled := true;
    }
    if !zone {
      differences := differences + [TimeZoneDiffers];
    }
    return Report(differences, rescheduled);
  }

  method ComparePlans(rendered: Plan, original: Plan) returns (r: Result<Report, ParityError>)
    ensures r == Compared(rendered, original)
  {
    var a := NormalizeScript(rendered.script);
    var b := NormalizeScript(original.script);
    var renderedCadence := CadenceOf(rendered.schedule);
    if renderedCadence.Err? {
      return Err(BadGeneratedSchedule(renderedCadence.error));
    }
    var originalCadence := CadenceOf(original.schedule);
    if originalCadence.Err? {
      return Err(BadOriginalSchedule(originalCadence.error));
    }
    var report := Judge(a == b, renderedCadence.value, originalCadence.value,
                        rendered.schedule == original.schedule, rendered.timeZone == original.timeZone);
    return Ok(report);
  }

  /** runParity, from the two resources on. */
  method RunParity(sb: Generated, hr: HelmRelease, h: nat, parse: DurationParser)
    returns (r: Result<Report, ParityError>)
    ensures r == match RenderedPlan(sb, h, parse)
                 case Err(e) => Err(e)
                 case Ok(plan) => Compared(plan, OriginalPlan(hr))
  {
    var script := Render(sb.spec);
    if script.Err? {
      return Err(Unrenderable(script.error));
    }
    var schedule := ResolveSchedule(sb.schedule, h, parse);
    if schedule.Err? {
      return Err(Unresolvable(schedule.error));
    }
    r := ComparePlans(Plan(script.value, schedule.value, ZoneOf(sb.timeZone)), OriginalPlan(hr));
  }

  /** The time zone that a backup runs in. */
  predicate RunsIn(tz: string, zone: string) {
    zone == if tz == "" then "America/Chicago" else tz
  }

  /**
   * Of a generated backup that renders and resolves to an expression that can be read, and an original that can: the
   * script is reported if and only if the normal forms differ, the cadence if and only if the cadences do, the time
   * zone if and only if the backups run in different ones; and it is moved if and only if the cadences agree and the
   * expressions do not. Each difference is reported once.
   */
  lemma ReportExactly(sb: Generated, hr: HelmRelease, h: nat, parse: DurationParser, plan: Plan)
    requires RenderedPlan(sb, h, parse) == Ok(plan)
    requires CadenceOfExpr(plan.schedule).Ok? && CadenceOfExpr(hr.schedule).Ok?
    ensures Compared(plan, OriginalPlan(hr)).Ok?
    ensures var r := Compared(plan, OriginalPlan(hr)).value;
      && (ScriptDiffers in r.differences <==> Normalized(plan.script) != Normalized(hr.script))
      && (CadenceDiffers in r.differences <==> CadenceOfExpr(plan.schedule) != CadenceOfExpr(hr.schedule))
      && (TimeZoneDiffers in r.differences <==> !exists zone :: RunsIn(sb.timeZone, zone) && RunsIn(hr.timeZone, zone))
      && (r.rescheduled <==>
            CadenceOfExpr(plan.schedule) == CadenceOfExpr(hr.schedule) && plan.schedule != hr.schedule)
      && (forall i, j :: 0 <= i < j < |r.differences| ==> r.differences[i] != r.differences[j])
    ensures ScriptText(sb.spec, true) == Ok(plan.script) && ResolveSchedule(sb.schedule, h, parse) == Ok(plan.schedule)
  {
    assert RunsIn(sb.timeZone, ZoneOf(sb.timeZone)) && RunsIn(hr.timeZone, ZoneOf(hr.timeZone));
    var a, b := CadenceOfExpr(plan.schedule).value, CadenceOfExpr(hr.schedule).value;
    VerdictExactly(Normalized(plan.script) == Normalized(hr.script), a, b,
                   plan.schedule == hr.schedule, plan.timeZone == ZoneOf(hr.timeZone));
  }

  /** A report names what differs, and nothing twice. */
  lemma VerdictExactly(script: bool, a: Cadence, b: Cadence, schedule: bool, zone: bool)
    ensures var r := Verdict(script, a, b, schedule, zone);
      && (ScriptDiffers in r.differences <==> !script)
      && (CadenceDiffers in r.differences <==> a != b)
      && (TimeZoneDiffers in r.differences <==> !zone)
      && (r.rescheduled <==> a == b && !schedule)
      && (forall i, j :: 0 <= i < j < |r.differences| ==> r.differences[i] != r.differences[j])
  {
  }

  /** And when there is no report. */
  lemma NoReportExactly(sb: Generated, hr: HelmRelease, h: nat, parse: DurationParser)
    ensures RenderedPlan(sb, h, parse).Err? <==>
      ScriptText(sb.spec, true).Err? || ResolveSchedule(sb.schedule, h, parse).Err?
    ensures RenderedPlan(sb, h, parse).Ok? ==>
      var plan := RenderedPlan(sb, h, parse).value; var r := Compared(plan, OriginalPlan(hr));
      && (r.Err? <==> CadenceOfExpr(plan.schedule).Err? || CadenceOfExpr(hr.schedule).Err?)
      && (CadenceOfExpr(plan.schedule).Err? ==> r == Err(BadGeneratedSchedule(CadenceOfExpr(plan.schedule).error)))
      && (r.Err? && CadenceOfExpr(plan.schedule).Ok? ==>
            r == Err(BadOriginalSchedule(CadenceOfExpr(hr.schedule).error)))
  {
  }

  /** What parity says of a backup and its migration. */
  function ParityAfterMigration(hr: HelmRelease, h: nat, parse: DurationParser): Result<Report, ParityError>
    requires Migrated(hr).Ok?
  {
    match RenderedPlan(Migrated(hr).value, h, parse)
    case Err(e) => Err(e)
    case Ok(plan) => Compared(plan, OriginalPlan(hr))
  }

  /**
   A supported hand-written backup with a valid schedule always migrates, and parity between it
   and its migration reports no difference of script, cadence or time zone, whatever the hash.
   The one exception, exactly, is a step of hours that does not divide a day: its shorthand is
   refused before anything is compared.
   */
  lemma MigrateThenParity(spec: Spec, bare: Style, schedule: string, timeZone: string, h: nat, parse: DurationParser)
    requires Supported(spec) && ParsesHours(parse) && CadenceOfExpr(schedule).Ok?
    ensures var hr := HelmRelease(schedule, timeZone, HandScript(spec, bare));
      && Migrated(hr).Ok?
      && var r := ParityAfterMigration(hr, h, parse);
         if Migration.Shorthand(schedule) != schedule && !EvenHours(schedule) then r.Err? && r.error.Unresolvable?
         else r.Ok? && r.value.differences == []
  {
    var hr := HelmRelease(schedule, timeZone, HandScript(spec, bare));
    HandScriptReads(spec, bare);
    MigratedScript(spec, None);
    MigrationKeepsCadence(schedule, h, parse);
    ScriptsNormalizeAlike(spec, None, bare);
    AlikePlans(Migrated(hr).value, hr, h, parse);
  }

  /** Plans with the same normal form and the same cadence do not differ, once the schedule resolves. */
  lemma AlikePlans(sb: Generated, hr: HelmRelease, h: nat, parse: DurationParser)
    requires ScriptText(sb.spec, true).Ok? && Normalized(ScriptText(sb.spec, true).value) == Normalized(hr.script)
    requires CadenceOfExpr(hr.schedule).Ok? && sb.timeZone == hr.timeZone
    requires var r := ResolveSchedule(sb.schedule, h, parse);
      r.Ok? ==> CadenceOfExpr(r.value) == CadenceOfExpr(hr.schedule)
    ensures var plan := RenderedPlan(sb, h, parse);
      && (plan.Ok? <==> ResolveSchedule(sb.schedule, h, parse).Ok?)
      && (plan.Err? ==> plan.error.Unresolvable?)
      && (plan.Ok? ==> var r := Compared(plan.value, OriginalPlan(hr)); r.Ok? && r.value.differences == [])
  {
  }
}
