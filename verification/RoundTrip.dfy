/** Printing a backup as a script and reading the script back. */
module RoundTrip {
  import opened Outcomes
  import opened Text
  import opened Mapping
  import opened Shell
  import opened Backup
  import opened Script
  import opened ScriptMeaning
  import opened ScriptParser
  import opened ReadBack
  import opened ArgsReading
  import opened SourceReading

  // ----- scripts as lists of commands

  datatype Command = Command(head: seq<Word>, tail: seq<Word>)

  /** A command each of whose printed lines is one line of the script. */
  predicate TidyCommand(c: Command) {
    c.head != [] && Tidy(c.head) && Tidy(c.tail)
  }

  predicate TidyCommands(cs: seq<Command>) {
    forall i :: 0 <= i < |cs| ==> TidyCommand(cs[i])
  }

  function Texts(cs: seq<Command>): seq<string>
    requires TidyCommands(cs)
  {
    if cs == [] then []
    else
      var c := cs[|cs| - 1];
      Texts(cs[..|cs| - 1]) + [PrintCommand(c.head, c.tail)]
  }

  function Physical(cs: seq<Command>): seq<string>
    requires TidyCommands(cs)
  {
    if cs == [] then []
    else
      var c := cs[|cs| - 1];
      Physical(cs[..|cs| - 1]) + PhysicalLines(c.head, c.tail)
  }

  function Logical(cs: seq<Command>): seq<string>
    requires TidyCommands(cs)
  {
    if cs == [] then []
    else
      var c := cs[|cs| - 1];
      Logical(cs[..|cs| - 1]) + [Line(c.head + c.tail)]
  }

  lemma {:induction false} TextsArePhysical(cs: seq<Command>)
    requires TidyCommands(cs)
    ensures Unlines(Texts(cs)) == Unlines(Physical(cs))
  {
    if cs != [] {
      var init, c := cs[..|cs| - 1], cs[|cs| - 1];
      TextsArePhysical(init);
      var text := PrintCommand(c.head, c.tail);
      UnlinesSnoc(Texts(init), text);
      Glue(Unlines(Texts(init)), text, "\n", []);
      PhysicalText(c.head, c.tail);
      UnlinesConcat(Physical(init), PhysicalLines(c.head, c.tail));
    }
  }

  predicate OneLined(lines: seq<string>) {
    forall i :: 0 <= i < |lines| ==> '\n' !in lines[i]
  }

  lemma {:induction false} ContinuedOneLined(tail: seq<Word>)
    requires tail != [] && Tidy(tail)
    ensures OneLined(Continued(tail))
  {
    TidyWordFirm(tail[0]);
    if |tail| > 1 {
      ContinuedOneLined(tail[1..]);
    }
  }

  lemma {:induction false} PhysicalOneLined(cs: seq<Command>)
    requires TidyCommands(cs)
    ensures OneLined(Physical(cs))
  {
    if cs != [] {
      var init, c := cs[..|cs| - 1], cs[|cs| - 1];
      PhysicalOneLined(init);
      TidyLineFirm(c.head);
      if c.tail != [] {
        ContinuedOneLined(c.tail);
      }
    }
  }

  lemma {:induction false} JoinCommands(cs: seq<Command>, lines: seq<string>)
    requires TidyCommands(cs)
    ensures JoinRun(Physical(cs), Joiner([], lines)) == Joiner([], lines + Logical(cs))
  {
    if cs == [] {
      assert lines + [] == lines;
    } else {
      var init, c := cs[..|cs| - 1], cs[|cs| - 1];
      JoinCommands(init, lines);
      JoinRunConcat(Physical(init), PhysicalLines(c.head, c.tail), Joiner([], lines));
      TidyLineFirm(c.head);
      assert FirmWords(c.tail) by {
        forall i | 0 <= i < |c.tail| ensures Firm(Print(c.tail[i])) {
          TidyWordFirm(c.tail[i]);
        }
      }
      JoinCommand(c.head, c.tail, lines + Logical(init));
      Assoc(lines, Logical(init), [Line(c.head + c.tail)]);
    }
  }

  lemma FixedLinesFirm()
    ensures Firm(PREAMBLE[0]) && Firm(PREAMBLE[1]) && Firm(POSTAMBLE)
  {
    FirmConcat("exec", REDIRECT);
    FirmConcat("set", "-eu");
  }

  function WholeScript(cs: seq<Command>, forget: seq<string>): string
    requires TidyCommands(cs)
  {
    Unlines(PREAMBLE + Texts(cs) + forget + [POSTAMBLE])
  }

  lemma WholeScriptLines(cs: seq<Command>, forget: seq<string>)
    requires TidyCommands(cs)
    requires forall i :: 0 <= i < |forget| ==> Firm(forget[i])
    ensures Split(WholeScript(cs, forget), '\n') == PREAMBLE + Physical(cs) + (forget + [POSTAMBLE]) + [[]]
  {
    FixedLinesFirm();
    PhysicalOneLined(cs);
    TextsArePhysical(cs);
    var pre, end := PREAMBLE, forget + [POSTAMBLE];
    Assoc(pre + Texts(cs), forget, [POSTAMBLE]);
    UnlinesConcat(pre + Texts(cs), end);
    UnlinesConcat(pre, Texts(cs));
    UnlinesConcat(pre, Physical(cs));
    UnlinesConcat(pre + Physical(cs), end);
    var lines := pre + Physical(cs) + end;
    forall l | l in lines ensures '\n' !in l {
    }
    SplitUnlines(lines);
  }

  /** The logical lines of a script of tidy commands: one per command. */
  lemma LogicalScript(cs: seq<Command>, forget: seq<string>)
    requires TidyCommands(cs)
    requires forall i :: 0 <= i < |forget| ==> Firm(forget[i])
    ensures LogicalLines(WholeScript(cs, forget)) == PREAMBLE + (Logical(cs) + (forget + [POSTAMBLE]))
  {
    WholeScriptLines(cs, forget);
    JoinScript(cs, forget);
    var end := forget + [POSTAMBLE];
    var all := PREAMBLE + Logical(cs) + end;
    JoinRunConcat(PREAMBLE + Physical(cs) + end, [[]], Joiner([], []));
    JoinRunOne([], Joiner([], all));
    Assoc(PREAMBLE, Logical(cs), end);
  }

  lemma JoinScript(cs: seq<Command>, forget: seq<string>)
    requires TidyCommands(cs)
    requires forall i :: 0 <= i < |forget| ==> Firm(forget[i])
    ensures var end := forget + [POSTAMBLE];
      JoinRun(PREAMBLE + Physical(cs) + end, Joiner([], [])) == Joiner([], PREAMBLE + Logical(cs) + end)
  {
    FixedLinesFirm();
    var pre, end := PREAMBLE, forget + [POSTAMBLE];
    var st := Joiner([], []);
    JoinRunConcat(pre + Physical(cs), end, st);
    JoinRunConcat(pre, Physical(cs), st);
    JoinFirmLines(pre, []);
    assert [] + pre == pre;
    JoinCommands(cs, pre);
    JoinFirmLines(end, pre + Logical(cs));
  }

  // ----- reading the lines that are not sources

  lemma {:induction false} ParseLinesConcat(a: seq<string>, b: seq<string>, st: Parsed)
    ensures ParseLines(a + b, st) ==
      match ParseLines(a, st)
      case Err(e) => Err(e)
      case Ok(st') => ParseLines(b, st')
  {
    if a == [] {
      assert a + b == b;
    } else {
      assert (a + b)[1..] == a[1..] + b;
      match ParseStep(st, Args(a[0])) {
        case Err(_) =>
        case Ok(st') => ParseLinesConcat(a[1..], b, st');
      }
    }
  }

  lemma ParseOneLine(line: string, st: Parsed)
    ensures ParseLines([line], st) == ParseStep(st, Args(line))
  {
    assert [line][1..] == [];
  }

  /** A line whose first word is not restic is passed over. */
  lemma OtherCommand(first: string, rest: string, st: Parsed)
    requires BareText(first) && first != "restic"
    ensures ParseStep(st, Args(first + " " + rest)) == Ok(st)
  {
    var line := first + " " + rest;
    SplitConcat(first + " ", rest, START);
    SplitConcat(first, " ", START);
    SplitBare(first, START);
    assert [] + first == first;
    SplitSpace(Splitter([], first, true, None));
    var st1 := Splitter([first], [], false, None);
    assert [] + [first] == [first];
    SplitKeeps(rest, st1);
    var args := Args(line);
    assert args[..1] == [first];
    assert args[0] == args[..1][0];
  }

  lemma PreambleIgnored(st: Parsed)
    ensures ParseLines(PREAMBLE, st) == Ok(st)
  {
    var a, b := PREAMBLE[0], PREAMBLE[1];
    assert PREAMBLE == [a] + [b];
    ParseLinesConcat([a], [b], st);
    ParseOneLine(a, st);
    ParseOneLine(b, st);
    assert "exec" != "restic" && "set" != "restic" by {
      assert "exec"[0] == 'e' && "set"[0] == 's';
    }
    OtherCommand("exec", REDIRECT, st);
    OtherCommand("set", "-eu", st);
  }

  lemma PlainLineArgs(texts: seq<string>)
    requires texts != [] && AllPlain(texts)
    ensures Args(Join(texts, " ")) == texts
  {
    TidyBares(texts);
    PlainBares(texts);
    LineOfBares(texts);
    ArgsOfLine(Bares(texts));
  }

  lemma PostambleIgnored(st: Parsed)
    ensures ParseLines([POSTAMBLE], st) == Ok(st)
  {
    var texts := ["restic", "cache", "--cleanup"];
    ParseOneLine(POSTAMBLE, st);
    PostambleWords();
    ShortWordsPlain();
    FlagsPlain();
    PlainLineArgs(texts);
    assert "cache" != "backup" && "cache" != "forget" by {
      assert "cache"[0] == 'c';
    }
  }

  lemma ForgetFirm(r: Option<Retention>, lock: Option<Duration>)
    requires PlainLock(lock)
    ensures forall i :: 0 <= i < |ForgetTexts(r, lock)| ==> Firm(ForgetTexts(r, lock)[i])
  {
    var texts := ForgetWords(r, lock);
    if texts != [] {
      ForgetPlain(r, lock);
      TidyBares(texts);
      LineOfBares(texts);
      TidyLineFirm(Bares(texts));
    }
  }

  lemma RetentionRead(r: Option<Retention>, lock: Option<Duration>, st: Parsed)
    requires PlainLock(lock) && st.retention.None?
    ensures ParseLines(ForgetTexts(r, lock), st) == Ok(st.(retention := ExpectedRetention(r)))
  {
    if r.Some? {
      UnitsWritten(r.value);
    }
    if r.Some? && r.value != NO_RETENTION {
      ForgetLineRead(r.value, lock, st);
      ParseOneLine(Join(ForgetWords(r, lock), " "), st);
    }
  }

  lemma ForgetLineRead(r: Retention, lock: Option<Duration>, st: Parsed)
    requires PlainLock(lock) && st.retention.None? && r != NO_RETENTION
    ensures var args := Args(Join(ForgetWords(Some(r), lock), " "));
      args == ForgetWords(Some(r), lock) && ParseStep(st, args) == Ok(st.(retention := Some(r)))
  {
    ForgetPlain(Some(r), lock);
    ForgetRead(r, lock);
    PlainLineArgs(ForgetWords(Some(r), lock));
    assert "forget" != "backup" by { assert "forget"[0] == 'f'; }
  }

  // ----- reading the sources

  function ExpectedSources(sources: seq<Source>): seq<Source> {
    seq(|sources|, i requires 0 <= i < |sources| => Expected(sources[i]))
  }

  /** The engine of the last database source. */
  function LastEngine(sources: seq<Source>, before: Option<SourceType>): Option<SourceType> {
    if sources == [] then before
    else LastEngine(sources[1..], if Engine(sources[0]).Some? then Engine(sources[0]) else before)
  }

  /** The lines of a list of sources, one per source. */
  function LineOf(lock: Option<Duration>, mount: bool): Source -> string {
    src => SourceLine(src, lock, mount)
  }

  function SourceLines(sources: seq<Source>, lock: Option<Duration>, mount: bool): seq<string> {
    Mapped(LineOf(lock, mount), sources)
  }

  /** Sources that were read stay in the result. */
  lemma {:induction false} SourcesStay(lines: seq<string>, st: Parsed)
    ensures var r := ParseLines(lines, st); r.Ok? ==> st.sources <= r.value.sources
  {
    if lines != [] {
      match ParseStep(st, Args(lines[0])) {
        case Err(_) =>
        case Ok(st') => SourcesStay(lines[1..], st');
      }
    }
  }

  /** Lines that read as the intended arguments of clean sources give those sources. */
  lemma {:induction false} CleanSourcesRead(
    sources: seq<Source>, lines: seq<string>, st: Parsed)
    requires |lines| == |sources|
    requires forall i :: 0 <= i < |sources| ==> ReadsAs(lines[i], sources[i])
    ensures ParseLines(lines, st)
         == Ok(st.(sources := st.sources + ExpectedSources(sources), engine := LastEngine(sources, st.engine)))
  {
    if sources == [] {
      assert st.sources + [] == st.sources;
    } else {
      assert ReadsAs(lines[0], sources[0]);
      var engine := if Engine(sources[0]).Some? then Engine(sources[0]) else st.engine;
      var st' := st.(sources := st.sources + [Expected(sources[0])], engine := engine);
      CleanSourcesRead(sources[1..], lines[1..], st');
      ExpectedCons(sources, st.sources);
    }
  }

  /** The line parses as a backup command for that source. */
  predicate ReadsAs(line: string, src: Source) {
    var args := Args(line);
    && |args| >= 2 && args[0] == "restic" && args[1] == "backup"
    && ParseBackupLine(args) == Ok((Expected(src), Engine(src)))
  }

  lemma ExpectedCons(sources: seq<Source>, before: seq<Source>)
    requires sources != []
    ensures before + [Expected(sources[0])] + ExpectedSources(sources[1..]) == before + ExpectedSources(sources)
  {
  }

  /** If the sources come back, they were all clean. */
  lemma {:induction false} ReadSourcesAreClean(
    sources: seq<Source>, lock: Option<Duration>, mount: bool, more: seq<string>, st: Parsed)
    requires PlainLock(lock)
    requires forall i :: 0 <= i < |sources| ==> Admitted(sources[i]) && OneLine(sources[i])
    requires var r := ParseLines(SourceLines(sources, lock, mount) + more, st);
      r.Ok? && st.sources + ExpectedSources(sources) <= r.value.sources
    ensures forall i :: 0 <= i < |sources| ==> Clean(sources[i])
  {
    if sources != [] {
      var st' := FirstIsClean(sources, lock, mount, more, st);
      ReadSourcesAreClean(sources[1..], lock, mount, more, st');
    }
  }

  lemma FirstIsClean(sources: seq<Source>, lock: Option<Duration>, mount: bool, more: seq<string>, st: Parsed)
    returns (st': Parsed)
    requires PlainLock(lock) && sources != [] && Admitted(sources[0]) && OneLine(sources[0])
    requires var r := ParseLines(SourceLines(sources, lock, mount) + more, st);
      r.Ok? && st.sources + ExpectedSources(sources) <= r.value.sources
    ensures Clean(sources[0])
    ensures var r := ParseLines(SourceLines(sources[1..], lock, mount) + more, st');
      r.Ok? && st'.sources + ExpectedSources(sources[1..]) <= r.value.sources
  {
    var lines := SourceLines(sources, lock, mount) + more;
    SourceLinesCons(sources, lock, mount, more);
    SourceReadExactly(sources[0], lock, mount);
    st' := ParseStep(st, Args(lines[0])).value;
    SourcesStay(lines[1..], st');
    SameSource(st.sources, sources, ParseLines(lines, st).value.sources, st'.sources);
  }

  lemma SourceLinesCons(sources: seq<Source>, lock: Option<Duration>, mount: bool, more: seq<string>)
    requires sources != []
    ensures var lines := SourceLines(sources, lock, mount) + more;
      lines[0] == SourceLine(sources[0], lock, mount) && lines[1..] == SourceLines(sources[1..], lock, mount) + more
  {
    MappedTail(LineOf(lock, mount), sources);
    TailThenMore(SourceLines(sources, lock, mount), more);
  }

  lemma TailThenMore(lines: seq<string>, more: seq<string>)
    requires lines != []
    ensures (lines + more)[0] == lines[0] && (lines + more)[1..] == lines[1..] + more
  {
  }

  lemma SameSource(before: seq<Source>, sources: seq<Source>, r: seq<Source>, after: seq<Source>)
    requires sources != [] && before + ExpectedSources(sources) <= r
    requires |after| == |before| + 1 && before <= after <= r
    ensures after[|before|] == Expected(sources[0])
    ensures after + ExpectedSources(sources[1..]) <= r
  {
    var n := |before|;
    assert after[n] == r[n] == (before + ExpectedSources(sources))[n];
    assert after == before + [Expected(sources[0])];
    ExpectedCons(sources, before);
  }

  // ----- newlines never come back

  predicate SourceOneLine(src: Source) {
    && '\n' !in src.path && '\n' !in src.database
    && forall i :: 0 <= i < |src.exclude| ==> '\n' !in src.exclude[i]
  }

  lemma {:induction false} FlagValuesOneLined(args: seq<string>, name: string)
    requires OneLined(args)
    ensures '\n' !in ValueOr(FlagValue(args, name))
    ensures OneLined(FlagValues(args, name))
    ensures '\n' !in FirstPositional(args)
  {
    if args != [] {
      FlagValuesOneLined(args[1..], name);
      var v := CutPrefix(args[0], FlagPrefix(name));
      assert v.Some? ==> forall c :: c in v.value ==> c in args[0];
    }
  }

  lemma {:induction false} DumpdbOneLined(args: seq<string>)
    requires OneLined(args)
    ensures var r := ParseDumpdb(args); r.Ok? ==> OneLined(r.value.1)
  {
    if |args| >= 2 && args[0] != "dumpdb" {
      DumpdbOneLined(args[1..]);
    }
  }

  lemma LineOneLined(args: seq<string>)
    requires |args| >= 2 && OneLined(args)
    ensures var r := ParseBackupLine(args); r.Ok? ==> SourceOneLine(r.value.0)
  {
    FlagValuesOneLined(args, "exclude");
    FlagValuesOneLined(args[2..], "exclude");
    var i := IndexOf(args, "--stdin-from-command");
    if i < |args| {
      DumpdbOneLined(args[i..]);
      var r := ParseDumpdb(args[i..]);
      if r.Ok? {
        FlagValuesOneLined(r.value.1, "database");
      }
    }
  }

  lemma {:induction false} SplitOneLined(s: string, st: Splitter)
    requires '\n' !in s && OneLined(st.args) && '\n' !in st.current
    ensures OneLined(ArgsOf(SplitRun(s, st)))
  {
    if s != [] {
      assert s[0] in s;
      SplitOneLined(s[1..], SplitStep(st, s[0]));
    }
  }

  lemma {:induction false} ParseOneLined(lines: seq<string>, st: Parsed)
    requires OneLined(lines)
    requires forall i :: 0 <= i < |st.sources| ==> SourceOneLine(st.sources[i])
    ensures var r := ParseLines(lines, st);
      r.Ok? ==> forall i :: 0 <= i < |r.value.sources| ==> SourceOneLine(r.value.sources[i])
  {
    if lines != [] {
      SplitOneLined(lines[0], START);
      StepOneLined(Args(lines[0]), st);
      var next := ParseStep(st, Args(lines[0]));
      if next.Ok? {
        ParseOneLined(lines[1..], next.value);
      }
    }
  }

  lemma StepOneLined(args: seq<string>, st: Parsed)
    requires OneLined(args) && forall i :: 0 <= i < |st.sources| ==> SourceOneLine(st.sources[i])
    ensures var r := ParseStep(st, args);
      r.Ok? ==> forall i :: 0 <= i < |r.value.sources| ==> SourceOneLine(r.value.sources[i])
  {
    if |args| >= 2 {
      LineOneLined(args);
    }
  }

  lemma TrimOneLined(s: string)
    requires '\n' !in s
    ensures '\n' !in TrimSpace(s)
  {
    var left, right := TrimSpaceParts(s);
    assert forall c :: c in TrimSpace(s) ==> c in s;
  }

  lemma {:induction false} JoinOneLined(lines: seq<string>, st: Joiner)
    requires OneLined(lines) && OneLined(st.lines) && '\n' !in st.current
    ensures var r := JoinRun(lines, st); OneLined(r.lines) && '\n' !in r.current
  {
    if lines != [] {
      var t := TrimSpace(lines[0]);
      TrimOneLined(lines[0]);
      match CutLast(t, '\\') {
        case Some(after) =>
          assert forall c :: c in after ==> c in t;
          TrimOneLined(after);
        case None => TrimOneLined(st.current + t);
      }
      JoinOneLined(lines[1..], JoinStep(st, lines[0]));
    }
  }

  /** No source is ever read with a newline in its path, patterns or database. */
  lemma ReadSourcesOneLine(script: string)
    ensures var r := ParseScript(script);
      r.Ok? ==> forall i :: 0 <= i < |r.value.sources| ==> SourceOneLine(r.value.sources[i])
  {
    var physical := Split(script, '\n');
    assert OneLined(physical) by {
      assert forall i :: 0 <= i < |physical| ==> physical[i] in physical;
    }
    JoinOneLined(physical, Joiner([], []));
    TrimOneLined(JoinRun(physical, Joiner([], [])).current);
    ParseOneLined(LogicalLines(script), NOTHING);
  }

  // ----- the whole script

  function CommandOf(lock: Option<Duration>, mount: bool): Source -> Command {
    src => Command(HeadWords(src, lock, mount), TailWords(src))
  }

  function SourceCommands(sources: seq<Source>, lock: Option<Duration>, mount: bool): seq<Command> {
    Mapped(CommandOf(lock, mount), sources)
  }

  lemma SourceCommandsInit(sources: seq<Source>, lock: Option<Duration>, mount: bool)
    requires sources != []
    ensures var n := |sources| - 1;
      && SourceCommands(sources, lock, mount)[..n] == SourceCommands(sources[..n], lock, mount)
      && SourceLines(sources, lock, mount)
        == SourceLines(sources[..n], lock, mount) + [SourceLine(sources[n], lock, mount)]
  {
    MappedInit(CommandOf(lock, mount), sources);
    MappedInit(LineOf(lock, mount), sources);
  }

  lemma LastCommand(cs: seq<Command>)
    requires cs != [] && TidyCommands(cs)
    ensures TidyCommands(cs[..|cs| - 1]) && TidyCommand(cs[|cs| - 1])
    ensures var c := cs[|cs| - 1]; var init := cs[..|cs| - 1];
      && Texts(cs) == Texts(init) + [PrintCommand(c.head, c.tail)]
      && Logical(cs) == Logical(init) + [Line(c.head + c.tail)]
      && Physical(cs) == Physical(init) + PhysicalLines(c.head, c.tail)
  {
    var init := cs[..|cs| - 1];
    assert forall i :: 0 <= i < |init| ==> init[i] == cs[i];
  }

  lemma {:induction false} TextsOfSources(sources: seq<Source>, lock: Option<Duration>, mount: bool)
    requires forall i :: 0 <= i < |sources| ==> !sources[i].kind.Unknown?
    requires TidyCommands(SourceCommands(sources, lock, mount))
    ensures SourceTexts(sources, lock, mount) == Ok(Texts(SourceCommands(sources, lock, mount)))
    ensures Logical(SourceCommands(sources, lock, mount)) == SourceLines(sources, lock, mount)
  {
    if sources != [] {
      var n := |sources| - 1;
      SourceCommandsInit(sources, lock, mount);
      LastCommand(SourceCommands(sources, lock, mount));
      LastSource(sources, lock, mount);
      TextsOfSources(sources[..n], lock, mount);
    }
  }

  /** The last source, as a command, a text and a line. */
  lemma LastSource(sources: seq<Source>, lock: Option<Duration>, mount: bool)
    requires sources != []
    ensures var n := |sources| - 1; var c := SourceCommands(sources, lock, mount)[n];
      && Line(c.head + c.tail) == SourceLine(sources[n], lock, mount)
      && (!sources[n].kind.Unknown? ==> SourceText(sources[n], lock, mount) == Ok(PrintCommand(c.head, c.tail)))
  {
  }

  lemma {:induction false} KnownSourcesRender(sources: seq<Source>, lock: Option<Duration>, mount: bool)
    requires forall i :: 0 <= i < |sources| ==> !sources[i].kind.Unknown?
    ensures SourceTexts(sources, lock, mount).Ok?
  {
    if sources != [] {
      KnownSourcesRender(sources[..|sources| - 1], lock, mount);
    }
  }

  /** What reading back a printed spec should give. */
  function ReadBackOf(spec: Spec): Parsed {
    Parsed(ExpectedSources(spec.sources), ExpectedRetention(spec.retention), LastEngine(spec.sources, None))
  }

  lemma TidySources(sources: seq<Source>, lock: Option<Duration>, mount: bool)
    requires PlainLock(lock)
    requires forall i :: 0 <= i < |sources| ==> Admitted(sources[i]) && OneLine(sources[i])
    ensures TidyCommands(SourceCommands(sources, lock, mount))
  {
    forall i | 0 <= i < |sources| ensures TidyCommand(SourceCommands(sources, lock, mount)[i]) {
      if sources[i].kind.Files? {
        FilesTidy(sources[i], lock, mount);
      } else {
        DumpTidy(sources[i], lock, mount);
      }
    }
  }

  /** The parse of a script whose texts hold no newline, line group by line group. */
  lemma ScriptParse(spec: Spec, mount: bool)
    requires AdmittedSpec(spec)
    requires forall i :: 0 <= i < |spec.sources| ==> OneLine(spec.sources[i])
    ensures ScriptText(spec, mount).Ok?
    ensures var end := ForgetTexts(spec.retention, spec.retryLock) + [POSTAMBLE];
      ParseScript(ScriptText(spec, mount).value)
      == ParseLines(SourceLines(spec.sources, spec.retryLock, mount) + end, NOTHING)
  {
    var lock := spec.retryLock;
    var cs := SourceCommands(spec.sources, lock, mount);
    TidySources(spec.sources, lock, mount);
    TextsOfSources(spec.sources, lock, mount);
    ForgetFirm(spec.retention, lock);
    var forget := ForgetTexts(spec.retention, lock);
    LogicalScript(cs, forget);
    PreambleIgnored(NOTHING);
    ParseLinesConcat(PREAMBLE, Logical(cs) + (forget + [POSTAMBLE]), NOTHING);
  }

  /** The lines after the sources only set the retention. */
  lemma EndParse(spec: Spec, st: Parsed)
    requires PlainLock(spec.retryLock) && st.retention.None?
    ensures ParseLines(ForgetTexts(spec.retention, spec.retryLock) + [POSTAMBLE], st)
         == Ok(st.(retention := ExpectedRetention(spec.retention)))
  {
    var forget := ForgetTexts(spec.retention, spec.retryLock);
    ParseLinesConcat(forget, [POSTAMBLE], st);
    RetentionRead(spec.retention, spec.retryLock, st);
    PostambleIgnored(st.(retention := ExpectedRetention(spec.retention)));
  }

  lemma OneLineRoundTrip(spec: Spec, mount: bool)
    requires AdmittedSpec(spec)
    requires forall i :: 0 <= i < |spec.sources| ==> OneLine(spec.sources[i])
    ensures ScriptText(spec, mount).Ok?
    ensures ParseScript(ScriptText(spec, mount).value) == Ok(ReadBackOf(spec))
       <==> forall i :: 0 <= i < |spec.sources| ==> Clean(spec.sources[i])
  {
    ScriptParse(spec, mount);
    if forall i :: 0 <= i < |spec.sources| ==> Clean(spec.sources[i]) {
      CleanSpecReads(spec, mount);
    }
    if ParseScript(ScriptText(spec, mount).value) == Ok(ReadBackOf(spec)) {
      ReadSpecIsClean(spec, mount);
    }
  }

  lemma ReadSpecIsClean(spec: Spec, mount: bool)
    requires AdmittedSpec(spec) && forall i :: 0 <= i < |spec.sources| ==> OneLine(spec.sources[i])
    requires ParseLines(SourceLines(spec.sources, spec.retryLock, mount)
      + (ForgetTexts(spec.retention, spec.retryLock) + [POSTAMBLE]), NOTHING)
      == Ok(ReadBackOf(spec))
    ensures forall i :: 0 <= i < |spec.sources| ==> Clean(spec.sources[i])
  {
    assert [] + ExpectedSources(spec.sources) == ExpectedSources(spec.sources);
    ReadSourcesAreClean(spec.sources, spec.retryLock, mount, ForgetTexts(spec.retention, spec.retryLock)
      + [POSTAMBLE], NOTHING);
  }

  lemma CleanSpecReads(spec: Spec, mount: bool)
    requires AdmittedSpec(spec) && forall i :: 0 <= i < |spec.sources| ==> Clean(spec.sources[i])
    ensures ParseLines(SourceLines(spec.sources, spec.retryLock, mount)
      + (ForgetTexts(spec.retention, spec.retryLock) + [POSTAMBLE]), NOTHING)
      == Ok(ReadBackOf(spec))
  {
    var lock := spec.retryLock;
    var lines := SourceLines(spec.sources, lock, mount);
    forall i | 0 <= i < |spec.sources| ensures ReadsAs(lines[i], spec.sources[i]) {
      SourceReadExactly(spec.sources[i], lock, mount);
    }
    ParseLinesConcat(lines, ForgetTexts(spec.retention, lock) + [POSTAMBLE], NOTHING);
    CleanSourcesRead(spec.sources, lines, NOTHING);
    assert [] + ExpectedSources(spec.sources) == ExpectedSources(spec.sources);
    EndParse(spec, ReadBackOf(spec).(retention := None));
  }

  /**
   Reading a rendered script back gives the sources in order, with tag and path spelled out, the
   retention and the last database engine, if and only if every source is clean. This holds with
   and without the secret mount flag, for any retry lock.
   */
  lemma RoundTripExactly(spec: Spec, mount: bool)
    requires AdmittedSpec(spec)
    ensures ScriptText(spec, mount).Ok?
    ensures ParseScript(ScriptText(spec, mount).value) == Ok(ReadBackOf(spec))
       <==> forall i :: 0 <= i < |spec.sources| ==> Clean(spec.sources[i])
  {
    if forall i :: 0 <= i < |spec.sources| ==> OneLine(spec.sources[i]) {
      OneLineRoundTrip(spec, mount);
    } else {
      var k :| 0 <= k < |spec.sources| && !OneLine(spec.sources[k]);
      KnownSourcesRender(spec.sources, spec.retryLock, mount);
      ReadSourcesOneLine(ScriptText(spec, mount).value);
      assert ReadBackOf(spec).sources[k] == Expected(spec.sources[k]);
      assert !SourceOneLine(Expected(spec.sources[k]));
    }
  }
}
