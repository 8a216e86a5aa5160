/** The script reader of internal/cli/helmrelease.go and internal/cli/migrate.go. */
module ScriptParser {
  import opened Outcomes
  import opened Text
  import opened Backup

  // ----- joinContinuations

  datatype Joiner = Joiner(current: string, lines: seq<string>)

  function WithLine(lines: seq<string>, joined: string): seq<string> {
    if joined == [] then lines else lines + [joined]
  }

  function JoinStep(st: Joiner, line: string): Joiner {
    var trimmed := TrimSpace(line);
    match CutLast(trimmed, '\\')
    case Some(after) => st.(current := st.current + TrimSpace(after) + " ")
    case None => Joiner([], WithLine(st.lines, TrimSpace(st.current + trimmed)))
  }

  function JoinRun(lines: seq<string>, st: Joiner): Joiner {
    if lines == [] then st else JoinRun(lines[1..], JoinStep(st, lines[0]))
  }

  /** The logical lines of a script: continuation lines joined, blank ones dropped. */
  function LogicalLines(script: string): seq<string> {
    var st := JoinRun(Split(script, '\n'), Joiner([], []));
    WithLine(st.lines, TrimSpace(st.current))
  }

  method JoinContinuations(script: string) returns (lines: seq<string>)
    ensures lines == LogicalLines(script)
  {
    lines := [];
    var current := "";
    var physical := Split(script, '\n');
    for i := 0 to |physical|
      invariant JoinRun(physical[i..], Joiner(current, lines)) == JoinRun(physical, Joiner([], []))
    {
      assert physical[i..][1..] == physical[i + 1..];
      var trimmed := TrimSpace(physical[i]);
      var after := CutLast(trimmed, '\\');
      if after.Some? {
        current := current + TrimSpace(after.value);
        current := current + " ";
        continue;
      }
      current := current + trimmed;
      var joined := TrimSpace(current);
      if joined != [] {
        lines := lines + [joined];
      }
      current := "";
    }
    var joined := TrimSpace(current);
    if joined != [] {
      lines := lines + [joined];
    }
  }

  // ----- splitArgs

  datatype Splitter = Splitter(args: seq<string>, current: string, inWord: bool, quote: Option<char>)

  predicate QuoteChar(c: char) {
    c == '\'' || c == '"'
  }

  predicate BlankChar(c: char) {
    c == ' ' || c == '\t'
  }

  function SplitStep(st: Splitter, c: char): Splitter {
    if st.quote.Some? then
      if c == st.quote.value then st.(quote := None) else st.(current := st.current + [c])
    else if QuoteChar(c) then
      st.(quote := Some(c), inWord := true)
    else if BlankChar(c) then
      if st.inWord then Splitter(st.args + [st.current], [], false, None) else st
    else
      st.(current := st.current + [c], inWord := true)
  }

  function SplitRun(line: string, st: Splitter): Splitter {
    if line == [] then st else SplitRun(line[1..], SplitStep(st, line[0]))
  }

  function ArgsOf(st: Splitter): seq<string> {
    if st.inWord then st.args + [st.current] else st.args
  }

  const START := Splitter([], [], false, None)

  function Args(line: string): seq<string> {
    ArgsOf(SplitRun(line, START))
  }

  method SplitArgs(line: string) returns (args: seq<string>)
    ensures args == Args(line)
  {
    args := [];
    var current := "";
    var quote: Option<char> := None;
    var inWord := false;
    for i := 0 to |line|
      invariant SplitRun(line[i..], Splitter(args, current, inWord, quote)) == SplitRun(line, START)
    {
      var c := line[i];
      assert line[i..][1..] == line[i + 1..];
      if quote.Some? {
        if c == quote.value {
          quote := None;
        } else {
          current := current + [c];
        }
      } else if c == '\'' || c == '"' {
        quote := Some(c);
        inWord := true;
      } else if c == ' ' || c == '\t' {
        if inWord {
          args := args + [current];
          current := "";
          inWord := false;
        }
      } else {
        current := current + [c];
        inWord := true;
      }
    }
    if inWord {
      args := args + [current];
    }
  }

  // ----- flags and positions

  function FlagPrefix(name: string): string {
    "--" + name + "="
  }

  function FlagValue(args: seq<string>, name: string): Option<string> {
    if args == [] then None
    else if CutPrefix(args[0], FlagPrefix(name)).Some? then CutPrefix(args[0], FlagPrefix(name))
    else FlagValue(args[1..], name)
  }

  function FlagValues(args: seq<string>, name: string): seq<string> {
    if args == [] then []
    else
      var rest := FlagValues(args[1..], name);
      var v := CutPrefix(args[0], FlagPrefix(name));
      if v.Some? then [v.value] + rest else rest
  }

  /** The index of the first argument that equals want, or |args|. */
  function IndexOf(args: seq<string>, want: string): (i: nat)
    ensures i <= |args|
    ensures i < |args| ==> args[i] == want
    ensures forall j :: 0 <= j < i ==> args[j] != want
  {
    if args == [] || args[0] == want then 0 else 1 + IndexOf(args[1..], want)
  }

  function FirstPositional(args: seq<string>): string {
    if args == [] then []
    else if "-" <= args[0] then FirstPositional(args[1..])
    else args[0]
  }

  function Passthrough(args: seq<string>): seq<string> {
    var i := IndexOf(args, "--");
    if i + 1 < |args| then args[i + 1..] else []
  }

  // ----- parseBackupLine

  datatype ParseError =
    | ExcludeCount(parsed: nat, total: nat)
    | UnknownEngine(name: string)
    | NoDumpdb
    | BadRetention

  /** The engine after the first dumpdb, and the arguments after the engine. */
  function ParseDumpdb(args: seq<string>): Result<(SourceType, seq<string>), ParseError> {
    if |args| < 2 then Err(NoDumpdb)
    else if args[0] != "dumpdb" then ParseDumpdb(args[1..])
    else if args[1] == "cnpg" then Ok((CNPG, args[2..]))
    else if args[1] == "mariadb" then Ok((MariaDB, args[2..]))
    else Err(UnknownEngine(args[1]))
  }

  function ValueOr(v: Option<string>): string {
    if v.Some? then v.value else []
  }

  /** A backup command's source, and its engine if it dumps a database. */
  function ParseBackupLine(args: seq<string>): Result<(Source, Option<SourceType>), ParseError>
    requires |args| >= 2
  {
    var tag := ValueOr(FlagValue(args, "tag"));
    var i := IndexOf(args, "--stdin-from-command");
    if i < |args| then
      match ParseDumpdb(args[i..])
      case Err(e) => Err(e)
      case Ok((engine, rest)) =>
        Ok((Source(engine, tag, [], [], ValueOr(FlagValue(rest, "database")), Passthrough(rest)), Some(engine)))
    else
      var excludes := FlagValues(args, "exclude");
      var want := Count(Join(args, " "), "--exclude=");
      if want != |excludes| then Err(ExcludeCount(|excludes|, want))
      else Ok((Source(Files, tag, FirstPositional(args[2..]), excludes, [], []), None))
  }

  // ----- parseRetention

  datatype Unit = Last | Hourly | Daily | Weekly | Monthly | Yearly {
    function Name(): string {
      match this
      case Last => "last"
      case Hourly => "hourly"
      case Daily => "daily"
      case Weekly => "weekly"
      case Monthly => "monthly"
      case Yearly => "yearly"
    }

    function Of(r: Retention): Option<int32> {
      match this
      case Last => r.last
      case Hourly => r.hourly
      case Daily => r.daily
      case Weekly => r.weekly
      case Monthly => r.monthly
      case Yearly => r.yearly
    }

    function Set(r: Retention, n: int32): Retention {
      match this
      case Last => r.(last := Some(n))
      case Hourly => r.(hourly := Some(n))
      case Daily => r.(daily := Some(n))
      case Weekly => r.(weekly := Some(n))
      case Monthly => r.(monthly := Some(n))
      case Yearly => r.(yearly := Some(n))
    }
  }

  const NO_RETENTION := Retention(None, None, None, None, None, None)

  /** The value of one keep flag: absent, a number, or not a number. */
  function KeepValue(args: seq<string>, unit: Unit): Result<Option<int32>, ParseError> {
    match FlagValue(args, "keep-" + unit.Name())
    case None => Ok(None)
    case Some(v) =>
      match ParseInt(v, INT32_LIMIT)
      case None => Err(BadRetention)
      case Some(n) => Ok(Some(n))
  }

  /** No retention if no keep flag is given; an error if any given one is not a number. */
  function Retained(args: seq<string>): Result<Option<Retention>, ParseError> {
    var last, hourly, daily := KeepValue(args, Last), KeepValue(args, Hourly), KeepValue(args, Daily);
    var weekly, monthly, yearly := KeepValue(args, Weekly), KeepValue(args, Monthly), KeepValue(args, Yearly);
    if last.Err? || hourly.Err? || daily.Err? || weekly.Err? || monthly.Err? || yearly.Err? then
      Err(BadRetention)
    else
      var r := Retention(last.value, hourly.value, daily.value, weekly.value, monthly.value, yearly.value);
      Ok(if r == NO_RETENTION then None else Some(r))
  }

  lemma SetOneUnit(u: Unit, r: Retention, n: int32)
    ensures forall v: Unit :: v.Of(u.Set(r, n)) == if v == u then Some(n) else v.Of(r)
    ensures u.Set(r, n) != NO_RETENTION
  {
    assert u.Of(u.Set(r, n)) == Some(n);
  }

  lemma RetainedWhole(args: seq<string>, r: Retention)
    requires forall u: Unit :: KeepValue(args, u) == Ok(u.Of(r))
    ensures Retained(args) == Ok(if r == NO_RETENTION then None else Some(r))
  {
    assert KeepValue(args, Last) == Ok(r.last) && KeepValue(args, Hourly) == Ok(r.hourly);
    assert KeepValue(args, Daily) == Ok(r.daily) && KeepValue(args, Weekly) == Ok(r.weekly);
    assert KeepValue(args, Monthly) == Ok(r.monthly) && KeepValue(args, Yearly) == Ok(r.yearly);
  }

  lemma RetainedFails(args: seq<string>, u: Unit)
    requires KeepValue(args, u).Err?
    ensures Retained(args) == Err(BadRetention)
  {
    match u
    case Last =>
    case Hourly =>
    case Daily =>
    case Weekly =>
    case Monthly =>
    case Yearly =>
  }

  /** The flags are visited in the arbitrary order of a Go map; the outcome does not depend on it. */
  method ParseRetention(args: seq<string>) returns (kept: Result<Option<Retention>, ParseError>)
    ensures kept == Retained(args)
  {
    var r := NO_RETENTION;
    var found := false;
    var left := {Last, Hourly, Daily, Weekly, Monthly, Yearly};
    while left != {}
      invariant forall u: Unit :: u in left ==> u.Of(r) == None
      invariant forall u: Unit :: u !in left ==> KeepValue(args, u) == Ok(u.Of(r))
      invariant found <==> r != NO_RETENTION
      decreases left
    {
      var unit :| unit in left;
      left := left - {unit};
      var value := FlagValue(args, "keep-" + unit.Name());
      if value.None? {
        continue;
      }
      var n := ParseInt(value.value, INT32_LIMIT);
      if n.None? {
        RetainedFails(args, unit);
        return Err(BadRetention);
      }
      SetOneUnit(unit, r, n.value);
      r := unit.Set(r, n.value);
      found := true;
    }
    RetainedWhole(args, r);
    return if found then Ok(Some(r)) else Ok(None);
  }

  // ----- parseBackupScript

  datatype Parsed = Parsed(sources: seq<Source>, retention: Option<Retention>, engine: Option<SourceType>)

  /** The effect of one logical line, given its arguments. */
  function ParseStep(st: Parsed, args: seq<string>): Result<Parsed, ParseError> {
    if |args| < 2 || args[0] != "restic" then Ok(st)
    else if args[1] == "backup" then
      match ParseBackupLine(args)
      case Err(e) => Err(e)
      case Ok((source, engine)) =>
        Ok(st.(sources := st.sources + [source], engine := if engine.Some? then engine else st.engine))
    else if args[1] == "forget" then
      match Retained(args)
      case Err(e) => Err(e)
      case Ok(r) => Ok(st.(retention := r))
    else Ok(st)
  }

  function ParseLines(lines: seq<string>, st: Parsed): Result<Parsed, ParseError> {
    if lines == [] then Ok(st)
    else
      match ParseStep(st, Args(lines[0]))
      case Err(e) => Err(e)
      case Ok(st') => ParseLines(lines[1..], st')
  }

  const NOTHING := Parsed([], None, None)

  function ParseScript(script: string): Result<Parsed, ParseError> {
    ParseLines(LogicalLines(script), NOTHING)
  }

  method ParseBackupScript(script: string) returns (r: Result<Parsed, ParseError>)
    ensures r == ParseScript(script)
  {
    var sources: seq<Source> := [];
    var retention: Option<Retention> := None;
    var engine: Option<SourceType> := None;
    var lines := JoinContinuations(script);
    for k := 0 to |lines|
      invariant ParseLines(lines[k..], Parsed(sources, retention, engine)) == ParseLines(lines, NOTHING)
    {
      assert lines[k..][1..] == lines[k + 1..];
      var args := SplitArgs(lines[k]);
      if |args| < 2 || args[0] != "restic" {
        continue;
      }
      if args[1] == "backup" {
        var line := ParseBackupLine(args);
        if line.Err? {
          return Err(line.error);
        }
        if line.value.1.Some? {
          engine := line.value.1;
        }
        sources := sources + [line.value.0];
      } else if args[1] == "forget" {
        var kept := ParseRetention(args);
        if kept.Err? {
          return Err(kept.error);
        }
        retention := kept.value;
      }
    }
    return Ok(Parsed(sources, retention, engine));
  }
}
