/**
 * What the script reader makes of the arguments of a line, whatever they are, and of a whole script:
 * internal/cli/migrate.go and internal/cli/helmrelease.go.
 */
module LineReading {
  import opened Outcomes
  import opened Text
  import opened Backup
  import opened ScriptParser

  // ----- flags

  /** The first argument that starts with the prefix. */
  predicate FirstWith(args: seq<string>, prefix: string, i: int) {
    0 <= i < |args| && prefix <= args[i] && forall j :: 0 <= j < i ==> !(prefix <= args[j])
  }

  /** A flag's value is what follows its prefix in the first argument that has it. */
  lemma {:induction false} FlagExactly(args: seq<string>, name: string)
    ensures match FlagValue(args, name)
            case Some(v) => exists i :: FirstWith(args, "--" + name + "=", i) && args[i] == "--" + name + "=" + v
            case None => forall i :: 0 <= i < |args| ==> !("--" + name + "=" <= args[i])
  {
    var prefix := "--" + name + "=";
    if args != [] {
      if prefix <= args[0] {
        assert FirstWith(args, prefix, 0);
      } else {
        FlagExactly(args[1..], name);
        if FlagValue(args[1..], name).Some? {
          var i :| FirstWith(args[1..], prefix, i) && args[1..][i] == prefix + FlagValue(args[1..], name).value;
          assert FirstWith(args, prefix, i + 1);
        } else {
          forall i | 0 <= i < |args| ensures !(prefix <= args[i]) {
            assert i > 0 ==> args[i] == args[1..][i - 1];
          }
        }
      }
    }
  }

  /** All values of a flag: one for each argument that has it, in order. */
  lemma {:induction false} FlagsExactly(a: seq<string>, arg: string, b: seq<string>, name: string)
    ensures FlagValues([], name) == []
    ensures FlagValues(a + [arg] + b, name) == FlagValues(a, name)
      + (if "--" + name + "=" <= arg then [arg[|name| + 3..]] else []) + FlagValues(b, name)
  {
    if a == [] {
      assert a + [arg] + b == [arg] + b;
      assert ([arg] + b)[1..] == b;
    } else {
      assert (a + [arg] + b)[1..] == a[1..] + [arg] + b;
      FlagsExactly(a[1..], arg, b, name);
    }
  }

  /** The first argument that is no flag, or nothing. */
  lemma {:induction false} PositionalExactly(args: seq<string>)
    ensures (forall i :: 0 <= i < |args| ==> "-" <= args[i]) ==> FirstPositional(args) == ""
    ensures (exists i :: 0 <= i < |args| && !("-" <= args[i])) ==>
      exists i :: 0 <= i < |args| && args[i] == FirstPositional(args) && !("-" <= args[i])
        && forall j :: 0 <= j < i ==> "-" <= args[j]
  {
    if args != [] && "-" <= args[0] {
      PositionalExactly(args[1..]);
      if exists i :: 0 <= i < |args| && !("-" <= args[i]) {
        var i :| 0 <= i < |args| && !("-" <= args[i]);
        assert args[1..][i - 1] == args[i];
        var k :| 0 <= k < |args[1..]| && args[1..][k] == FirstPositional(args[1..]) && !("-" <= args[1..][k])
          && forall j :: 0 <= j < k ==> "-" <= args[1..][j];
        assert args[k + 1] == FirstPositional(args);
        forall j | 0 <= j < k + 1 ensures "-" <= args[j] {
          assert j > 0 ==> args[j] == args[1..][j - 1];
        }
      }
    }
  }

  /** Everything behind the first double dash. */
  lemma PassthroughExactly(args: seq<string>)
    ensures "--" !in args ==> Passthrough(args) == []
    ensures "--" in args ==>
      exists i :: 0 <= i < |args| && args[i] == "--" && "--" !in args[..i] && Passthrough(args) == args[i + 1..]
  {
    var i := IndexOf(args, "--");
    if "--" in args {
      assert "--" !in args[..i];
      if i + 1 == |args| {
        assert args[i + 1..] == [];
      }
    }
  }

  // ----- one backup command

  /** The first dumpdb with an argument behind it. */
  predicate DumpdbAt(args: seq<string>, i: int) {
    && 0 <= i < |args| - 1 && args[i] == "dumpdb"
    && forall j :: 0 <= j < i ==> args[j] != "dumpdb"
  }

  lemma {:induction false} DumpdbExactly(args: seq<string>)
    ensures match ParseDumpdb(args)
            case Ok((engine, rest)) =>
              exists i :: DumpdbAt(args, i) && rest == args[i + 2..] && (engine == CNPG || engine == MariaDB)
                && args[i + 1] == (if engine == CNPG then "cnpg" else "mariadb")
            case Err(NoDumpdb) => forall i :: !DumpdbAt(args, i)
            case Err(UnknownEngine(name)) =>
              name != "cnpg" && name != "mariadb" && exists i :: DumpdbAt(args, i) && args[i + 1] == name
            case Err(_) => false
  {
    if |args| >= 2 {
      if args[0] == "dumpdb" {
        assert DumpdbAt(args, 0);
      } else {
        DumpdbExactly(args[1..]);
        forall i ensures DumpdbAt(args[1..], i) <==> DumpdbAt(args, i + 1) {
          if DumpdbAt(args[1..], i) {
            assert forall j :: 0 < j < i + 1 ==> args[j] == args[1..][j - 1];
          }
        }
        assert !DumpdbAt(args, 0);
        assert forall i :: DumpdbAt(args, i) ==> DumpdbAt(args[1..], i - 1);
        assert forall i :: DumpdbAt(args[1..], i) ==> args[1..][i + 2..] == args[i + 3..];
      }
    }
  }

  /**
   * A backup command is read as one of files unless it takes its data from a command. Of files, it is refused if and
   * only if not every exclude flag in its text starts an argument.
   */
  lemma BackupLineExactly(args: seq<string>)
    requires |args| >= 2
    ensures var r, dump := ParseBackupLine(args), IndexOf(args, "--stdin-from-command");
      var tag := FlagValue(args, "tag");
      if "--stdin-from-command" in args then
        match ParseDumpdb(args[dump..])
        case Err(e) => r == Err(e)
        case Ok((engine, rest)) =>
          && r.Ok? && r.value.1 == Some(engine)
          && r.value.0 == Source(engine, if tag.Some? then tag.value else "", "", [],
               if FlagValue(rest, "database").Some? then FlagValue(rest, "database").value else "", Passthrough(rest))
      else
        var found := Count(Join(args, " "), "--exclude=");
        && (r.Ok? <==> found == |FlagValues(args, "exclude")|)
        && (r.Err? ==> r.error == ExcludeCount(|FlagValues(args, "exclude")|, found))
        && (r.Ok? ==>
              && r.value.1.None?
              && r.value.0 == Source(Files, if tag.Some? then tag.value else "", FirstPositional(args[2..]),
                   FlagValues(args, "exclude"), "", []))
  {
  }

  // ----- the retention

  /** What a flag of a unit keeps: nothing without one, and no value if it is not a number of 32 bits. */
  predicate KeepsExactly(args: seq<string>, flag: string, kept: Option<int32>) {
    match FlagValue(args, flag)
    case None => kept == None
    case Some(v) => kept.Some? && ParseInt(v, 0x8000_0000) == Some(kept.value)
  }

  predicate NoNumber(args: seq<string>, flag: string) {
    FlagValue(args, flag).Some? && ParseInt(FlagValue(args, flag).value, 0x8000_0000).None?
  }

  predicate RetentionOf(args: seq<string>, r: Retention) {
    && KeepsExactly(args, "keep-last", r.last) && KeepsExactly(args, "keep-hourly", r.hourly)
    && KeepsExactly(args, "keep-daily", r.daily) && KeepsExactly(args, "keep-weekly", r.weekly)
    && KeepsExactly(args, "keep-monthly", r.monthly) && KeepsExactly(args, "keep-yearly", r.yearly)
  }

  lemma KeepFlagNames()
    ensures "keep-" + "last" == "keep-last" && "keep-" + "hourly" == "keep-hourly" && "keep-" + "daily" == "keep-daily"
    ensures "keep-" + "weekly" == "keep-weekly" && "keep-" + "monthly" == "keep-monthly"
    ensures "keep-" + "yearly" == "keep-yearly"
  {
  }

  lemma KeepValueExactly(args: seq<string>, unit: Unit, flag: string)
    requires "keep-" + unit.Name() == flag
    ensures var r := KeepValue(args, unit);
      && (r.Err? <==> NoNumber(args, flag)) && (r.Err? ==> r.error == BadRetention)
      && (r.Ok? ==> KeepsExactly(args, flag, r.value))
  {
  }

  /**
   * Every unit is read from its own flag. It is an error if and only if some flag is not a number, and without any flag
   * there is no retention.
   */
  lemma RetentionExactly(args: seq<string>)
    ensures var r := Retained(args);
      && (r.Err? <==>
            || NoNumber(args, "keep-last") || NoNumber(args, "keep-hourly") || NoNumber(args, "keep-daily")
            || NoNumber(args, "keep-weekly") || NoNumber(args, "keep-monthly") || NoNumber(args, "keep-yearly"))
      && (r.Ok? && r.value.Some? ==> RetentionOf(args, r.value.value))
      && (r.Ok? && r.value.None? ==> RetentionOf(args, Retention(None, None, None, None, None, None)))
      && (r.Ok? ==> r.value != Some(Retention(None, None, None, None, None, None)))
  {
    KeepFlagNames();
    KeepValueExactly(args, Last, "keep-last");
    KeepValueExactly(args, Hourly, "keep-hourly");
    KeepValueExactly(args, Daily, "keep-daily");
    KeepValueExactly(args, Weekly, "keep-weekly");
    KeepValueExactly(args, Monthly, "keep-monthly");
    KeepValueExactly(args, Yearly, "keep-yearly");
  }

  // ----- the script

  predicate IsBackup(args: seq<string>) {
    |args| >= 2 && args[0] == "restic" && args[1] == "backup"
  }

  predicate IsForget(args: seq<string>) {
    |args| >= 2 && args[0] == "restic" && args[1] == "forget"
  }

  /** A line that stops the reading. */
  predicate Unreadable(args: seq<string>) {
    (IsBackup(args) && ParseBackupLine(args).Err?) || (IsForget(args) && Retained(args).Err?)
  }

  /** The last of the lines with this property. */
  predicate LastLine(lines: seq<string>, holds: seq<string> -> bool, k: int) {
    && 0 <= k < |lines| && holds(Args(lines[k]))
    && forall j :: k < j < |lines| ==> !holds(Args(lines[j]))
  }

  predicate NoLine(lines: seq<string>, holds: seq<string> -> bool) {
    forall j :: 0 <= j < |lines| ==> !holds(Args(lines[j]))
  }

  /** What the backup commands among the lines back up, in order. */
  function BackedUp(lines: seq<string>): seq<Source> {
    if lines == [] then []
    else
      var args := Args(lines[|lines| - 1]);
      BackedUp(lines[..|lines| - 1])
        + if IsBackup(args) && ParseBackupLine(args).Ok? then [ParseBackupLine(args).value.0] else []
  }

  predicate Dumps(args: seq<string>) {
    IsBackup(args) && ParseBackupLine(args).Ok? && ParseBackupLine(args).value.1.Some?
  }

  /** The lines give what is read: all sources, the retention of the last forget, the engine of the last dump. */
  predicate ReadFrom(p: Parsed, lines: seq<string>) {
    && p.sources == BackedUp(lines)
    && (NoLine(lines, IsForget) ==> p.retention == None)
    && (forall k :: 0 <= k < |lines| && LastLine(lines, IsForget, k) ==> Retained(Args(lines[k])) == Ok(p.retention))
    && (NoLine(lines, Dumps) ==> p.engine == None)
    && (forall k :: 0 <= k < |lines| && LastLine(lines, Dumps, k) ==>
          ParseBackupLine(Args(lines[k])).value.1 == p.engine)
  }

  lemma {:induction false} ParseLinesSnoc(lines: seq<string>, line: string, st: Parsed)
    ensures ParseLines(lines + [line], st)
      == match ParseLines(lines, st)
         case Err(e) => Err(e)
         case Ok(st') => ParseStep(st', Args(line))
  {
    if lines == [] {
      assert (lines + [line])[1..] == [];
      assert forall st' :: ParseLines([], st') == Ok(st');
    } else {
      assert (lines + [line])[1..] == lines[1..] + [line];
      match ParseStep(st, Args(lines[0])) {
        case Ok(st') => ParseLinesSnoc(lines[1..], line, st');
        case Err(_) =>
      }
    }
  }

  lemma LastOfMore(lines: seq<string>, line: string, holds: seq<string> -> bool)
    ensures forall k :: LastLine(lines + [line], holds, k) <==>
      if holds(Args(line)) then k == |lines| else LastLine(lines, holds, k)
    ensures NoLine(lines + [line], holds) <==> NoLine(lines, holds) && !holds(Args(line))
    ensures BackedUp(lines + [line]) == BackedUp(lines)
      + if IsBackup(Args(line)) && ParseBackupLine(Args(line)).Ok? then [ParseBackupLine(Args(line)).value.0] else []
  {
    var all := lines + [line];
    assert all[..|lines|] == lines && all[|lines|] == line;
    forall k
      ensures LastLine(all, holds, k) <==> if holds(Args(line)) then k == |lines| else LastLine(lines, holds, k)
    {
      if 0 <= k < |lines| {
        assert LastLine(all, holds, k) ==> !holds(Args(all[|lines|]));
      }
    }
    assert NoLine(all, holds) ==> !holds(Args(all[|lines|]));
  }

  /** A read line adds what it says; one that is no backup or forget says nothing. */
  lemma StepReads(p: Parsed, lines: seq<string>, line: string)
    requires ReadFrom(p, lines)
    ensures ParseStep(p, Args(line)).Err? <==> Unreadable(Args(line))
    ensures ParseStep(p, Args(line)).Ok? ==> ReadFrom(ParseStep(p, Args(line)).value, lines + [line])
  {
    LastOfMore(lines, line, IsForget);
    LastOfMore(lines, line, Dumps);
    assert (lines + [line])[|lines|] == line;
    assert forall k :: 0 <= k < |lines| ==> (lines + [line])[k] == lines[k];
  }

  predicate AllRead(lines: seq<string>) {
    forall k :: 0 <= k < |lines| ==> !Unreadable(Args(lines[k]))
  }

  lemma AllReadSnoc(lines: seq<string>, line: string)
    ensures AllRead(lines + [line]) <==> AllRead(lines) && !Unreadable(Args(line))
  {
    var all := lines + [line];
    assert all[|lines|] == line && forall k :: 0 <= k < |lines| ==> all[k] == lines[k];
  }

  lemma NothingRead()
    ensures ParseLines([], NOTHING) == Ok(NOTHING) && AllRead([]) && ReadFrom(NOTHING, [])
  {
  }

  lemma OneMoreLine(lines: seq<string>, line: string)
    requires ParseLines(lines, NOTHING).Ok? <==> AllRead(lines)
    requires ParseLines(lines, NOTHING).Ok? ==> ReadFrom(ParseLines(lines, NOTHING).value, lines)
    ensures var r := ParseLines(lines + [line], NOTHING);
      (r.Ok? <==> AllRead(lines + [line])) && (r.Ok? ==> ReadFrom(r.value, lines + [line]))
  {
    ParseLinesSnoc(lines, line, NOTHING);
    AllReadSnoc(lines, line);
    if ParseLines(lines, NOTHING).Ok? {
      StepReads(ParseLines(lines, NOTHING).value, lines, line);
    }
  }

  /** A script is read if and only if each of its lines is, and then its lines give what is read. */
  lemma {:induction false} ScriptExactly(lines: seq<string>)
    ensures ParseLines(lines, NOTHING).Ok? <==> AllRead(lines)
    ensures ParseLines(lines, NOTHING).Ok? ==> ReadFrom(ParseLines(lines, NOTHING).value, lines)
  {
    if lines == [] {
      NothingRead();
    } else {
      var init, line := lines[..|lines| - 1], lines[|lines| - 1];
      assert init + [line] == lines;
      ScriptExactly(init);
      OneMoreLine(init, line);
    }
  }
}
