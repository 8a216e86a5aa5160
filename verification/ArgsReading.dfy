/** What parseBackupLine and parseRetention read from the argument lists the printer intends. */
module ArgsReading {
  import opened Outcomes
  import opened Text
  import opened Backup
  import opened Script
  import opened ScriptMeaning
  import opened ScriptParser

  const EXCLUDE := "--exclude="

  // ----- flags in concatenated argument lists

  lemma {:induction false} FlagValueConcat(a: seq<string>, b: seq<string>, name: string)
    ensures FlagValue(a + b, name) == if FlagValue(a, name).Some? then FlagValue(a, name) else FlagValue(b, name)
  {
    if a == [] {
      assert a + b == b;
    } else {
      assert (a + b)[1..] == a[1..] + b;
      FlagValueConcat(a[1..], b, name);
    }
  }

  lemma {:induction false} FlagValuesConcat(a: seq<string>, b: seq<string>, name: string)
    ensures FlagValues(a + b, name) == FlagValues(a, name) + FlagValues(b, name)
  {
    if a == [] {
      assert a + b == b;
    } else {
      assert (a + b)[1..] == a[1..] + b;
      FlagValuesConcat(a[1..], b, name);
    }
  }

  lemma {:induction false} IndexOfConcat(a: seq<string>, b: seq<string>, want: string)
    requires want !in a
    ensures IndexOf(a + b, want) == |a| + IndexOf(b, want)
  {
    if a == [] {
      assert a + b == b;
    } else {
      assert a[0] in a;
      assert (a + b)[1..] == a[1..] + b;
      IndexOfConcat(a[1..], b, want);
    }
  }

  lemma {:induction false} FirstPositionalSkips(a: seq<string>, b: seq<string>)
    requires forall i :: 0 <= i < |a| ==> "-" <= a[i]
    ensures FirstPositional(a + b) == FirstPositional(b)
  {
    if a == [] {
      assert a + b == b;
    } else {
      assert (a + b)[1..] == a[1..] + b;
      FirstPositionalSkips(a[1..], b);
    }
  }

  /** No argument of the list carries the flag. */
  predicate Lacks(args: seq<string>, prefix: string) {
    forall i :: 0 <= i < |args| ==> !(prefix <= args[i])
  }

  lemma {:induction false} LackingFlag(args: seq<string>, name: string)
    requires Lacks(args, FlagPrefix(name))
    ensures FlagValue(args, name).None? && FlagValues(args, name) == []
  {
    if args != [] {
      LackingFlag(args[1..], name);
    }
  }

  lemma FlagHere(args: seq<string>, name: string, value: string)
    requires args != [] && args[0] == FlagPrefix(name) + value
    ensures FlagValue(args, name) == Some(value)
  {
    assert CutPrefix(args[0], FlagPrefix(name)) == Some(value);
  }

  lemma FlagLiterals()
    ensures FlagPrefix("tag") == "--tag=" && FlagPrefix("exclude") == EXCLUDE && FlagPrefix("database") == "--database="
  {
  }

  // ----- the words every backup command starts with

  function TagText(src: Source): string {
    "--tag=" + src.EffectiveTag()
  }

  lemma StartFacts(src: Source, lock: Option<Duration>)
    ensures Lacks(["restic", "backup"] + LockWords(lock), FlagPrefix("tag"))
    ensures Lacks(StartWords(src, lock), FlagPrefix("exclude"))
    ensures "--stdin-from-command" !in StartWords(src, lock)
  {
    FlagLiterals();
    var words := StartWords(src, lock);
    forall i | 0 <= i < |words| ensures !(EXCLUDE <= words[i]) && words[i] != "--stdin-from-command" {
      assert words[i] == "restic" || words[i] == "backup"
          || (lock.Some? && words[i] == "--retry-lock=" + lock.value.text) || words[i] == TagText(src);
      assert words[i][0] != '-' || words[i][2] == 'r' || words[i][2] == 't';
    }
    var two := ["restic", "backup"] + LockWords(lock);
    forall i | 0 <= i < |two| ensures !("--tag=" <= two[i]) {
      assert two[i][0] != '-' || two[i][2] == 'r';
    }
  }

  /** The tag of a command that starts with the printed words is the printed tag. */
  lemma TagRead(src: Source, lock: Option<Duration>, more: seq<string>)
    ensures FlagValue(StartWords(src, lock) + more, "tag") == Some(src.EffectiveTag())
  {
    var two := ["restic", "backup"] + LockWords(lock);
    StartFacts(src, lock);
    LackingFlag(two, "tag");
    assert StartWords(src, lock) + more == two + ([TagText(src)] + more);
    FlagValueConcat(two, [TagText(src)] + more, "tag");
    FlagLiterals();
    FlagHere([TagText(src)] + more, "tag", src.EffectiveTag());
  }

  /** The first positional argument is looked for behind the tag. */
  lemma PositionalRead(src: Source, lock: Option<Duration>, more: seq<string>)
    ensures FirstPositional((StartWords(src, lock) + more)[2..]) == FirstPositional(more)
  {
    var flags := LockWords(lock) + [TagText(src)];
    assert (StartWords(src, lock) + more)[2..] == flags + more;
    forall i | 0 <= i < |flags| ensures "-" <= flags[i] {
      assert flags[i][0] == '-';
    }
    FirstPositionalSkips(flags, more);
  }

  // ----- counting exclude flags

  function CountWords(args: seq<string>): nat {
    if args == [] then 0 else Count(args[0], EXCLUDE) + CountWords(args[1..])
  }

  lemma {:induction false} CountJoin(args: seq<string>)
    ensures Count(Join(args, " "), EXCLUDE) == CountWords(args)
  {
    if |args| > 1 {
      CountJoin(args[1..]);
      assert ' ' !in EXCLUDE;
      CountAcross(args[0], ' ', Join(args[1..], " "), EXCLUDE);
      assert args[0] + " " + Join(args[1..], " ") == args[0] + [' '] + Join(args[1..], " ");
    } else if |args| == 1 {
      assert CountWords(args[1..]) == 0;
    }
  }

  lemma {:induction false} CountWordsConcat(a: seq<string>, b: seq<string>)
    ensures CountWords(a + b) == CountWords(a) + CountWords(b)
  {
    if a == [] {
      assert a + b == b;
    } else {
      assert (a + b)[1..] == a[1..] + b;
      CountWordsConcat(a[1..], b);
    }
  }

  lemma ExcludeFlagAt(w: string, i: nat)
    requires i <= |w| && EXCLUDE <= w[i..]
    ensures i + 9 < |w| && w[i + 9] == '=' && w[i] == '-'
  {
    assert w[i + 9] == w[i..][9] == EXCLUDE[9];
    assert w[i] == w[i..][0] == EXCLUDE[0];
  }

  /** An exclude flag in w ends in an equals sign nine characters behind a dash. */
  lemma NoExcludeFlag(w: string)
    requires forall i :: 9 <= i < |w| && w[i] == '=' ==> w[i - 9] != '-'
    ensures Count(w, EXCLUDE) == 0
  {
    forall i | 0 <= i <= |w| && EXCLUDE <= w[i..] ensures false {
      ExcludeFlagAt(w, i);
    }
    CountZero(w, EXCLUDE);
  }

  lemma StartCount(src: Source, lock: Option<Duration>)
    requires TagAdmitted(src.tag) && PlainLock(lock)
    ensures CountWords(StartWords(src, lock)) == 0
  {
    var tag := TagText(src);
    assert Count(tag, EXCLUDE) == 0 by {
      forall i | 6 <= i < |tag| ensures tag[i] != '=' {
        assert src.tag != [] ==> tag[i] == src.tag[i - 6] && TagChar(tag[i]);
      }
      NoExcludeFlag(tag);
    }
    assert CountWords(LockWords(lock)) == 0 by {
      if LockWords(lock) != [] {
        LockCount(lock.value.text);
      }
    }
    CountWordsConcat(["restic", "backup"] + LockWords(lock), [tag]);
    CountWordsConcat(["restic", "backup"], LockWords(lock));
    assert CountWords([tag]) == 0 by { assert [tag][1..] == []; }
    assert CountWords(["restic", "backup"]) == 0 by {
      assert ["restic", "backup"][1..] == ["backup"] && ["backup"][1..] == [];
    }
  }

  lemma LockCount(d: string)
    requires DurationText(d)
    ensures CountWords(["--retry-lock=" + d]) == 0
  {
    var w := "--retry-lock=" + d;
    forall i | 9 <= i < |w| && w[i] == '=' ensures w[i - 9] != '-' {
      assert i >= 13 ==> w[i] == d[i - 13] && DurationChar(w[i]);
    }
    NoExcludeFlag(w);
    assert [w][1..] == [];
  }

  // ----- exclude words

  function ExcludeArgs(exclude: seq<string>): seq<string> {
    seq(|exclude|, i requires 0 <= i < |exclude| => EXCLUDE + exclude[i])
  }

  function CountPatterns(exclude: seq<string>): nat {
    if exclude == [] then 0 else Count(exclude[0], EXCLUDE) + CountPatterns(exclude[1..])
  }

  lemma {:induction false} ExcludesRead(exclude: seq<string>)
    ensures FlagValues(ExcludeArgs(exclude), "exclude") == exclude
    ensures CountWords(ExcludeArgs(exclude)) == |exclude| + CountPatterns(exclude)
    ensures "--stdin-from-command" !in ExcludeArgs(exclude)
  {
    if exclude != [] {
      var args := ExcludeArgs(exclude);
      ExcludesRead(exclude[1..]);
      assert args[1..] == ExcludeArgs(exclude[1..]);
      FlagLiterals();
      assert CutPrefix(args[0], EXCLUDE) == Some(exclude[0]);
      assert [exclude[0]] + exclude[1..] == exclude;
      assert EXCLUDE <= args[0] && args[0][|EXCLUDE|..] == exclude[0];
      forall i | 0 <= i < |args| ensures args[i] != "--stdin-from-command" {
        assert args[i][2] == 'e';
      }
    }
  }

  lemma {:induction false} NoPatterns(exclude: seq<string>)
    ensures CountPatterns(exclude) == 0 <==> forall i :: 0 <= i < |exclude| ==> !Contains(exclude[i], EXCLUDE)
  {
    if exclude != [] {
      NoPatterns(exclude[1..]);
      CountZero(exclude[0], EXCLUDE);
      assert forall i :: 1 <= i < |exclude| ==> exclude[i] == exclude[1..][i - 1];
    }
  }

  // ----- files sources

  /** A files source as the reader would have it: with its tag and path spelled out. */
  function Expected(src: Source): Source {
    if src.kind.Files? then Source(Files, src.EffectiveTag(), src.EffectivePath(), src.exclude, [], [])
    else Source(src.kind, src.EffectiveTag(), [], [], src.database, src.extraArgs)
  }

  function Engine(src: Source): Option<SourceType> {
    if src.kind.Files? then None else Some(src.kind)
  }

  function FilesArgs(src: Source, lock: Option<Duration>): seq<string> {
    StartWords(src, lock) + ([src.EffectivePath()] + ExcludeArgs(src.exclude))
  }

  lemma FilesFlags(src: Source, lock: Option<Duration>)
    requires src.kind.Files? && !("-" <= src.EffectivePath())
    ensures FlagValues(FilesArgs(src, lock), "exclude") == src.exclude
    ensures IndexOf(FilesArgs(src, lock), "--stdin-from-command") == |FilesArgs(src, lock)|
  {
    var path := src.EffectivePath();
    var start, rest := StartWords(src, lock), [path] + ExcludeArgs(src.exclude);
    StartFacts(src, lock);
    ExcludesRead(src.exclude);
    FlagLiterals();
    assert path[0] != '-';
    assert "--stdin-from-command" !in rest;
    IndexOfConcat(start, rest, "--stdin-from-command");
    LackingFlag(start, "exclude");
    FlagValuesConcat(start, rest, "exclude");
    assert rest[1..] == ExcludeArgs(src.exclude);
  }

  lemma FilesCount(src: Source, lock: Option<Duration>)
    requires src.kind.Files? && TagAdmitted(src.tag) && PlainLock(lock)
    ensures Count(Join(FilesArgs(src, lock), " "), EXCLUDE)
         == Count(src.EffectivePath(), EXCLUDE) + |src.exclude| + CountPatterns(src.exclude)
  {
    var rest := [src.EffectivePath()] + ExcludeArgs(src.exclude);
    CountJoin(FilesArgs(src, lock));
    StartCount(src, lock);
    CountWordsConcat(StartWords(src, lock), rest);
    ExcludesRead(src.exclude);
    assert rest[1..] == ExcludeArgs(src.exclude);
  }

  /** The intended arguments of a files source parse to it unless an exclude flag is embedded in a word. */
  lemma FilesRead(src: Source, lock: Option<Duration>)
    requires src.kind.Files? && TagAdmitted(src.tag) && PlainLock(lock)
    requires !("-" <= src.EffectivePath())
    ensures ParseBackupLine(FilesArgs(src, lock)) ==
      var extra := Count(src.EffectivePath(), EXCLUDE) + CountPatterns(src.exclude);
      if extra == 0 then Ok((Expected(src), None))
      else Err(ExcludeCount(|src.exclude|, |src.exclude| + extra))
  {
    var rest := [src.EffectivePath()] + ExcludeArgs(src.exclude);
    TagRead(src, lock, rest);
    PositionalRead(src, lock, rest);
    FilesFlags(src, lock);
    FilesCount(src, lock);
  }

  // ----- database sources

  function DumpRest(src: Source, mount: bool): seq<string> {
    MountWords(mount) + ((if src.database == [] then [] else ["--database=" + src.database])
      + ExtraWords(src.extraArgs))
  }

  function DumpArgs(src: Source, lock: Option<Duration>, mount: bool): seq<string> {
    StartWords(src, lock) + (DumpWords(src.kind) + DumpRest(src, mount))
  }

  /** The database the reader finds: the flag's, or else one smuggled in by an extra argument. */
  function ReadDatabase(src: Source): string {
    if src.database != [] then src.database else ValueOr(FlagValue(src.extraArgs, "database"))
  }

  lemma DatabaseRead(src: Source, mount: bool)
    ensures ValueOr(FlagValue(DumpRest(src, mount), "database")) == ReadDatabase(src)
  {
    FlagLiterals();
    var flag := if src.database == [] then [] else ["--database=" + src.database];
    var extra := ExtraWords(src.extraArgs);
    FlagValueConcat(MountWords(mount), flag + extra, "database");
    LackingFlag(MountWords(mount), "database") by {
      forall i | 0 <= i < |MountWords(mount)| ensures !("--database=" <= MountWords(mount)[i]) {
        assert MountWords(mount)[i][2] == 's';
      }
    }
    FlagValueConcat(flag, extra, "database");
    if src.database != [] {
      FlagHere(flag, "database", src.database);
    } else if extra != [] {
      assert extra[1..] == src.extraArgs;
      assert !("--database=" <= "--");
    }
  }

  lemma PassthroughBehind(a: seq<string>, b: seq<string>, args: seq<string>)
    requires "--" !in a && "--" !in b
    ensures Passthrough(a + (b + ExtraWords(args))) == args
  {
    var extra := ExtraWords(args);
    IndexOfConcat(a, b + extra, "--");
    IndexOfConcat(b, extra, "--");
    if args != [] {
      assert (a + (b + extra))[|a| + |b| + 1..] == args;
    }
  }

  lemma PassthroughRead(src: Source, mount: bool)
    ensures Passthrough(DumpRest(src, mount)) == src.extraArgs
  {
    var flag := if src.database == [] then [] else ["--database=" + src.database];
    assert |"--secret-mount="| > 2 && |"--database="| > 2;
    assert "--" !in MountWords(mount) && "--" !in flag;
    PassthroughBehind(MountWords(mount), flag, src.extraArgs);
  }

  lemma DumpdbRead(kind: SourceType, rest: seq<string>)
    requires kind.IsDatabase()
    ensures ParseDumpdb(DumpWords(kind) + rest) == Ok((kind, rest))
  {
    var args := DumpWords(kind) + rest;
    assert args[1..][1..][0] == "dumpdb" && args[1..][1..][1] == kind.Name();
    assert args[1..][1..][2..] == rest;
    assert "cnpg" != "mariadb" by { assert "cnpg"[0] == 'c'; }
    assert args[0] != "dumpdb" && args[1..][0] != "dumpdb" by { assert "dumpdb"[0] == 'd'; }
    calc {
      ParseDumpdb(args);
      ParseDumpdb(args[1..]);
      ParseDumpdb(args[1..][1..]);
    }
  }

  /** The intended arguments of a database source parse to it, up to the database that is read. */
  lemma DumpRead(src: Source, lock: Option<Duration>, mount: bool)
    requires src.kind.IsDatabase()
    ensures ParseBackupLine(DumpArgs(src, lock, mount))
         == Ok((Expected(src).(database := ReadDatabase(src)), Some(src.kind)))
  {
    var start, rest := StartWords(src, lock), DumpRest(src, mount);
    var dump := DumpWords(src.kind) + rest;
    TagRead(src, lock, dump);
    StartFacts(src, lock);
    IndexOfConcat(start, dump, "--stdin-from-command");
    assert IndexOf(dump, "--stdin-from-command") == 0;
    assert (start + dump)[|start|..] == dump;
    DumpdbRead(src.kind, rest);
    DatabaseRead(src, mount);
    PassthroughRead(src, mount);
  }

  // ----- the forget command

  lemma Assoc(a: seq<string>, b: seq<string>, c: seq<string>)
    ensures a + b + c == a + (b + c)
    ensures a + [] == a
  {
  }

  lemma {:induction false} KeepFlagsConcat(a: seq<(string, Option<int32>)>, b: seq<(string, Option<int32>)>)
    ensures KeepFlags(a + b) == KeepFlags(a) + KeepFlags(b)
  {
    if b == [] {
      assert a + b == a;
      Assoc(KeepFlags(a), [], []);
    } else {
      var init, last := b[..|b| - 1], b[|b| - 1];
      KeepFlagsConcat(a, init);
      assert (a + b)[..|a + b| - 1] == a + init;
      Assoc(KeepFlags(a), KeepFlags(init), KeepFlag(last));
    }
  }

  /** The first letter of a unit tells it from the others. */
  lemma UnitLetters(u: Unit, v: Unit)
    ensures u.Name() != [] && (u != v ==> v.Name() != [] && u.Name()[0] != v.Name()[0])
  {
  }

  lemma KeepPrefix(u: Unit)
    ensures FlagPrefix("keep-" + u.Name()) == "--keep-" + u.Name() + "="
  {
    assert "--" + "keep-" == "--keep-";
    assert "--" + ("keep-" + u.Name()) == "--keep-" + u.Name();
  }

  lemma OtherUnit(u: Unit, v: Unit, n: Option<int32>)
    requires u != v
    ensures Lacks(KeepFlag((v.Name(), n)), FlagPrefix("keep-" + u.Name()))
  {
    KeepPrefix(u);
    UnitLetters(u, v);
    if n.Some? {
      var w := KeepFlag((v.Name(), n))[0];
      var prefix := "--keep-" + u.Name() + "=";
      assert w[7] == v.Name()[0] && prefix[7] == u.Name()[0];
    }
  }

  lemma SameUnit(u: Unit, n: Option<int32>, more: seq<string>)
    ensures FlagValue(KeepFlag((u.Name(), n)) + more, "keep-" + u.Name())
         == if n.Some? then Some(DecInt(n.value)) else FlagValue(more, "keep-" + u.Name())
  {
    KeepPrefix(u);
    if n.Some? {
      FlagHere(KeepFlag((u.Name(), n)) + more, "keep-" + u.Name(), DecInt(n.value));
    } else {
      assert [] + more == more;
    }
  }

  const ALL_UNITS := [Last, Hourly, Daily, Weekly, Monthly, Yearly]

  function UnitFlags(us: seq<Unit>, r: Retention): seq<string> {
    if us == [] then [] else KeepFlag((us[0].Name(), us[0].Of(r))) + UnitFlags(us[1..], r)
  }

  lemma UnitFlagsAreKeepFlags(r: Retention)
    ensures KeepFlags(RetentionUnits(r)) == UnitFlags(ALL_UNITS, r)
  {
    var us := RetentionUnits(r);
    var a, b, c, d, e, f := us[0], us[1], us[2], us[3], us[4], us[5];
    assert us == [a] + ([b] + ([c] + ([d] + ([e] + [f]))));
    KeepFlagsConcat([a], [b] + ([c] + ([d] + ([e] + [f]))));
    KeepFlagsConcat([b], [c] + ([d] + ([e] + [f])));
    KeepFlagsConcat([c], [d] + ([e] + [f]));
    KeepFlagsConcat([d], [e] + [f]);
    KeepFlagsConcat([e], [f]);
    KeepOne(a);
    KeepOne(b);
    KeepOne(c);
    KeepOne(d);
    KeepOne(e);
    KeepOne(f);
    UnfoldUnits(r);
  }

  lemma KeepOne(u: (string, Option<int32>))
    ensures KeepFlags([u]) == KeepFlag(u)
  {
    assert [u][..0] == [];
    assert KeepFlags([u][..0]) == [];
  }

  lemma UnfoldUnits(r: Retention)
    ensures UnitFlags(ALL_UNITS, r)
         == KeepFlag(("last", r.last)) + (KeepFlag(("hourly", r.hourly)) + (KeepFlag(("daily", r.daily))
          + (KeepFlag(("weekly", r.weekly)) + (KeepFlag(("monthly", r.monthly)) + KeepFlag(("yearly", r.yearly))))))
  {
    assert ALL_UNITS[1..] == [Hourly, Daily, Weekly, Monthly, Yearly];
    assert [Hourly, Daily, Weekly, Monthly, Yearly][1..] == [Daily, Weekly, Monthly, Yearly];
    assert [Daily, Weekly, Monthly, Yearly][1..] == [Weekly, Monthly, Yearly];
    assert [Weekly, Monthly, Yearly][1..] == [Monthly, Yearly];
    assert [Monthly, Yearly][1..] == [Yearly];
    assert [Yearly][1..] == [];
    assert UnitFlags([Yearly], r) == KeepFlag(("yearly", r.yearly)) + [];
    assert UnitFlags([Yearly], r) == KeepFlag(("yearly", r.yearly));
    assert UnitFlags([Monthly, Yearly], r) == KeepFlag(("monthly", r.monthly)) + UnitFlags([Yearly], r);
    assert UnitFlags([Weekly, Monthly, Yearly], r) == KeepFlag(("weekly", r.weekly)) + UnitFlags([Monthly, Yearly], r);
    assert UnitFlags([Daily, Weekly, Monthly, Yearly], r)
        == KeepFlag(("daily", r.daily)) + UnitFlags([Weekly, Monthly, Yearly], r);
    assert UnitFlags([Hourly, Daily, Weekly, Monthly, Yearly], r)
        == KeepFlag(("hourly", r.hourly)) + UnitFlags([Daily, Weekly, Monthly, Yearly], r);
  }

  lemma {:induction false} UnitFlagRead(us: seq<Unit>, r: Retention, u: Unit)
    requires forall i, j :: 0 <= i < j < |us| ==> us[i] != us[j]
    ensures FlagValue(UnitFlags(us, r), "keep-" + u.Name())
         == if u in us && u.Of(r).Some? then Some(DecInt(u.Of(r).value)) else None
  {
    if us != [] {
      UnitFlagRead(us[1..], r, u);
      var first, more := KeepFlag((us[0].Name(), us[0].Of(r))), UnitFlags(us[1..], r);
      if us[0] == u {
        assert u !in us[1..];
        SameUnit(u, u.Of(r), more);
      } else {
        assert u in us <==> u in us[1..];
        OtherUnit(u, us[0], us[0].Of(r));
        LackingFlag(first, "keep-" + u.Name());
        FlagValueConcat(first, more, "keep-" + u.Name());
      }
    }
  }

  lemma ForgetStartLacks(lock: Option<Duration>, u: Unit)
    ensures Lacks(["restic", "forget", "--prune"] + LockWords(lock), FlagPrefix("keep-" + u.Name()))
  {
    KeepPrefix(u);
    var words := ["restic", "forget", "--prune"] + LockWords(lock);
    forall i | 0 <= i < |words| ensures !(FlagPrefix("keep-" + u.Name()) <= words[i]) {
      assert FlagPrefix("keep-" + u.Name())[2] == 'k' && FlagPrefix("keep-" + u.Name())[0] == '-';
      assert words[i][0] == 'r' || words[i][0] == 'f' || words[i][2] == 'p' || words[i][2] == 'r';
    }
  }

  lemma EveryUnit(u: Unit)
    ensures u in ALL_UNITS
  {
    match u
    case Last => assert ALL_UNITS[0] == u;
    case Hourly => assert ALL_UNITS[1] == u;
    case Daily => assert ALL_UNITS[2] == u;
    case Weekly => assert ALL_UNITS[3] == u;
    case Monthly => assert ALL_UNITS[4] == u;
    case Yearly => assert ALL_UNITS[5] == u;
  }

  function ExpectedRetention(r: Option<Retention>): Option<Retention> {
    if r == Some(NO_RETENTION) then None else r
  }

  lemma UnitsWritten(r: Retention)
    ensures KeepFlags(RetentionUnits(r)) == [] <==> r == NO_RETENTION
  {
    UnitFlagsAreKeepFlags(r);
    UnfoldUnits(r);
  }

  /** The printed retention flags parse back to the retention. */
  lemma ForgetRead(r: Retention, lock: Option<Duration>)
    requires r != NO_RETENTION
    ensures ForgetWords(Some(r), lock) != []
    ensures Retained(ForgetWords(Some(r), lock)) == Ok(Some(r))
  {
    UnitsWritten(r);
    UnitFlagsAreKeepFlags(r);
    var start := ["restic", "forget", "--prune"] + LockWords(lock);
    var args := start + UnitFlags(ALL_UNITS, r);
    assert ForgetWords(Some(r), lock) == args;
    forall u: Unit ensures KeepValue(args, u) == Ok(u.Of(r)) {
      EveryUnit(u);
      ForgetStartLacks(lock, u);
      LackingFlag(start, "keep-" + u.Name());
      FlagValueConcat(start, UnitFlags(ALL_UNITS, r), "keep-" + u.Name());
      UnitFlagRead(ALL_UNITS, r, u);
      if u.Of(r).Some? {
        ParseIntOfDecInt(u.Of(r).value, INT32_LIMIT);
      }
    }
    RetainedWhole(args, r);
  }
}
