/** What a rendered script consists of, word by word: internal/backup/script.go. */
module Printing {
  import opened Outcomes
  import opened Text
  import opened Shell
  import opened Backup
  import opened Script
  import opened ScriptMeaning

  /** The retry lock as restic gets it; one that is not positive is none. */
  predicate LockWord(lock: Option<Duration>, w: string) {
    lock.Some? && lock.value.nanos > 0 && w == "--retry-lock=" + lock.value.text
  }

  lemma LockExactly(lock: Option<Duration>, w: string)
    ensures w in LockWords(lock) <==> LockWord(lock, w)
    ensures |LockWords(lock)| <= 1
  {
  }

  // ----- forget

  /** A flag that keeps as many snapshots of a unit as the retention says; zero is a number like any other. */
  predicate KeepWord(r: Retention, w: string) {
    || (r.last.Some? && w == "--keep-last=" + DecInt(r.last.value))
    || (r.hourly.Some? && w == "--keep-hourly=" + DecInt(r.hourly.value))
    || (r.daily.Some? && w == "--keep-daily=" + DecInt(r.daily.value))
    || (r.weekly.Some? && w == "--keep-weekly=" + DecInt(r.weekly.value))
    || (r.monthly.Some? && w == "--keep-monthly=" + DecInt(r.monthly.value))
    || (r.yearly.Some? && w == "--keep-yearly=" + DecInt(r.yearly.value))
  }

  /** Some unit of the list has this flag. */
  predicate HasFlag(units: seq<(string, Option<int32>)>, w: string) {
    exists u :: u in units && w in KeepFlag(u)
  }

  lemma HasFlagSnoc(units: seq<(string, Option<int32>)>, unit: (string, Option<int32>), w: string)
    ensures HasFlag(units + [unit], w) <==> HasFlag(units, w) || w in KeepFlag(unit)
  {
    var all := units + [unit];
    assert forall u :: u in all <==> u in units || u == unit;
  }

  lemma KeepFlagsSnoc(units: seq<(string, Option<int32>)>, unit: (string, Option<int32>))
    ensures KeepFlags(units + [unit]) == KeepFlags(units) + KeepFlag(unit)
  {
    assert (units + [unit])[..|units|] == units;
  }

  lemma {:induction false} KeepFlagsExactly(units: seq<(string, Option<int32>)>, w: string)
    ensures w in KeepFlags(units) <==> HasFlag(units, w)
  {
    if units != [] {
      var init, last := units[..|units| - 1], units[|units| - 1];
      KeepFlagsExactly(init, w);
      KeepFlagsSnoc(init, last);
      HasFlagSnoc(init, last, w);
      assert init + [last] == units;
    }
  }

  lemma KeepFlagExactly(unit: (string, Option<int32>), w: string)
    ensures w in KeepFlag(unit) <==> unit.1.Some? && w == "--keep-" + unit.0 + "=" + DecInt(unit.1.value)
  {
  }

  lemma UnitWords()
    ensures "--keep-" + "last" + "=" == "--keep-last=" && "--keep-" + "hourly" + "=" == "--keep-hourly="
    ensures "--keep-" + "daily" + "=" == "--keep-daily=" && "--keep-" + "weekly" + "=" == "--keep-weekly="
    ensures "--keep-" + "monthly" + "=" == "--keep-monthly=" && "--keep-" + "yearly" + "=" == "--keep-yearly="
  {
  }

  lemma UnitsExactly(r: Retention, w: string)
    ensures w in KeepFlags(RetentionUnits(r)) <==> KeepWord(r, w)
  {
    var units := RetentionUnits(r);
    KeepFlagsExactly(units, w);
    UnitWords();
    KeepFlagExactly(("last", r.last), w);
    KeepFlagExactly(("hourly", r.hourly), w);
    KeepFlagExactly(("daily", r.daily), w);
    KeepFlagExactly(("weekly", r.weekly), w);
    KeepFlagExactly(("monthly", r.monthly), w);
    KeepFlagExactly(("yearly", r.yearly), w);
    SixUnits(("last", r.last), ("hourly", r.hourly), ("daily", r.daily), ("weekly", r.weekly), ("monthly", r.monthly),
      ("yearly", r.yearly), w);
  }

  lemma SixUnits(a: (string, Option<int32>), b: (string, Option<int32>), c: (string, Option<int32>),
      d: (string, Option<int32>), e: (string, Option<int32>), f: (string, Option<int32>), w: string)
    ensures HasFlag([a, b, c, d, e, f], w) <==>
      || w in KeepFlag(a) || w in KeepFlag(b) || w in KeepFlag(c)
      || w in KeepFlag(d) || w in KeepFlag(e) || w in KeepFlag(f)
  {
    assert forall u :: u in [a, b, c, d, e, f] <==> u == a || u == b || u == c || u == d || u == e || u == f;
  }

  lemma BehindThree(a: string, b: string, c: string, lock: seq<string>, flags: seq<string>)
    ensures var words := [a, b, c] + lock + flags; words[3..] == lock + flags && words[..3] == [a, b, c]
  {
  }

  lemma ForgetShape(r: Retention, lock: Option<Duration>, w: string)
    ensures var words, flags := ForgetWords(Some(r), lock), KeepFlags(RetentionUnits(r));
      && (words == [] <==> flags == [])
      && (words != [] ==>
            && |words| >= 3 && words[..3] == ["restic", "forget", "--prune"]
            && (w in words[3..] <==> w in LockWords(lock) || w in flags))
  {
    BehindThree("restic", "forget", "--prune", LockWords(lock), KeepFlags(RetentionUnits(r)));
  }

  lemma NoFlag(r: Retention)
    ensures KeepFlags(RetentionUnits(r)) == [] <==> forall w :: !KeepWord(r, w)
  {
    var flags := KeepFlags(RetentionUnits(r));
    if flags == [] {
      forall w ensures !KeepWord(r, w) {
        UnitsExactly(r, w);
      }
    } else {
      UnitsExactly(r, flags[0]);
      assert flags[0] in flags;
    }
  }

  /**
   * Snapshots are forgotten if and only if the retention keeps some, and with a prune: the command holds the lock and
   * the flags of exactly the units that are set.
   */
  lemma ForgetExactly(r: Retention, lock: Option<Duration>, w: string)
    ensures ForgetWords(None, lock) == []
    ensures ForgetWords(Some(r), lock) == [] <==> forall v :: !KeepWord(r, v)
    ensures var words := ForgetWords(Some(r), lock); words != [] ==>
      && |words| >= 3 && words[..3] == ["restic", "forget", "--prune"]
      && (w in words[3..] <==> LockWord(lock, w) || KeepWord(r, w))
  {
    NoFlag(r);
    ForgetShape(r, lock, w);
    LockExactly(lock, w);
    UnitsExactly(r, w);
  }

  // ----- sources

  /** The words in front of what is backed up. */
  predicate StartsBackup(args: seq<string>, tag: string, lock: Option<Duration>) {
    && 3 <= |args| <= 4 && args[0] == "restic" && args[1] == "backup"
    && args[|args| - 1] == "--tag=" + tag
    && (|args| == 4 <==> lock.Some? && lock.value.nanos > 0) && (|args| == 4 ==> LockWord(lock, args[2]))
  }

  lemma StartExactly(src: Source, lock: Option<Duration>)
    ensures StartsBackup(StartWords(src, lock), src.EffectiveTag(), lock)
  {
  }

  /** Files are backed up from their path, with every exclude as one flag, in order. */
  lemma FilesExactly(src: Source, lock: Option<Duration>)
    requires src.kind == Files
    ensures var args := IntendedArgs(src, lock, true); var n := |args| - |src.exclude| - 1;
      && n >= 0
      && StartsBackup(args[..n], if src.tag == "" then "files" else src.tag, lock)
      && args[n] == (if src.path == "" then "." else src.path)
      && forall i :: 0 <= i < |src.exclude| ==> args[n + 1 + i] == "--exclude=" + src.exclude[i]
  {
    StartExactly(src, lock);
    var args, start := IntendedArgs(src, lock, true), StartWords(src, lock);
    assert args[..|start|] == start;
  }

  /** The words behind those of the start. */
  lemma DumpBehind(src: Source, lock: Option<Duration>)
    requires src.kind == CNPG || src.kind == MariaDB
    ensures var args, start := IntendedArgs(src, lock, true), StartWords(src, lock);
      && |start| <= |args| && args[..|start|] == start
      && args[|start|..] == DumpWords(src.kind) + MountWords(true)
          + (if src.database == [] then [] else ["--database=" + src.database]) + ExtraWords(src.extraArgs)
  {
    var start := StartWords(src, lock);
    Apart(start, DumpWords(src.kind) + MountWords(true)
      + (if src.database == [] then [] else ["--database=" + src.database]) + ExtraWords(src.extraArgs));
  }

  lemma Apart(a: seq<string>, b: seq<string>)
    ensures (a + b)[..|a|] == a && (a + b)[|a|..] == b
  {
  }

  lemma MountLiteral()
    ensures MountWords(true) == ["--secret-mount=/var/run/secrets/borgbase/database"]
  {
    assert "--secret-mount=" + DB_SECRET_MOUNT_PATH == "--secret-mount=/var/run/secrets/borgbase/database";
  }

  lemma FiveWords(a: string, b: string, c: string, d: string, e: string)
    ensures [a, b, c, d] + [e] == [a, b, c, d, e]
  {
  }

  lemma DumpStartExactly(kind: SourceType)
    requires kind == CNPG || kind == MariaDB
    ensures DumpWords(kind) + MountWords(true)
      == ["--stdin-from-command", "--", "dumpdb", if kind == CNPG then "cnpg" else "mariadb",
          "--secret-mount=/var/run/secrets/borgbase/database"]
  {
    MountLiteral();
    FiveWords("--stdin-from-command", "--", "dumpdb", kind.Name(), "--secret-mount=/var/run/secrets/borgbase/database");
  }

  /** A database is what dumpdb writes, given the engine, the mounted secret, its name if any, and further words. */
  lemma DumpExactly(src: Source, lock: Option<Duration>)
    requires src.kind == CNPG || src.kind == MariaDB
    ensures var args, n := IntendedArgs(src, lock, true), |StartWords(src, lock)|;
      && n <= |args| && StartsBackup(args[..n], if src.tag == "" then "db" else src.tag, lock)
      && args[n..] ==
           ["--stdin-from-command", "--", "dumpdb", if src.kind == CNPG then "cnpg" else "mariadb",
            "--secret-mount=/var/run/secrets/borgbase/database"]
           + (if src.database == "" then [] else ["--database=" + src.database])
           + (if src.extraArgs == [] then [] else ["--"] + src.extraArgs)
  {
    StartExactly(src, lock);
    DumpBehind(src, lock);
    DumpStartExactly(src.kind);
  }

  // ----- the script

  /** The first source with a type that is not known. */
  predicate FirstUnknown(sources: seq<Source>, i: int, name: string) {
    && 0 <= i < |sources| && sources[i].kind == Unknown(name)
    && forall j :: 0 <= j < i ==> !sources[j].kind.Unknown?
  }

  /** The first type that is not known, as the loop over the sources finds it. */
  function NameUnknown(sources: seq<Source>): Option<string> {
    if sources == [] then None
    else if NameUnknown(sources[..|sources| - 1]).Some? then NameUnknown(sources[..|sources| - 1])
    else
      match sources[|sources| - 1].kind
      case Unknown(name) => Some(name)
      case _ => None
  }

  lemma {:induction false} TextsUnlessUnknown(sources: seq<Source>, lock: Option<Duration>, mount: bool)
    ensures match NameUnknown(sources)
            case Some(name) => SourceTexts(sources, lock, mount) == Err(name)
            case None => SourceTexts(sources, lock, mount).Ok?
  {
    if sources != [] {
      TextsUnlessUnknown(sources[..|sources| - 1], lock, mount);
    }
  }

  lemma {:induction false} UnknownIsFirst(sources: seq<Source>) returns (i: int)
    ensures NameUnknown(sources).Some? ==> FirstUnknown(sources, i, NameUnknown(sources).value)
    ensures NameUnknown(sources).None? ==> forall j :: 0 <= j < |sources| ==> !sources[j].kind.Unknown?
  {
    i := 0;
    if sources != [] {
      var n := |sources| - 1;
      var init := sources[..n];
      var k := UnknownIsFirst(init);
      assert forall j :: 0 <= j < n ==> sources[j] == init[j];
      i := if NameUnknown(init).Some? then k else n;
    }
  }

  /** The sources have a text unless some type is not known, and the error names the first such type. */
  lemma UnknownExactly(sources: seq<Source>, lock: Option<Duration>, mount: bool)
    ensures SourceTexts(sources, lock, mount).Ok? <==> forall i :: 0 <= i < |sources| ==> !sources[i].kind.Unknown?
    ensures SourceTexts(sources, lock, mount).Err? ==>
      exists i :: FirstUnknown(sources, i, SourceTexts(sources, lock, mount).error)
  {
    TextsUnlessUnknown(sources, lock, mount);
    var i := UnknownIsFirst(sources);
  }

  /**
   * Whatever it backs up, a script first gives its output the time and stops at the first error, and cleans the cache
   * in the end; it is refused if and only if it has a source of an unknown type and no text of its own.
   */
  lemma ScriptFrame(spec: Spec)
    ensures ScriptText(spec, true).Err? <==>
      spec.script == "" && exists i :: 0 <= i < |spec.sources| && spec.sources[i].kind.Unknown?
    ensures ScriptText(spec, true).Ok? ==> exists body :: InFrame(ScriptText(spec, true).value, body)
  {
    UnknownExactly(spec.sources, spec.retryLock, true);
    if spec.script != [] {
      var body, newlines := VerbatimScript(spec);
    } else if ScriptText(spec, true).Ok? {
      var texts := SourceTexts(spec.sources, spec.retryLock, true).value;
      Framed(texts + ForgetTexts(spec.retention, spec.retryLock));
      Assoc(PREAMBLE, texts, ForgetTexts(spec.retention, spec.retryLock));
    }
  }

  lemma Assoc(a: seq<string>, b: seq<string>, c: seq<string>)
    ensures a + b + c == a + (b + c)
  {
  }

  /** Between what every script starts with and what it ends with. */
  predicate InFrame(text: string, body: string) {
    text == "exec > >(ts '%H:%M:%S') 2>&1\nset -eu\n" + body + "restic cache --cleanup\n"
  }

  lemma Framed(lines: seq<string>)
    ensures InFrame(Unlines(PREAMBLE + lines + [POSTAMBLE]), Unlines(lines))
  {
    UnlinesConcat(PREAMBLE, lines);
    UnlinesSnoc(PREAMBLE + lines, POSTAMBLE);
    Opening();
    Closing(Unlines(PREAMBLE) + Unlines(lines));
  }

  lemma Closing(text: string)
    ensures text + POSTAMBLE + "\n" == text + "restic cache --cleanup\n"
  {
    assert POSTAMBLE + "\n" == "restic cache --cleanup\n";
    Glue(text, POSTAMBLE, "\n", []);
  }

  lemma Opening()
    ensures Unlines(PREAMBLE) == "exec > >(ts '%H:%M:%S') 2>&1\nset -eu\n"
  {
    var a, b := "exec > >(ts '%H:%M:%S') 2>&1", "set -eu";
    assert "exec" + " " + REDIRECT == a && "set" + " " + "-eu" == b;
    assert PREAMBLE == [a] + [b];
    UnlinesSnoc([a], b);
    UnlinesOne(a);
    assert a + "\n" + b + "\n" == "exec > >(ts '%H:%M:%S') 2>&1\nset -eu\n";
  }

  /** A text of one's own runs as it is, but for newlines at its end, instead of all sources. */
  lemma VerbatimScript(spec: Spec) returns (body: string, newlines: string)
    requires spec.script != ""
    ensures spec.script == body + newlines && (body == "" || body[|body| - 1] != '\n')
    ensures forall i :: 0 <= i < |newlines| ==> newlines[i] == '\n'
    ensures ScriptText(spec, true).Ok? && InFrame(ScriptText(spec, true).value, body + "\n")
  {
    var newline := c => c == '\n';
    newlines := TrimRightIsPrefix(spec.script, newline);
    body := TrimRight(spec.script, newline);
    SameTrim(spec.script, newline, c => c == '\n');
    Framed([body]);
    UnlinesOne(body);
    OwnLines(body);
  }

  lemma OwnLines(body: string)
    ensures PREAMBLE + [body, POSTAMBLE] == PREAMBLE + [body] + [POSTAMBLE]
  {
  }

  lemma {:induction false} SameTrim(s: string, p: char -> bool, q: char -> bool)
    requires forall c :: p(c) == q(c)
    ensures TrimRight(s, p) == TrimRight(s, q)
  {
    if s != [] && p(s[|s| - 1]) {
      SameTrim(s[..|s| - 1], p, q);
    }
  }
}
