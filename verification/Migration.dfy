/** Rewriting a hand-jittered cron expression as a shorthand keeps its cadence. */
module Migration {
  import opened Outcomes
  import opened Text
  import opened Modular
  import opened Schedule
  import opened Cadence
  import opened CronReading
  import opened Phase

  /** shorthandSchedule in internal/cli/migrate.go. */
  function Shorthand(expr: string): string {
    var fields := Fields(expr);
    if |fields| != 5 then expr
    else
      var minute, hour := fields[0], fields[1];
      if fields[2] != "*" || fields[3] != "*" || fields[4] != "*" then expr
      else if !Numeric(minute) then expr
      else if hour == "*" then "@hourly"
      else if Numeric(hour) then "@daily"
      else
        match CutPrefix(hour, "*/")
        case Some(step) => if Numeric(step) then "@every " + step + "h" else expr
        case None => expr
  }

  /**
   * Which expressions become a shorthand: those of a numeric minute with any hour, one hour, or every so many hours.
   * All others stay as they are.
   */
  lemma ShorthandExactly(expr: string, minute: string, hour: string)
    requires Numeric(minute)
    ensures Fields(expr) == [minute, "*", "*", "*", "*"] ==> Shorthand(expr) == "@hourly"
    ensures Fields(expr) == [minute, hour, "*", "*", "*"] && Numeric(hour) ==> Shorthand(expr) == "@daily"
    ensures Fields(expr) == [minute, "*/" + hour, "*", "*", "*"] && Numeric(hour) ==>
      Shorthand(expr) == "@every " + hour + "h"
    ensures Shorthand(expr) != expr ==>
      exists m: string, n: string :: Numeric(m) && (n == "*" || Numeric(n) || ("*/" <= n && Numeric(n[2..])))
        && Fields(expr) == [m, n, "*", "*", "*"]
  {
    assert Numeric(hour) ==> IsDigit(hour[0]);
    var n := "*/" + hour;
    assert n != "*" && n[0] == '*' && n[2..] == hour;
    if Fields(expr) == [minute, n, "*", "*", "*"] && Numeric(hour) {
      assert CutPrefix(n, "*/").value == hour;
    }
    if Shorthand(expr) != expr {
      var fields := Fields(expr);
      assert fields == [fields[0], fields[1], "*", "*", "*"];
      assert fields[1] != "*" && !Numeric(fields[1]) ==> CutPrefix(fields[1], "*/").value == fields[1][2..];
    }
  }

  /** What time.ParseDuration gives for a whole number of hours: it fails where 63 bits overflow. */
  ghost predicate ParsesHours(parse: DurationParser) {
    forall s: string :: Numeric(s) ==>
      parse(s + "h") == if NatOf(s) * HOUR < INT64_LIMIT then Some(NatOf(s) * HOUR) else None
  }

  // ----- the cadence of an evenly spaced expression

  /** Arithmetic progression: k terms from the phase on, a period apart. */
  function Terms(phase: int, period: int, k: nat): seq<int> {
    if k == 0 then [] else Terms(phase, period, k - 1) + [(k - 1) * period + phase]
  }

  function Repeat(x: int, k: nat): seq<int> {
    if k == 0 then [] else [x] + Repeat(x, k - 1)
  }

  lemma {:induction false} RepeatSnoc(x: int, k: nat)
    ensures Repeat(x, k) + [x] == Repeat(x, k + 1)
  {
    if k > 0 {
      RepeatSnoc(x, k - 1);
      assert [x] + Repeat(x, k - 1) + [x] == [x] + (Repeat(x, k - 1) + [x]);
    }
  }

  lemma {:induction false} TermsLength(phase: int, period: int, k: nat)
    ensures |Terms(phase, period, k)| == k
  {
    if k > 0 {
      TermsLength(phase, period, k - 1);
    }
  }

  lemma Distribute(a: int, p: int)
    ensures (a + 1) * p == a * p + p
  {
  }

  lemma LastTerms(phase: int, period: int, k: nat)
    requires k >= 2
    ensures var s := Terms(phase, period, k);
      |s| == k && s[..k - 1] == Terms(phase, period, k - 1) && s[k - 1] - s[k - 2] == period
  {
    TermsLength(phase, period, k);
    TermsLength(phase, period, k - 1);
    TermsLength(phase, period, k - 2);
    Distribute(k - 2, period);
    var s := Terms(phase, period, k);
    assert s[k - 2] == Terms(phase, period, k - 1)[k - 2];
  }

  lemma {:induction false} GapsOfTerms(phase: int, period: int, k: nat)
    requires k >= 1
    ensures Gaps(Terms(phase, period, k)) == Repeat(period, k - 1)
  {
    if k == 1 {
      TermsLength(phase, period, k);
    } else {
      LastTerms(phase, period, k);
      GapsOfTerms(phase, period, k - 1);
      RepeatSnoc(period, k - 2);
    }
  }

  lemma {:induction false} SortedRepeat(x: int, k: nat)
    ensures Sorted(Repeat(x, k)) == Repeat(x, k)
  {
    if k > 0 {
      SortedRepeat(x, k - 1);
      assert Repeat(x, k)[1..] == Repeat(x, k - 1);
    }
  }

  /** The expression fires in the window exactly at one residue. */
  ghost predicate FiresAtResidue(m: Matchers, period: int, phase: int)
    requires period >= 1
  {
    forall t: nat :: t < WINDOW ==> (FiresAt(m, t) <==> t % period == phase)
  }

  lemma {:induction false} FiredBlock(m: Matchers, period: int, phase: int, k: nat, j: nat)
    requires 1 <= period && 0 <= phase < period && j <= period && k * period + j <= WINDOW
    requires FiresAtResidue(m, period, phase)
    ensures k * period >= 0
    ensures Fired(m, k * period + j)
         == Terms(phase, period, k) + if phase < j then [k * period + phase] else []
    decreases k, j
  {
    assert k * period >= 0;
    if j > 0 {
      FiredBlock(m, period, phase, k, j - 1);
      var t := k * period + j - 1;
      FiredNext(m, t);
      Remainder(k, j - 1, period);
      assert FiresAt(m, t) <==> j - 1 == phase;
      assert Terms(phase, period, k) + [] == Terms(phase, period, k);
    } else if k > 0 {
      assert k * period == (k - 1) * period + period;
      FiredBlock(m, period, phase, k - 1, period);
      assert Terms(phase, period, k) + [] == Terms(phase, period, k);
    }
  }

  /** The cadence of an expression that fires every period minutes. */
  function EvenCadence(period: int): Cadence
    requires 1 <= period && WINDOW % period == 0
  {
    Cadence(WINDOW / period, Repeat(period, WINDOW / period - 1))
  }

  lemma ResidueCadence(m: Matchers, period: int, phase: int)
    requires 1 <= period <= WINDOW && 0 <= phase < period && WINDOW % period == 0
    requires FiresAtResidue(m, period, phase)
    ensures CadenceOfFired(Fired(m, WINDOW)) == EvenCadence(period)
  {
    var k := WINDOW / period;
    Divide(WINDOW, period);
    assert k >= 1;
    FiredBlock(m, period, phase, k, 0);
    assert Terms(phase, period, k) + [] == Terms(phase, period, k);
    TermsLength(phase, period, k);
    GapsOfTerms(phase, period, k);
    SortedRepeat(period, k - 1);
  }

  /** The window starts on a Monday, one day after the Sunday midnight that phases count from. */
  lemma WindowStart(m: Matchers, t: nat)
    requires t < WINDOW
    ensures FiresAt(m, t) == FiresOn(m, t + 1440, DayOf(t), MonthOf(t))
    ensures 1 <= DayOf(t) <= 31 && 1 <= MonthOf(t) <= 12
  {
    assert (t + 1440) / 60 == t / 60 + 24;
    assert (t + 1440) / 1440 == t / 1440 + 1;
  }

  /** An evenly spaced expression has the cadence of its period, whatever its phase. */
  lemma EvenlyFiringCadence(m: Matchers, period: int, phase: int)
    requires 1 <= period <= WINDOW && WINDOW % period == 0 && 0 <= phase < period
    requires FiresEvery(m, period, phase)
    ensures CadenceOfFired(Fired(m, WINDOW)) == EvenCadence(period)
  {
    var phase' := (phase - 1440) % period;
    forall t: nat | t < WINDOW ensures FiresAt(m, t) <==> t % period == phase' {
      WindowStart(m, t);
      assert FiresOn(m, t + 1440, DayOf(t), MonthOf(t)) <==> (t + 1440) % period == phase;
      Congruent(t + 1440, phase, period);
      Congruent(t, phase - 1440, period);
      Remainder(0, phase, period);
    }
    ResidueCadence(m, period, phase');
  }

  lemma InPhaseCadence(expr: string, period: int, h: nat)
    requires 1 <= period <= WINDOW && WINDOW % period == 0
    requires FiresInPhase(expr, period, h)
    ensures CadenceOfExpr(expr) == Ok(EvenCadence(period))
  {
    EvenlyFiringCadence(MatchersOf(Fields(expr)).value, period, h % period);
  }

  // ----- the expressions that get rewritten

  lemma OriginalHourly(a: string)
    requires Numeric(a) && FieldSet(a, 0, 59).Ok?
    ensures var r := MatchersOf([a, "*", "*", "*", "*"]);
      r.Ok? && NatOf(a) < 60 && FiresEvery(r.value, 60, NatOf(a))
  {
    NumberField(a, 0, 59);
    StarField(0, 23);
    DayFreeMatchers(a, "*");
    var m := MatchersOf([a, "*", "*", "*", "*"]).value;
    forall t: nat, day, month | 1 <= day <= 31 && 1 <= month <= 12
      ensures FiresOn(m, t, day, month) <==> t % 60 == NatOf(a)
    {
      assert t / 60 % 24 in m.hour;
    }
  }

  lemma DayClock(t: nat, minute: nat, hour: nat)
    requires minute < 60 && hour < 24
    ensures t % 60 == minute && t / 60 % 24 == hour <==> t % 1440 == hour * 60 + minute
  {
    Digits(t, 60, 24);
  }

  lemma OriginalDaily(a: string, b: string)
    requires Numeric(a) && Numeric(b) && FieldSet(a, 0, 59).Ok? && FieldSet(b, 0, 23).Ok?
    ensures var r := MatchersOf([a, b, "*", "*", "*"]);
      r.Ok? && NatOf(a) < 60 && NatOf(b) < 24 && FiresEvery(r.value, 1440, NatOf(b) * 60 + NatOf(a))
  {
    NumberField(a, 0, 59);
    NumberField(b, 0, 23);
    DayFreeMatchers(a, b);
    var m := MatchersOf([a, b, "*", "*", "*"]).value;
    var h := NatOf(b) * 60 + NatOf(a);
    forall t: nat, day, month | 1 <= day <= 31 && 1 <= month <= 12
      ensures FiresOn(m, t, day, month) <==> t % 1440 == h
    {
      DayClock(t, NatOf(a), NatOf(b));
    }
  }

  lemma OriginalStepped(a: string, s: string)
    requires Numeric(a) && Numeric(s) && FieldSet(a, 0, 59).Ok? && FieldSet("*/" + s, 0, 23).Ok?
    requires 1 <= NatOf(s) <= 24 && 24 % NatOf(s) == 0
    ensures var r := MatchersOf([a, "*/" + s, "*", "*", "*"]);
      r.Ok? && NatOf(a) < 60 && FiresEvery(r.value, NatOf(s) * 60, NatOf(a))
  {
    var step := NatOf(s);
    NumberField(a, 0, 59);
    StarStepField(s, 23);
    DayFreeMatchers(a, "*/" + s);
    var m := MatchersOf([a, "*/" + s, "*", "*", "*"]).value;
    forall t: nat, day, month | 1 <= day <= 31 && 1 <= month <= 12
      ensures FiresOn(m, t, day, month) <==> t % (step * 60) == NatOf(a)
    {
      HourStep(t, NatOf(a), 0, step);
    }
  }

  // ----- the rewritten schedules

  lemma EveryHoursText(step: string)
    requires Numeric(step)
    ensures TrimSpace("@every " + step + "h") == "@every " + step + "h"
    ensures TrimSpace(step + "h") == step + "h"
    ensures CutPrefix("@every " + step + "h", "@every ") == Some(step + "h")
  {
    DigitsOnly(step);
    TrimSolid("@every " + step + "h");
    TrimSolid(step + "h");
    assert "@every " + step + "h" == "@every " + (step + "h");
  }

  /** A whole number of hours is accepted exactly if it divides a day. */
  lemma HoursAccepted(n: nat)
    ensures Accepted(n * HOUR) <==> 1 <= n && 24 % n == 0
    ensures Accepted(n * HOUR) ==> PeriodOf(n * HOUR) == n * 60 && n <= 24
  {
    if 1 <= n <= 24 {
      Remainder(n, 0, HOUR);
    } else if n > 24 {
      SmallRemainder(24, n);
    }
  }

  lemma SmallRemainder(a: nat, n: nat)
    requires a < n
    ensures a % n == a
  {
  }

  lemma NotAnotherShorthand(s: string)
    requires "@e" <= s
    ensures s != "@hourly" && s != "@daily" && s != "@midnight" && s != "@weekly" && s != "@monthly"
    ensures s != "@yearly" && s != "@annually"
  {
    assert s[1] == "@e"[1];
  }

  /** "@every <n>h" resolves exactly if n divides 24, and then fires every n hours. */
  lemma EveryHoursResolves(step: string, h: nat, parse: DurationParser)
    requires Numeric(step) && ParsesHours(parse)
    ensures var r := ResolveSchedule("@every " + step + "h", h, parse);
      && (r.Ok? <==> 1 <= NatOf(step) && 24 % NatOf(step) == 0)
      && (r.Ok? ==> FiresInPhase(r.value, NatOf(step) * 60, h) && NatOf(step) <= 24)
  {
    EveryHoursIs(step, h, parse);
    HoursResolve(step + "h", NatOf(step), h, parse);
  }

  /** Such a schedule is an `@every` with the duration behind it. */
  lemma EveryHoursIs(step: string, h: nat, parse: DurationParser)
    requires Numeric(step) && ParsesHours(parse)
    ensures ResolveSchedule("@every " + step + "h", h, parse) == ResolveEvery(step + "h", h % 60, h / 60 % 24, parse)
    ensures parse(step + "h") == if NatOf(step) * HOUR < INT64_LIMIT then Some(NatOf(step) * HOUR) else None
  {
    var s := "@every " + step + "h";
    EveryHoursText(step);
    assert s[0] == '@' && s[1] == 'e';
    NotAnotherShorthand(s);
  }

  lemma HoursResolve(d: string, n: nat, h: nat, parse: DurationParser)
    requires parse(d) == if n * HOUR < INT64_LIMIT then Some(n * HOUR) else None
    ensures var r := ResolveEvery(d, h % 60, h / 60 % 24, parse);
      && (r.Ok? <==> 1 <= n && 24 % n == 0)
      && (r.Ok? ==> FiresInPhase(r.value, n * 60, h) && n <= 24)
  {
    AcceptedExactly(d, h, parse);
    HoursAccepted(n);
    if 1 <= n && 24 % n == 0 {
      AcceptedInPhase(n * HOUR, h);
    }
  }

  lemma WindowPeriods(n: nat)
    requires 1 <= n <= 24 && 24 % n == 0
    ensures n * 60 <= WINDOW && WINDOW % (n * 60) == 0
  {
    Divide(24, n);
    assert WINDOW == 28 * (24 / n) * (n * 60);
    Remainder(28 * (24 / n), 0, n * 60);
  }

  // ----- schedules that stay as they are

  /** A field that starts with an at sign is not a cron field. */
  lemma AtSignField(field: string, min: int, max: int)
    requires "@" <= field
    requires 0 <= min <= max < TOP
    ensures FieldSet(field, min, max).Err?
  {
    var parts := Split(field, ',');
    assert "@" <= parts[0] by {
      assert field[0] == '@';
      var rest := Split(field[1..], ',');
      assert parts[0] == [field[0]] + rest[0];
    }
    AtSignPart(parts[0], min, max);
    assert parts[..1][..0] == [];
    assert parts[..1][0] == parts[0];
    assert PartsSet(parts[..1], min, max).Err?;
    PartsFail(parts, 1, min, max);
  }

  lemma {:induction false} CutKeepsFirst(s: string, sep: char)
    requires "@" <= s && sep != '@'
    ensures Cut(s, sep).Some? ==> "@" <= Cut(s, sep).value.0
  {
    assert s[0] == '@';
  }

  lemma AtSignPart(part: string, min: int, max: int)
    requires "@" <= part
    ensures PartRange(part, min, max).Err?
  {
    CutKeepsFirst(part, '/');
    var r := StepOf(part);
    if r.Ok? {
      var base := r.value.0;
      assert "@" <= base;
      CutKeepsFirst(base, '-');
      NoNumber(base);
      assert base[0] == '@' && "*"[0] == '*';
      if Cut(base, '-').Some? {
        NoNumber(Cut(base, '-').value.0);
      }
    }
  }

  lemma NoNumber(s: string)
    requires "@" <= s
    ensures Atoi(s).None?
  {
    assert s[0] == '@' && !IsDigit(s[0]);
  }

  lemma FirstFieldStarts(s: string)
    requires "@" <= s
    ensures |Fields(s)| >= 1 && "@" <= Fields(s)[0]
  {
    assert s[0] == '@';
    assert Fields(s) == FieldsFrom(s[1..], [] + [s[0]]);
    FieldGrows(s[1..], "@");
    assert [] + [s[0]] == "@";
  }

  lemma {:induction false} FieldGrows(s: string, cur: string)
    requires cur != []
    ensures |FieldsFrom(s, cur)| >= 1 && cur <= FieldsFrom(s, cur)[0]
  {
    if s != [] && !IsSpace(s[0]) {
      FieldGrows(s[1..], cur + [s[0]]);
    }
  }

  /** A valid expression that is left alone resolves to itself, up to surrounding space. */
  lemma UnchangedCadence(expr: string, h: nat, parse: DurationParser)
    requires CadenceOfExpr(expr).Ok?
    ensures var r := ResolveSchedule(expr, h, parse);
      r.Ok? && CadenceOfExpr(r.value) == CadenceOfExpr(expr)
  {
    var s := TrimSpace(expr);
    FieldsOfTrimmed(expr);
    if "@" <= s {
      FirstFieldStarts(s);
      AtSignField(Fields(s)[0], 0, 59);
    }
    assert Fields([]) == [];
  }

  // ----- migration

  /** The condition on an expression under which its shorthand resolves. */
  predicate EvenHours(expr: string) {
    var fields := Fields(expr);
    |fields| == 5 ==>
      var step := CutPrefix(fields[1], "*/");
      step.Some? && Numeric(step.value) && NatOf(step.value) >= 1 ==> 24 % NatOf(step.value) == 0
  }

  /** The first two fields of an expression that can be read can be read. */
  lemma FirstFieldsRead(fields: seq<string>)
    requires |fields| == 5 && MatchersOf(fields).Ok?
    ensures FieldSet(fields[0], 0, 59).Ok? && FieldSet(fields[1], 0, 23).Ok?
  {
  }

  lemma FiveFields(fields: seq<string>)
    requires |fields| == 5 && fields[2..] == ["*", "*", "*"]
    ensures fields == [fields[0], fields[1], "*", "*", "*"]
  {
    assert fields == [fields[0], fields[1]] + fields[2..];
  }

  lemma FiveStars(fields: seq<string>)
    requires |fields| == 5 && fields[1..] == ["*", "*", "*", "*"]
    ensures fields == [fields[0], "*", "*", "*", "*"]
  {
    assert fields == [fields[0]] + fields[1..];
  }

  /** Two expressions that fire with the same period have the same cadence. */
  lemma SamePeriod(m: Matchers, period: int, phase: int, expr: string, h: nat)
    requires 1 <= period <= WINDOW && WINDOW % period == 0 && 0 <= phase < period
    requires FiresEvery(m, period, phase) && FiresInPhase(expr, period, h)
    ensures CadenceOfExpr(expr) == Ok(CadenceOfFired(Fired(m, WINDOW)))
  {
    EvenlyFiringCadence(m, period, phase);
    InPhaseCadence(expr, period, h);
  }

  lemma HourlyFires(fields: seq<string>)
    requires |fields| == 5 && fields[1..] == ["*", "*", "*", "*"] && Numeric(fields[0]) && MatchersOf(fields).Ok?
    ensures NatOf(fields[0]) < 60 && FiresEvery(MatchersOf(fields).value, 60, NatOf(fields[0]))
  {
    FirstFieldsRead(fields);
    FiveStars(fields);
    OriginalHourly(fields[0]);
  }

  lemma DailyFires(fields: seq<string>)
    requires |fields| == 5 && fields[2..] == ["*", "*", "*"]
    requires Numeric(fields[0]) && Numeric(fields[1]) && MatchersOf(fields).Ok?
    ensures NatOf(fields[0]) < 60 && NatOf(fields[1]) < 24
    ensures FiresEvery(MatchersOf(fields).value, 1440, NatOf(fields[1]) * 60 + NatOf(fields[0]))
  {
    FirstFieldsRead(fields);
    FiveFields(fields);
    OriginalDaily(fields[0], fields[1]);
  }

  lemma WindowIsWhole()
    ensures WINDOW == 40320 && WINDOW % 60 == 0 && WINDOW % 1440 == 0
  {
  }

  lemma RewrittenHourly(m: Matchers, phase: nat, h: nat, parse: DurationParser)
    requires phase < 60 && FiresEvery(m, 60, phase)
    ensures var r := ResolveSchedule("@hourly", h, parse);
      r.Ok? && CadenceOfExpr(r.value) == Ok(CadenceOfFired(Fired(m, WINDOW)))
  {
    HourlyInPhase(h, parse);
    WindowIsWhole();
    SamePeriod(m, 60, phase, ResolveSchedule("@hourly", h, parse).value, h);
  }

  lemma RewrittenDaily(m: Matchers, phase: nat, h: nat, parse: DurationParser)
    requires phase < 1440 && FiresEvery(m, 1440, phase)
    ensures var r := ResolveSchedule("@daily", h, parse);
      r.Ok? && CadenceOfExpr(r.value) == Ok(CadenceOfFired(Fired(m, WINDOW)))
  {
    DailyInPhase(h, parse, "@daily");
    WindowIsWhole();
    SamePeriod(m, 1440, phase, ResolveSchedule("@daily", h, parse).value, h);
  }

  lemma RewrittenStepped(fields: seq<string>, s: string, h: nat, parse: DurationParser)
    requires ParsesHours(parse)
    requires |fields| == 5 && fields[2..] == ["*", "*", "*"] && fields[1] == "*/" + s
    requires Numeric(fields[0]) && Numeric(s) && NatOf(s) >= 1 && MatchersOf(fields).Ok?
    ensures var r := ResolveSchedule("@every " + s + "h", h, parse);
      && (r.Ok? <==> 24 % NatOf(s) == 0)
      && (r.Ok? ==> CadenceOfExpr(r.value) == Ok(CadenceOfFired(Fired(MatchersOf(fields).value, WINDOW))))
  {
    EveryHoursResolves(s, h, parse);
    if 24 % NatOf(s) == 0 {
      SteppedCadence(fields, s);
      WindowPeriods(NatOf(s));
      InPhaseCadence(ResolveSchedule("@every " + s + "h", h, parse).value, NatOf(s) * 60, h);
    }
  }

  lemma SteppedCadence(fields: seq<string>, s: string)
    requires |fields| == 5 && fields[2..] == ["*", "*", "*"] && fields[1] == "*/" + s
    requires Numeric(fields[0]) && Numeric(s) && MatchersOf(fields).Ok?
    requires 1 <= NatOf(s) <= 24 && 24 % NatOf(s) == 0
    ensures WINDOW % (NatOf(s) * 60) == 0
    ensures CadenceOfFired(Fired(MatchersOf(fields).value, WINDOW)) == EvenCadence(NatOf(s) * 60)
  {
    FirstFieldsRead(fields);
    FiveFields(fields);
    HourStepCadence(fields[0], s);
  }

  lemma HourStepCadence(a: string, s: string)
    requires Numeric(a) && Numeric(s) && FieldSet(a, 0, 59).Ok? && FieldSet("*/" + s, 0, 23).Ok?
    requires 1 <= NatOf(s) <= 24 && 24 % NatOf(s) == 0
    ensures WINDOW % (NatOf(s) * 60) == 0
    ensures var r := MatchersOf([a, "*/" + s, "*", "*", "*"]);
      r.Ok? && CadenceOfFired(Fired(r.value, WINDOW)) == EvenCadence(NatOf(s) * 60)
  {
    OriginalStepped(a, s);
    WindowPeriods(NatOf(s));
    EvenlyFiringCadence(MatchersOf([a, "*/" + s, "*", "*", "*"]).value, NatOf(s) * 60, NatOf(a));
  }

  /**
   For every valid expression and every hash, the migrated schedule either resolves to an
   expression of the same cadence or is rejected; it is rejected exactly if it was rewritten
   from a step of hours that does not divide a day.
   */
  lemma MigrationKeepsCadence(expr: string, h: nat, parse: DurationParser)
    requires ParsesHours(parse) && CadenceOfExpr(expr).Ok?
    ensures var r := ResolveSchedule(Shorthand(expr), h, parse);
      && (r.Ok? ==> CadenceOfExpr(r.value) == CadenceOfExpr(expr))
      && (r.Err? <==> Shorthand(expr) != expr && !EvenHours(expr))
  {
    var fields := Fields(expr);
    if Shorthand(expr) == expr {
      UnchangedCadence(expr, h, parse);
    } else {
      RewrittenShape(expr);
      if fields[1] == "*" {
        HourlyFires(fields);
        RewrittenHourly(MatchersOf(fields).value, NatOf(fields[0]), h, parse);
      } else if Numeric(fields[1]) {
        DailyFires(fields);
        RewrittenDaily(MatchersOf(fields).value, NatOf(fields[1]) * 60 + NatOf(fields[0]), h, parse);
      } else {
        var step := CutPrefix(fields[1], "*/").value;
        StarStepField(step, 23);
        RewrittenStepped(fields, step, h, parse);
      }
    }
  }

  /** The three forms of hour field that are rewritten. */
  lemma RewrittenShape(expr: string)
    requires Shorthand(expr) != expr
    ensures var fields := Fields(expr);
      && |fields| == 5 && fields[2..] == ["*", "*", "*"] && Numeric(fields[0])
      && (fields[1] == "*" ==> fields[1..] == ["*", "*", "*", "*"] && Shorthand(expr) == "@hourly" && EvenHours(expr))
      && (Numeric(fields[1]) ==> Shorthand(expr) == "@daily" && EvenHours(expr))
      && (fields[1] != "*" && !Numeric(fields[1]) ==>
            var step := CutPrefix(fields[1], "*/");
            step.Some? && Numeric(step.value) && Shorthand(expr) == "@every " + step.value + "h")
  {
    var fields := Fields(expr);
    var hour := fields[1];
    assert fields[2..] == [fields[2], fields[3], fields[4]];
    if hour == "*" {
      assert fields[1..] == [hour] + fields[2..];
      assert CutPrefix(hour, "*/").None?;
    } else if Numeric(hour) {
      assert IsDigit(hour[0]) && "*/"[0] == '*';
      assert CutPrefix(hour, "*/").None?;
    }
  }
}
