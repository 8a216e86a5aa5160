/** When compiled schedules fire: at one fixed residue of their period, for all time. */
module Phase {
  import opened Outcomes
  import opened Text
  import opened Modular
  import opened Schedule
  import opened Cadence
  import opened CronReading

  /**
   Whether an expression fires at minute t, counted from some Sunday midnight, on a day of the
   month and in a month that the calendar may choose freely.
   */
  predicate FiresOn(m: Matchers, t: nat, day: int, month: int) {
    m.Fires(t % 60, t / 60 % 24, day, month, t / 1440 % 7)
  }

  /** The expression fires exactly at the minutes with the given residue. */
  ghost predicate FiresEvery(m: Matchers, period: int, phase: int)
    requires period >= 1
  {
    forall t: nat, day, month :: 1 <= day <= 31 && 1 <= month <= 12 ==>
      (FiresOn(m, t, day, month) <==> t % period == phase)
  }

  /** The expression fires exactly when minute and hash agree modulo the period. */
  ghost predicate FiresInPhase(expr: string, period: int, h: nat)
    requires period >= 1
  {
    var r := MatchersOf(Fields(expr));
    r.Ok? && FiresEvery(r.value, period, h % period)
  }

  // ----- residues of fields

  /** For an offset below the step, the progression is one residue class. */
  lemma ProgressionIsResidue(v: nat, offset: nat, step: nat)
    requires offset < step
    ensures offset <= v && OnStep(v, Range(offset, v, step)) <==> v % step == offset
  {
    Congruent(v, offset, step);
    Remainder(0, offset, step);
    if v % step == offset {
      Divide(v, step);
      assert v / step >= 0;
      assert v / step * step >= 0;
    }
  }

  lemma MinuteStep(t: nat, offset: nat, step: nat)
    requires offset < step && 60 % step == 0
    ensures t % 60 in Progression(Range(offset, 59, step)) <==> t % step == offset
  {
    ProgressionIsResidue(t % 60, offset, step);
    assert OnStep(t % 60, Range(offset, t % 60, step)) == OnStep(t % 60, Range(offset, 59, step));
    Divide(60, step);
    Nested(t, step, 60 / step);
  }

  lemma HourStep(t: nat, minute: nat, offset: nat, step: nat)
    requires minute < 60 && offset < step && 24 % step == 0
    ensures t % 60 == minute && t / 60 % 24 in Progression(Range(offset, 23, step))
       <==> t % (step * 60) == offset * 60 + minute
  {
    var hour := t / 60 % 24;
    ProgressionIsResidue(hour, offset, step);
    assert OnStep(hour, Range(offset, hour, step)) == OnStep(hour, Range(offset, 23, step));
    Divide(24, step);
    Nested(t / 60, step, 24 / step);
    Digits(t, 60, step);
    if t % (step * 60) == offset * 60 + minute {
      Unique(t / 60 % step, t % 60, offset, minute, 60);
    }
  }

  // ----- the phase of a hash

  lemma MinutePhase(h: nat, step: nat)
    requires step >= 1 && 60 % step == 0
    ensures h % 60 % step == h % step
  {
    Divide(60, step);
    Nested(h, step, 60 / step);
  }

  lemma HourPhase(h: nat, step: nat)
    requires step >= 1 && 24 % step == 0
    ensures h / 60 % 24 % step * 60 + h % 60 == h % (step * 60)
  {
    Divide(24, step);
    Nested(h / 60, step, 24 / step);
    Digits(h, 60, step);
  }

  // ----- even spacing

  lemma MinutesFireEvenly(h: nat, step: nat)
    requires 1 <= step < 60 && 60 % step == 0
    ensures FiresInPhase(Cron(Stepped(h % 60 % step, 59, step), "*", "*", "*", "*"), step, h)
  {
    var offset := h % 60 % step;
    MinutePhase(h, step);
    var a := Stepped(offset, 59, step);
    SteppedWord(offset, 59, step);
    FieldsOfCron(a, "*", "*", "*", "*");
    SteppedField(offset, 59, step, 0, 59);
    StarField(0, 23);
    DayFreeMatchers(a, "*");
    var m := MatchersOf([a, "*", "*", "*", "*"]).value;
    forall t: nat, day, month | 1 <= day <= 31 && 1 <= month <= 12
      ensures FiresOn(m, t, day, month) <==> t % step == h % step
    {
      MinuteStep(t, offset, step);
      assert t / 60 % 24 in m.hour;
    }
  }

  lemma HourlyFiresEvenly(h: nat)
    ensures FiresInPhase(Cron(Dec(h % 60), "*", "*", "*", "*"), 60, h)
  {
    var a := Dec(h % 60);
    DecWord(h % 60);
    FieldsOfCron(a, "*", "*", "*", "*");
    DecField(h % 60, 0, 59);
    StarField(0, 23);
    DayFreeMatchers(a, "*");
    var m := MatchersOf([a, "*", "*", "*", "*"]).value;
    forall t: nat, day, month | 1 <= day <= 31 && 1 <= month <= 12
      ensures FiresOn(m, t, day, month) <==> t % 60 == h % 60
    {
      assert t / 60 % 24 in m.hour;
    }
  }

  lemma HoursFireEvenly(h: nat, step: nat)
    requires 1 <= step < 24 && 24 % step == 0
    ensures FiresInPhase(Cron(Dec(h % 60), Stepped(h / 60 % 24 % step, 23, step), "*", "*", "*"), step * 60, h)
  {
    var minute, offset := h % 60, h / 60 % 24 % step;
    HourPhase(h, step);
    var a, b := Dec(minute), Stepped(offset, 23, step);
    DecWord(minute);
    SteppedWord(offset, 23, step);
    FieldsOfCron(a, b, "*", "*", "*");
    DecField(minute, 0, 59);
    SteppedField(offset, 23, step, 0, 23);
    DayFreeMatchers(a, b);
    var m := MatchersOf([a, b, "*", "*", "*"]).value;
    forall t: nat, day, month | 1 <= day <= 31 && 1 <= month <= 12
      ensures FiresOn(m, t, day, month) <==> t % (step * 60) == h % (step * 60)
    {
      HourStep(t, minute, offset, step);
    }
  }

  lemma DailyFiresEvenly(h: nat)
    ensures FiresInPhase(Cron(Dec(h % 60), Dec(h / 60 % 24), "*", "*", "*"), 1440, h)
  {
    var minute, hour := h % 60, h / 60 % 24;
    var a, b := Dec(minute), Dec(hour);
    DecWord(minute);
    DecWord(hour);
    FieldsOfCron(a, b, "*", "*", "*");
    DecField(minute, 0, 59);
    DecField(hour, 0, 23);
    DayFreeMatchers(a, b);
    var m := MatchersOf([a, b, "*", "*", "*"]).value;
    forall t: nat, day, month | 1 <= day <= 31 && 1 <= month <= 12
      ensures FiresOn(m, t, day, month) <==> t % 1440 == h % 1440
    {
      DayExact(t, h);
    }
  }

  lemma DayExact(t: nat, h: nat)
    ensures t % 60 == h % 60 && t / 60 % 24 == h / 60 % 24 <==> t % 1440 == h % 1440
  {
    SameDigits(t, h, 60, 24);
  }

  lemma WeeklyFiresEvenly(h: nat)
    ensures FiresInPhase(Cron(Dec(h % 60), Dec(h / 60 % 24), "*", "*", Dec(h / 1440 % 7)), 10080, h)
  {
    var minute, hour, weekday := h % 60, h / 60 % 24, h / 1440 % 7;
    var a, b, e := Dec(minute), Dec(hour), Dec(weekday);
    DecWord(minute);
    DecWord(hour);
    DecWord(weekday);
    FieldsOfCron(a, b, "*", "*", e);
    DecField(minute, 0, 59);
    DecField(hour, 0, 23);
    DecField(weekday, 0, 6);
    WeekdayMatchers(a, b, e);
    var m := MatchersOf([a, b, "*", "*", e]).value;
    forall t: nat, day, month | 1 <= day <= 31 && 1 <= month <= 12
      ensures FiresOn(m, t, day, month) <==> t % 10080 == h % 10080
    {
      WeekExact(t, h);
    }
  }

  lemma WeekdayMatchers(a: string, b: string, e: string)
    requires FieldSet(a, 0, 59).Ok? && FieldSet(b, 0, 23).Ok? && FieldSet(e, 0, 6).Ok?
    ensures var r := MatchersOf([a, b, "*", "*", e]);
      && r.Ok? && AnyDay(r.value) && r.value.minute == FieldSet(a, 0, 59).value
      && r.value.hour == FieldSet(b, 0, 23).value && r.value.weekday == FieldSet(e, 0, 6).value
  {
    StarField(1, 31);
    StarField(1, 12);
  }

  lemma WeekExact(t: nat, h: nat)
    ensures t % 60 == h % 60 && t / 60 % 24 == h / 60 % 24 && t / 1440 % 7 == h / 1440 % 7
       <==> t % 10080 == h % 10080
  {
    SameDigits(t, h, 60, 24);
    SameDigits(t, h, 1440, 7);
  }

  /** The duration of an accepted @every in minutes. */
  function PeriodOf(dur: int): int {
    dur / MINUTE
  }

  lemma WholeMinutes(dur: int)
    requires 0 < dur < HOUR && dur % MINUTE == 0
    ensures PeriodOf(dur) * MINUTE == dur && 1 <= PeriodOf(dur) < 60
  {
  }

  lemma WholeHours(dur: int)
    requires HOUR < dur < DAY && dur % HOUR == 0
    ensures PeriodOf(dur) == dur / HOUR * 60 && PeriodOf(dur) * MINUTE == dur && 1 <= dur / HOUR < 24
  {
  }

  lemma DividesDay(step: int)
    requires 1 <= step
    ensures 60 % step == 0 ==> 1440 % step == 0
    ensures 24 % step == 0 ==> 1440 % (step * 60) == 0
  {
    if 60 % step == 0 {
      Divide(60, step);
      assert 1440 == 24 * (60 / step) * step;
      Remainder(24 * (60 / step), 0, step);
    }
    if 24 % step == 0 {
      Divide(24, step);
      assert 1440 == 24 / step * (step * 60);
      Remainder(24 / step, 0, step * 60);
    }
  }

  /** The expression an accepted duration compiles to. */
  function EveryExpr(dur: int, h: nat): string
    requires dur > 0
  {
    if dur < HOUR then
      var mins := dur / MINUTE;
      if mins == 0 then [] else Cron(Stepped(h % 60 % mins, 59, mins), "*", "*", "*", "*")
    else if dur == HOUR then Cron(Dec(h % 60), "*", "*", "*", "*")
    else if dur < DAY then Cron(Dec(h % 60), Stepped(h / 60 % 24 % (dur / HOUR), 23, dur / HOUR), "*", "*", "*")
    else Cron(Dec(h % 60), Dec(h / 60 % 24), "*", "*", "*")
  }

  /** The durations that are accepted. */
  predicate Accepted(dur: int) {
    && 0 < dur <= DAY
    && (dur < HOUR ==> dur % MINUTE == 0 && 60 % (dur / MINUTE) == 0)
    && (HOUR < dur < DAY ==> dur % HOUR == 0 && 24 % (dur / HOUR) == 0)
  }

  lemma AcceptedExactly(d: string, h: nat, parse: DurationParser)
    ensures ResolveEvery(d, h % 60, h / 60 % 24, parse).Ok? <==> parse(d).Some? && Accepted(parse(d).value)
    ensures parse(d).Some? && Accepted(parse(d).value) ==>
      ResolveEvery(d, h % 60, h / 60 % 24, parse) == Ok(EveryExpr(parse(d).value, h))
  {
  }

  lemma ScaledRemainder(n: nat, k: nat, unit: nat)
    requires k >= 1 && unit >= 1
    ensures k * unit >= 1 && n * unit % (k * unit) == n % k * unit
  {
    var q, r := n / k, n % k;
    Divide(n, k);
    assert n * unit == q * (k * unit) + r * unit;
    assert r * unit < k * unit;
    Remainder(q, r * unit, k * unit);
  }

  /**
   * Why a duration is refused, in nanoseconds: it must be read and positive, at most a day, in whole minutes, above an
   * hour in whole hours, and divide the hour, or above an hour the day.
   */
  lemma RefusedExactly(d: string, h: nat, parse: DurationParser)
    ensures var r := ResolveEvery(d, h % 60, h / 60 % 24, parse);
      var minute, hour, day := 60_000_000_000, 3_600_000_000_000, 86_400_000_000_000;
      match parse(d)
      case None => r == Err(BadDuration)
      case Some(dur) =>
        if dur <= 0 then r == Err(NotPositive)
        else if dur > day then r == Err(TooLong)
        else if dur % minute != 0 || (dur > hour && dur % hour != 0) then r == Err(NotWhole)
        else if (dur <= hour && hour % dur != 0) || (dur > hour && day % dur != 0) then r == Err(NotEven)
        else r.Ok?
  {
    if parse(d).Some? && 0 < parse(d).value <= DAY {
      var dur := parse(d).value;
      if dur < HOUR {
        MinutesDivide(dur);
      } else if HOUR < dur < DAY {
        HoursDivide(dur);
      }
    }
  }

  /** Whole minutes divide the hour as the minutes divide sixty. */
  lemma MinutesDivide(dur: int)
    requires 0 < dur < HOUR
    ensures dur % MINUTE == 0 ==> dur / MINUTE >= 1 && (60 % (dur / MINUTE) == 0 <==> 3_600_000_000_000 % dur == 0)
    ensures dur / MINUTE == 0 ==> dur % MINUTE != 0
  {
    if dur % MINUTE == 0 {
      WholeMinutes(dur);
      ScaledRemainder(60, dur / MINUTE, MINUTE);
    }
  }

  /** Whole hours divide the day as the hours divide twenty-four, and are whole minutes. */
  lemma HoursDivide(dur: int)
    requires HOUR < dur < DAY
    ensures dur % HOUR == 0 ==>
      dur / HOUR >= 1 && dur % MINUTE == 0 && (24 % (dur / HOUR) == 0 <==> 86_400_000_000_000 % dur == 0)
  {
    if dur % HOUR == 0 {
      WholeHours(dur);
      ScaledRemainder(24, dur / HOUR, HOUR);
      Divide(dur, HOUR);
      Remainder(dur / HOUR * 60, 0, MINUTE);
    }
  }

  lemma AcceptedInPhase(dur: int, h: nat)
    requires Accepted(dur)
    ensures PeriodOf(dur) >= 1 && FiresInPhase(EveryExpr(dur, h), PeriodOf(dur), h)
  {
    AcceptedPeriod(dur);
    var expr := EveryExpr(dur, h);
    if dur < HOUR {
      MinutesFireEvenly(h, PeriodOf(dur));
    } else if dur == HOUR {
      HourlyFiresEvenly(h);
    } else if dur < DAY {
      WholeHours(dur);
      HoursFireEvenly(h, dur / HOUR);
    } else {
      DailyFiresEvenly(h);
    }
  }

  lemma AcceptedPeriod(dur: int)
    requires Accepted(dur)
    ensures PeriodOf(dur) * MINUTE == dur && PeriodOf(dur) >= 1 && 1440 % PeriodOf(dur) == 0
    ensures dur < HOUR ==> PeriodOf(dur) < 60
    ensures dur == HOUR ==> PeriodOf(dur) == 60
    ensures dur == DAY ==> PeriodOf(dur) == 1440
  {
    if dur < HOUR {
      WholeMinutes(dur);
      DividesDay(PeriodOf(dur));
    } else if HOUR < dur < DAY {
      WholeHours(dur);
      DividesDay(dur / HOUR);
    }
  }

  /**
   Every accepted @every duration compiles to an expression that fires at minute t exactly when
   t and the hash agree modulo the duration, for all time.
   */
  lemma EveryIsEven(d: string, h: nat, parse: DurationParser)
    requires ResolveEvery(d, h % 60, h / 60 % 24, parse).Ok?
    ensures parse(d).Some?
    ensures var p := PeriodOf(parse(d).value);
      && p * MINUTE == parse(d).value && p >= 1 && 1440 % p == 0
      && FiresInPhase(ResolveEvery(d, h % 60, h / 60 % 24, parse).value, p, h)
  {
    AcceptedExactly(d, h, parse);
    AcceptedPeriod(parse(d).value);
    AcceptedInPhase(parse(d).value, h);
  }

  lemma HourlyInPhase(h: nat, parse: DurationParser)
    ensures var r := ResolveSchedule("@hourly", h, parse); r.Ok? && FiresInPhase(r.value, 60, h)
  {
    TrimSolid("@hourly");
    HourlyFiresEvenly(h);
  }

  lemma DailyInPhase(h: nat, parse: DurationParser, s: string)
    requires s == "@daily" || s == "@midnight"
    ensures var r := ResolveSchedule(s, h, parse); r.Ok? && FiresInPhase(r.value, 1440, h)
  {
    TrimSolid(s);
    assert s[1] != "@hourly"[1];
    DailyFiresEvenly(h);
  }

  lemma WeeklyInPhase(h: nat, parse: DurationParser)
    ensures var r := ResolveSchedule("@weekly", h, parse); r.Ok? && FiresInPhase(r.value, 10080, h)
  {
    var s := "@weekly";
    TrimSolid(s);
    assert s[1] != "@hourly"[1] && s[1] != "@daily"[1] && s[1] != "@midnight"[1];
    WeeklyFiresEvenly(h);
  }

  /** The offset of a stepped field spaces it evenly across periods exactly if the step divides the period. */
  lemma EvenlySpacedExactly(period: nat, step: nat, offset: nat)
    requires step >= 1 && offset < step && offset < period
    ensures (forall t: nat :: Allowed(t, period, step, offset) <==> t % step == offset) <==> period % step == 0
  {
    if period % step == 0 {
      forall t: nat ensures Allowed(t, period, step, offset) <==> t % step == offset {
        ProgressionIsResidue(t % period, offset, step);
        Divide(period, step);
        Nested(t, step, period / step);
      }
    } else {
      var t := period + offset;
      Remainder(1, offset, period);
      Remainder(0, offset, step);
      Remainder(0, 0, step);
      assert Allowed(t, period, step, offset);
      Congruent(t, offset, step);
    }
  }

  /** Whether a field with this offset and step, restarting each period, allows time t. */
  predicate Allowed(t: nat, period: nat, step: nat, offset: nat)
    requires period >= 1 && step >= 1
  {
    offset <= t % period && (t % period - offset) % step == 0
  }
}
