/** How hashes spread over schedules, and what the cadence check can see of it. */
module Jitter {
  import opened Outcomes
  import opened Text
  import opened Modular
  import opened Schedule
  import opened Cadence
  import opened CronReading
  import opened Phase

  /** The named shorthands, each with the number of slots it spreads hashes over. */
  datatype Named = Hourly | Daily | Weekly | Monthly | Yearly {
    function Slots(): nat {
      match this
      case Hourly => 60
      case Daily => 1440
      case Weekly => 10080
      case Monthly => 40320
      case Yearly => 483840
    }

    /** The expression a hash is compiled to. */
    function Expr(h: nat): string {
      var minute, hour := Dec(h % 60), Dec(h / 60 % 24);
      match this
      case Hourly => Cron(minute, "*", "*", "*", "*")
      case Daily => Cron(minute, hour, "*", "*", "*")
      case Weekly => Cron(minute, hour, "*", "*", Dec(h / 1440 % 7))
      case Monthly => Cron(minute, hour, Dec(h / 1440 % 28 + 1), "*", "*")
      case Yearly => Cron(minute, hour, Dec(h / 1440 % 28 + 1), Dec(h / 40320 % 12 + 1), "*")
    }
  }

  /** The texts that stand for a named shorthand. */
  predicate Names(text: string, s: Named) {
    match s
    case Hourly => text == "@hourly"
    case Daily => text == "@daily" || text == "@midnight"
    case Weekly => text == "@weekly"
    case Monthly => text == "@monthly"
    case Yearly => text == "@yearly" || text == "@annually"
  }

  /** Each name compiles to its expression. */
  lemma NamedExpr(schedule: string, s: Named, h: nat, parse: DurationParser)
    requires Names(TrimSpace(schedule), s)
    ensures ResolveSchedule(schedule, h, parse) == Ok(s.Expr(h))
  {
    var text := TrimSpace(schedule);
    assert text[0] == '@';
    match s {
      case Hourly =>
      case Daily => assert text[1] != "@hourly"[1];
      case Weekly => assert text[1] != "@hourly"[1] && text[1] != "@daily"[1] && text[1] != "@midnight"[1];
      case Monthly => MonthlyText(text);
      case Yearly => YearlyText(text);
    }
  }

  lemma MonthlyText(text: string)
    requires text == "@monthly"
    ensures text != "@hourly" && text != "@daily" && text != "@midnight" && text != "@weekly"
  {
    assert text[2] == 'o' && text[1] == 'm';
    assert "@hourly"[1] == 'h' && "@daily"[1] == 'd' && "@midnight"[2] == 'i' && "@weekly"[1] == 'w';
  }

  lemma YearlyText(text: string)
    requires text == "@yearly" || text == "@annually"
    ensures text != "@hourly" && text != "@daily" && text != "@midnight" && text != "@weekly" && text != "@monthly"
  {
    assert text[1] == 'y' || text[1] == 'a';
    assert "@hourly"[1] == 'h' && "@daily"[1] == 'd' && "@midnight"[1] == 'm' && "@weekly"[1] == 'w';
    assert "@monthly"[1] == 'm';
  }

  lemma DecInjective(a: nat, b: nat)
    ensures Dec(a) == Dec(b) <==> a == b
  {
    NatOfDec(a);
    NatOfDec(b);
  }

  lemma CronInjective(a: seq<string>, b: seq<string>)
    requires |a| == |b| == 5
    requires forall i :: 0 <= i < 5 ==> CronWord(a[i]) && CronWord(b[i])
    ensures Cron(a[0], a[1], a[2], a[3], a[4]) == Cron(b[0], b[1], b[2], b[3], b[4]) <==> a == b
  {
    FieldsOfCron(a[0], a[1], a[2], a[3], a[4]);
    FieldsOfCron(b[0], b[1], b[2], b[3], b[4]);
    assert a == [a[0], a[1], a[2], a[3], a[4]] && b == [b[0], b[1], b[2], b[3], b[4]];
  }

  /** A hash as the fields of its expression. */
  function FieldTexts(s: Named, h: nat): seq<string> {
    var minute, hour := Dec(h % 60), Dec(h / 60 % 24);
    match s
    case Hourly => [minute, "*", "*", "*", "*"]
    case Daily => [minute, hour, "*", "*", "*"]
    case Weekly => [minute, hour, "*", "*", Dec(h / 1440 % 7)]
    case Monthly => [minute, hour, Dec(h / 1440 % 28 + 1), "*", "*"]
    case Yearly => [minute, hour, Dec(h / 1440 % 28 + 1), Dec(h / 40320 % 12 + 1), "*"]
  }

  lemma FieldTextsAreWords(s: Named, h: nat)
    ensures |FieldTexts(s, h)| == 5
    ensures forall i :: 0 <= i < 5 ==> CronWord(FieldTexts(s, h)[i])
  {
    DecWord(h % 60);
    DecWord(h / 60 % 24);
    DecWord(h / 1440 % 7);
    DecWord(h / 1440 % 28 + 1);
    DecWord(h / 40320 % 12 + 1);
  }

  lemma SameFieldTexts(s: Named, g: nat, h: nat)
    ensures FieldTexts(s, g) == FieldTexts(s, h) <==> SameFields(s, g, h)
  {
    DecInjective(g % 60, h % 60);
    DecInjective(g / 60 % 24, h / 60 % 24);
    DecInjective(g / 1440 % 7, h / 1440 % 7);
    DecInjective(g / 1440 % 28 + 1, h / 1440 % 28 + 1);
    DecInjective(g / 40320 % 12 + 1, h / 40320 % 12 + 1);
    var a, b := FieldTexts(s, g), FieldTexts(s, h);
    assert a == b <==> a[0] == b[0] && a[1] == b[1] && a[2] == b[2] && a[3] == b[3] && a[4] == b[4];
  }

  predicate SameFields(s: Named, g: nat, h: nat) {
    && g % 60 == h % 60
    && (s.Hourly? || g / 60 % 24 == h / 60 % 24)
    && (s.Weekly? ==> g / 1440 % 7 == h / 1440 % 7)
    && (s.Monthly? || s.Yearly? ==> g / 1440 % 28 == h / 1440 % 28)
    && (s.Yearly? ==> g / 40320 % 12 == h / 40320 % 12)
  }

  /** The fields are the digits of the hash in a mixed radix. */
  lemma FieldsAreDigits(s: Named, g: nat, h: nat)
    ensures SameFields(s, g, h) <==> g % s.Slots() == h % s.Slots()
  {
    SameDigits(g, h, 60, 24);
    SameDigits(g, h, 1440, 7);
    SameDigits(g, h, 1440, 28);
    SameDigits(g, h, 40320, 12);
  }

  /** Two hashes get the same expression exactly if they agree modulo the number of slots. */
  lemma SameExpressionExactly(s: Named, g: nat, h: nat)
    ensures s.Expr(g) == s.Expr(h) <==> g % s.Slots() == h % s.Slots()
  {
    FieldTextsAreWords(s, g);
    FieldTextsAreWords(s, h);
    CronInjective(FieldTexts(s, g), FieldTexts(s, h));
    SameFieldTexts(s, g, h);
    FieldsAreDigits(s, g, h);
  }

  /** An expression has only one phase. */
  lemma OnePhase(expr: string, p: int, g: nat, h: nat)
    requires p >= 1 && FiresInPhase(expr, p, g) && FiresInPhase(expr, p, h)
    ensures g % p == h % p
  {
    OneResidue(MatchersOf(Fields(expr)).value, p, g % p, h % p);
  }

  lemma OneResidue(m: Matchers, p: int, a: nat, b: nat)
    requires p >= 1 && a < p && FiresEvery(m, p, a) && FiresEvery(m, p, b)
    ensures a == b
  {
    Remainder(0, a, p);
    var fires := FiresOn(m, a, 1, 1);
    assert fires <==> a % p == a;
    assert fires <==> a % p == b;
  }

  lemma SameMinuteStep(g: nat, h: nat, step: nat)
    requires step >= 1 && 60 % step == 0 && g % step == h % step
    ensures g % 60 % step == h % 60 % step
  {
    MinutePhase(g, step);
    MinutePhase(h, step);
  }

  lemma SameHourStep(g: nat, h: nat, step: nat)
    requires step >= 1 && 24 % step == 0 && g % (step * 60) == h % (step * 60)
    ensures g % 60 == h % 60 && g / 60 % 24 % step == h / 60 % 24 % step
  {
    HourPhase(g, step);
    HourPhase(h, step);
    Unique(g / 60 % 24 % step, g % 60, h / 60 % 24 % step, h % 60, 60);
  }

  lemma CongruentStep(dur: int, g: nat, h: nat)
    requires Accepted(dur) && PeriodOf(dur) >= 1 && g % PeriodOf(dur) == h % PeriodOf(dur)
    ensures EveryExpr(dur, g) == EveryExpr(dur, h)
  {
    AcceptedPeriod(dur);
    if dur < HOUR {
      SameMinuteStep(g, h, PeriodOf(dur));
    } else if HOUR < dur < DAY {
      WholeHours(dur);
      SameHourStep(g, h, dur / HOUR);
    } else if dur == DAY {
      SameDigits(g, h, 60, 24);
    }
  }

  /** Two hashes get the same stepped expression exactly if they agree modulo the duration. */
  lemma SameStepExactly(dur: int, g: nat, h: nat)
    requires Accepted(dur)
    ensures PeriodOf(dur) >= 1
    ensures EveryExpr(dur, g) == EveryExpr(dur, h) <==> g % PeriodOf(dur) == h % PeriodOf(dur)
  {
    AcceptedInPhase(dur, g);
    AcceptedInPhase(dur, h);
    if EveryExpr(dur, g) == EveryExpr(dur, h) {
      OnePhase(EveryExpr(dur, g), PeriodOf(dur), g, h);
    }
    if g % PeriodOf(dur) == h % PeriodOf(dur) {
      CongruentStep(dur, g, h);
    }
  }

  // ----- every shorthand

  /** The named shorthand that a text stands for. */
  function NamedBy(text: string): (s: Option<Named>)
    ensures s.Some? ==> Names(text, s.value)
    ensures s.None? ==> forall n: Named :: !Names(text, n)
  {
    if Names(text, Hourly) then Some(Hourly)
    else if Names(text, Daily) then Some(Daily)
    else if Names(text, Weekly) then Some(Weekly)
    else if Names(text, Monthly) then Some(Monthly)
    else if Names(text, Yearly) then Some(Yearly)
    else None
  }

  /** The duration of an `@every` text. */
  function EveryOf(text: string, parse: DurationParser): Option<int> {
    match CutPrefix(text, "@every ")
    case Some(d) => parse(TrimSpace(d))
    case None => None
  }

  /** The number of slots a shorthand spreads hashes over, if it is accepted. */
  function SlotsOf(schedule: string, parse: DurationParser): Option<nat> {
    var text := TrimSpace(schedule);
    if NamedBy(text).Some? then Some(NamedBy(text).value.Slots())
    else
      match EveryOf(text, parse)
      case Some(dur) => if Accepted(dur) && PeriodOf(dur) >= 1 then Some(PeriodOf(dur)) else None
      case None => None
  }

  lemma EveryResolves(schedule: string, h: nat, parse: DurationParser)
    requires "@" <= TrimSpace(schedule) && NamedBy(TrimSpace(schedule)).None?
    ensures var r := ResolveSchedule(schedule, h, parse); var dur := EveryOf(TrimSpace(schedule), parse);
      && (r.Ok? <==> dur.Some? && Accepted(dur.value))
      && (r.Ok? ==> r == Ok(EveryExpr(dur.value, h)) && PeriodOf(dur.value) >= 1)
  {
    var text := TrimSpace(schedule);
    assert !Names(text, Hourly) && !Names(text, Daily) && !Names(text, Weekly) && !Names(text, Monthly)
      && !Names(text, Yearly);
    if CutPrefix(text, "@every ").Some? {
      var d := TrimSpace(CutPrefix(text, "@every ").value);
      AcceptedExactly(d, h, parse);
      if parse(d).Some? && Accepted(parse(d).value) {
        AcceptedPeriod(parse(d).value);
      }
    }
  }

  /** A shorthand is accepted exactly if it has slots, whatever the hash. */
  lemma ShorthandResolvesExactly(schedule: string, h: nat, parse: DurationParser)
    requires "@" <= TrimSpace(schedule)
    ensures ResolveSchedule(schedule, h, parse).Ok? <==> SlotsOf(schedule, parse).Some?
  {
    var s := NamedBy(TrimSpace(schedule));
    if s.Some? {
      NamedExpr(schedule, s.value, h, parse);
    } else {
      EveryResolves(schedule, h, parse);
    }
  }

  /** A shorthand is unknown exactly if it is no name and does not start with every. */
  lemma UnknownExactly(schedule: string, h: nat, parse: DurationParser)
    requires "@" <= TrimSpace(schedule)
    ensures ResolveSchedule(schedule, h, parse) == Err(UnknownShorthand) <==>
      NamedBy(TrimSpace(schedule)).None? && !("@every " <= TrimSpace(schedule))
  {
    var s := NamedBy(TrimSpace(schedule));
    if s.Some? {
      NamedExpr(schedule, s.value, h, parse);
    } else {
      var text := TrimSpace(schedule);
      assert !Names(text, Hourly) && !Names(text, Daily) && !Names(text, Weekly) && !Names(text, Monthly)
        && !Names(text, Yearly);
    }
  }

  /** Two hashes get the same schedule exactly if they agree modulo the number of slots. */
  lemma SameSlotExactly(schedule: string, g: nat, h: nat, parse: DurationParser)
    requires "@" <= TrimSpace(schedule) && SlotsOf(schedule, parse).Some?
    ensures var m := SlotsOf(schedule, parse).value;
      && m >= 1
      && (ResolveSchedule(schedule, g, parse) == ResolveSchedule(schedule, h, parse) <==> g % m == h % m)
  {
    var s := NamedBy(TrimSpace(schedule));
    if s.Some? {
      NamedExpr(schedule, s.value, g, parse);
      NamedExpr(schedule, s.value, h, parse);
      SameExpressionExactly(s.value, g, h);
    } else {
      EveryResolves(schedule, g, parse);
      EveryResolves(schedule, h, parse);
      SameStepExactly(EveryOf(TrimSpace(schedule), parse).value, g, h);
    }
  }

  // ----- balance

  /** The schedules of two hashes are the same. */
  predicate SameSlot(schedule: string, g: nat, h: nat, parse: DurationParser) {
    ResolveSchedule(schedule, g, parse) == ResolveSchedule(schedule, h, parse)
  }

  function SlotOf(schedule: string, h: nat, parse: DurationParser): nat -> bool {
    (g: nat) => SameSlot(schedule, g, h, parse)
  }

  function CountBelow(p: nat -> bool, n: nat): nat {
    if n == 0 then 0 else CountBelow(p, n - 1) + One(p(n - 1))
  }

  /** How many of the hashes below n are compiled to the schedule of h. */
  function Sharing(schedule: string, n: nat, h: nat, parse: DurationParser): nat {
    CountBelow(SlotOf(schedule, h, parse), n)
  }

  lemma QuotientNext(n: nat, m: nat)
    requires n >= 1 && m >= 1
    ensures n % m == 0 ==> (n - 1) % m == m - 1 && (n - 1) / m == n / m - 1
    ensures n % m > 0 ==> (n - 1) % m == n % m - 1 && (n - 1) / m == n / m
  {
    Divide(n, m);
    if n % m == 0 {
      assert n - 1 == (n / m - 1) * m + (m - 1);
      Remainder(n / m - 1, m - 1, m);
    } else {
      Remainder(n / m, n % m - 1, m);
    }
  }

  /** How many of the numbers below n leave the remainder r. */
  function Share(n: nat, r: nat, m: nat): nat
    requires m >= 1
  {
    n / m + if r < n % m then 1 else 0
  }

  lemma ShareNext(n: nat, r: nat, m: nat)
    requires n >= 1 && r < m
    ensures Share(n, r, m) == Share(n - 1, r, m) + One((n - 1) % m == r)
  {
    QuotientNext(n, m);
  }

  lemma NothingShared(r: nat, m: nat)
    requires m >= 1
    ensures Share(0, r, m) == 0
  {
    Remainder(0, 0, m);
  }

  lemma {:induction false} CountByRemainder(p: nat -> bool, n: nat, r: nat, m: nat)
    requires r < m && forall g: nat :: p(g) <==> g % m == r
    ensures CountBelow(p, n) == Share(n, r, m)
  {
    if n > 0 {
      CountByRemainder(p, n - 1, r, m);
      ShareNext(n, r, m);
    } else {
      NothingShared(r, m);
    }
  }

  /** How many hashes below a bound share the schedule of h. */
  lemma SharingIsQuotient(schedule: string, n: nat, h: nat, parse: DurationParser)
    requires "@" <= TrimSpace(schedule) && SlotsOf(schedule, parse).Some?
    ensures var m := SlotsOf(schedule, parse).value;
      m >= 1 && Sharing(schedule, n, h, parse) == n / m + if h % m < n % m then 1 else 0
  {
    var m := SlotsOf(schedule, parse).value;
    SameSlotExactly(schedule, h, h, parse);
    forall g: nat ensures SlotOf(schedule, h, parse)(g) <==> g % m == h % m {
      SameSlotExactly(schedule, g, h, parse);
    }
    CountByRemainder(SlotOf(schedule, h, parse), n, h % m, m);
  }

  /** Over any bound on the hash, the number of hashes per slot of a shorthand differs by at most one. */
  lemma JitterIsBalanced(schedule: string, n: nat, g: nat, h: nat, parse: DurationParser)
    requires "@" <= TrimSpace(schedule) && ResolveSchedule(schedule, h, parse).Ok?
    ensures SlotsOf(schedule, parse).Some? && SlotsOf(schedule, parse).value >= 1
    ensures -1 <= Sharing(schedule, n, g, parse) - Sharing(schedule, n, h, parse) <= 1
    ensures var share := n / SlotsOf(schedule, parse).value; share <= Sharing(schedule, n, h, parse) <= share + 1
  {
    ShorthandResolvesExactly(schedule, h, parse);
    SharingIsQuotient(schedule, n, g, parse);
    SharingIsQuotient(schedule, n, h, parse);
  }

  // ----- what the cadence check sees of the monthly and yearly shorthands

  lemma {:induction false} FiredAtMostOnce(m: Matchers, n: nat, t0: int)
    requires forall t: nat :: t < n && FiresAt(m, t) ==> t == t0
    ensures Fired(m, n) == if 0 <= t0 < n && FiresAt(m, t0) then [t0] else []
  {
    if n > 0 {
      FiredAtMostOnce(m, n - 1, t0);
      FiredNext(m, n - 1);
    }
  }

  /** The days of the window, as month and day of the month. */
  predicate InWindow(month: int, day: int) {
    (month == 1 && 5 <= day <= 31) || (month == 2 && day == 1)
  }

  /** An expression that names one minute of one day of the month fires at most once in the window. */
  lemma OneMinute(m: Matchers, minute: nat, hour: nat, day: int)
    requires minute < 60 && hour < 24
    requires m.minute == {minute} && m.hour == {hour} && m.day == {day} && AnyWeekday(m)
    ensures var c := CadenceOfFired(Fired(m, WINDOW));
      && c.gaps == []
      && (5 <= day <= 28 ==> c.fires == if 1 in m.month then 1 else 0)
      && (2 <= day <= 4 ==> c.fires == 0)
      && (day == 1 ==> c.fires == if 2 in m.month then 1 else 0)
  {
    var t0 := (if day == 1 then 27 else day - 5) * 1440 + hour * 60 + minute;
    forall t: nat | t < WINDOW && FiresAt(m, t) ensures t == t0 {
      WindowMinute(t, minute, hour, day);
    }
    FiredAtMostOnce(m, WINDOW, t0);
    if 1 <= day <= 28 && !(2 <= day <= 4) {
      ClockOf(t0, minute, hour, if day == 1 then 27 else day - 5);
      assert WeekdayOf(t0) in m.weekday;
    }
  }

  lemma ClockOf(t: nat, minute: nat, hour: nat, d: nat)
    requires minute < 60 && hour < 24 && d < 28 && t == d * 1440 + hour * 60 + minute
    ensures t < WINDOW && t % 60 == minute && t / 60 % 24 == hour && t / 1440 == d
  {
  }

  lemma WindowMinute(t: nat, minute: nat, hour: nat, day: int)
    requires t < WINDOW && t % 60 == minute && t / 60 % 24 == hour && DayOf(t) == day
    ensures t == (if day == 1 then 27 else day - 5) * 1440 + hour * 60 + minute
  {
    Digits(t, 60, 24);
    Divide(t, 1440);
  }

  /**
   The 28-day window has no day 2, 3 or 4, so the cadence of a monthly schedule depends on its
   hash: it is one run, or none exactly if the hash picks one of those days.
   */
  lemma MonthlyCadenceExactly(schedule: string, h: nat, parse: DurationParser)
    requires Names(TrimSpace(schedule), Monthly)
    ensures var r := ResolveSchedule(schedule, h, parse);
      r.Ok? && CadenceOfExpr(r.value) == Ok(Cadence(if 2 <= h / 1440 % 28 + 1 <= 4 then 0 else 1, []))
  {
    NamedExpr(schedule, Monthly, h, parse);
    MonthlyFires(h);
  }

  lemma MonthlyFires(h: nat)
    ensures CadenceOfExpr(Monthly.Expr(h)) == Ok(Cadence(if 2 <= h / 1440 % 28 + 1 <= 4 then 0 else 1, []))
  {
    var fields := FieldTexts(Monthly, h);
    FieldTextsAreWords(Monthly, h);
    FieldsOfCron(fields[0], fields[1], fields[2], "*", "*");
    assert Fields(Monthly.Expr(h)) == fields;
    DayInMonth(h % 60, h / 60 % 24, h / 1440 % 28 + 1);
  }

  /** An expression for one minute of one day of every month. */
  lemma DayInMonth(minute: nat, hour: nat, day: nat)
    requires minute < 60 && hour < 24 && 1 <= day <= 28
    ensures var r := MatchersOf([Dec(minute), Dec(hour), Dec(day), "*", "*"]);
      r.Ok? && CadenceOfFired(Fired(r.value, WINDOW)) == Cadence(if 2 <= day <= 4 then 0 else 1, [])
  {
    DecField(minute, 0, 59);
    DecField(hour, 0, 23);
    DecField(day, 1, 31);
    StarField(1, 12);
    StarField(0, 6);
    OneMinute(MatchersOf([Dec(minute), Dec(hour), Dec(day), "*", "*"]).value, minute, hour, day);
  }

  /** A yearly schedule runs in the window exactly if its day is one of the window's. */
  lemma YearlyCadenceExactly(schedule: string, h: nat, parse: DurationParser)
    requires Names(TrimSpace(schedule), Yearly)
    ensures var r := ResolveSchedule(schedule, h, parse);
      && r.Ok?
      && CadenceOfExpr(r.value) == Ok(Cadence(if InWindow(h / 40320 % 12 + 1, h / 1440 % 28 + 1) then 1 else 0, []))
  {
    NamedExpr(schedule, Yearly, h, parse);
    YearlyFires(h);
  }

  lemma YearlyFires(h: nat)
    ensures CadenceOfExpr(Yearly.Expr(h))
      == Ok(Cadence(if InWindow(h / 40320 % 12 + 1, h / 1440 % 28 + 1) then 1 else 0, []))
  {
    var fields := FieldTexts(Yearly, h);
    FieldTextsAreWords(Yearly, h);
    FieldsOfCron(fields[0], fields[1], fields[2], fields[3], "*");
    assert Fields(Yearly.Expr(h)) == fields;
    DayInYear(h % 60, h / 60 % 24, h / 1440 % 28 + 1, h / 40320 % 12 + 1);
  }

  /** An expression for one minute of one day of the year. */
  lemma DayInYear(minute: nat, hour: nat, day: nat, month: nat)
    requires minute < 60 && hour < 24 && 1 <= day <= 28 && 1 <= month <= 12
    ensures var r := MatchersOf([Dec(minute), Dec(hour), Dec(day), Dec(month), "*"]);
      r.Ok? && CadenceOfFired(Fired(r.value, WINDOW)) == Cadence(if InWindow(month, day) then 1 else 0, [])
  {
    DecField(minute, 0, 59);
    DecField(hour, 0, 23);
    DecField(day, 1, 31);
    DecField(month, 1, 12);
    StarField(0, 6);
    OneMinute(MatchersOf([Dec(minute), Dec(hour), Dec(day), Dec(month), "*"]).value, minute, hour, day);
  }
}
