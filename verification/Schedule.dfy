/**
 The schedule compiler of internal/backup/schedule.go. The hash of the resource key is an
 arbitrary natural number h, and time.ParseDuration, which gives nanoseconds, is a parameter.
 */
module Schedule {
  import opened Outcomes
  import opened Text

  const MINUTE: int := 60_000_000_000
  const HOUR: int := 60 * MINUTE
  const DAY: int := 24 * HOUR

  datatype ScheduleError =
    | Empty
    | FieldCount(n: nat)
    | UnknownShorthand
    | BadDuration
    | NotPositive
    | NotWhole
    | NotEven
    | TooLong

  type DurationParser = string -> Option<int>

  /** Five fields with a space between each two, as the format strings have them. */
  function Cron(minute: string, hour: string, day: string, month: string, weekday: string): string {
    minute + " " + (hour + " " + (day + " " + (month + " " + weekday)))
  }

  function Stepped(offset: nat, top: nat, step: nat): string {
    Dec(offset) + ("-" + (Dec(top) + ("/" + Dec(step))))
  }

  function ResolveEvery(d: string, minute: nat, hour: nat, parse: DurationParser): Result<string, ScheduleError> {
    match parse(d)
    case None => Err(BadDuration)
    case Some(dur) =>
      if dur <= 0 then Err(NotPositive)
      else if dur < HOUR then
        var mins := dur / MINUTE;
        if mins == 0 || dur % MINUTE != 0 then Err(NotWhole)
        else if 60 % mins != 0 then Err(NotEven)
        else Ok(Cron(Stepped(minute % mins, 59, mins), "*", "*", "*", "*"))
      else if dur == HOUR then
        Ok(Cron(Dec(minute), "*", "*", "*", "*"))
      else if dur < DAY then
        var hours := dur / HOUR;
        if dur % HOUR != 0 then Err(NotWhole)
        else if 24 % hours != 0 then Err(NotEven)
        else Ok(Cron(Dec(minute), Stepped(hour % hours, 23, hours), "*", "*", "*"))
      else if dur == DAY then
        Ok(Cron(Dec(minute), Dec(hour), "*", "*", "*"))
      else
        Err(TooLong)
  }

  /** ResolveSchedule, h being the jitter of the key. */
  function ResolveSchedule(schedule: string, h: nat, parse: DurationParser): Result<string, ScheduleError> {
    var s := TrimSpace(schedule);
    var minute, hour := h % 60, h / 60 % 24;
    if s == [] then Err(Empty)
    else if !("@" <= s) then
      if |Fields(s)| != 5 then Err(FieldCount(|Fields(s)|)) else Ok(s)
    else if s == "@hourly" then
      Ok(Cron(Dec(minute), "*", "*", "*", "*"))
    else if s == "@daily" || s == "@midnight" then
      Ok(Cron(Dec(minute), Dec(hour), "*", "*", "*"))
    else if s == "@weekly" then
      Ok(Cron(Dec(minute), Dec(hour), "*", "*", Dec(h / 1440 % 7)))
    else if s == "@monthly" then
      Ok(Cron(Dec(minute), Dec(hour), Dec(h / 1440 % 28 + 1), "*", "*"))
    else if s == "@yearly" || s == "@annually" then
      Ok(Cron(Dec(minute), Dec(hour), Dec(h / 1440 % 28 + 1), Dec(h / 40320 % 12 + 1), "*"))
    else
      match CutPrefix(s, "@every ")
      case Some(d) => ResolveEvery(TrimSpace(d), minute, hour, parse)
      case None => Err(UnknownShorthand)
  }

  /**
   * A schedule that is no shorthand is taken as it is, but for the spaces around it, if and only if it has five fields;
   * otherwise it says whether it is empty or how many it has.
   */
  lemma PlainExactly(schedule: string, h: nat, parse: DurationParser)
    requires !("@" <= TrimSpace(schedule))
    ensures var r, n := ResolveSchedule(schedule, h, parse), |Fields(schedule)|;
      && (r.Ok? <==> n == 5)
      && (r.Ok? ==> Fields(r.value) == Fields(schedule) && r.value == TrimSpace(schedule))
      && (r == Err(Empty) <==> n == 0)
      && (r.Err? ==> r.error == if n == 0 then Empty else FieldCount(n))
  {
    FieldsOfTrimmed(schedule);
    var s := TrimSpace(schedule);
    if s != [] {
      FieldStarts(s, schedule);
    }
  }

  /** A text that is not empty once trimmed has a field. */
  lemma FieldStarts(s: string, schedule: string)
    requires s == TrimSpace(schedule) && s != []
    ensures Fields(s) != []
  {
    var right := TrimRightIsPrefix(TrimLeft(schedule, IsSpace), IsSpace);
    assert !IsSpace(s[|s| - 1]);
    LastField(s, []);
  }

  lemma {:induction false} LastField(s: string, cur: string)
    requires s != [] && !IsSpace(s[|s| - 1])
    ensures FieldsFrom(s, cur) != []
  {
    if |s| == 1 {
      assert s[1..] == [];
    } else {
      LastField(s[1..], if IsSpace(s[0]) then [] else cur + [s[0]]);
    }
  }
}
