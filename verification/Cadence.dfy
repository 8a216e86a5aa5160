/** The cron reader and cadence calculator of internal/cli/cadence.go. */
module Cadence {
  import opened Outcomes
  import opened Text
  import opened Modular

  datatype CronError =
    | WrongFieldCount(n: nat)
    | BadStep
    | BadNumber
    | OutOfRange

  // ----- one field

  /** strings.Cut at a one-character separator. */
  function Cut(s: string, sep: char): Option<(string, string)> {
    if s == [] then None
    else if s[0] == sep then Some(([], s[1..]))
    else
      match Cut(s[1..], sep)
      case None => None
      case Some((a, b)) => Some(([s[0]] + a, b))
  }

  datatype Range = Range(lo: int, hi: int, step: int)

  /** The values of all fields are below this. */
  const TOP: int := 60

  predicate Proper(r: Range) {
    0 <= r.lo <= r.hi < TOP && 1 <= r.step < INT64_LIMIT
  }

  predicate OnStep(v: int, r: Range)
    requires r.step >= 1
  {
    (v - r.lo) % r.step == 0
  }

  /** The values lo, lo + step, ... up to hi. */
  function Progression(r: Range): set<int>
    requires r.step >= 1
  {
    set v: int | r.lo <= v <= r.hi && OnStep(v, r)
  }

  /** The sum of two 64-bit integers, the second one positive. */
  function Plus64(a: int, b: int): int {
    if a + b >= INT64_LIMIT then a + b - 2 * INT64_LIMIT else a + b
  }

  /** How long the loop over a range goes on from v: a huge step wraps around, and back, a little lower every time. */
  function Remaining(r: Range, v: int): int {
    if v > r.hi then 0
    else if r.step < INT64_LIMIT - TOP then r.hi - v + 1
    else if v >= -1000 then 2 * (v + 1001)
    else 2 * (v + r.step + 1001) + 1
  }

  lemma RemainingShrinks(r: Range, v: int)
    requires Proper(r) && -INT64_LIMIT <= v <= r.hi
    ensures -INT64_LIMIT <= Plus64(v, r.step) && 0 <= Remaining(r, Plus64(v, r.step)) < Remaining(r, v)
  {
  }

  /** The values that the loop over a range reaches from v, in 64-bit arithmetic. */
  function Reached(r: Range, v: int): set<int>
    requires Proper(r) && -INT64_LIMIT <= v
    decreases Remaining(r, v)
  {
    if v > r.hi then {}
    else
      RemainingShrinks(r, v);
      {v} + Reached(r, Plus64(v, r.step))
  }

  /** What the loop over a range allows: its progression, unless the first sum wraps around. */
  function RangeValues(r: Range): set<int>
    requires Proper(r)
  {
    if r.lo + r.step < INT64_LIMIT then Progression(r) else Reached(r, r.lo)
  }

  /** The base of a part and its step, which is 1 if none is given. */
  function StepOf(part: string): Result<(string, int), CronError> {
    match Cut(part, '/')
    case None => Ok((part, 1))
    case Some((base, text)) =>
      match Atoi(text)
      case None => Err(BadStep)
      case Some(n) => if n < 1 then Err(BadStep) else Ok((base, n))
  }

  function BoundsOf(base: string, min: int, max: int): Result<(int, int), CronError> {
    if base == "*" then Ok((min, max))
    else
      match Cut(base, '-')
      case Some((a, b)) =>
        var lo, hi := Atoi(a), Atoi(b);
        if lo.None? || hi.None? then Err(BadNumber) else Ok((lo.value, hi.value))
      case None =>
        var n := Atoi(base);
        if n.None? then Err(BadNumber) else Ok((n.value, n.value))
  }

  /** The range one comma-separated part of a field stands for. */
  function PartRange(part: string, min: int, max: int): (r: Result<Range, CronError>)
    ensures r.Ok? ==> min <= r.value.lo <= r.value.hi <= max && 1 <= r.value.step < INT64_LIMIT
  {
    match StepOf(part)
    case Err(e) => Err(e)
    case Ok((base, step)) =>
      match BoundsOf(base, min, max)
      case Err(e) => Err(e)
      case Ok((lo, hi)) =>
        if lo < min || hi > max || lo > hi then Err(OutOfRange) else Ok(Range(lo, hi, step))
  }

  function PartsSet(parts: seq<string>, min: int, max: int): Result<set<int>, CronError>
    requires 0 <= min <= max < TOP
  {
    if parts == [] then Ok({})
    else
      match PartsSet(parts[..|parts| - 1], min, max)
      case Err(e) => Err(e)
      case Ok(allowed) =>
        match PartRange(parts[|parts| - 1], min, max)
        case Err(e) => Err(e)
        case Ok(range) => Ok(allowed + RangeValues(range))
  }

  /** The values a cron field allows. */
  function FieldSet(field: string, min: int, max: int): Result<set<int>, CronError>
    requires 0 <= min <= max < TOP
  {
    PartsSet(Split(field, ','), min, max)
  }

  method FieldMatcher(field: string, min: int, max: int) returns (r: Result<set<int>, CronError>)
    requires 0 <= min <= max < TOP
    ensures r == FieldSet(field, min, max)
    ensures r.Ok? <==> AllReadable(Split(field, ','), min, max)
    ensures r.Ok? ==> forall v :: v in r.value <==> SomeAllows(Split(field, ','), min, max, v)
  {
    FieldExactly(field, min, max);
    var allowed: set<int> := {};
    var parts := Split(field, ',');
    for i := 0 to |parts|
      invariant PartsSet(parts[..i], min, max) == Ok(allowed)
    {
      assert parts[..i + 1][..i] == parts[..i];
      var range := PartRange(parts[i], min, max);
      if range.Err? {
        PartsFail(parts, i + 1, min, max);
        return Err(range.error);
      }
      ghost var before := allowed;
      var v := range.value.lo;
      while v <= range.value.hi
        invariant -INT64_LIMIT <= v
        invariant allowed + Reached(range.value, v) == before + Reached(range.value, range.value.lo)
        decreases Remaining(range.value, v)
      {
        RemainingShrinks(range.value, v);
        allowed := allowed + {v};
        v := Plus64(v, range.value.step);
      }
      assert Reached(range.value, v) == {} && allowed + {} == allowed;
      RangeValuesAreReached(range.value);
    }
    assert parts[..|parts|] == parts;
    return Ok(allowed);
  }

  lemma {:induction false} PartsFail(parts: seq<string>, n: nat, min: int, max: int)
    requires n <= |parts| && 0 <= min <= max < TOP
    requires PartsSet(parts[..n], min, max).Err?
    ensures PartsSet(parts, min, max) == PartsSet(parts[..n], min, max)
    decreases |parts|
  {
    if n < |parts| {
      var init := parts[..|parts| - 1];
      assert init[..n] == parts[..n];
      PartsFail(init, n, min, max);
    } else {
      assert parts[..n] == parts;
    }
  }

  // ----- what a field means

  /** The text up to the first separator, and what comes behind it. */
  lemma {:induction false} CutExactly(s: string, sep: char)
    ensures Cut(s, sep).None? <==> sep !in s
    ensures forall a, b :: Cut(s, sep) == Some((a, b)) <==> s == a + [sep] + b && sep !in a
  {
    if s != [] {
      CutExactly(s[1..], sep);
      forall a: string, b: string ensures Cut(s, sep) == Some((a, b)) <==> s == a + [sep] + b && sep !in a {
        if a == [] {
          assert a + [sep] + b == [sep] + b;
        } else {
          assert (a + [sep] + b)[1..] == a[1..] + [sep] + b;
          assert a == [a[0]] + a[1..] && s == [s[0]] + s[1..];
        }
      }
    }
  }

  predicate PartReadable(part: string, min: int, max: int) {
    PartRange(part, min, max).Ok?
  }

  /** The part stands for a range that has the value. */
  predicate PartAllows(part: string, min: int, max: int, v: int)
    requires 0 <= min <= max < TOP
  {
    PartReadable(part, min, max) && v in RangeValues(PartRange(part, min, max).value)
  }

  predicate AllReadable(parts: seq<string>, min: int, max: int) {
    forall i :: 0 <= i < |parts| ==> PartReadable(parts[i], min, max)
  }

  predicate SomeAllows(parts: seq<string>, min: int, max: int, v: int)
    requires 0 <= min <= max < TOP
  {
    exists i :: 0 <= i < |parts| && PartAllows(parts[i], min, max, v)
  }

  /** Parts are read if each of them is, and allow what any of them does. */
  lemma {:induction false} PartsExactly(parts: seq<string>, min: int, max: int)
    requires 0 <= min <= max < TOP
    ensures PartsSet(parts, min, max).Ok? <==> AllReadable(parts, min, max)
    ensures forall v :: PartsSet(parts, min, max).Ok? ==>
      (v in PartsSet(parts, min, max).value <==> SomeAllows(parts, min, max, v))
  {
    if parts != [] {
      var n := |parts| - 1;
      PartsExactly(parts[..n], min, max);
      LastPart(parts, min, max);
    }
  }

  lemma LastPart(parts: seq<string>, min: int, max: int)
    requires 0 <= min <= max < TOP && parts != []
    ensures var n := |parts| - 1;
      && (AllReadable(parts, min, max) <==> AllReadable(parts[..n], min, max) && PartReadable(parts[n], min, max))
      && forall v :: SomeAllows(parts, min, max, v) <==>
           SomeAllows(parts[..n], min, max, v) || PartAllows(parts[n], min, max, v)
  {
    var n := |parts| - 1;
    assert parts == parts[..n] + [parts[n]];
    forall v ensures SomeAllows(parts, min, max, v) <==>
      SomeAllows(parts[..n], min, max, v) || PartAllows(parts[n], min, max, v)
    {
      PartsOfBoth(parts[..n], [parts[n]], min, max, v);
      assert SomeAllows([parts[n]], min, max, v) <==> PartAllows(parts[n], min, max, v) by {
        assert [parts[n]][0] == parts[n];
      }
    }
  }

  lemma PartsOfBoth(xs: seq<string>, ys: seq<string>, min: int, max: int, v: int)
    requires 0 <= min <= max < TOP
    ensures SomeAllows(xs + ys, min, max, v) <==> SomeAllows(xs, min, max, v) || SomeAllows(ys, min, max, v)
  {
    assert forall i :: 0 <= i < |xs| ==> (xs + ys)[i] == xs[i];
    assert forall i :: 0 <= i < |ys| ==> (xs + ys)[|xs| + i] == ys[i];
  }

  /** A field is read if all its comma-separated parts are, and allows what any of them does. */
  lemma FieldExactly(field: string, min: int, max: int)
    requires 0 <= min <= max < TOP
    ensures var parts := Split(field, ','); var r := FieldSet(field, min, max);
      && (r.Ok? <==> AllReadable(parts, min, max))
      && (forall v :: r.Ok? ==> (v in r.value <==> SomeAllows(parts, min, max, v)))
  {
    PartsExactly(Split(field, ','), min, max);
  }

  /** A field with a comma allows what either side allows. */
  lemma CommaIsUnion(a: string, b: string, min: int, max: int)
    requires 0 <= min <= max < TOP && ',' !in a
    ensures var both := FieldSet(a + "," + b, min, max); var x, y := FieldSet(a, min, max), FieldSet(b, min, max);
      (both.Ok? <==> x.Ok? && y.Ok?) && (both.Ok? ==> both.value == x.value + y.value)
  {
    SplitAt(a, ',', b);
    assert a + "," + b == a + [','] + b;
    SplitNone(a, ',');
    FieldExactly(a, min, max);
    FieldExactly(b, min, max);
    FieldExactly(a + "," + b, min, max);
    JoinedParts([a], Split(b, ','), min, max);
  }

  lemma JoinedParts(xs: seq<string>, ys: seq<string>, min: int, max: int)
    requires 0 <= min <= max < TOP
    ensures AllReadable(xs + ys, min, max) <==> AllReadable(xs, min, max) && AllReadable(ys, min, max)
    ensures forall v ::
      SomeAllows(xs + ys, min, max, v) <==> SomeAllows(xs, min, max, v) || SomeAllows(ys, min, max, v)
  {
    assert forall i :: 0 <= i < |xs| ==> (xs + ys)[i] == xs[i];
    assert forall i :: 0 <= i < |ys| ==> (xs + ys)[|xs| + i] == ys[i];
    forall v ensures SomeAllows(xs + ys, min, max, v) <==> SomeAllows(xs, min, max, v) || SomeAllows(ys, min, max, v) {
      PartsOfBoth(xs, ys, min, max, v);
    }
  }

  /** Within the values of its field a part with a small step allows every step-th value, from its start to its end. */
  lemma PartMeans(part: string, min: int, max: int, v: int)
    requires 0 <= min <= max < TOP && PartRange(part, min, max).Ok? && PartRange(part, min, max).value.step < TOP
    ensures var r := PartRange(part, min, max).value;
      v in RangeValues(r) <==> exists k: nat :: v == r.lo + k * r.step && v <= r.hi
  {
    var r := PartRange(part, min, max).value;
    if v in RangeValues(r) {
      Divide(v - r.lo, r.step);
      assert (v - r.lo) / r.step >= 0;
      assert v == r.lo + ((v - r.lo) / r.step) * r.step;
    }
    if k: nat :| v == r.lo + k * r.step && v <= r.hi {
      Remainder(k, 0, r.step);
      assert v >= r.lo;
    }
  }

  /** A star stands for all values, a number for itself, a dash for what lies between; a slash gives the step. */
  lemma PartReads(base: string, a: string, b: string, text: string, min: int, max: int)
    requires '/' !in base && '-' !in a && base != "*" && '/' !in a && '/' !in b
    ensures StepOf(base) == Ok((base, 1))
    ensures StepOf(base + "/" + text) ==
      (if Atoi(text).Some? && Atoi(text).value >= 1 then Ok((base, Atoi(text).value)) else Err(BadStep))
    ensures BoundsOf("*", min, max) == Ok((min, max))
    ensures '-' !in base ==>
      BoundsOf(base, min, max)
        == (if Atoi(base).Some? then Ok((Atoi(base).value, Atoi(base).value)) else Err(BadNumber))
    ensures BoundsOf(a + "-" + b, min, max) ==
      (if Atoi(a).Some? && Atoi(b).Some? then Ok((Atoi(a).value, Atoi(b).value)) else Err(BadNumber))
  {
    CutExactly(base, '/');
    CutExactly(base + "/" + text, '/');
    assert base + "/" + text == base + ['/'] + text;
    CutExactly(base, '-');
    CutExactly(a + "-" + b, '-');
    assert a + "-" + b == a + ['-'] + b;
    assert (a + "-" + b)[|a|] == '-';
  }

  /** A part is refused if its step or a bound is, or the bounds are out of order or of the field. */
  lemma PartRefused(part: string, min: int, max: int)
    ensures PartRange(part, min, max).Err? <==>
      || StepOf(part).Err? || BoundsOf(StepOf(part).value.0, min, max).Err?
      || var bounds := BoundsOf(StepOf(part).value.0, min, max).value;
         bounds.0 < min || bounds.1 > max || bounds.0 > bounds.1
    ensures var r := PartRange(part, min, max); r.Ok? ==>
      StepOf(part).value.1 == r.value.step && BoundsOf(StepOf(part).value.0, min, max).value == (r.value.lo, r.value.hi)
  {
  }

  // ----- when a range is read right

  /** The part of the progression from v on. */
  ghost function From(r: Range, v: int): set<int>
    requires r.step >= 1
  {
    set w: int | r.lo <= w <= r.hi && OnStep(w, r) && v <= w
  }

  lemma BetweenSteps(r: Range, v: int, w: int)
    requires r.step >= 1 && OnStep(v, r) && v < w < v + r.step
    ensures !OnStep(w, r)
  {
    Divide(v - r.lo, r.step);
    Remainder((v - r.lo) / r.step, w - v, r.step);
  }

  lemma NextOnStep(r: Range, v: int)
    requires r.step >= 1 && OnStep(v, r)
    ensures OnStep(v + r.step, r)
  {
    Shift(v - r.lo, 1, r.step);
  }

  /** One step further, the progression has one value less. */
  lemma OneLess(r: Range, v: int)
    requires r.step >= 1 && r.lo <= v <= r.hi && OnStep(v, r)
    ensures From(r, v) == {v} + From(r, v + r.step)
  {
    forall w | w in From(r, v) ensures w in {v} + From(r, v + r.step) {
      if v < w < v + r.step {
        BetweenSteps(r, v, w);
      }
    }
  }

  lemma {:induction false} ReachedFrom(r: Range, v: int)
    requires Proper(r) && r.lo <= v && OnStep(v, r) && r.step < INT64_LIMIT - TOP
    ensures Reached(r, v) == From(r, v)
    decreases Remaining(r, v)
  {
    if v <= r.hi {
      RemainingShrinks(r, v);
      NextOnStep(r, v);
      OneLess(r, v);
      ReachedFrom(r, v + r.step);
    }
  }

  lemma ZeroOnStep(r: Range)
    requires r.step >= 1
    ensures OnStep(r.lo, r)
  {
    Remainder(0, 0, r.step);
  }

  /** Of a progression with a step beyond hi only the start is left. */
  lemma OnlyStart(r: Range)
    requires Proper(r) && r.step >= TOP
    ensures Progression(r) == {r.lo}
  {
    ZeroOnStep(r);
    forall w | w in Progression(r) ensures w == r.lo {
      if w > r.lo {
        BetweenSteps(r, r.lo, w);
      }
    }
  }

  /** As long as the first sum fits into 64 bits, the loop reaches the progression. */
  lemma ReachesProgression(r: Range)
    requires Proper(r) && r.lo + r.step < INT64_LIMIT
    ensures Reached(r, r.lo) == Progression(r)
  {
    if r.step < INT64_LIMIT - TOP {
      ZeroOnStep(r);
      ReachedFrom(r, r.lo);
    } else {
      OnlyStart(r);
      RemainingShrinks(r, r.lo);
      assert Reached(r, r.lo + r.step) == {};
    }
  }

  lemma RangeValuesAreReached(r: Range)
    requires Proper(r)
    ensures RangeValues(r) == Reached(r, r.lo)
  {
    if r.lo + r.step < INT64_LIMIT {
      ReachesProgression(r);
    }
  }

  /** With a step that wraps around, every value is below the one before. */
  lemma {:induction false} ReachedBelow(r: Range, v: int)
    requires Proper(r) && r.step >= INT64_LIMIT - TOP && -1000 <= v <= r.hi
    ensures forall w :: w in Reached(r, v) ==> w <= v
    decreases Remaining(r, v)
  {
    RemainingShrinks(r, v);
    var u := Plus64(v, r.step);
    if u <= r.hi {
      RemainingShrinks(r, u);
      var next := Plus64(u, r.step);
      assert -1000 <= next < v;
      assert Reached(r, v) == {v} + ({u} + Reached(r, next));
      ReachedBelow(r, next);
    }
  }

  /** The values that the fields can have are allowed exactly if they are in the progression. */
  ghost predicate ReadsRight(r: Range, min: int, max: int)
    requires Proper(r)
  {
    forall w :: min <= w <= max ==> (w in RangeValues(r) <==> w in Progression(r))
  }

  /** A range is read as its progression exactly if its step does not wrap around into the values of the field. */
  lemma ReadsRightExactly(r: Range, min: int, max: int)
    requires Proper(r) && 0 <= min <= r.lo && r.hi <= max
    ensures ReadsRight(r, min, max) <==> 2 * r.step + r.lo - min < 2 * INT64_LIMIT
  {
    if r.lo + r.step >= INT64_LIMIT {
      OnlyStart(r);
      RemainingShrinks(r, r.lo);
      var u := Plus64(r.lo, r.step);
      RemainingShrinks(r, u);
      var next := Plus64(u, r.step);
      assert Reached(r, r.lo) == {r.lo} + ({u} + Reached(r, next));
      assert next in Reached(r, next);
      ReachedBelow(r, next);
    }
  }

  // ----- the whole expression

  /** The allowed values of the five fields. */
  datatype Matchers = Matchers(minute: set<int>, hour: set<int>, day: set<int>, month: set<int>, weekday: set<int>) {
    predicate Fires(minute: int, hour: int, day: int, month: int, weekday: int) {
      && minute in this.minute && hour in this.hour && day in this.day
      && month in this.month && weekday in this.weekday
    }
  }

  function MatchersOf(fields: seq<string>): Result<Matchers, CronError> {
    if |fields| != 5 then Err(WrongFieldCount(|fields|))
    else
      var minute, hour := FieldSet(fields[0], 0, 59), FieldSet(fields[1], 0, 23);
      var day, month, weekday := FieldSet(fields[2], 1, 31), FieldSet(fields[3], 1, 12), FieldSet(fields[4], 0, 6);
      if minute.Err? then Err(minute.error)
      else if hour.Err? then Err(hour.error)
      else if day.Err? then Err(day.error)
      else if month.Err? then Err(month.error)
      else if weekday.Err? then Err(weekday.error)
      else Ok(Matchers(minute.value, hour.value, day.value, month.value, weekday.value))
  }

  /**
   * An expression has five fields: minutes to 59, hours to 23, days from 1 to 31, months from 1 to 12, and weekdays
   * from 0 to 6, so that Sunday is 0 only.
   */
  lemma MatchersExactly(fields: seq<string>)
    ensures var r := MatchersOf(fields);
      && (r.Ok? <==>
            && |fields| == 5
            && AllReadable(Split(fields[0], ','), 0, 59) && AllReadable(Split(fields[1], ','), 0, 23)
            && AllReadable(Split(fields[2], ','), 1, 31) && AllReadable(Split(fields[3], ','), 1, 12)
            && AllReadable(Split(fields[4], ','), 0, 6))
      && (|fields| != 5 ==> r == Err(WrongFieldCount(|fields|)))
  {
    if |fields| == 5 {
      FieldReads(fields[0], 0, 59);
      FieldReads(fields[1], 0, 23);
      FieldReads(fields[2], 1, 31);
      FieldReads(fields[3], 1, 12);
      FieldReads(fields[4], 0, 6);
    }
  }

  lemma FieldReads(field: string, min: int, max: int)
    requires 0 <= min <= max < TOP
    ensures FieldSet(field, min, max).Ok? <==> AllReadable(Split(field, ','), min, max)
  {
    FieldExactly(field, min, max);
  }

  /** Then each field allows what its own parts do. */
  lemma MatchersMean(fields: seq<string>, v: int)
    requires MatchersOf(fields).Ok?
    ensures |fields| == 5
    ensures var m := MatchersOf(fields).value;
      && (v in m.minute <==> SomeAllows(Split(fields[0], ','), 0, 59, v))
      && (v in m.hour <==> SomeAllows(Split(fields[1], ','), 0, 23, v))
      && (v in m.day <==> SomeAllows(Split(fields[2], ','), 1, 31, v))
      && (v in m.month <==> SomeAllows(Split(fields[3], ','), 1, 12, v))
      && (v in m.weekday <==> SomeAllows(Split(fields[4], ','), 0, 6, v))
  {
    FieldExactly(fields[0], 0, 59);
    FieldExactly(fields[1], 0, 23);
    FieldExactly(fields[2], 1, 31);
    FieldExactly(fields[3], 1, 12);
    FieldExactly(fields[4], 0, 6);
  }

  // ----- the window: 28 days from Monday 5 January 2026, 00:00 UTC

  const WINDOW: nat := 28 * 24 * 60

  /** 27 days of the window are in January, the last one is 1 February. */
  function DayOf(t: nat): int {
    if t / 1440 < 27 then 5 + t / 1440 else t / 1440 - 26
  }

  function MonthOf(t: nat): int {
    if t / 1440 < 27 then 1 else 2
  }

  function WeekdayOf(t: nat): int {
    (t / 1440 + 1) % 7
  }

  predicate FiresAt(m: Matchers, t: nat) {
    m.Fires(t % 60, t / 60 % 24, DayOf(t), MonthOf(t), WeekdayOf(t))
  }

  /** The minutes among ts at which the expression fires. */
  function FiredAmong(m: Matchers, ts: seq<nat>): seq<int> {
    if ts == [] then []
    else
      var t := ts[|ts| - 1];
      FiredAmong(m, ts[..|ts| - 1]) + if FiresAt(m, t) then [t] else []
  }

  function Minutes(n: nat): seq<nat> {
    seq(n, i requires 0 <= i < n => i)
  }

  /** The minutes below n at which the expression fires, in order. */
  function Fired(m: Matchers, n: nat): seq<int> {
    FiredAmong(m, Minutes(n))
  }

  lemma FiredNext(m: Matchers, t: nat)
    ensures Fired(m, t + 1) == Fired(m, t) + if FiresAt(m, t) then [t] else []
  {
    assert Minutes(t + 1)[..t] == Minutes(t);
  }

  function Gaps(fired: seq<int>): seq<int> {
    if |fired| < 2 then []
    else Gaps(fired[..|fired| - 1]) + [fired[|fired| - 1] - fired[|fired| - 2]]
  }

  function Insert(x: int, s: seq<int>): seq<int> {
    if s == [] || x <= s[0] then [x] + s else [s[0]] + Insert(x, s[1..])
  }

  /** slices.Sort on integers. */
  function Sorted(s: seq<int>): seq<int> {
    if s == [] then [] else Insert(s[0], Sorted(s[1..]))
  }

  /** How often an expression fires in the window and how far apart. */
  datatype Cadence = Cadence(fires: nat, gaps: seq<int>)

  function CadenceOfFired(fired: seq<int>): Cadence {
    Cadence(|fired|, Sorted(Gaps(fired)))
  }

  function CadenceOfExpr(expr: string): Result<Cadence, CronError> {
    match MatchersOf(Fields(expr))
    case Err(e) => Err(e)
    case Ok(m) => Ok(CadenceOfFired(Fired(m, WINDOW)))
  }

  method ReadMatchers(fields: seq<string>) returns (r: Result<Matchers, CronError>)
    ensures r == MatchersOf(fields)
  {
    if |fields| != 5 {
      return Err(WrongFieldCount(|fields|));
    }
    var minute := FieldMatcher(fields[0], 0, 59);
    if minute.Err? { return Err(minute.error); }
    var hour := FieldMatcher(fields[1], 0, 23);
    if hour.Err? { return Err(hour.error); }
    var day := FieldMatcher(fields[2], 1, 31);
    if day.Err? { return Err(day.error); }
    var month := FieldMatcher(fields[3], 1, 12);
    if month.Err? { return Err(month.error); }
    var weekday := FieldMatcher(fields[4], 0, 6);
    if weekday.Err? { return Err(weekday.error); }
    return Ok(Matchers(minute.value, hour.value, day.value, month.value, weekday.value));
  }

  method Expand(m: Matchers) returns (fired: seq<int>)
    ensures fired == Fired(m, WINDOW)
  {
    fired := [];
    for t := 0 to WINDOW
      invariant fired == Fired(m, t)
    {
      FiredNext(m, t);
      if FiresAt(m, t) {
        fired := fired + [t];
      }
    }
  }

  method Distances(fired: seq<int>) returns (gaps: seq<int>)
    ensures gaps == Gaps(fired)
  {
    gaps := [];
    var i := 1;
    while i < |fired|
      invariant fired != [] ==> 1 <= i <= |fired| && gaps == Gaps(fired[..i])
      invariant fired == [] ==> gaps == []
    {
      assert fired[..i + 1][..i] == fired[..i];
      gaps := gaps + [fired[i] - fired[i - 1]];
      i := i + 1;
    }
    assert fired[..|fired|] == fired;
  }

  /** cadenceOf. */
  method CadenceOf(expr: string) returns (r: Result<Cadence, CronError>)
    ensures r == CadenceOfExpr(expr)
  {
    var m := ReadMatchers(Fields(expr));
    if m.Err? {
      return Err(m.error);
    }
    var fired := Expand(m.value);
    var gaps := Distances(fired);
    return Ok(Cadence(|fired|, Sorted(gaps)));
  }

  // ----- what a cadence means

  /** The window starts on a Monday, 5 January, and time goes on by minutes, hours and days; January has 31 of them. */
  lemma CalendarGoesOn(t: nat)
    ensures WeekdayOf(0) == 1 && DayOf(0) == 5 && MonthOf(0) == 1
    ensures t + 1 < WINDOW && (t % 60 < 59 || t / 60 % 24 < 23) ==>
      WeekdayOf(t + 1) == WeekdayOf(t) && DayOf(t + 1) == DayOf(t) && MonthOf(t + 1) == MonthOf(t)
    ensures t + 1 < WINDOW && t % 60 == 59 && t / 60 % 24 == 23 ==>
      && WeekdayOf(t + 1) == (if WeekdayOf(t) == 6 then 0 else WeekdayOf(t) + 1)
      && (if MonthOf(t) == 1 && DayOf(t) == 31 then MonthOf(t + 1) == 2 && DayOf(t + 1) == 1
          else MonthOf(t + 1) == MonthOf(t) && DayOf(t + 1) == DayOf(t) + 1)
  {
    NextDay(t);
    NextWeekday(t / 1440 + 1);
  }

  lemma NextDay(t: nat)
    ensures (t + 1) / 1440 == t / 1440 + if t % 60 == 59 && t / 60 % 24 == 23 then 1 else 0
  {
    var day, hour, minute := t / 1440, t / 60 % 24, t % 60;
    assert t / 60 / 24 == day;
    assert t == 1440 * day + (60 * hour + minute);
    if 60 * hour + minute < 1439 {
      Remainder(day, 60 * hour + minute + 1, 1440);
    } else {
      Remainder(day + 1, 0, 1440);
    }
  }

  lemma NextWeekday(n: nat)
    ensures (n + 1) % 7 == if n % 7 == 6 then 0 else n % 7 + 1
  {
  }

  /** Minute and hour go on likewise. */
  lemma ClockGoesOn(m: Matchers, t: nat)
    ensures FiresAt(m, t) <==>
      && t % 60 in m.minute && t % 1440 / 60 in m.hour
      && DayOf(t) in m.day && MonthOf(t) in m.month && WeekdayOf(t) in m.weekday
  {
    assert t / 60 % 24 == t % 1440 / 60 by {
      var day := t / 1440;
      assert t == 1440 * day + t % 1440;
      assert t / 60 == 24 * day + t % 1440 / 60;
    }
  }

  predicate Increasing(s: seq<int>) {
    forall i, j :: 0 <= i < j < |s| ==> s[i] < s[j]
  }

  /** Exactly the minutes at which the expression fires, in order. */
  lemma {:induction false} FiredExactly(m: Matchers, n: nat)
    ensures forall t :: t in Fired(m, n) <==> 0 <= t < n && FiresAt(m, t)
    ensures Increasing(Fired(m, n))
  {
    if n > 0 {
      FiredExactly(m, n - 1);
      FiredNext(m, n - 1);
      var before := Fired(m, n - 1);
      forall i | 0 <= i < |before| ensures before[i] < n - 1 {
        assert before[i] in before;
      }
    } else {
      assert Minutes(0) == [];
    }
  }

  /** Gaps are the distances from one minute to the next. */
  lemma {:induction false} GapsExactly(fired: seq<int>)
    ensures |Gaps(fired)| == if fired == [] then 0 else |fired| - 1
    ensures forall i :: 0 <= i < |Gaps(fired)| ==> Gaps(fired)[i] == fired[i + 1] - fired[i]
  {
    if |fired| >= 2 {
      GapsExactly(fired[..|fired| - 1]);
    }
  }

  predicate Ascending(s: seq<int>) {
    forall i, j :: 0 <= i < j < |s| ==> s[i] <= s[j]
  }

  predicate AtLeast(s: seq<int>, x: int) {
    forall y :: y in s ==> x <= y
  }

  lemma AscendingCons(x: int, s: seq<int>)
    ensures Ascending([x] + s) <==> AtLeast(s, x) && Ascending(s)
  {
    var t := [x] + s;
    assert forall i :: 0 <= i < |t| ==> t[i] == if i == 0 then x else s[i - 1];
    if Ascending(t) {
      forall y | y in s ensures x <= y {
        var i :| 0 <= i < |s| && s[i] == y;
        assert t[0] <= t[i + 1];
      }
      forall i, j | 0 <= i < j < |s| ensures s[i] <= s[j] {
        assert t[i + 1] <= t[j + 1];
      }
    } else if AtLeast(s, x) && Ascending(s) {
      forall i, j | 0 <= i < j < |t| ensures t[i] <= t[j] {
        assert s[j - 1] in s;
      }
    }
  }

  /** The first element and the others. */
  lemma Apart(s: seq<int>)
    requires s != []
    ensures s == [s[0]] + s[1..] && multiset(s) == multiset{s[0]} + multiset(s[1..])
    ensures Ascending(s) <==> AtLeast(s[1..], s[0]) && Ascending(s[1..])
  {
    AscendingCons(s[0], s[1..]);
    assert s == [s[0]] + s[1..];
  }

  lemma {:induction false} InsertPermutes(x: int, s: seq<int>)
    ensures multiset(Insert(x, s)) == multiset(s) + multiset{x}
  {
    if s != [] && x > s[0] {
      InsertPermutes(x, s[1..]);
      Apart(s);
    }
  }

  lemma {:induction false} InsertSorts(x: int, s: seq<int>)
    requires Ascending(s)
    ensures Ascending(Insert(x, s))
  {
    if s == [] || x <= s[0] {
      if s != [] {
        Apart(s);
      }
      AscendingCons(x, s);
    } else {
      Apart(s);
      InsertSorts(x, s[1..]);
      InsertPermutes(x, s[1..]);
      InsertedFrom(x, s[1..], s[0]);
      AscendingCons(s[0], Insert(x, s[1..]));
    }
  }

  lemma InsertedFrom(x: int, s: seq<int>, least: int)
    requires multiset(Insert(x, s)) == multiset(s) + multiset{x}
    requires AtLeast(s, least) && least <= x
    ensures AtLeast(Insert(x, s), least)
  {
    var r := Insert(x, s);
    forall y | y in r ensures least <= y {
      assert y in multiset(r);
      assert y in multiset(s) || y == x;
      assert y in s || y == x;
    }
  }

  /** Sorting permutes and puts the smallest first. */
  lemma {:induction false} SortedExactly(s: seq<int>)
    ensures multiset(Sorted(s)) == multiset(s)
    ensures Ascending(Sorted(s))
  {
    if s != [] {
      SortedExactly(s[1..]);
      InsertPermutes(s[0], Sorted(s[1..]));
      InsertSorts(s[0], Sorted(s[1..]));
      Apart(s);
    }
  }

  /**
   * Two expressions have the same cadence exactly if they fire equally often in the 28 days and the distances between
   * their runs are the same, in whatever order they come.
   */
  lemma SameCadenceExactly(a: Matchers, b: Matchers)
    ensures var x, y := Fired(a, 28 * 24 * 60), Fired(b, 28 * 24 * 60);
      (|x| == |y| && multiset(Gaps(x)) == multiset(Gaps(y))) <==>
      CadenceOfFired(Fired(a, WINDOW)) == CadenceOfFired(Fired(b, WINDOW))
  {
    var x, y := Fired(a, WINDOW), Fired(b, WINDOW);
    SortedExactly(Gaps(x));
    SortedExactly(Gaps(y));
    if multiset(Gaps(x)) == multiset(Gaps(y)) {
      SortedIsUnique(Sorted(Gaps(x)), Sorted(Gaps(y)));
    }
  }

  lemma {:induction false} SortedIsUnique(s: seq<int>, t: seq<int>)
    requires multiset(s) == multiset(t) && Ascending(s) && Ascending(t)
    ensures s == t
  {
    if s == [] || t == [] {
      assert |multiset(s)| == |s| && |multiset(t)| == |t|;
    } else {
      FirstIsLeast(s, t);
      FirstIsLeast(t, s);
      Apart(s);
      Apart(t);
      SameRest(multiset(s[1..]), multiset(t[1..]), s[0]);
      SortedIsUnique(s[1..], t[1..]);
    }
  }

  lemma SameRest(a: multiset<int>, b: multiset<int>, x: int)
    requires multiset{x} + a == multiset{x} + b
    ensures a == b
  {
    assert a == multiset{x} + a - multiset{x} && b == multiset{x} + b - multiset{x};
  }

  lemma FirstIsLeast(s: seq<int>, t: seq<int>)
    requires s != [] && t != [] && multiset(s) == multiset(t) && Ascending(t)
    ensures t[0] <= s[0]
  {
    assert s[0] in multiset(s);
    assert s[0] in t;
  }
}
