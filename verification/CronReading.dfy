/** What the cron reader makes of the fields that the compiler prints and that migrate recognises. */
module CronReading {
  import opened Outcomes
  import opened Text
  import opened Schedule
  import opened Cadence

  // ----- cutting and splitting

  lemma {:induction false} CutNone(s: string, sep: char)
    requires sep !in s
    ensures Cut(s, sep) == None
  {
    if s != [] {
      assert s[0] in s;
      CutNone(s[1..], sep);
    }
  }

  lemma {:induction false} CutAt(a: string, sep: char, b: string)
    requires sep !in a
    ensures Cut(a + ([sep] + b), sep) == Some((a, b))
  {
    var s := a + ([sep] + b);
    if a == [] {
      assert s[1..] == b;
    } else {
      assert a[0] in a;
      assert s[1..] == a[1..] + ([sep] + b);
      CutAt(a[1..], sep, b);
      assert [a[0]] + a[1..] == a;
    }
  }

  lemma DigitsOnly(s: string)
    requires forall i :: 0 <= i < |s| ==> IsDigit(s[i])
    ensures ',' !in s && '/' !in s && '-' !in s && '*' !in s
    ensures Free(s, IsSpace)
  {
    assert forall i :: 0 <= i < |s| ==> IsDigit(s[i]) && !IsSpace(s[i]);
  }

  /** A field without a comma is one part. */
  lemma OnePart(field: string, min: int, max: int)
    requires ',' !in field && 0 <= min <= max < TOP
    ensures FieldSet(field, min, max) ==
      match PartRange(field, min, max)
      case Err(e) => Err(e)
      case Ok(r) => Ok(RangeValues(r))
  {
    SplitNone(field, ',');
    assert [field][..0] == [];
    assert PartsSet([field][..0], min, max) == Ok({});
    match PartRange(field, min, max) {
      case Err(_) =>
      case Ok(r) => assert {} + RangeValues(r) == RangeValues(r);
    }
  }

  lemma AnyStep(v: int, r: Range)
    requires r.step == 1
    ensures OnStep(v, r)
  {
  }

  // ----- fields

  /** A number stands for itself, if it is in range. */
  lemma NumberField(s: string, min: int, max: int)
    requires Numeric(s) && 0 <= min <= max < TOP
    ensures FieldSet(s, min, max).Ok? <==> min <= NatOf(s) <= max
    ensures FieldSet(s, min, max).Ok? ==> FieldSet(s, min, max).value == {NatOf(s)}
  {
    DigitsOnly(s);
    OnePart(s, min, max);
    CutNone(s, '/');
    CutNone(s, '-');
    ParseIntOfDigits(s, INT64_LIMIT);
    assert s != "*" by { assert IsDigit(s[0]); }
    var n := NatOf(s);
    if min <= n <= max {
      var r := Range(n, n, 1);
      AnyStep(n, r);
      assert Progression(r) == {n};
    }
  }

  lemma DecField(n: nat, min: int, max: int)
    requires 0 <= min <= n <= max < TOP
    ensures FieldSet(Dec(n), min, max) == Ok({n})
  {
    NatOfDec(n);
    NumberField(Dec(n), min, max);
  }

  /** A star allows every value. */
  lemma StarField(min: int, max: int)
    requires 0 <= min <= max < TOP
    ensures FieldSet("*", min, max).Ok?
    ensures forall v :: v in FieldSet("*", min, max).value <==> min <= v <= max
  {
    OnePart("*", min, max);
    CutNone("*", '/');
    var r := Range(min, max, 1);
    forall v ensures v in Progression(r) <==> min <= v <= max {
      AnyStep(v, r);
    }
  }

  /** A star with a step allows every step-th value from zero on, for all steps. */
  lemma StarStepField(s: string, max: int)
    requires Numeric(s) && 0 <= max < TOP
    ensures FieldSet("*/" + s, 0, max).Ok? <==> 1 <= NatOf(s) < INT64_LIMIT
    ensures FieldSet("*/" + s, 0, max).Ok? ==> FieldSet("*/" + s, 0, max).value == Progression(Range(0, max, NatOf(s)))
  {
    var field := "*/" + s;
    DigitsOnly(s);
    OnePart(field, 0, max);
    assert "*" + (['/'] + s) == field;
    CutAt("*", '/', s);
    ParseIntOfDigits(s, INT64_LIMIT);
  }

  /** A stepped range allows every step-th value from its offset on. */
  lemma SteppedField(offset: nat, top: nat, step: nat, min: int, max: int)
    requires 0 <= min <= offset <= top <= max < TOP && offset + step < INT64_LIMIT && step >= 1
    ensures FieldSet(Stepped(offset, top, step), min, max) == Ok(Progression(Range(offset, top, step)))
  {
    var field := Stepped(offset, top, step);
    var base := Dec(offset) + (['-'] + Dec(top));
    DigitsOnly(Dec(offset));
    DigitsOnly(Dec(top));
    DigitsOnly(Dec(step));
    SteppedText(offset, top, step);
    OnePart(field, min, max);
    CutAt(base, '/', Dec(step));
    CutAt(Dec(offset), '-', Dec(top));
    ParseIntOfDecInt(offset, INT64_LIMIT);
    ParseIntOfDecInt(top, INT64_LIMIT);
    ParseIntOfDecInt(step, INT64_LIMIT);
    assert base != "*" by { assert IsDigit(base[0]); }
  }

  lemma SteppedText(offset: nat, top: nat, step: nat)
    ensures Stepped(offset, top, step) == Dec(offset) + (['-'] + Dec(top)) + (['/'] + Dec(step))
  {
  }

  // ----- whole expressions

  predicate CronWord(w: string) {
    w != [] && Free(w, IsSpace)
  }

  lemma FieldsOfCron(a: string, b: string, c: string, d: string, e: string)
    requires CronWord(a) && CronWord(b) && CronWord(c) && CronWord(d) && CronWord(e)
    ensures Fields(Cron(a, b, c, d, e)) == [a, b, c, d, e]
  {
    FieldsOne(e);
    FieldsCons(d, e);
    FieldsCons(c, d + " " + e);
    FieldsCons(b, c + " " + (d + " " + e));
    FieldsCons(a, b + " " + (c + " " + (d + " " + e)));
  }

  lemma DecWord(n: nat)
    ensures CronWord(Dec(n))
  {
    DigitsOnly(Dec(n));
  }

  lemma SteppedWord(offset: nat, top: nat, step: nat)
    ensures CronWord(Stepped(offset, top, step))
  {
    DigitsOnly(Dec(offset));
    DigitsOnly(Dec(top));
    DigitsOnly(Dec(step));
  }

  /** Matchers that restrict only minute, hour and weekday. */
  predicate AnyDay(m: Matchers) {
    && (forall v :: 1 <= v <= 31 ==> v in m.day)
    && (forall v :: 1 <= v <= 12 ==> v in m.month)
  }

  predicate AnyWeekday(m: Matchers) {
    forall v :: 0 <= v <= 6 ==> v in m.weekday
  }

  /** An expression with stars behind its hour. */
  lemma DayFreeMatchers(a: string, b: string)
    requires FieldSet(a, 0, 59).Ok? && FieldSet(b, 0, 23).Ok?
    ensures var r := MatchersOf([a, b, "*", "*", "*"]);
      && r.Ok? && AnyDay(r.value) && AnyWeekday(r.value)
      && r.value.minute == FieldSet(a, 0, 59).value && r.value.hour == FieldSet(b, 0, 23).value
  {
    StarField(1, 31);
    StarField(1, 12);
    StarField(0, 6);
  }
}
