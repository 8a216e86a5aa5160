/** The names of manually triggered Jobs, internal/backup/cronjob.go. */
module JobNames {
  import opened Text

  const MAX_MANUAL_JOB_NAME: nat := 52

  // ----- strconv.FormatInt in base 36

  function Digit36(n: nat): (c: char)
    requires n < 36
    ensures c != '-'
  {
    if n < 10 then ('0' as int + n) as char else ('a' as int + n - 10) as char
  }

  function Format36(n: nat): (s: string)
    ensures s != [] && forall i :: 0 <= i < |s| ==> s[i] != '-'
  {
    if n < 36 then [Digit36(n)] else Format36(n / 36) + [Digit36(n % 36)]
  }

  lemma {:induction false} Format36Injective(m: nat, n: nat)
    requires Format36(m) == Format36(n)
    ensures m == n
  {
    var a, b := Format36(m), Format36(n);
    assert a[|a| - 1] == Digit36(m % 36) && b[|b| - 1] == Digit36(n % 36);
    assert m % 36 == n % 36;
    if m >= 36 && n >= 36 {
      assert a[..|a| - 1] == Format36(m / 36) && b[..|b| - 1] == Format36(n / 36);
      Format36Injective(m / 36, n / 36);
    }
  }

  function DigitValue(c: char): int {
    if '0' <= c <= '9' then c as int - '0' as int else c as int - 'a' as int + 10
  }

  /** The value of digits and small letters in base 36. */
  function ValueOf36(s: string): int {
    if s == [] then 0 else 36 * ValueOf36(s[..|s| - 1]) + DigitValue(s[|s| - 1])
  }

  predicate Alphanumeric(s: string) {
    forall i :: 0 <= i < |s| ==> '0' <= s[i] <= '9' || 'a' <= s[i] <= 'z'
  }

  lemma DigitReads(n: nat)
    requires n < 36
    ensures DigitValue(Digit36(n)) == n && Alphanumeric([Digit36(n)]) && (n > 0 ==> Digit36(n) != '0')
  {
  }

  lemma ValueSnoc(s: string, c: char)
    ensures ValueOf36(s + [c]) == 36 * ValueOf36(s) + DigitValue(c)
    ensures ValueOf36([c]) == DigitValue(c)
  {
    assert (s + [c])[..|s|] == s;
    assert [c][..0] == [] && ValueOf36([]) == 0;
  }

  /** The digits of a number read back as that number, in characters that a name may have, and without leading zeros. */
  lemma {:induction false} Format36Reads(n: nat)
    ensures ValueOf36(Format36(n)) == n
    ensures Alphanumeric(Format36(n))
    ensures n > 0 ==> Format36(n)[0] != '0'
  {
    DigitReads(n % 36);
    ValueSnoc(Format36(n / 36), Digit36(n % 36));
    if n >= 36 {
      Format36Reads(n / 36);
    }
  }

  function Power36(k: nat): (p: nat)
    ensures p > 0
  {
    if k == 0 then 1 else 36 * Power36(k - 1)
  }

  lemma {:induction false} Format36Length(n: nat, k: nat)
    requires k > 0 && n < Power36(k)
    ensures |Format36(n)| <= k
  {
    if n >= 36 {
      assert k > 1;
      Format36Length(n / 36, k - 1);
    }
  }

  // ----- ManualJobName

  predicate Int64(n: int) {
    -INT64_LIMIT <= n < INT64_LIMIT
  }

  /** What a job name says before the digits; seconds are those of the trigger time. */
  function Mark(seconds: int): string {
    "-manual" + if seconds < 0 then "--" else "-"
  }

  function Magnitude(seconds: int): nat {
    if seconds < 0 then -seconds else seconds
  }

  function Suffix(seconds: int): string {
    Mark(seconds) + Format36(Magnitude(seconds))
  }

  lemma SuffixLength(seconds: int)
    requires Int64(seconds)
    ensures |Suffix(seconds)| <= 22
  {
    assert Power36(13) > INT64_LIMIT by {
      assert Power36(3) == 46656;
      assert Power36(6) == 2176782336;
      assert Power36(9) == 101559956668416;
      assert Power36(12) == 4738381338321616896;
    }
    Format36Length(Magnitude(seconds), 13);
  }

  /** How many characters of a backup's name fit in front of the suffix. */
  function Room(seconds: int): nat
    requires Int64(seconds)
  {
    SuffixLength(seconds);
    MAX_MANUAL_JOB_NAME - |Suffix(seconds)|
  }

  /** The part of a backup's name that its manual Jobs carry. */
  function Stem(name: string, seconds: int): (stem: string)
    requires Int64(seconds)
    ensures stem <= name
    ensures |stem| + |Suffix(seconds)| <= MAX_MANUAL_JOB_NAME
  {
    if |name| > Room(seconds) then name[..Room(seconds)] else name
  }

  function ManualJobName(name: string, seconds: int): (job: string)
    requires Int64(seconds)
    ensures |job| <= MAX_MANUAL_JOB_NAME
  {
    Stem(name, seconds) + Suffix(seconds)
  }

  /** As much of the backup's name as 52 characters allow, a mark, and the time in base 36. */
  lemma JobNameExactly(name: string, seconds: int)
    requires Int64(seconds)
    ensures var job, stem, digits := ManualJobName(name, seconds), Stem(name, seconds), Format36(Magnitude(seconds));
      && job == stem + (if seconds < 0 then "-manual--" else "-manual-") + digits
      && ValueOf36(digits) == (if seconds < 0 then -seconds else seconds)
      && |job| <= 52 && stem <= name && (stem != name ==> |job| == 52)
  {
    Format36Reads(Magnitude(seconds));
    var stem, digits := Stem(name, seconds), Format36(Magnitude(seconds));
    assert stem + (Mark(seconds) + digits) == stem + Mark(seconds) + digits;
    assert "-manual" + "--" == "-manual--" && "-manual" + "-" == "-manual-";
  }

  // ----- a job name determines its trigger time

  /** A string splits in one way into a part ending in a dash and a part without one. */
  lemma LastDash(p: string, a: string, q: string, b: string)
    requires p != [] && q != [] && p[|p| - 1] == '-' && q[|q| - 1] == '-'
    requires forall i :: 0 <= i < |a| ==> a[i] != '-'
    requires forall i :: 0 <= i < |b| ==> b[i] != '-'
    requires p + a == q + b
    ensures p == q && a == b
  {
    var s := p + a;
    assert s[|p| - 1] == '-' && s[|q| - 1] == '-';
    assert forall i :: |p| <= i < |s| ==> s[i] == a[i - |p|];
    assert forall i :: |q| <= i < |s| ==> s[i] == b[i - |q|];
    assert |p| == |q|;
    assert s[..|p|] == p && s[..|p|] == q && s[|p|..] == a && s[|p|..] == b;
  }

  lemma MarkTail(p: string, seconds: int)
    ensures var s := p + Mark(seconds);
      |s| >= 2 && s[|s| - 1] == '-' && (s[|s| - 2] == '-' <==> seconds < 0)
  {
    var s := p + Mark(seconds);
    assert s[|s| - 1] == Mark(seconds)[|Mark(seconds)| - 1];
    assert s[|s| - 2] == Mark(seconds)[|Mark(seconds)| - 2];
  }

  lemma SameTail(p: string, q: string, t: string)
    requires p + t == q + t
    ensures p == q
  {
    assert (p + t)[..|p|] == p && (q + t)[..|q|] == q;
  }

  /** Two triggers share a Job name exactly when they share the second and what is left of the names. */
  lemma SameJobNameExactly(name: string, seconds: int, name': string, seconds': int)
    requires Int64(seconds) && Int64(seconds')
    ensures ManualJobName(name, seconds) == ManualJobName(name', seconds')
      <==> seconds == seconds' && Stem(name, seconds) == Stem(name', seconds')
  {
    if ManualJobName(name, seconds) == ManualJobName(name', seconds') {
      var p, q := Stem(name, seconds), Stem(name', seconds');
      var a, b := Format36(Magnitude(seconds)), Format36(Magnitude(seconds'));
      assert (p + Mark(seconds)) + a == p + Suffix(seconds);
      assert (q + Mark(seconds')) + b == q + Suffix(seconds');
      MarkTail(p, seconds);
      MarkTail(q, seconds');
      LastDash(p + Mark(seconds), a, q + Mark(seconds'), b);
      Format36Injective(Magnitude(seconds), Magnitude(seconds'));
      assert seconds == seconds';
      SameTail(p, q, Mark(seconds));
    }
  }

  /** Of two different backups, the Job names clash in a second exactly when both names are cut to the same stem. */
  lemma ClashExactly(name: string, name': string, seconds: int)
    requires Int64(seconds) && name != name'
    ensures ManualJobName(name, seconds) == ManualJobName(name', seconds)
      <==> var limit := Room(seconds); |name| >= limit && |name'| >= limit && name[..limit] == name'[..limit]
  {
    SameJobNameExactly(name, seconds, name', seconds);
    var limit := Room(seconds);
    assert |name| == limit ==> name[..limit] == name;
    assert |name'| == limit ==> name'[..limit] == name';
  }
}
