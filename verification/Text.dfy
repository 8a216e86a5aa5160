/**
 The parts of Go's strings, strconv and unicode packages that the program calls,
 as functions on sequences of characters, with the laws the other modules use.
 */
module Text {
  import opened Outcomes

  // ----- characters

  /** unicode.IsSpace. */
  predicate IsSpace(c: char) {
    || c == ' '
    || '\t' <= c <= '\r'
    || c == '\U{85}'
    || c == '\U{A0}'
    || c == '\U{1680}'
    || '\U{2000}' <= c <= '\U{200A}'
    || c == '\U{2028}'
    || c == '\U{2029}'
    || c == '\U{202F}'
    || c == '\U{205F}'
    || c == '\U{3000}'
  }

  /** The 25 characters that have the White_Space property of Unicode. */
  lemma SpaceExactly(c: char)
    ensures IsSpace(c) <==>
      c as int in {0x9, 0xA, 0xB, 0xC, 0xD, 0x20, 0x85, 0xA0, 0x1680, 0x2000, 0x2001, 0x2002, 0x2003, 0x2004, 0x2005,
                   0x2006, 0x2007, 0x2008, 0x2009, 0x200A, 0x2028, 0x2029, 0x202F, 0x205F, 0x3000}
  {
  }

  predicate IsDigit(c: char) {
    '0' <= c <= '9'
  }

  /** No character of s satisfies p. */
  predicate Free(s: string, p: char -> bool) {
    forall i :: 0 <= i < |s| ==> !p(s[i])
  }

  // ----- prefixes and suffixes

  /** strings.CutPrefix: what follows the prefix, if s has it. */
  function CutPrefix(s: string, prefix: string): (r: Option<string>)
    ensures r.Some? <==> exists v :: s == prefix + v
    ensures r.Some? ==> s == prefix + r.value
  {
    if prefix <= s then
      assert s == prefix + s[|prefix|..];
      Some(s[|prefix|..])
    else
      None
  }

  /** strings.CutSuffix for a one-character suffix. */
  function CutLast(s: string, c: char): (r: Option<string>)
    ensures r.Some? <==> exists v :: s == v + [c]
    ensures r.Some? ==> s == r.value + [c]
  {
    if s != [] && s[|s| - 1] == c then
      assert s == s[..|s| - 1] + [c];
      Some(s[..|s| - 1])
    else
      None
  }

  // ----- trimming

  function TrimLeft(s: string, drop: char -> bool): string {
    if s != [] && drop(s[0]) then TrimLeft(s[1..], drop) else s
  }

  function TrimRight(s: string, drop: char -> bool): string {
    if s != [] && drop(s[|s| - 1]) then TrimRight(s[..|s| - 1], drop) else s
  }

  /** strings.TrimSpace. */
  function TrimSpace(s: string): string {
    TrimRight(TrimLeft(s, IsSpace), IsSpace)
  }

  /** A nonempty text whose two ends survive trimming by drop. */
  predicate Solid(s: string, drop: char -> bool) {
    s != [] && !drop(s[0]) && !drop(s[|s| - 1])
  }

  lemma {:induction false} TrimLeftSkips(pad: string, s: string, drop: char -> bool)
    requires forall i :: 0 <= i < |pad| ==> drop(pad[i])
    ensures TrimLeft(pad + s, drop) == TrimLeft(s, drop)
  {
    if pad == [] {
      assert pad + s == s;
    } else {
      assert (pad + s)[1..] == pad[1..] + s;
      TrimLeftSkips(pad[1..], s, drop);
    }
  }

  lemma {:induction false} TrimRightSkips(s: string, pad: string, drop: char -> bool)
    requires forall i :: 0 <= i < |pad| ==> drop(pad[i])
    ensures TrimRight(s + pad, drop) == TrimRight(s, drop)
  {
    if pad == [] {
      assert s + pad == s;
    } else {
      assert (s + pad)[..|s + pad| - 1] == s + pad[..|pad| - 1];
      TrimRightSkips(s, pad[..|pad| - 1], drop);
    }
  }

  /** Trimming the right end only looks past a text that ends in a kept character. */
  lemma {:induction false} TrimRightAppend(a: string, b: string, drop: char -> bool)
    requires TrimRight(b, drop) != []
    ensures TrimRight(a + b, drop) == a + TrimRight(b, drop)
    decreases |b|
  {
    if drop(b[|b| - 1]) {
      assert (a + b)[..|a + b| - 1] == a + b[..|b| - 1];
      TrimRightAppend(a, b[..|b| - 1], drop);
    }
  }

  lemma TrimPadded(left: string, s: string, right: string)
    requires forall i :: 0 <= i < |left| ==> IsSpace(left[i])
    requires forall i :: 0 <= i < |right| ==> IsSpace(right[i])
    requires Solid(s, IsSpace)
    ensures TrimSpace(left + s + right) == s
  {
    assert left + s + right == left + (s + right);
    TrimLeftSkips(left, s + right, IsSpace);
    TrimRightSkips(s, right, IsSpace);
  }

  lemma TrimSolid(s: string)
    requires Solid(s, IsSpace)
    ensures TrimSpace(s) == s
  {
    assert [] + s + [] == s;
    TrimPadded([], s, []);
  }

  /** Trimming only ever removes characters from the two ends. */
  lemma {:induction false} TrimLeftIsSuffix(s: string, drop: char -> bool) returns (pad: string)
    ensures s == pad + TrimLeft(s, drop)
    ensures forall i :: 0 <= i < |pad| ==> drop(pad[i])
    ensures var t := TrimLeft(s, drop); t == [] || !drop(t[0])
  {
    if s != [] && drop(s[0]) {
      var rest := TrimLeftIsSuffix(s[1..], drop);
      pad := [s[0]] + rest;
    } else {
      pad := [];
    }
  }

  lemma {:induction false} TrimRightIsPrefix(s: string, drop: char -> bool) returns (pad: string)
    ensures s == TrimRight(s, drop) + pad
    ensures forall i :: 0 <= i < |pad| ==> drop(pad[i])
    ensures var t := TrimRight(s, drop); t == [] || !drop(t[|t| - 1])
  {
    if s != [] && drop(s[|s| - 1]) {
      var rest := TrimRightIsPrefix(s[..|s| - 1], drop);
      pad := rest + [s[|s| - 1]];
    } else {
      pad := [];
    }
  }

  /** What trimming leaves has no spaces at its ends. */
  lemma Trimmed(s: string)
    ensures var t := TrimSpace(s); t == [] || Solid(t, IsSpace)
  {
    var left := TrimLeftIsSuffix(s, IsSpace);
    var u := TrimLeft(s, IsSpace);
    var right := TrimRightIsPrefix(u, IsSpace);
    assert TrimSpace(s) != [] ==> TrimSpace(s)[0] == u[0];
  }

  lemma TrimSpaceParts(s: string) returns (left: string, right: string)
    ensures s == left + TrimSpace(s) + right
    ensures forall i :: 0 <= i < |left| ==> IsSpace(left[i])
    ensures forall i :: 0 <= i < |right| ==> IsSpace(right[i])
  {
    left := TrimLeftIsSuffix(s, IsSpace);
    right := TrimRightIsPrefix(TrimLeft(s, IsSpace), IsSpace);
  }

  // ----- splitting and joining

  /** strings.Split on one character: always at least one piece. */
  function Split(s: string, sep: char): (r: seq<string>)
    ensures |r| > 0
    ensures forall p :: p in r ==> sep !in p
  {
    if s == [] then [[]]
    else if s[0] == sep then [[]] + Split(s[1..], sep)
    else
      var rest := Split(s[1..], sep);
      [[s[0]] + rest[0]] + rest[1..]
  }

  lemma {:induction false} SplitAt(a: string, sep: char, b: string)
    requires sep !in a
    ensures Split(a + [sep] + b, sep) == [a] + Split(b, sep)
  {
    var s := a + [sep] + b;
    if a == [] {
      assert s[1..] == b;
    } else {
      assert s[1..] == a[1..] + [sep] + b;
      SplitAt(a[1..], sep, b);
      assert [a[0]] + a[1..] == a;
    }
  }

  lemma {:induction false} SplitNone(a: string, sep: char)
    requires sep !in a
    ensures Split(a, sep) == [a]
  {
    if a != [] {
      SplitNone(a[1..], sep);
      assert [a[0]] + a[1..] == a;
    }
  }

  /** Each line followed by a newline. */
  function Unlines(lines: seq<string>): string {
    if lines == [] then [] else lines[0] + "\n" + Unlines(lines[1..])
  }

  lemma {:induction false} UnlinesConcat(a: seq<string>, b: seq<string>)
    ensures Unlines(a + b) == Unlines(a) + Unlines(b)
  {
    if a == [] {
      assert a + b == b;
    } else {
      assert (a + b)[1..] == a[1..] + b;
      UnlinesConcat(a[1..], b);
    }
  }

  lemma {:induction false} SplitUnlines(lines: seq<string>)
    requires forall l :: l in lines ==> '\n' !in l
    ensures Split(Unlines(lines), '\n') == lines + [[]]
  {
    if lines != [] {
      SplitUnlines(lines[1..]);
      SplitAt(lines[0], '\n', Unlines(lines[1..]));
      assert lines == [lines[0]] + lines[1..];
    }
  }

  /** strings.Join. */
  function Join(words: seq<string>, sep: string): string {
    if words == [] then []
    else if |words| == 1 then words[0]
    else words[0] + sep + Join(words[1..], sep)
  }

  lemma {:induction false} JoinSnoc(words: seq<string>, last: string, sep: string)
    requires words != []
    ensures Join(words + [last], sep) == Join(words, sep) + sep + last
  {
    var all := words + [last];
    if |words| == 1 {
      assert all[1..] == [last];
    } else {
      assert all[1..] == words[1..] + [last];
      JoinSnoc(words[1..], last, sep);
    }
  }

  /** strings.Fields, with the word read so far as an accumulator. */
  function FieldsFrom(s: string, cur: string): seq<string> {
    if s == [] then
      if cur == [] then [] else [cur]
    else if IsSpace(s[0]) then
      (if cur == [] then [] else [cur]) + FieldsFrom(s[1..], [])
    else
      FieldsFrom(s[1..], cur + [s[0]])
  }

  /** strings.Fields. */
  function Fields(s: string): seq<string> {
    FieldsFrom(s, [])
  }

  lemma {:induction false} FieldsWord(w: string, s: string, cur: string)
    requires Free(w, IsSpace)
    ensures FieldsFrom(w + s, cur) == FieldsFrom(s, cur + w)
  {
    if w == [] {
      assert w + s == s && cur + w == cur;
    } else {
      assert (w + s)[1..] == w[1..] + s;
      FieldsWord(w[1..], s, cur + [w[0]]);
      assert cur + [w[0]] + w[1..] == cur + w;
    }
  }

  /** A clean word followed by a space is the first field. */
  lemma FieldsCons(w: string, s: string)
    requires w != [] && Free(w, IsSpace)
    ensures Fields(w + " " + s) == [w] + Fields(s)
  {
    assert w + " " + s == w + (" " + s);
    FieldsWord(w, " " + s, []);
    assert [] + w == w;
    assert (" " + s)[1..] == s;
  }

  lemma FieldsOne(w: string)
    requires w != [] && Free(w, IsSpace)
    ensures Fields(w) == [w]
  {
    FieldsWord(w, [], []);
    assert w + [] == w && [] + w == w;
  }

  lemma {:induction false} FieldsLeftPad(pad: string, s: string)
    requires forall i :: 0 <= i < |pad| ==> IsSpace(pad[i])
    ensures Fields(pad + s) == Fields(s)
  {
    if pad == [] {
      assert pad + s == s;
    } else {
      assert (pad + s)[1..] == pad[1..] + s;
      FieldsLeftPad(pad[1..], s);
    }
  }

  lemma {:induction false} FieldsRightPad(s: string, pad: string, cur: string)
    requires forall i :: 0 <= i < |pad| ==> IsSpace(pad[i])
    ensures FieldsFrom(s + pad, cur) == FieldsFrom(s, cur)
  {
    if s == [] {
      assert s + pad == pad;
      if pad != [] {
        FieldsLeftPad(pad[1..], []);
        assert pad[1..] + [] == pad[1..];
      }
    } else {
      assert (s + pad)[1..] == s[1..] + pad;
      FieldsRightPad(s[1..], pad, if IsSpace(s[0]) then [] else cur + [s[0]]);
    }
  }

  /** Trimming does not change the fields. */
  lemma FieldsOfTrimmed(s: string)
    ensures Fields(TrimSpace(s)) == Fields(s)
  {
    var left, right := TrimSpaceParts(s);
    var t := TrimSpace(s);
    assert s == left + (t + right);
    FieldsLeftPad(left, t + right);
    FieldsRightPad(t, right, []);
  }

  /** Every field is nonempty and free of spaces. */
  lemma {:induction false} FieldsAreWords(s: string, cur: string)
    requires Free(cur, IsSpace)
    ensures forall f :: f in FieldsFrom(s, cur) ==> f != [] && Free(f, IsSpace)
  {
    if s != [] {
      FieldsAreWords(s[1..], if IsSpace(s[0]) then [] else cur + [s[0]]);
    }
  }

  // ----- substrings

  /** strings.Contains. */
  predicate Contains(s: string, sub: string) {
    exists i :: 0 <= i <= |s| && sub <= s[i..]
  }

  /** strings.Count: occurrences that do not overlap, found from the left. */
  function Count(s: string, sub: string): nat
    requires sub != []
  {
    if |s| < |sub| then 0
    else if sub <= s then 1 + Count(s[|sub|..], sub)
    else Count(s[1..], sub)
  }

  /** strings.ReplaceAll. */
  function ReplaceAll(s: string, sub: string, with: string): string
    requires sub != []
  {
    if |s| < |sub| then s
    else if sub <= s then with + ReplaceAll(s[|sub|..], sub, with)
    else [s[0]] + ReplaceAll(s[1..], sub, with)
  }

  lemma {:induction false} CountZero(s: string, sub: string)
    requires sub != []
    ensures Count(s, sub) == 0 <==> !Contains(s, sub)
  {
    if |s| < |sub| {
    } else if sub <= s {
      assert s[0..] == s;
    } else {
      CountZero(s[1..], sub);
      forall i | 0 <= i <= |s| && sub <= s[i..] ensures Contains(s[1..], sub) {
        assert i > 0 by {
          assert s[0..] == s;
        }
        assert s[i..] == s[1..][i - 1..];
      }
      forall i | 0 <= i <= |s[1..]| && sub <= s[1..][i..] ensures Contains(s, sub) {
        assert s[1..][i..] == s[i + 1..];
      }
    }
  }

  /** A separator that does not occur in the pattern splits the count. */
  lemma {:induction false} CountAcross(a: string, sep: char, b: string, sub: string)
    requires sub != [] && sep !in sub
    ensures Count(a + [sep] + b, sub) == Count(a, sub) + Count(b, sub)
    decreases |a|
  {
    var s := a + [sep] + b;
    if sub <= s {
      assert s[|a|] == sep && sub == s[..|sub|];
      assert sub <= a;
      assert s[|sub|..] == a[|sub|..] + [sep] + b;
      CountAcross(a[|sub|..], sep, b, sub);
    } else if a == [] {
      assert s[1..] == b;
    } else {
      assert a == s[..|a|];
      assert s[1..] == a[1..] + [sep] + b;
      CountAcross(a[1..], sep, b, sub);
      CountShort(a, sub);
    }
  }

  lemma CountShort(a: string, sub: string)
    requires sub != [] && a != [] && !(sub <= a)
    ensures Count(a, sub) == Count(a[1..], sub)
  {
  }

  // ----- decimal numbers

  function Digit(n: nat): (c: char)
    requires n < 10
    ensures IsDigit(c) && c as int - '0' as int == n
  {
    ('0' as int + n) as char
  }

  /** %d of a natural number. */
  function Dec(n: nat): (s: string)
    ensures s != [] && forall i :: 0 <= i < |s| ==> IsDigit(s[i])
  {
    if n < 10 then [Digit(n)] else Dec(n / 10) + [Digit(n % 10)]
  }

  /** %d of an integer. */
  function DecInt(n: int): string {
    if n < 0 then "-" + Dec(-n) else Dec(n)
  }

  /** isNumeric in internal/cli/migrate.go. */
  predicate Numeric(s: string) {
    s != [] && forall i :: 0 <= i < |s| ==> IsDigit(s[i])
  }

  function NatOf(s: string): nat
    requires forall i :: 0 <= i < |s| ==> IsDigit(s[i])
  {
    if s == [] then 0
    else
      assert IsDigit(s[|s| - 1]);
      10 * NatOf(s[..|s| - 1]) + (s[|s| - 1] as int - '0' as int)
  }

  /** strconv.ParseInt in base 10, for a signed type of magnitude limit. */
  function ParseInt(s: string, limit: int): Option<int> {
    var negative := s != [] && s[0] == '-';
    var digits := if s != [] && (s[0] == '-' || s[0] == '+') then s[1..] else s;
    if !Numeric(digits) then None
    else
      var n: int := NatOf(digits);
      var n := if negative then -n else n;
      if -limit <= n < limit then Some(n) else None
  }

  const INT32_LIMIT: int := 0x8000_0000
  const INT64_LIMIT: int := 0x8000_0000_0000_0000

  /** strconv.Atoi on a 64-bit platform. */
  function Atoi(s: string): Option<int> {
    ParseInt(s, INT64_LIMIT)
  }

  lemma {:induction false} NatOfDec(n: nat)
    ensures NatOf(Dec(n)) == n
  {
    if n < 10 {
      assert Dec(n)[..0] == [];
    } else {
      NatOfDec(n / 10);
      assert Dec(n)[..|Dec(n)| - 1] == Dec(n / 10);
    }
  }

  /** Without leading zeros, and with a sign only if it is negative; in base ten. */
  lemma {:induction false} DecExactly(n: nat)
    ensures n > 0 ==> Dec(n)[0] != '0'
    ensures Dec(0) == "0" && Dec(10) == "10"
  {
    assert Dec(1) == "1";
    if n >= 10 {
      DecExactly(n / 10);
    }
  }

  lemma DecIntExactly(n: int)
    ensures DecInt(n)[0] == '-' <==> n < 0
  {
    assert n >= 0 ==> IsDigit(Dec(n)[0]);
  }

  /** Printing an integer and parsing it back. */
  lemma ParseIntOfDecInt(n: int, limit: int)
    requires -limit <= n < limit
    ensures ParseInt(DecInt(n), limit) == Some(n)
  {
    if n < 0 {
      NatOfDec(-n);
      assert DecInt(n)[1..] == Dec(-n);
    } else {
      NatOfDec(n);
      assert IsDigit(Dec(n)[0]);
    }
  }

  /** Digits with at most one sign in front, if the number fits. */
  lemma ParseIntExactly(digits: string, limit: int)
    requires Numeric(digits) && limit > 0
    ensures var n: int := NatOf(digits);
      && ParseInt(digits, limit) == (if n < limit then Some(n) else None)
      && ParseInt("+" + digits, limit) == (if n < limit then Some(n) else None)
      && ParseInt("-" + digits, limit) == (if n <= limit then Some(-n) else None)
  {
    ParseIntOfDigits(digits, limit);
    assert ("+" + digits)[1..] == digits && ("-" + digits)[1..] == digits;
  }

  lemma ParseIntFails(s: string, limit: int)
    requires !Numeric(s) && (s != [] && (s[0] == '+' || s[0] == '-') ==> !Numeric(s[1..]))
    ensures ParseInt(s, limit) == None
  {
  }

  lemma ParseIntOfDigits(s: string, limit: int)
    requires Numeric(s)
    ensures ParseInt(s, limit) == if NatOf(s) < limit then Some(NatOf(s)) else None
  {
    assert IsDigit(s[0]);
  }
}
