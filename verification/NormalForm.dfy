/** What the script normalizer keeps and what it drops, for any text: internal/cli/develop.go. */
module NormalForm {
  import opened Outcomes
  import opened Text
  import opened ArgsReading
  import opened Normalize

  /** The first n characters of s are an ignored flag with its whole value. */
  predicate IgnoredHere(s: string, n: int, flag: string) {
    && |flag| < n <= |s| && flag <= s
    && (flag == " --retry-lock=" || flag == " --secret-mount=")
    && (forall i :: |flag| <= i < n ==> s[i] !in " \t\n\U{0C}\r")
    && (n < |s| ==> s[n] in " \t\n\U{0C}\r")
  }

  lemma {:induction false} RunExactly(s: string)
    ensures forall i :: 0 <= i < RunLength(s) ==> s[i] !in " \t\n\U{0C}\r"
    ensures RunLength(s) < |s| ==> s[RunLength(s)] in " \t\n\U{0C}\r"
  {
    if s != [] && !RegexSpace(s[0]) {
      RunExactly(s[1..]);
    }
  }

  /** A flag's value is as long as it can be. */
  lemma MatchExactly(s: string, n: int, flag: string)
    requires flag == " --retry-lock=" || flag == " --secret-mount="
    ensures IgnoredHere(s, n, flag) <==> n > 0 && MatchLength(s, flag) == n
  {
    if flag <= s {
      var k := |flag|;
      var run := RunLength(s[k..]);
      RunExactly(s[k..]);
      assert forall i :: k <= i < k + run ==> s[i] == s[k..][i - k];
      assert k + run < |s| ==> s[k + run] == s[k..][run];
      if IgnoredHere(s, n, flag) {
        assert !(n < k + run) && !(k + run < n);
      }
    }
  }

  lemma FourthLetter(s: string)
    ensures " --retry-lock=" <= s ==> |s| > 3 && s[3] == 'r'
    ensures " --secret-mount=" <= s ==> |s| > 3 && s[3] == 's'
  {
    assert " --retry-lock=" <= s ==> s[3] == " --retry-lock="[3];
    assert " --secret-mount=" <= s ==> s[3] == " --secret-mount="[3];
  }

  ghost predicate NothingHere(s: string) {
    forall n, flag :: !IgnoredHere(s, n, flag)
  }

  lemma IgnoredExactly(s: string)
    ensures IgnoredLength(s) == 0 <==> NothingHere(s)
    ensures forall n, flag :: IgnoredHere(s, n, flag) ==> IgnoredLength(s) == n
  {
    FourthLetter(s);
    forall n, flag ensures IgnoredHere(s, n, flag) ==> IgnoredLength(s) == n {
      if IgnoredHere(s, n, flag) {
        MatchExactly(s, n, flag);
        MatchExactly(s, MatchLength(s, LOCK_FLAG), LOCK_FLAG);
      }
    }
    MatchExactly(s, MatchLength(s, LOCK_FLAG), LOCK_FLAG);
    MatchExactly(s, MatchLength(s, SECRET_FLAG), SECRET_FLAG);
  }

  /** A flag is dropped with its whole value. */
  lemma StripFlag(s: string, n: int, flag: string)
    requires IgnoredHere(s, n, flag)
    ensures StripFlags(s) == StripFlags(s[n..])
  {
    IgnoredExactly(s);
  }

  /** Text in front of the first flag, or without one, stays as it is. */
  lemma {:induction false} StripExactly(a: string, x: string)
    requires forall j :: 0 <= j < |a| ==> NothingHere((a + x)[j..])
    ensures StripFlags(a + x) == a + StripFlags(x)
  {
    if a == [] {
      assert a + x == x;
    } else {
      assert (a + x)[0..] == a + x;
      IgnoredExactly(a + x);
      StripStep(a + x);
      HeadAndTail(a, x);
      HeadAndTail(a, StripFlags(x));
      forall j | 0 <= j < |a[1..]| ensures NothingHere((a[1..] + x)[j..]) {
        assert (a[1..] + x)[j..] == (a + x)[j + 1..];
      }
      StripExactly(a[1..], x);
    }
  }

  /** A line that neither has an ignored flag nor an exclude is its own normal form, but for what surrounds it. */
  lemma PlainLineStays(pad: string, s: string, end: string)
    requires Solid(s, IsSpace) && s[|s| - 1] != '\\' && !Contains(pad + s, "--exclude=")
    requires forall i :: 0 <= i < |pad| ==> pad[i] == ' ' || pad[i] == '\t'
    requires end == "" || end == " \\"
    requires forall j :: 0 <= j < |pad + s| ==> NothingHere((pad + s)[j..])
    ensures NormalLine(pad + s + end) == s
  {
    var line := pad + s;
    assert line[|line| - 1] == s[|s| - 1];
    TrimEnd(line, end);
    assert line + [] == line && line + StripFlags([]) == line && pad + s + [] == line;
    StripExactly(line, []);
    TrimPadded(pad, s, []);
  }

  /** A prefix that is longer than s has a character of what follows s. */
  lemma ReachesPad(s: string, pad: string, sub: string)
    requires sub <= s + pad && |sub| > |s|
    ensures exists c :: c in pad && c in sub
  {
    assert sub[|s|] == (s + pad)[|s|] == pad[0];
    assert pad[0] in pad && sub[|s|] in sub;
  }

  lemma {:induction false} ReplacePadded(s: string, pad: string, sub: string, with: string)
    requires sub != [] && forall c :: c in pad ==> c !in sub
    ensures ReplaceAll(s + pad, sub, with) == ReplaceAll(s, sub, with) + pad
  {
    MatchesBefore(s, pad, sub);
    if sub <= s {
      ReplacePadded(s[|sub|..], pad, sub, with);
      ReplaceMatch(s, pad, sub, with);
    } else if s == [] {
      assert s + pad == pad;
      PadStays(pad, sub, with);
    } else {
      ReplacePadded(s[1..], pad, sub, with);
      ReplaceHead(s, pad, sub, with);
    }
  }

  lemma {:induction false} PadStays(pad: string, sub: string, with: string)
    requires sub != [] && forall c :: c in pad ==> c !in sub
    ensures ReplaceAll(pad, sub, with) == pad
  {
    if pad != [] {
      assert pad[0] in pad && sub[0] in sub;
      PadStays(pad[1..], sub, with);
      ReplaceStep(pad, sub, with);
    }
  }

  lemma ReplaceHead(s: string, pad: string, sub: string, with: string)
    requires sub != [] && s != [] && !(sub <= s) && !(sub <= s + pad)
    requires ReplaceAll(s[1..] + pad, sub, with) == ReplaceAll(s[1..], sub, with) + pad
    ensures ReplaceAll(s + pad, sub, with) == ReplaceAll(s, sub, with) + pad
  {
    HeadAndTail(s, pad);
    ReplaceStep(s, sub, with);
    ReplaceStep(s + pad, sub, with);
    Regroup([s[0]], ReplaceAll(s[1..], sub, with), pad);
  }

  lemma Regroup(a: string, b: string, c: string)
    ensures a + (b + c) == a + b + c
  {
  }

  lemma MatchesBefore(s: string, pad: string, sub: string)
    requires forall c :: c in pad ==> c !in sub
    ensures sub <= s + pad <==> sub <= s
  {
    if sub <= s + pad {
      if |sub| > |s| {
        ReachesPad(s, pad, sub);
        assert false;
      }
      assert sub == (s + pad)[..|sub|] == s[..|sub|];
    }
  }

  lemma ReplaceMatch(s: string, pad: string, sub: string, with: string)
    requires sub != [] && sub <= s
    requires ReplaceAll(s[|sub|..] + pad, sub, with) == ReplaceAll(s[|sub|..], sub, with) + pad
    ensures ReplaceAll(s + pad, sub, with) == ReplaceAll(s, sub, with) + pad
  {
    assert (s + pad)[|sub|..] == s[|sub|..] + pad;
    var rest := ReplaceAll(s[|sub|..], sub, with);
    assert with + (rest + pad) == with + rest + pad;
  }

  lemma ReplaceStep(s: string, sub: string, with: string)
    requires sub != [] && s != [] && !(sub <= s)
    ensures ReplaceAll(s, sub, with) == [s[0]] + ReplaceAll(s[1..], sub, with)
    decreases |s|
  {
    if |s| < |sub| {
      assert s[1..] == ReplaceAll(s[1..], sub, with);
    }
  }

  /** Blanks behind a line with an exclude, which a dropped flag leaves there, make no difference. */
  lemma ExcludeBlanks(line: string, pad: string)
    requires Contains(line, "--exclude=") && forall c :: c in pad ==> c == ' ' || c == '\t'
    ensures Unquote(line + pad) == Unquote(line)
  {
    var i :| 0 <= i <= |line| && "--exclude=" <= line[i..];
    assert (line + pad)[i..] == line[i..] + pad;
    assert Contains(line + pad, "--exclude=");
    ReplacePadded(line, pad, "--exclude='", "--exclude=");
    assert forall i :: 0 <= i < |pad| ==> pad[i] in pad;
    TrimRightSkips(ReplaceAll(line, "--exclude='", "--exclude="), pad, TabOrSpace);
  }

  /** No line of a normal form is blank, or has spaces around it. */
  lemma {:induction false} NormalLinesSolid(lines: seq<string>)
    ensures forall line :: line in NormalLines(lines) ==> Solid(line, IsSpace)
  {
    if lines != [] {
      NormalLinesSolid(lines[..|lines| - 1]);
      Trimmed(Unquote(StripFlags(TrimRight(lines[|lines| - 1], TrailerChar))));
    }
  }
}
