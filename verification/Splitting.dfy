/**
 * What the two lexical passes of the script reader read, for any text: internal/cli/helmrelease.go. Each pass is a loop
 * with a state; here a line is read word by word and a script group by group.
 */
module Splitting {
  import opened Outcomes
  import opened Text
  import opened ScriptParser

  // ----- words

  /** The text up to the next quote q, or to the end if there is none, and what follows the quote. */
  function Quotation(s: string, q: char): (r: (string, string))
    ensures |r.1| <= |s|
  {
    if s == [] then ([], [])
    else if s[0] == q then ([], s[1..])
    else
      var (text, rest) := Quotation(s[1..], q);
      ([s[0]] + text, rest)
  }

  /** The word at the start of s, up to the next space or tab outside quotes, without its quotes. */
  function FirstWord(s: string): (r: (string, string))
    ensures |r.1| <= |s|
    ensures s != [] && s[0] != ' ' && s[0] != '\t' ==> |r.1| < |s|
    decreases |s|
  {
    if s == [] || s[0] == ' ' || s[0] == '\t' then ([], s)
    else if s[0] == '\'' || s[0] == '"' then
      var (text, rest) := Quotation(s[1..], s[0]);
      var (more, end) := FirstWord(rest);
      (text + more, end)
    else
      var (more, end) := FirstWord(s[1..]);
      ([s[0]] + more, end)
  }

  function WordsOf(s: string): seq<string>
    decreases |s|
  {
    if s == [] then []
    else if s[0] == ' ' || s[0] == '\t' then WordsOf(s[1..])
    else [FirstWord(s).0] + WordsOf(FirstWord(s).1)
  }

  lemma {:induction false} SplitQuotation(s: string, st: Splitter, q: char)
    requires st.quote == Some(q) && st.inWord
    ensures var (text, rest) := Quotation(s, q);
      ArgsOf(SplitRun(s, st)) == ArgsOf(SplitRun(rest, st.(current := st.current + text, quote := None)))
  {
    var (text, rest) := Quotation(s, q);
    if s == [] {
      assert st.current + text == st.current;
    } else if s[0] == q {
      assert st.current + text == st.current;
    } else {
      SplitQuotation(s[1..], st.(current := st.current + [s[0]]), q);
      var text' := Quotation(s[1..], q).0;
      assert st.current + [s[0]] + text' == st.current + text;
    }
  }

  lemma {:induction false} SplitFirstWord(s: string, st: Splitter)
    requires st.quote.None? && st.inWord
    ensures var (text, rest) := FirstWord(s);
      ArgsOf(SplitRun(s, st)) == ArgsOf(SplitRun(rest, Splitter(st.args + [st.current + text], [], false, None)))
    decreases |s|
  {
    var (text, rest) := FirstWord(s);
    if s == [] || s[0] == ' ' || s[0] == '\t' {
      assert st.current + text == st.current;
    } else if s[0] == '\'' || s[0] == '"' {
      var (inside, after) := Quotation(s[1..], s[0]);
      SplitQuotation(s[1..], st.(quote := Some(s[0])), s[0]);
      SplitFirstWord(after, st.(current := st.current + inside));
      assert st.current + inside + FirstWord(after).0 == st.current + text;
    } else {
      SplitFirstWord(s[1..], st.(current := st.current + [s[0]]));
      assert st.current + [s[0]] + FirstWord(s[1..]).0 == st.current + text;
    }
  }

  lemma {:induction false} SplitWords(s: string, args: seq<string>)
    ensures ArgsOf(SplitRun(s, Splitter(args, [], false, None))) == args + WordsOf(s)
    decreases |s|
  {
    var st := Splitter(args, [], false, None);
    if s == [] {
    } else if s[0] == ' ' || s[0] == '\t' {
      SplitWords(s[1..], args);
    } else {
      var (text, rest) := FirstWord(s);
      SplitStart(s, args);
      SplitWords(rest, args + [text]);
      assert args + [text] + WordsOf(rest) == args + WordsOf(s);
    }
  }

  /** A word starts as one that was begun with nothing in it. */
  lemma SplitStart(s: string, args: seq<string>)
    requires s != [] && s[0] != ' ' && s[0] != '\t'
    ensures ArgsOf(SplitRun(s, Splitter(args, [], false, None)))
         == ArgsOf(SplitRun(FirstWord(s).1, Splitter(args + [FirstWord(s).0], [], false, None)))
  {
    SplitFirstWord(s, Splitter(args, [], true, None));
    assert [] + FirstWord(s).0 == FirstWord(s).0;
  }

  /** For every line, quotations of both kinds and open ones included. */
  lemma ArgsExactly(line: string)
    ensures Args(line) == WordsOf(line)
  {
    SplitWords(line, []);
  }

  // ----- logical lines

  /** A line that goes on: what stands before its backslash. */
  function GoesOn(line: string): Option<string> {
    CutLast(TrimSpace(line), '\\')
  }

  /** The group of physical lines at the front: those that go on, and the first that does not. */
  function FirstGroup(lines: seq<string>): (r: (string, seq<string>))
    requires lines != []
    ensures |r.1| < |lines|
  {
    var before := GoesOn(lines[0]);
    if before.None? then (TrimSpace(lines[0]), lines[1..])
    else if |lines| == 1 then (TrimSpace(before.value) + " ", [])
    else
      var (more, rest) := FirstGroup(lines[1..]);
      (TrimSpace(before.value) + " " + more, rest)
  }

  function Groups(lines: seq<string>): seq<string>
    decreases |lines|
  {
    if lines == [] then []
    else
      var (text, rest) := FirstGroup(lines);
      (if TrimSpace(text) == [] then [] else [TrimSpace(text)]) + Groups(rest)
  }

  function Ended(st: Joiner): seq<string> {
    WithLine(st.lines, TrimSpace(st.current))
  }

  lemma {:induction false} JoinGroup(lines: seq<string>, st: Joiner)
    requires lines != []
    ensures var (text, rest) := FirstGroup(lines);
      Ended(JoinRun(lines, st)) == Ended(JoinRun(rest, Joiner([], WithLine(st.lines, TrimSpace(st.current + text)))))
  {
    var before := GoesOn(lines[0]);
    if before.Some? {
      var front := TrimSpace(before.value) + " ";
      GoingOn(st.current, TrimSpace(before.value));
      var st' := st.(current := st.current + front);
      assert JoinRun(lines, st) == JoinRun(lines[1..], st');
      if |lines| == 1 {
        LastGoesOn(lines, st, front);
      } else {
        var (more, rest) := FirstGroup(lines[1..]);
        JoinGroup(lines[1..], st');
        Longer(st.current, front, more);
      }
    }
  }

  lemma GoingOn(current: string, t: string)
    ensures current + t + " " == current + (t + " ")
  {
  }

  lemma Longer(current: string, front: string, more: string)
    ensures current + front + more == current + (front + more)
  {
  }

  lemma LastGoesOn(lines: seq<string>, st: Joiner, front: string)
    requires |lines| == 1
    ensures Ended(JoinRun(lines[1..], st.(current := st.current + front)))
         == Ended(JoinRun([], Joiner([], WithLine(st.lines, TrimSpace(st.current + front)))))
  {
    assert lines[1..] == [];
    NothingLeft(st.lines, st.current + front);
  }

  lemma NothingLeft(lines: seq<string>, current: string)
    ensures Ended(Joiner([], WithLine(lines, TrimSpace(current)))) == Ended(Joiner(current, lines))
  {
  }

  lemma {:induction false} JoinGroups(lines: seq<string>, done: seq<string>)
    ensures Ended(JoinRun(lines, Joiner([], done))) == done + Groups(lines)
    decreases |lines|
  {
    if lines != [] {
      var (text, rest) := FirstGroup(lines);
      JoinGroup(lines, Joiner([], done));
      assert [] + text == text;
      JoinGroups(rest, WithLine(done, TrimSpace(text)));
    }
  }

  /** For every script: its logical lines are its groups, without spaces at their ends, and without the blank ones. */
  lemma LogicalLinesExactly(script: string)
    ensures LogicalLines(script) == Groups(Split(script, '\n'))
    ensures forall line :: line in LogicalLines(script) ==> Solid(line, IsSpace)
  {
    JoinGroups(Split(script, '\n'), []);
    GroupsSolid(Split(script, '\n'));
  }

  lemma {:induction false} GroupsSolid(lines: seq<string>)
    ensures forall line :: line in Groups(lines) ==> Solid(line, IsSpace)
    decreases |lines|
  {
    if lines != [] {
      var (text, rest) := FirstGroup(lines);
      Trimmed(text);
      GroupsSolid(rest);
    }
  }
}
