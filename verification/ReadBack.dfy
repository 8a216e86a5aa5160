/** How the script reader's two lexical passes act on text that the printer wrote. */
module ReadBack {
  import opened Outcomes
  import opened Text
  import opened Shell
  import opened Script
  import opened ScriptParser

  // ----- splitArgs on printed words

  lemma {:induction false} SplitConcat(a: string, b: string, st: Splitter)
    ensures SplitRun(a + b, st) == SplitRun(b, SplitRun(a, st))
  {
    if a == [] {
      assert a + b == b;
    } else {
      assert (a + b)[1..] == a[1..] + b;
      SplitConcat(a[1..], b, SplitStep(st, a[0]));
    }
  }

  predicate BareText(t: string) {
    t != [] && forall i :: 0 <= i < |t| ==> !QuoteChar(t[i]) && !BlankChar(t[i])
  }

  /** The reader has no escape character: it reads a word back if no quoted piece holds a quote. */
  predicate ReadableWord(w: Word) {
    w != [] && forall i :: 0 <= i < |w| ==>
      if w[i].Bare? then BareText(w[i].text) else '\'' !in w[i].text
  }

  predicate Readable(ws: seq<Word>) {
    forall i :: 0 <= i < |ws| ==> ReadableWord(ws[i])
  }

  lemma {:induction false} SplitBare(t: string, st: Splitter)
    requires BareText(t) && st.quote.None?
    ensures SplitRun(t, st) == st.(current := st.current + t, inWord := true)
  {
    var st' := st.(current := st.current + [t[0]], inWord := true);
    if |t| == 1 {
      assert t[1..] == [] && [t[0]] == t;
      assert SplitRun(t[1..], st') == st';
    } else {
      SplitBare(t[1..], st');
      assert st.current + [t[0]] + t[1..] == st.current + t;
    }
  }

  lemma {:induction false} SplitInside(t: string, st: Splitter)
    requires st.quote == Some('\'') && '\'' !in t
    ensures SplitRun(t, st) == st.(current := st.current + t)
  {
    if t == [] {
      assert st.current + t == st.current;
    } else {
      var st' := st.(current := st.current + [t[0]]);
      SplitInside(t[1..], st');
      assert st.current + [t[0]] + t[1..] == st.current + t;
    }
  }

  lemma {:induction false} NothingToReplace(t: string)
    requires '\'' !in t
    ensures ReplaceAll(t, "'", "'\\''") == t
  {
    if t != [] {
      NothingToReplace(t[1..]);
      assert t[0] in t;
      assert [t[0]] + t[1..] == t;
    }
  }

  lemma SplitQuote(st: Splitter)
    ensures SplitRun("'", st) == SplitStep(st, '\'')
  {
    assert "'"[1..] == [];
    assert SplitRun("'"[1..], SplitStep(st, '\'')) == SplitStep(st, '\'');
  }

  lemma SplitQuoted(t: string, st: Splitter)
    requires '\'' !in t && st.quote.None?
    ensures SplitRun(ShellQuote(t), st) == st.(current := st.current + t, inWord := true)
  {
    NothingToReplace(t);
    SplitConcat("'" + t, "'", st);
    SplitConcat("'", t, st);
    SplitQuote(st);
    var st' := st.(quote := Some('\''), inWord := true);
    SplitInside(t, st');
    SplitQuote(st'.(current := st.current + t));
  }

  lemma {:induction false} SplitWord(w: Word, st: Splitter)
    requires ReadableWord(w) && st.quote.None?
    ensures SplitRun(Print(w), st) == st.(current := st.current + Value(w), inWord := true)
  {
    SplitConcat(PrintPiece(w[0]), Print(w[1..]), st);
    var st' := st.(current := st.current + w[0].text, inWord := true);
    assert SplitRun(PrintPiece(w[0]), st) == st' by {
      if w[0].Bare? { SplitBare(w[0].text, st); } else { SplitQuoted(w[0].text, st); }
    }
    if |w| == 1 {
      assert Value(w) == w[0].text + [];
      Glue(w[0].text, [], [], []);
    } else {
      SplitWord(w[1..], st');
      Glue(st.current, w[0].text, Value(w[1..]), []);
    }
  }

  lemma SplitSpace(st: Splitter)
    requires st.quote.None? && st.inWord
    ensures SplitRun(" ", st) == Splitter(ArgsOf(st), [], false, None)
  {
    assert " "[1..] == [];
    assert SplitRun(" "[1..], SplitStep(st, ' ')) == SplitStep(st, ' ');
  }

  lemma OneMoreValue(args: seq<string>, ws: seq<Word>)
    requires ws != []
    ensures ArgsOf(Splitter(args, Value(ws[0]), true, None)) + Values(ws[1..]) == args + Values(ws)
  {
    ValuesCons(ws, []);
  }

  lemma {:induction false} SplitSeparated(ws: seq<Word>, st: Splitter)
    requires Readable(ws)
    requires st.quote.None? && st.inWord
    ensures var r := SplitRun(Separated(ws, " "), st);
      r.quote.None? && r.inWord && ArgsOf(r) == ArgsOf(st) + Values(ws)
  {
    if ws != [] {
      SplitConcat(" " + Print(ws[0]), Separated(ws[1..], " "), st);
      SplitConcat(" ", Print(ws[0]), st);
      SplitSpace(st);
      var st1 := Splitter(ArgsOf(st), [], false, None);
      SplitWord(ws[0], st1);
      assert [] + Value(ws[0]) == Value(ws[0]);
      SplitSeparated(ws[1..], Splitter(ArgsOf(st), Value(ws[0]), true, None));
      OneMoreValue(ArgsOf(st), ws);
    }
  }

  /** The state in which the reader leaves a line of readable words. */
  lemma SplitLine(ws: seq<Word>)
    requires ws != [] && Readable(ws)
    ensures var r := SplitRun(Line(ws), START);
      r.quote.None? && r.inWord && ArgsOf(r) == Values(ws)
  {
    SplitConcat(Print(ws[0]), Separated(ws[1..], " "), START);
    SplitWord(ws[0], START);
    assert [] + Value(ws[0]) == Value(ws[0]);
    SplitSeparated(ws[1..], Splitter([], Value(ws[0]), true, None));
    ValuesCons(ws, []);
  }

  /** A line of readable words splits into their values. */
  lemma ArgsOfLine(ws: seq<Word>)
    requires ws != [] && Readable(ws)
    ensures Args(Line(ws)) == Values(ws)
  {
    SplitLine(ws);
  }

  // ----- splitArgs on a word with a quote inside

  /** Finished words stay, and the open word only grows. */
  lemma {:induction false} SplitGrows(s: string, st: Splitter)
    requires st.inWord
    ensures var args := ArgsOf(SplitRun(s, st));
      && |args| > |st.args|
      && args[..|st.args|] == st.args
      && st.current <= args[|st.args|]
  {
    if s != [] {
      var st' := SplitStep(st, s[0]);
      if st'.inWord {
        SplitGrows(s[1..], st');
      } else {
        SplitKeeps(s[1..], st');
      }
    }
  }

  lemma {:induction false} SplitKeeps(s: string, st: Splitter)
    ensures var args := ArgsOf(SplitRun(s, st));
      |args| >= |st.args| && args[..|st.args|] == st.args
  {
    if s != [] {
      SplitKeeps(s[1..], SplitStep(st, s[0]));
    }
  }

  /** A text with a quote in it: what precedes the first quote, and the rest. */
  lemma {:induction false} FirstQuote(t: string) returns (p: string, q: string)
    requires '\'' in t
    ensures t == p + "'" + q && '\'' !in p
  {
    if t[0] == '\'' {
      p, q := [], t[1..];
    } else {
      var p', q' := FirstQuote(t[1..]);
      p, q := [t[0]] + p', q';
    }
  }

  lemma {:induction false} ReplaceAfter(p: string, q: string)
    requires '\'' !in p
    ensures ReplaceAll(p + "'" + q, "'", "'\\''") == p + "'\\''" + ReplaceAll(q, "'", "'\\''")
  {
    var t := p + "'" + q;
    if p == [] {
      assert t == "'" + q;
      assert "'" <= t && t[1..] == q;
    } else {
      assert !("'" <= t) by {
        assert t[0] == p[0];
      }
      assert t[1..] == p[1..] + "'" + q;
      ReplaceAfter(p[1..], q);
      assert [p[0]] + p[1..] == p;
    }
  }

  /** At the first quote of a quoted text the reader takes the printed backslash for a character. */
  lemma SplitDirty(p: string, q: string, st: Splitter)
    requires '\'' !in p && st.quote.None?
    ensures exists rest :: ShellQuote(p + "'" + q) == "'" + p + "'" + "\\" + rest
    ensures SplitRun("'" + p + "'" + "\\", st) == st.(current := st.current + p + "\\", inWord := true)
  {
    ReplaceAfter(p, q);
    var rest := "''" + ReplaceAll(q, "'", "'\\''") + "'";
    assert "'\\''" == "'" + "\\" + "''";
    assert ShellQuote(p + "'" + q) == "'" + p + "'" + "\\" + rest;
    SplitConcat("'" + p + "'", "\\", st);
    NothingToReplace(p);
    SplitQuoted(p, st);
    var st' := st.(current := st.current + p, inWord := true);
    SplitBare("\\", st');
  }

  /**
   A word whose quoted text holds a quote is read as a word that starts with a backslash where
   the quote should be, whatever follows it on the line.
   */
  lemma ArgsOfDirtyLine(good: seq<Word>, bare: string, p: string, q: string, rest: string)
    requires good != [] && Readable(good)
    requires bare == [] || BareText(bare)
    requires '\'' !in p
    ensures var args := Args(Line(good) + " " + (bare + ShellQuote(p + "'" + q)) + rest);
      && |args| > |good|
      && args[..|good|] == Values(good)
      && bare + p + "\\" <= args[|good|]
  {
    SplitLine(good);
    var st0 := SplitRun(Line(good), START);
    SplitSpace(st0);
    var st1 := Splitter(Values(good), [], false, None);
    var st2 := st1.(current := bare, inWord := bare != []);
    assert SplitRun(bare, st1) == st2 by {
      if bare != [] {
        SplitBare(bare, st1);
        assert [] + bare == bare;
      }
    }
    SplitDirty(p, q, st2);
    var tail :| ShellQuote(p + "'" + q) == "'" + p + "'" + "\\" + tail;
    var text := Line(good) + " " + (bare + ShellQuote(p + "'" + q)) + rest;
    var stop := "'" + p + "'" + "\\";
    DirtyText(Line(good), bare, stop, tail, rest);
    assert text == Line(good) + " " + bare + stop + (tail + rest);
    SplitConcat(Line(good) + " " + bare + stop, tail + rest, START);
    SplitConcat(Line(good) + " " + bare, stop, START);
    SplitConcat(Line(good) + " ", bare, START);
    SplitConcat(Line(good), " ", START);
    SplitGrows(tail + rest, st2.(current := bare + p + "\\", inWord := true));
  }

  lemma DirtyText(a: string, bare: string, stop: string, tail: string, rest: string)
    ensures a + " " + (bare + (stop + tail)) + rest == a + " " + bare + stop + (tail + rest)
  {
  }

  // ----- joinContinuations on printed commands

  /** A text that survives trimming, is not a continuation and fits on one line. */
  predicate Firm(t: string) {
    Solid(t, IsSpace) && t[|t| - 1] != '\\' && '\n' !in t
  }

  predicate FirmWords(ws: seq<Word>) {
    forall i :: 0 <= i < |ws| ==> Firm(Print(ws[i]))
  }

  /** The lines after the first one. */
  function Continued(tail: seq<Word>): seq<string>
    requires tail != []
  {
    if |tail| == 1 then ["  " + Print(tail[0])]
    else ["  " + Print(tail[0]) + " \\"] + Continued(tail[1..])
  }

  /** The lines of a printed command. */
  function PhysicalLines(head: seq<Word>, tail: seq<Word>): seq<string>
    requires head != []
  {
    if tail == [] then [Line(head)] else [Line(head) + " \\"] + Continued(tail)
  }

  lemma {:induction false} ContinuedText(x: string, tail: seq<Word>)
    requires tail != []
    decreases |tail|
    ensures x + Separated(tail, BREAK) + "\n" == Unlines([x + " \\"] + Continued(tail))
  {
    var lines := [x + " \\"] + Continued(tail);
    assert lines[1..] == Continued(tail);
    var p := Print(tail[0]);
    if |tail| == 1 {
      assert Separated(tail[1..], BREAK) == [];
      assert Continued(tail)[1..] == [];
      assert Unlines(Continued(tail)) == "  " + p + "\n" + [];
      BreakLine(x, p, []);
    } else {
      ContinuedText("  " + p, tail[1..]);
      assert ["  " + p + " \\"] + Continued(tail[1..]) == Continued(tail);
      BreakLine(x, p, Separated(tail[1..], BREAK));
    }
  }

  lemma BreakLine(x: string, p: string, more: string)
    ensures x + (BREAK + p + more) + "\n" == (x + " \\") + "\n" + ("  " + p + more + "\n")
  {
    assert " \\" + "\n" + "  " == BREAK;
    assert x + (BREAK + p + more) == x + " \\" + "\n" + "  " + p + more;
  }

  lemma PhysicalText(head: seq<Word>, tail: seq<Word>)
    requires head != []
    ensures PrintCommand(head, tail) + "\n" == Unlines(PhysicalLines(head, tail))
  {
    if tail == [] {
      WholeLine(head);
      assert [Line(head)][1..] == [];
      Glue(Line(head) + "\n", [], [], []);
    } else {
      ContinuedText(Line(head), tail);
    }
  }

  lemma {:induction false} JoinRunConcat(a: seq<string>, b: seq<string>, st: Joiner)
    ensures JoinRun(a + b, st) == JoinRun(b, JoinRun(a, st))
  {
    if a == [] {
      assert a + b == b;
    } else {
      assert (a + b)[1..] == a[1..] + b;
      JoinRunConcat(a[1..], b, JoinStep(st, a[0]));
    }
  }

  lemma JoinRunOne(line: string, st: Joiner)
    ensures JoinRun([line], st) == JoinStep(st, line)
  {
    assert [line][1..] == [];
  }

  /** A broken line adds its text and one space to the line being joined. */
  lemma JoinBroken(pad: string, t: string, st: Joiner)
    requires Firm(t)
    requires forall i :: 0 <= i < |pad| ==> IsSpace(pad[i])
    ensures JoinStep(st, pad + t + " \\") == st.(current := st.current + t + " ")
  {
    var cut := t + " ";
    assert pad + t + " \\" == pad + (cut + "\\") + [];
    TrimPadded(pad, cut + "\\", []);
    assert CutLast(cut + "\\", '\\') == Some(cut);
    assert [] + t + " " == cut;
    TrimPadded([], t, " ");
  }

  /** An unbroken line ends the line being joined. */
  lemma JoinLast(pad: string, t: string, st: Joiner)
    requires Firm(t)
    requires forall i :: 0 <= i < |pad| ==> IsSpace(pad[i])
    requires st.current == [] || !IsSpace(st.current[0])
    ensures JoinStep(st, pad + t) == Joiner([], st.lines + [st.current + t])
  {
    assert pad + t == pad + t + [];
    TrimPadded(pad, t, []);
    assert CutLast(t, '\\').None?;
    var joined := st.current + t;
    assert joined[0] == if st.current == [] then t[0] else st.current[0];
    TrimSolid(joined);
  }

  lemma JoinWord(head: seq<Word>, w: Word, lines: seq<string>)
    requires head != [] && Line(head) != [] && !IsSpace(Line(head)[0]) && Firm(Print(w))
    ensures var st := Joiner(Line(head) + " ", lines);
      && JoinStep(st, "  " + Print(w) + " \\") == Joiner(Line(head + [w]) + " ", lines)
      && JoinStep(st, "  " + Print(w)) == Joiner([], lines + [Line(head + [w])])
    ensures Line(head + [w]) != [] && !IsSpace(Line(head + [w])[0])
  {
    var st := Joiner(Line(head) + " ", lines);
    LineSnoc(head, w);
    JoinBroken("  ", Print(w), st);
    JoinLast("  ", Print(w), st);
  }

  lemma MoveFirst(head: seq<Word>, tail: seq<Word>)
    requires tail != []
    ensures head + [tail[0]] + tail[1..] == head + tail
    ensures |tail| == 1 ==> head + [tail[0]] == head + tail
  {
  }

  lemma {:induction false} JoinContinued(tail: seq<Word>, head: seq<Word>, lines: seq<string>)
    requires tail != [] && head != [] && FirmWords(tail)
    requires Line(head) != [] && !IsSpace(Line(head)[0])
    ensures JoinRun(Continued(tail), Joiner(Line(head) + " ", lines)) == Joiner([], lines + [Line(head + tail)])
    decreases |tail|
  {
    JoinWord(head, tail[0], lines);
    var head' := head + [tail[0]];
    MoveFirst(head, tail);
    if |tail| == 1 {
      JoinRunOne("  " + Print(tail[0]), Joiner(Line(head) + " ", lines));
    } else {
      var first := "  " + Print(tail[0]) + " \\";
      JoinRunConcat([first], Continued(tail[1..]), Joiner(Line(head) + " ", lines));
      JoinRunOne(first, Joiner(Line(head) + " ", lines));
      JoinContinued(tail[1..], head', lines);
    }
  }

  /** The lines of a printed command are joined into one line of all its words. */
  lemma JoinCommand(head: seq<Word>, tail: seq<Word>, lines: seq<string>)
    requires head != [] && Firm(Line(head)) && FirmWords(tail)
    ensures JoinRun(PhysicalLines(head, tail), Joiner([], lines)) == Joiner([], lines + [Line(head + tail)])
  {
    var st := Joiner([], lines);
    if tail == [] {
      assert head + tail == head;
      JoinRunOne(Line(head), st);
      assert [] + Line(head) == Line(head);
      JoinLast([], Line(head), st);
    } else {
      assert PhysicalLines(head, tail)[1..] == Continued(tail);
      assert [] + Line(head) + " \\" == Line(head) + " \\";
      JoinBroken([], Line(head), st);
      assert [] + Line(head) + " " == Line(head) + " ";
      JoinContinued(tail, head, lines);
    }
  }

  lemma ConsLines(lines: seq<string>, texts: seq<string>)
    requires texts != []
    ensures lines + [texts[0]] + texts[1..] == lines + texts
  {
  }

  lemma {:induction false} JoinFirmLines(texts: seq<string>, lines: seq<string>)
    requires forall i :: 0 <= i < |texts| ==> Firm(texts[i])
    ensures JoinRun(texts, Joiner([], lines)) == Joiner([], lines + texts)
  {
    if texts == [] {
      assert lines + texts == lines;
    } else {
      var st := Joiner([], lines);
      assert [] + texts[0] == texts[0];
      JoinLast([], texts[0], st);
      assert lines + [[] + texts[0]] == lines + [texts[0]];
      JoinFirmLines(texts[1..], lines + [texts[0]]);
      ConsLines(lines, texts);
    }
  }
}
