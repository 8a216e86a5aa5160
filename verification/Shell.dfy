/**
 Shell quoting, and the part of the POSIX shell's token recognition that gives it meaning:
 sections 2.2.1 (escape character), 2.2.2 (single-quotes) and 2.3 (token recognition) of
 the POSIX.1-2017 Shell Command Language.
 */
module Shell {
  import opened Outcomes
  import opened Text

  // ----- quoting (internal/backup/script.go)

  /** The character class of the safeBare pattern. */
  predicate SafeChar(c: char) {
    || 'A' <= c <= 'Z'
    || 'a' <= c <= 'z'
    || '0' <= c <= '9'
    || c == '_' || c == '.' || c == ':' || c == '@' || c == '%'
    || c == '+' || c == ',' || c == '/' || c == '=' || c == '-'
  }

  /** The safeBare pattern: one or more safe characters. */
  predicate SafeBare(s: string) {
    s != [] && forall i :: 0 <= i < |s| ==> SafeChar(s[i])
  }

  function ShellQuote(s: string): string {
    "'" + ReplaceAll(s, "'", "'\\''") + "'"
  }

  function ShellQuoteIfNeeded(s: string): string {
    if SafeBare(s) then s else ShellQuote(s)
  }

  // ----- token recognition

  /**
   Characters that, unquoted, would make the shell do more than read a literal word:
   operators, expansions, double quotes, comments, patterns, tilde and brace forms.
   The recognizer below gives no result for a text in which one of them is unquoted.
   */
  predicate Special(c: char) {
    || c == '|' || c == '&' || c == ';' || c == '<' || c == '>' || c == '(' || c == ')'
    || c == '$' || c == '`' || c == '"' || c == '*' || c == '?' || c == '[' || c == '#'
    || c == '~' || c == '!' || c == '{' || c == '}'
  }

  predicate Blank(c: char) {
    c == ' ' || c == '\t'
  }

  /** A character that stands for itself outside quotes. */
  predicate Ordinary(c: char) {
    !Special(c) && !Blank(c) && c != '\n' && c != '\'' && c != '\\'
  }

  datatype Mode = Outside | Inside | Escaping

  /**
   The state of the recognizer: the word being read, the finished words of the current
   command and the finished commands. Failed is reached on an unquoted special character.
   */
  datatype Lexer =
    | Failed
    | Reading(mode: Mode, word: Option<string>, cmd: seq<string>, done: seq<seq<string>>)

  function Extended(word: Option<string>, t: string): Option<string> {
    Some(if word.Some? then word.value + t else t)
  }

  function Finished(word: Option<string>, cmd: seq<string>): seq<string> {
    if word.Some? then cmd + [word.value] else cmd
  }

  function Emitted(cmd: seq<string>, done: seq<seq<string>>): seq<seq<string>> {
    if cmd == [] then done else done + [cmd]
  }

  function Step(st: Lexer, c: char): Lexer {
    if st.Failed? then st
    else
      match st.mode
      case Inside =>
        if c == '\'' then st.(mode := Outside) else st.(word := Extended(st.word, [c]))
      case Escaping =>
        if c == '\n' then st.(mode := Outside) else st.(mode := Outside, word := Extended(st.word, [c]))
      case Outside =>
        if c == '\'' then st.(mode := Inside, word := Extended(st.word, []))
        else if c == '\\' then st.(mode := Escaping)
        else if Blank(c) then st.(word := None, cmd := Finished(st.word, st.cmd))
        else if c == '\n' then
          Reading(Outside, None, [], Emitted(Finished(st.word, st.cmd), st.done))
        else if Special(c) then Failed
        else st.(word := Extended(st.word, [c]))
  }

  function Lex(s: string, st: Lexer): Lexer {
    if s == [] then st else Lex(s[1..], Step(st, s[0]))
  }

  /**
   The commands a shell reads from a text, each as its list of words after quote removal.
   There are none if special characters are unquoted or a quotation is left open.
   */
  function Commands(s: string): Option<seq<seq<string>>> {
    var st := Lex(s, Reading(Outside, None, [], []));
    if st.Reading? && st.mode == Outside
    then Some(Emitted(Finished(st.word, st.cmd), st.done))
    else None
  }

  // ----- words as the program prints them

  /** A word is printed as a run of pieces, each bare or in single quotes. */
  datatype Piece = Bare(text: string) | Quoted(text: string)

  type Word = seq<Piece>

  function PrintPiece(p: Piece): string {
    match p
    case Bare(t) => t
    case Quoted(t) => ShellQuote(t)
  }

  function Print(w: Word): string {
    if w == [] then [] else PrintPiece(w[0]) + Print(w[1..])
  }

  /** The value a word stands for. */
  function Value(w: Word): string {
    if w == [] then [] else w[0].text + Value(w[1..])
  }

  function Values(ws: seq<Word>): seq<string> {
    seq(|ws|, i requires 0 <= i < |ws| => Value(ws[i]))
  }

  /** Bare pieces hold only ordinary characters, and the word is not empty on the page. */
  predicate PrintableWord(w: Word) {
    && w != []
    && forall p :: p in w && p.Bare? ==> p.text != [] && forall i :: 0 <= i < |p.text| ==> Ordinary(p.text[i])
  }

  predicate Printable(ws: seq<Word>) {
    forall i :: 0 <= i < |ws| ==> PrintableWord(ws[i])
  }

  /** Each word preceded by the separator. */
  function Separated(ws: seq<Word>, sep: string): string {
    if ws == [] then [] else sep + Print(ws[0]) + Separated(ws[1..], sep)
  }

  const BREAK := " \\\n  "

  /** A command: its head words on one line, then each tail word on a continuation line. */
  function PrintCommand(head: seq<Word>, tail: seq<Word>): string
    requires head != []
  {
    Print(head[0]) + Separated(head[1..], " ") + Separated(tail, BREAK)
  }

  /** The piece shellQuoteIfNeeded prints. */
  function IfNeeded(s: string): (p: Piece)
    ensures PrintPiece(p) == ShellQuoteIfNeeded(s) && p.text == s
    ensures PrintableWord([p])
  {
    if SafeBare(s) then Bare(s) else Quoted(s)
  }

  lemma {:induction false} PrintConcat(a: Word, b: Word)
    ensures Print(a + b) == Print(a) + Print(b)
    ensures Value(a + b) == Value(a) + Value(b)
  {
    if a == [] {
      assert a + b == b;
    } else {
      assert (a + b)[1..] == a[1..] + b;
      PrintConcat(a[1..], b);
    }
  }

  lemma ValuesConcat(a: seq<Word>, b: seq<Word>)
    ensures Values(a + b) == Values(a) + Values(b)
  {
  }

  lemma ValuesCons(ws: seq<Word>, b: seq<Word>)
    requires ws != []
    ensures [Value(ws[0])] + Values(ws[1..]) == Values(ws)
    ensures [Value(ws[0])] + Values(ws[1..]) + Values(b) == Values(ws + b)
  {
  }

  lemma {:induction false} SeparatedConcat(a: seq<Word>, b: seq<Word>, sep: string)
    ensures Separated(a + b, sep) == Separated(a, sep) + Separated(b, sep)
  {
    if a == [] {
      assert a + b == b;
    } else {
      assert (a + b)[1..] == a[1..] + b;
      SeparatedConcat(a[1..], b, sep);
    }
  }

  lemma PrintOne(p: Piece)
    ensures Print([p]) == PrintPiece(p) && Value([p]) == p.text
  {
    assert [p][1..] == [];
    assert Print([p][1..]) == [] && Value([p][1..]) == [];
  }

  lemma PrintTwo(p: Piece, q: Piece)
    ensures Print([p, q]) == PrintPiece(p) + PrintPiece(q) && Value([p, q]) == p.text + q.text
  {
    assert [p, q][1..] == [q];
    PrintOne(q);
  }

  // ----- the recognizer undoes the printer

  lemma {:induction false} LexConcat(a: string, b: string, st: Lexer)
    ensures Lex(a + b, st) == Lex(b, Lex(a, st))
  {
    if a == [] {
      assert a + b == b;
    } else {
      assert (a + b)[1..] == a[1..] + b;
      LexConcat(a[1..], b, Step(st, a[0]));
    }
  }

  lemma ExtendedTwice(word: Option<string>, a: string, b: string)
    ensures Extended(Extended(word, a), b) == Extended(word, a + b)
    ensures word.Some? ==> Extended(word, []) == word
  {
    if word.Some? {
      assert word.value + a + b == word.value + (a + b);
      assert word.value + [] == word.value;
    }
  }

  lemma {:induction false} LexBare(t: string, st: Lexer)
    requires st.Reading? && st.mode == Outside && t != []
    requires forall i :: 0 <= i < |t| ==> Ordinary(t[i])
    ensures Lex(t, st) == st.(word := Extended(st.word, t))
  {
    var st' := st.(word := Extended(st.word, [t[0]]));
    assert Ordinary(t[0]) && Step(st, t[0]) == st';
    if |t| > 1 {
      LexBare(t[1..], st');
    }
    assert [t[0]] + t[1..] == t;
    ExtendedTwice(st.word, [t[0]], t[1..]);
    ExtendedTwice(st'.word, [], []);
  }

  /** Inside single quotes, the escaped text and the closing quote read back as the text. */
  lemma {:induction false} LexEscaped(t: string, st: Lexer)
    requires st.Reading? && st.mode == Inside && st.word.Some?
    ensures Lex(ReplaceAll(t, "'", "'\\''") + "'", st) == st.(mode := Outside, word := Extended(st.word, t))
  {
    var s := ReplaceAll(t, "'", "'\\''") + "'";
    if t == [] {
      assert s == "'" && s[1..] == [];
      assert Lex(s[1..], Step(st, '\'')) == Step(st, '\'');
      ExtendedTwice(st.word, [], []);
    } else {
      var tail := ReplaceAll(t[1..], "'", "'\\''") + "'";
      var head := if t[0] == '\'' then "'\\''" else [t[0]];
      assert ("'" <= t) == (t[0] == '\'');
      assert s == head + tail;
      LexConcat(head, tail, st);
      LexHead(t[0], st);
      var st' := st.(word := Extended(st.word, [t[0]]));
      LexEscaped(t[1..], st');
      assert [t[0]] + t[1..] == t;
      ExtendedTwice(st.word, [t[0]], t[1..]);
    }
  }

  lemma LexHead(c: char, st: Lexer)
    requires st.Reading? && st.mode == Inside && st.word.Some?
    ensures Lex(if c == '\'' then "'\\''" else [c], st) == st.(word := Extended(st.word, [c]))
  {
    if c == '\'' {
      var s := "'\\''";
      assert s[1..] == "\\''" && s[1..][1..] == "''" && s[1..][1..][1..] == "'" && s[1..][1..][1..][1..] == [];
      var st1 := Step(st, '\'');
      var st2 := Step(st1, '\\');
      var st3 := Step(st2, '\'');
      var st4 := Step(st3, '\'');
      calc {
        Lex(s, st);
        Lex(s[1..], st1);
        Lex(s[1..][1..], st2);
        Lex(s[1..][1..][1..], st3);
        Lex(s[1..][1..][1..][1..], st4);
        st4;
      }
      ExtendedTwice(Extended(st.word, [c]), [], []);
    } else {
      assert [c][1..] == [];
      assert Lex([c][1..], Step(st, c)) == Step(st, c);
    }
  }

  lemma LexQuoted(t: string, st: Lexer)
    requires st.Reading? && st.mode == Outside
    ensures Lex(ShellQuote(t), st) == st.(word := Extended(st.word, t))
  {
    assert ShellQuote(t)[1..] == ReplaceAll(t, "'", "'\\''") + "'";
    LexEscaped(t, Step(st, '\''));
    ExtendedTwice(st.word, [], t);
    assert [] + t == t;
  }

  lemma {:induction false} LexWord(w: Word, st: Lexer)
    requires PrintableWord(w)
    requires st.Reading? && st.mode == Outside
    ensures Lex(Print(w), st) == st.(word := Extended(st.word, Value(w)))
  {
    assert w[0] in w;
    LexConcat(PrintPiece(w[0]), Print(w[1..]), st);
    var st' := st.(word := Extended(st.word, w[0].text));
    assert Lex(PrintPiece(w[0]), st) == st' by {
      if w[0].Bare? { LexBare(w[0].text, st); } else { LexQuoted(w[0].text, st); }
    }
    if |w| > 1 {
      LexWord(w[1..], st');
    }
    ExtendedTwice(st.word, w[0].text, Value(w[1..]));
    ExtendedTwice(st'.word, [], []);
  }

  /** Either separator closes the open word and leaves the reader between words. */
  lemma LexSeparator(sep: string, st: Lexer)
    requires sep == " " || sep == BREAK
    requires st.Reading? && st.mode == Outside
    ensures Lex(sep, st) == st.(word := None, cmd := Finished(st.word, st.cmd))
  {
    var st1 := Step(st, ' ');
    if sep == " " {
      assert sep[1..] == [];
      assert Lex(sep[1..], st1) == st1;
    } else {
      assert sep[1..] == "\\\n  " && sep[1..][1..] == "\n  " && sep[1..][1..][1..] == "  ";
      assert "  "[1..] == " " && " "[1..] == [];
      calc {
        Lex(sep, st);
        Lex(sep[1..], st1);
        Lex(sep[1..][1..], st1.(mode := Escaping));
        Lex("  ", st1);
        Lex(" ", Step(st1, ' '));
        Lex([], Step(Step(st1, ' '), ' '));
        st1;
      }
    }
  }

  lemma {:induction false} LexSeparated(ws: seq<Word>, sep: string, st: Lexer)
    requires sep == " " || sep == BREAK
    requires st.Reading? && st.mode == Outside && st.word.Some?
    requires Printable(ws)
    ensures var r := Lex(Separated(ws, sep), st);
      && r.Reading? && r.mode == Outside && r.word.Some? && r.done == st.done
      && Finished(r.word, r.cmd) == Finished(st.word, st.cmd) + Values(ws)
  {
    if ws != [] {
      var tail := Separated(ws[1..], sep);
      LexConcat(sep + Print(ws[0]), tail, st);
      LexConcat(sep, Print(ws[0]), st);
      LexSeparator(sep, st);
      var st1 := st.(word := None, cmd := Finished(st.word, st.cmd));
      LexWord(ws[0], st1);
      LexSeparated(ws[1..], sep, st1.(word := Some(Value(ws[0]))));
      ValuesCons(ws, []);
    }
  }

  lemma LexNewline(st: Lexer)
    ensures Lex("\n", st) == Step(st, '\n')
  {
    assert "\n"[1..] == [];
    assert Lex("\n"[1..], Step(st, '\n')) == Step(st, '\n');
  }

  /** A printed command reads as words of the current command, the last one still open. */
  lemma LexCommand(head: seq<Word>, tail: seq<Word>, st: Lexer)
    requires head != []
    requires Printable(head) && Printable(tail)
    requires st.Reading? && st.mode == Outside && st.word.None? && st.cmd == []
    ensures var r := Lex(PrintCommand(head, tail), st);
      && r.Reading? && r.mode == Outside && r.done == st.done
      && Finished(r.word, r.cmd) == Values(head + tail)
  {
    var others := Separated(head[1..], " ");
    LexConcat(Print(head[0]) + others, Separated(tail, BREAK), st);
    LexHeadWords(head, st);
    LexSeparated(tail, BREAK, Lex(Print(head[0]) + others, st));
    ValuesCons(head, tail);
  }

  lemma LexHeadWords(head: seq<Word>, st: Lexer)
    requires head != [] && Printable(head)
    requires st.Reading? && st.mode == Outside && st.word.None? && st.cmd == []
    ensures var r := Lex(Print(head[0]) + Separated(head[1..], " "), st);
      && r.Reading? && r.mode == Outside && r.done == st.done && r.word.Some?
      && Finished(r.word, r.cmd) == [Value(head[0])] + Values(head[1..])
  {
    LexConcat(Print(head[0]), Separated(head[1..], " "), st);
    LexWord(head[0], st);
    LexSeparated(head[1..], " ", st.(word := Some(Value(head[0]))));
  }

  /** A printed command line reads as one more command, its words the printed values. */
  lemma LexCommandLine(head: seq<Word>, tail: seq<Word>, done: seq<seq<string>>)
    requires head != []
    requires Printable(head) && Printable(tail)
    ensures Lex(PrintCommand(head, tail) + "\n", Reading(Outside, None, [], done))
         == Reading(Outside, None, [], done + [Values(head + tail)])
  {
    var st := Reading(Outside, None, [], done);
    LexCommand(head, tail, st);
    LexConcat(PrintCommand(head, tail), "\n", st);
    LexNewline(Lex(PrintCommand(head, tail), st));
  }

  /** Quoting is exact: a quoted text is one command of one word, that text itself. */
  lemma QuotedIsOneWord(t: string)
    ensures Commands(ShellQuote(t)) == Some([[t]])
    ensures Commands(ShellQuoteIfNeeded(t)) == Some([[t]])
  {
    var st := Reading(Outside, None, [], []);
    LexQuoted(t, st);
    assert Finished(Some(t), []) == [t] && Emitted([t], []) == [[t]];
    if SafeBare(t) {
      LexBare(t, st);
    }
  }
}
