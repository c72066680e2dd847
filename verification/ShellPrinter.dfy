/**
 * The command printer (`render_command` of provium-host/src/console.rs) and the
 * shell's word splitting with quote removal that it must survive (POSIX.1-2017
 * Shell Command Language, sections 2.2.1 and 2.2.2).
 */
module ShellPrinter {
  import opened Options

  predicate Safe(c: char)
  {
    'a' <= c <= 'z' || 'A' <= c <= 'Z' || '0' <= c <= '9' || c in "_@%+=:,./-"
  }

  /** Each quote becomes: close the quotes, an escaped quote, open them again. */
  function Escape(w: string): string
  {
    if w == [] then []
    else (if w[0] == '\'' then "'\\''" else [w[0]]) + Escape(w[1..])
  }

  function Quote(w: string): string
  {
    if w != [] && forall c :: c in w ==> Safe(c) then w else "'" + Escape(w) + "'"
  }

  function Join(words: seq<string>): string
  {
    if words == [] then []
    else if |words| == 1 then words[0]
    else words[0] + " " + Join(words[1..])
  }

  function Render(program: string, args: seq<string>): string
  {
    Join([Quote(program)] + QuoteAll(args))
  }

  function QuoteAll(words: seq<string>): (r: seq<string>)
    ensures |r| == |words|
  {
    if words == [] then [] else [Quote(words[0])] + QuoteAll(words[1..])
  }

  // --- the shell's side ---------------------------------------------------------------

  /** Characters that mean something to a shell when not quoted. A line with one of
      them bare is more than a list of words, so the splitter gives up on it. */
  predicate Special(c: char)
  {
    c in "|&;<>()$`\"*?[#~\n"
  }

  predicate Blank(c: char)
  {
    c == ' ' || c == '\t'
  }

  /** Between words, inside one, inside single quotes, or after a backslash. */
  datatype Mode = Between | Word(w: string) | Quoted(w: string) | Escaped(w: string)

  /** The word so far. */
  function SoFar(m: Mode): string
  {
    if m.Between? then [] else m.w
  }

  function Split(s: string, m: Mode): Option<seq<string>>
    decreases |s|
  {
    if s == [] then
      match m
      case Between => Some([])
      case Word(w) => Some([w])
      case Quoted(_) => None
      case Escaped(_) => None
    else
      var c, rest := s[0], s[1..];
      match m
      case Quoted(w) => Split(rest, if c == '\'' then Word(w) else Quoted(w + [c]))
      case Escaped(w) => Split(rest, if c == '\n' then Word(w) else Word(w + [c]))
      case _ =>
        if c == '\'' then Split(rest, Quoted(SoFar(m)))
        else if c == '\\' then Split(rest, Escaped(SoFar(m)))
        else if Special(c) then None
        else if !Blank(c) then Split(rest, Word(SoFar(m) + [c]))
        else
          match Split(rest, Between)
          case None => None
          case Some(words) => Some(if m.Word? then [m.w] + words else words)
  }

  // --- each printed word reads back ---------------------------------------------------

  lemma {:induction false} SafeReadsBack(w: string, rest: string, m: Mode)
    requires w != [] && (forall c :: c in w ==> Safe(c)) && (m.Between? || m.Word?)
    ensures Split(w + rest, m) == Split(rest, Word(SoFar(m) + w))
  {
    var c := w[0];
    assert c in w && Safe(c) && !Special(c) && !Blank(c) && c != '\'' && c != '\\';
    assert (w + rest)[1..] == w[1..] + rest;
    var m' := Word(SoFar(m) + [c]);
    if |w| == 1 {
      assert w[1..] + rest == rest && w == [c];
    } else {
      SafeReadsBack(w[1..], rest, m');
      assert SoFar(m) + [c] + w[1..] == SoFar(m) + w;
    }
  }

  /** Inside quotes, the printed form of a quote adds a quote. */
  lemma {:induction false} EscapedQuote(more: string, sofar: string)
    ensures Split("'\\''" + more, Quoted(sofar)) == Split(more, Quoted(sofar + ['\'']))
  {
    var s := "'\\''" + more;
    assert s[1..] == "\\''" + more;
    assert s[1..][1..] == "''" + more;
    assert s[1..][1..][1..] == "'" + more;
    assert s[1..][1..][1..][1..] == more;
    assert Split(s, Quoted(sofar)) == Split(s[1..], Word(sofar));
    assert Split(s[1..], Word(sofar)) == Split(s[1..][1..], Escaped(sofar));
    assert Split(s[1..][1..], Escaped(sofar)) == Split(s[1..][1..][1..], Word(sofar + ['\'']));
  }

  /** Inside quotes, any other character adds itself. */
  lemma {:induction false} PlainInQuotes(c: char, more: string, sofar: string)
    requires c != '\''
    ensures Split([c] + more, Quoted(sofar)) == Split(more, Quoted(sofar + [c]))
  {
    assert ([c] + more)[1..] == more;
  }

  lemma {:induction false} EscapeOne(w: string, rest: string)
    requires w != []
    ensures Escape(w) + rest == (if w[0] == '\'' then "'\\''" else [w[0]]) + (Escape(w[1..]) + rest)
  {
    assert Escape(w) == (if w[0] == '\'' then "'\\''" else [w[0]]) + Escape(w[1..]);
  }

  /** Inside quotes, an escaped word adds itself. */
  lemma {:induction false} EscapeReadsBack(w: string, rest: string, sofar: string)
    ensures Split(Escape(w) + rest, Quoted(sofar)) == Split(rest, Quoted(sofar + w))
  {
    if w == [] {
      assert Escape(w) + rest == rest && sofar + w == sofar;
    } else {
      var c, more := w[0], Escape(w[1..]) + rest;
      EscapeOne(w, rest);
      if c == '\'' { EscapedQuote(more, sofar); } else { PlainInQuotes(c, more, sofar); }
      EscapeReadsBack(w[1..], rest, sofar + [c]);
      assert (sofar + [c]) + w[1..] == sofar + w;
    }
  }

  lemma {:induction false} QuoteReadsBack(w: string, rest: string)
    ensures Split(Quote(w) + rest, Between) == Split(rest, Word(w))
  {
    if w != [] && forall c :: c in w ==> Safe(c) {
      SafeReadsBack(w, rest, Between);
      assert [] + w == w;
    } else {
      var tail := "'" + rest;
      assert Quote(w) + rest == ['\''] + (Escape(w) + tail);
      assert (Quote(w) + rest)[1..] == Escape(w) + tail;
      EscapeReadsBack(w, tail, []);
      assert [] + w == w && tail[1..] == rest;
    }
  }

  lemma {:induction false} JoinReadsBack(words: seq<string>)
    requires words != []
    ensures Split(Join(QuoteAll(words)), Between) == Some(words)
  {
    var q := QuoteAll(words);
    if |words| == 1 {
      assert q[0] + [] == q[0];
      QuoteReadsBack(words[0], []);
      assert words == [words[0]];
    } else {
      var tail := " " + Join(q[1..]);
      assert q[1..] == QuoteAll(words[1..]);
      assert Join(q) == q[0] + tail;
      QuoteReadsBack(words[0], tail);
      assert tail[1..] == Join(q[1..]);
      JoinReadsBack(words[1..]);
      assert [words[0]] + words[1..] == words;
    }
  }

  /** Every command line reads back as exactly the program and arguments printed. */
  lemma {:induction false} PrintedCommandReadsBack(program: string, args: seq<string>)
    ensures Split(Render(program, args), Between) == Some([program] + args)
  {
    var words := [program] + args;
    assert words[1..] == args;
    assert QuoteAll(words) == [Quote(program)] + QuoteAll(args);
    JoinReadsBack(words);
  }
}
