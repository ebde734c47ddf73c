/** Shell quoting, judged by how a POSIX shell reads the result.

    Lexer is a small model of IEEE Std 1003.1, Shell Command Language, sections 2.2 (quoting)
    and 2.3 (token recognition), for a single simple command: it reads blanks, backslash
    escapes (2.2.1) and single quotes (2.2.2), and it rejects the input as soon as any other
    character that section 2.2 lists as special stands unquoted.  So Words(text) == Some(argv)
    says both that the shell sees exactly argv and that no part of text was an operator, an
    expansion, a pattern, a comment or an assignment. */
module ShellWords {
  import opened Text

  const NUL: char := '\0'

  datatype Mode = Bare | Escaped | Single

  datatype Lexer =
    | Rejected
    | Lexer(words: seq<string>, word: Option<string>, mode: Mode)

  /** Characters that section 2.2 reserves, other than the quoting characters, blank and '='. */
  predicate Special(c: char) {
    || c == '|' || c == '&' || c == ';' || c == '<' || c == '>' || c == '(' || c == ')' || c == '$' || c == '`'
    || c == '"' || c == '\n' || c == '*' || c == '?' || c == '[' || c == '#' || c == '~' || c == '%'
  }

  /** Stands for itself outside quotes; '=' does too once a command name has been read (2.9.1). */
  predicate Ordinary(c: char, commandRead: bool) {
    && c != NUL && c != ' ' && c != '\t' && c != '\'' && c != '\\' && !Special(c)
    && (c == '=' ==> commandRead)
  }

  function Extend(word: Option<string>, s: string): Option<string> {
    match word
    case None => Some(s)
    case Some(w) => Some(w + s)
  }

  function Delimit(words: seq<string>, word: Option<string>): seq<string> {
    match word
    case None => words
    case Some(w) => words + [w]
  }

  function Read(l: Lexer, c: char): Lexer {
    match l
    case Rejected => Rejected
    case Lexer(words, word, mode) =>
      if c == NUL then Rejected
      else match mode
        case Bare =>
          if c == ' ' || c == '\t' then Lexer(Delimit(words, word), None, Bare)
          else if c == '\'' then Lexer(words, Extend(word, ""), Single)
          else if c == '\\' then Lexer(words, word, Escaped)
          else if Ordinary(c, words != []) then Lexer(words, Extend(word, [c]), Bare)
          else Rejected
        case Escaped =>
          if c == '\n' then Lexer(words, word, Bare) else Lexer(words, Extend(word, [c]), Bare)
        case Single =>
          if c == '\'' then Lexer(words, word, Bare) else Lexer(words, Extend(word, [c]), Single)
  }

  function ReadAll(s: string, l: Lexer): Lexer {
    if s == "" then l else ReadAll(s[1..], Read(l, s[0]))
  }

  /** The words of the whole text, or None when it is not one plain list of words. */
  function Words(s: string): Option<seq<string>> {
    match ReadAll(s, Lexer([], None, Bare))
    case Lexer(words, word, Bare) => Some(Delimit(words, word))
    case _ => None
  }

  lemma {:induction false} ReadConcat(a: string, b: string, l: Lexer)
    ensures ReadAll(a + b, l) == ReadAll(b, ReadAll(a, l))
  {
    if a == "" {
      assert a + b == b;
    } else {
      assert (a + b)[1..] == a[1..] + b;
      ReadConcat(a[1..], b, Read(l, a[0]));
    }
  }

  lemma {:induction false} RejectedStays(s: string)
    ensures ReadAll(s, Rejected) == Rejected
  {
    if s != "" {
      RejectedStays(s[1..]);
    }
  }

  lemma {:induction false} NulRejects(s: string, l: Lexer)
    requires NUL in s
    ensures ReadAll(s, l) == Rejected
  {
    if s[0] == NUL {
      RejectedStays(s[1..]);
    } else {
      NulRejects(s[1..], Read(l, s[0]));
    }
  }

  // ---------------------------------------------------------------- quoting

  /** strings.ReplaceAll(s, "'", `'\''`) */
  function EscapeQuotes(s: string): string {
    if s == "" then "" else (if s[0] == '\'' then "'\\''" else [s[0]]) + EscapeQuotes(s[1..])
  }

  /** shellQuote */
  function ShellQuote(s: string): string { "'" + EscapeQuotes(s) + "'" }

  /** Inside single quotes, one escaped character appends itself to the word. */
  lemma ReadOneEscaped(c: char, words: seq<string>, w: string)
    requires c != NUL
    ensures ReadAll(EscapeQuotes([c]), Lexer(words, Some(w), Single)) == Lexer(words, Some(w + [c]), Single)
  {
    var l := Lexer(words, Some(w), Single);
    assert [c][1..] == "" && EscapeQuotes("") == "";
    if c == '\'' {
      var t := EscapeQuotes([c]);
      assert t == "'\\''" && t[1..] == "\\''" && t[1..][1..] == "''" && t[1..][1..][1..] == "'";
      var l1 := Read(l, '\'');
      var l2 := Read(l1, '\\');
      var l3 := Read(l2, '\'');
      assert l3 == Lexer(words, Some(w + "'"), Bare);
      assert Read(l3, '\'') == Lexer(words, Some(w + "'" + ""), Single);
      assert w + "'" + "" == w + [c];
      assert ReadAll("'", l3) == Read(l3, '\'');
      assert ReadAll("''", l2) == ReadAll("'", l3);
      assert ReadAll("\\''", l1) == ReadAll("''", l2);
    } else {
      assert EscapeQuotes([c]) == [c];
    }
  }

  lemma {:induction false} ReadEscaped(s: string, words: seq<string>, w: string)
    requires NUL !in s
    ensures ReadAll(EscapeQuotes(s), Lexer(words, Some(w), Single)) == Lexer(words, Some(w + s), Single)
  {
    if s == "" {
      assert w + s == w;
    } else {
      var l := Lexer(words, Some(w), Single);
      assert [s[0]][1..] == "";
      assert EscapeQuotes(s) == EscapeQuotes([s[0]]) + EscapeQuotes(s[1..]);
      ReadConcat(EscapeQuotes([s[0]]), EscapeQuotes(s[1..]), l);
      ReadOneEscaped(s[0], words, w);
      ReadEscaped(s[1..], words, w + [s[0]]);
      assert (w + [s[0]]) + s[1..] == w + s;
    }
  }

  lemma ReadQuoted(s: string, words: seq<string>)
    requires NUL !in s
    ensures ReadAll(ShellQuote(s), Lexer(words, None, Bare)) == Lexer(words, Some(s), Bare)
  {
    var l := Lexer(words, None, Bare);
    ReadConcat("'" + EscapeQuotes(s), "'", l);
    ReadConcat("'", EscapeQuotes(s), l);
    ReadEscaped(s, words, "");
    assert "" + s == s;
  }

  lemma {:induction false} NulSurvivesEscape(s: string)
    requires NUL in s
    ensures NUL in EscapeQuotes(s)
  {
    if s[0] == NUL {
      assert EscapeQuotes(s)[0] == NUL;
    } else {
      NulSurvivesEscape(s[1..]);
    }
  }

  // ---------------------------------------------------------------- command lines

  /** One argument of a command line: written as it stands, or through ShellQuote. */
  datatype Arg = Plain(value: string) | Quoted(value: string)

  function Render(a: Arg): string {
    match a
    case Plain(v) => v
    case Quoted(v) => ShellQuote(v)
  }

  function Rendered(args: seq<Arg>): seq<string> {
    if args == [] then [] else [Render(args[0])] + Rendered(args[1..])
  }

  function CommandLine(args: seq<Arg>): string { Join(Rendered(args), " ") }

  /** The only characters the command builders write without quoting. */
  predicate SafeChar(c: char) {
    'a' <= c <= 'z' || 'A' <= c <= 'Z' || '0' <= c <= '9' || c == '-' || c == ':' || c == ',' || c == '='
  }

  predicate SafeWord(s: string) { s != "" && forall i :: 0 <= i < |s| ==> SafeChar(s[i]) }

  /** args carries exactly the values of vector, and writes only safe words unquoted. */
  predicate Spells(args: seq<Arg>, vector: seq<string>) {
    && |args| == |vector|
    && forall i :: 0 <= i < |args| ==> args[i].value == vector[i] && (args[i].Plain? ==> SafeWord(vector[i]))
  }

  /** As Spells, for a whole command line: the command name must not read as an assignment. */
  predicate Intends(args: seq<Arg>, vector: seq<string>) {
    Spells(args, vector) && (args != [] && args[0].Plain? ==> '=' !in vector[0])
  }

  predicate NulFree(vector: seq<string>) { forall i :: 0 <= i < |vector| ==> NUL !in vector[i] }

  lemma SpellsConcat(a: seq<Arg>, v: seq<string>, b: seq<Arg>, w: seq<string>)
    requires Spells(a, v) && Spells(b, w)
    ensures Spells(a + b, v + w)
    ensures NulFree(v + w) <==> NulFree(v) && NulFree(w)
  {
    if NulFree(v + w) {
      assert forall i :: 0 <= i < |v| ==> v[i] == (v + w)[i];
      assert forall i :: 0 <= i < |w| ==> w[i] == (v + w)[|v| + i];
    }
  }

  lemma {:induction false} RenderedConcat(a: seq<Arg>, b: seq<Arg>)
    ensures Rendered(a + b) == Rendered(a) + Rendered(b)
  {
    if a == [] {
      assert a + b == b;
    } else {
      assert (a + b)[1..] == a[1..] + b;
      RenderedConcat(a[1..], b);
    }
  }

  lemma {:induction false} RenderedAt(args: seq<Arg>, k: nat)
    requires k < |args|
    ensures |Rendered(args)| == |args| && Rendered(args)[k] == Render(args[k])
  {
    if k > 0 {
      RenderedAt(args[1..], k - 1);
    } else if |args| > 1 {
      RenderedAt(args[1..], 0);
    }
  }

  lemma {:induction false} ReadSafe(s: string, words: seq<string>, w: string)
    requires forall i :: 0 <= i < |s| ==> SafeChar(s[i])
    requires words != [] || '=' !in s
    ensures ReadAll(s, Lexer(words, Some(w), Bare)) == Lexer(words, Some(w + s), Bare)
  {
    if s == "" {
      assert w + s == w;
    } else {
      ReadSafe(s[1..], words, w + [s[0]]);
      assert (w + [s[0]]) + s[1..] == w + s;
    }
  }

  lemma ReadArg(a: Arg, words: seq<string>)
    requires NUL !in a.value
    requires a.Plain? ==> SafeWord(a.value) && (words != [] || '=' !in a.value)
    ensures ReadAll(Render(a), Lexer(words, None, Bare)) == Lexer(words, Some(a.value), Bare)
  {
    match a
    case Quoted(v) => ReadQuoted(v, words);
    case Plain(v) =>
      ReadSafe(v[1..], words, [v[0]]);
      assert [v[0]] + v[1..] == v;
  }

  lemma ReadArgAndBlank(a: Arg, words: seq<string>)
    requires NUL !in a.value
    requires a.Plain? ==> SafeWord(a.value) && (words != [] || '=' !in a.value)
    ensures ReadAll(Render(a) + " ", Lexer(words, None, Bare)) == Lexer(words + [a.value], None, Bare)
  {
    ReadArg(a, words);
    ReadConcat(Render(a), " ", Lexer(words, None, Bare));
    var l := Lexer(words, Some(a.value), Bare);
    assert " "[1..] == "" && ReadAll(" ", l) == ReadAll("", Read(l, ' '));
  }

  lemma SpellsTail(args: seq<Arg>, vector: seq<string>)
    requires args != [] && Spells(args, vector) && NulFree(vector)
    ensures args[0].value == vector[0] && NUL !in vector[0] && (args[0].Plain? ==> SafeWord(vector[0]))
    ensures Spells(args[1..], vector[1..]) && NulFree(vector[1..])
  {}

  lemma JoinRendered(args: seq<Arg>)
    requires |args| > 1
    ensures CommandLine(args) == Render(args[0]) + " " + CommandLine(args[1..])
  {
    assert Rendered(args)[1..] == Rendered(args[1..]);
    assert |Rendered(args)| > 1;
  }

  /** The words of a command line up to its last, which is still being read at the end of the text. */
  function AllButLast(words: seq<string>, vector: seq<string>): Lexer
    requires vector != []
  {
    Lexer(words + vector[..|vector| - 1], Some(vector[|vector| - 1]), Bare)
  }

  lemma AllButLastStep(words: seq<string>, vector: seq<string>)
    requires |vector| > 1
    ensures AllButLast(words + [vector[0]], vector[1..]) == AllButLast(words, vector)
  {
    assert words + [vector[0]] + vector[1..][..|vector| - 2] == words + vector[..|vector| - 1];
  }

  lemma {:induction false} ReadArgs(args: seq<Arg>, vector: seq<string>, words: seq<string>)
    requires args != [] && Spells(args, vector) && NulFree(vector)
    requires words != [] || args[0].Quoted? || '=' !in vector[0]
    ensures ReadAll(CommandLine(args), Lexer(words, None, Bare)) == AllButLast(words, vector)
  {
    SpellsTail(args, vector);
    if |args| == 1 {
      assert args[1..] == [] && Rendered(args) == [Render(args[0])];
      ReadArg(args[0], words);
      assert words + vector[..0] == words;
    } else {
      ReadArgAndBlank(args[0], words);
      JoinRendered(args);
      ReadConcat(Render(args[0]) + " ", CommandLine(args[1..]), Lexer(words, None, Bare));
      ReadArgs(args[1..], vector[1..], words + [vector[0]]);
      AllButLastStep(words, vector);
    }
  }

  lemma {:induction false} NulInJoin(parts: seq<string>, k: nat, sep: string)
    requires k < |parts| && NUL in parts[k]
    ensures NUL in Join(parts, sep)
  {
    if |parts| > 1 && k > 0 {
      NulInJoin(parts[1..], k - 1, sep);
    }
  }

  lemma NulCommandLine(args: seq<Arg>, vector: seq<string>)
    requires Spells(args, vector) && !NulFree(vector)
    ensures Words(CommandLine(args)) == None
  {
    var k :| 0 <= k < |args| && NUL in vector[k];
    assert args[k].Quoted?;
    NulSurvivesEscape(args[k].value);
    RenderedAt(args, k);
    NulInJoin(Rendered(args), k, " ");
    NulRejects(CommandLine(args), Lexer([], None, Bare));
  }

  /** The printer and the shell are inverse: the shell reads the command line as exactly the
      intended argument vector, whatever the quoted values contain, if and only if no value
      contains a NUL (which no argument vector can carry); otherwise it reads no command. */
  lemma CommandLineReadsBack(args: seq<Arg>, vector: seq<string>)
    requires Intends(args, vector)
    ensures Words(CommandLine(args)) == if NulFree(vector) then Some(vector) else None
  {
    if !NulFree(vector) {
      NulCommandLine(args, vector);
    } else if args != [] {
      var last := |vector| - 1;
      ReadArgs(args, vector, []);
      assert [] + vector[..last] == vector[..last];
      assert vector[..last] + [vector[last]] == vector;
    }
  }

  function QuotedArgs(items: seq<string>): seq<Arg> {
    if items == [] then [] else [Quoted(items[0])] + QuotedArgs(items[1..])
  }

  lemma {:induction false} QuotedArgsSpell(items: seq<string>)
    ensures Spells(QuotedArgs(items), items)
    ensures forall i :: 0 <= i < |QuotedArgs(items)| ==> QuotedArgs(items)[i].Quoted?
  {
    if items != [] {
      QuotedArgsSpell(items[1..]);
    }
  }

  lemma {:induction false} QuotedArgsSnoc(items: seq<string>, item: string)
    ensures QuotedArgs(items + [item]) == QuotedArgs(items) + [Quoted(item)]
  {
    if items != [] {
      assert (items + [item])[1..] == items[1..] + [item];
      QuotedArgsSnoc(items[1..], item);
    }
  }

  function Plains(words: seq<string>): seq<Arg> {
    if words == [] then [] else [Plain(words[0])] + Plains(words[1..])
  }

  predicate SafeList(words: seq<string>) { forall i :: 0 <= i < |words| ==> SafeWord(words[i]) }

  lemma {:induction false} PlainsSpell(words: seq<string>)
    requires SafeList(words)
    ensures Spells(Plains(words), words) && NulFree(words)
    ensures Rendered(Plains(words)) == words
  {
    if words != [] {
      assert SafeList(words[1..]);
      PlainsSpell(words[1..]);
      assert Plains(words)[1..] == Plains(words[1..]);
      assert forall i :: 0 < i < |words| ==> words[i] == words[1..][i - 1];
    }
  }

  lemma OneQuoted(s: string)
    ensures QuotedArgs([s]) == [Quoted(s)] && Rendered(QuotedArgs([s])) == [ShellQuote(s)]
    ensures Spells(QuotedArgs([s]), [s])
    ensures NulFree([s]) <==> NUL !in s
  {
    assert [s][1..] == [] && [Quoted(s)][1..] == [];
    assert [s][0] == s;
  }

  /** quoteAll, as the Go loop that fills the output slice. */
  method QuoteAll(items: seq<string>) returns (out: seq<string>)
    ensures out == Rendered(QuotedArgs(items))
    ensures Words(Join(out, " ")) == if NulFree(items) then Some(items) else None
  {
    out := [];
    for i := 0 to |items|
      invariant out == Rendered(QuotedArgs(items[..i]))
    {
      out := out + [ShellQuote(items[i])];
      assert items[..i + 1] == items[..i] + [items[i]];
      QuotedArgsSnoc(items[..i], items[i]);
      RenderedConcat(QuotedArgs(items[..i]), [Quoted(items[i])]);
    }
    assert items[..|items|] == items;
    QuotedArgsSpell(items);
    CommandLineReadsBack(QuotedArgs(items), items);
  }

  /** A single quoted string is one word, itself. */
  lemma QuoteReadsBack(s: string)
    ensures Words(ShellQuote(s)) == Some([s]) <==> NUL !in s
  {
    OneQuoted(s);
    CommandLineReadsBack([Quoted(s)], [s]);
  }
}
