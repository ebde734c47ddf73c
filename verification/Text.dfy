/** The string operations that the modelled Go code takes from its standard library
    (package strings), with the algebra the other modules need.  A Go string is modelled as
    a sequence of code points. */
module Text {

  datatype Option<+T> = None | Some(value: T)

  /** unicode.IsSpace */
  predicate IsSpace(c: char) {
    || c == ' ' || '\t' <= c <= '\r' || c == '\U{85}' || c == '\U{A0}' || c == '\U{1680}'
    || '\U{2000}' <= c <= '\U{200A}' || c == '\U{2028}' || c == '\U{2029}' || c == '\U{202F}'
    || c == '\U{205F}' || c == '\U{3000}'
  }

  predicate Blank(s: string) { forall i :: 0 <= i < |s| ==> IsSpace(s[i]) }

  /** No whitespace at either end. */
  predicate Trimmed(s: string) { s == "" || (!IsSpace(s[0]) && !IsSpace(s[|s| - 1])) }

  function TrimLeft(s: string): string {
    if s != "" && IsSpace(s[0]) then TrimLeft(s[1..]) else s
  }

  function TrimRight(s: string): string {
    if s != "" && IsSpace(s[|s| - 1]) then TrimRight(s[..|s| - 1]) else s
  }

  /** strings.TrimSpace */
  function Trim(s: string): string { TrimRight(TrimLeft(s)) }

  /** No element occurs twice. */
  predicate Distinct<T(==)>(s: seq<T>) { forall i, j :: 0 <= i < j < |s| ==> s[i] != s[j] }

  /** strings.HasSuffix */
  predicate HasSuffix(s: string, suffix: string) {
    |suffix| <= |s| && s[|s| - |suffix|..] == suffix
  }

  /** strings.Join */
  function Join(parts: seq<string>, sep: string): string {
    if parts == [] then "" else if |parts| == 1 then parts[0] else parts[0] + sep + Join(parts[1..], sep)
  }

  /** strings.Split for a one-character separator: never empty. */
  function Split(s: string, sep: char): (parts: seq<string>)
    ensures parts != []
  {
    if s == "" then [""]
    else
      var rest := Split(s[1..], sep);
      if s[0] == sep then [""] + rest else [[s[0]] + rest[0]] + rest[1..]
  }

  function Lines(s: string): (lines: seq<string>)
    ensures lines != []
  {
    Split(s, '\n')
  }

  // ---------------------------------------------------------------- trimming

  lemma {:induction false} TrimLeftOf(pre: string, core: string)
    requires Blank(pre) && (core == "" || !IsSpace(core[0]))
    ensures TrimLeft(pre + core) == core
  {
    if pre == "" {
      assert pre + core == core;
    } else {
      assert (pre + core)[1..] == pre[1..] + core;
      TrimLeftOf(pre[1..], core);
    }
  }

  lemma {:induction false} TrimRightOf(core: string, post: string)
    requires Blank(post) && (core == "" || !IsSpace(core[|core| - 1]))
    ensures TrimRight(core + post) == core
  {
    if post == "" {
      assert core + post == core;
    } else {
      assert (core + post)[..|core + post| - 1] == core + post[..|post| - 1];
      TrimRightOf(core, post[..|post| - 1]);
    }
  }

  /** Trim is determined: strip any blank ends and a trimmed core is what remains. */
  lemma TrimOf(pre: string, core: string, post: string)
    requires Blank(pre) && Blank(post) && Trimmed(core)
    ensures Trim(pre + core + post) == core
  {
    if core == "" {
      assert pre + core + post == (pre + post) + "";
      TrimLeftOf(pre + post, "");
    } else {
      assert pre + core + post == pre + (core + post);
      TrimLeftOf(pre, core + post);
      TrimRightOf(core, post);
    }
  }

  lemma {:induction false} TrimLeftParts(s: string) returns (pre: string)
    ensures Blank(pre) && s == pre + TrimLeft(s)
    ensures TrimLeft(s) == "" || !IsSpace(TrimLeft(s)[0])
  {
    if s != "" && IsSpace(s[0]) {
      var p := TrimLeftParts(s[1..]);
      pre := [s[0]] + p;
    } else {
      pre := "";
    }
  }

  lemma {:induction false} TrimRightParts(s: string) returns (post: string)
    ensures Blank(post) && s == TrimRight(s) + post
    ensures TrimRight(s) == "" || !IsSpace(TrimRight(s)[|TrimRight(s)| - 1])
    ensures TrimRight(s) != "" ==> TrimRight(s)[0] == s[0]
  {
    if s != "" && IsSpace(s[|s| - 1]) {
      var p := TrimRightParts(s[..|s| - 1]);
      post := p + [s[|s| - 1]];
    } else {
      post := "";
    }
  }

  lemma TrimParts(s: string) returns (pre: string, post: string)
    ensures Blank(pre) && Blank(post) && Trimmed(Trim(s)) && s == pre + Trim(s) + post
  {
    pre := TrimLeftParts(s);
    post := TrimRightParts(TrimLeft(s));
  }

  lemma TrimOfTrimmed(s: string)
    requires Trimmed(s)
    ensures Trim(s) == s
  {
    TrimOf("", s, "");
    assert "" + s + "" == s;
  }

  lemma TrimBlank(s: string)
    ensures Blank(s) <==> Trim(s) == ""
  {
    if Blank(s) {
      TrimOf(s, "", "");
      assert s + "" + "" == s;
    }
    if Trim(s) == "" {
      var pre, post := TrimParts(s);
    }
  }

  /** Blank text at the ends does not matter. */
  lemma TrimIgnoresBlankEnds(pre: string, s: string, post: string)
    requires Blank(pre) && Blank(post)
    ensures Trim(pre + s + post) == Trim(s)
  {
    var p, q := TrimParts(s);
    assert pre + s + post == (pre + p) + Trim(s) + (q + post);
    TrimOf(pre + p, Trim(s), q + post);
  }

  // ---------------------------------------------------------------- splitting and joining

  /** Runs the last piece of x into the first piece of y. */
  function Glue(x: seq<string>, y: seq<string>): seq<string>
    requires x != [] && y != []
  {
    x[..|x| - 1] + [x[|x| - 1] + y[0]] + y[1..]
  }

  lemma GlueHead(c: char, r: seq<string>, y: seq<string>)
    requires r != [] && y != []
    ensures Glue([[c] + r[0]] + r[1..], y) == [[c] + Glue(r, y)[0]] + Glue(r, y)[1..]
  {
    var x := [[c] + r[0]] + r[1..];
    if |r| == 1 {
      assert ([c] + r[0]) + y[0] == [c] + (r[0] + y[0]);
    } else {
      assert x[..|x| - 1] == [[c] + r[0]] + r[1..|r| - 1];
      assert r[..|r| - 1] == [r[0]] + r[1..|r| - 1];
    }
  }

  lemma GlueEmpty(y: seq<string>)
    requires y != []
    ensures Glue([""], y) == y
  {
    assert "" + y[0] == y[0];
  }

  lemma GlueCons(r: seq<string>, y: seq<string>)
    requires r != [] && y != []
    ensures Glue([""] + r, y) == [""] + Glue(r, y)
  {
    var x := [""] + r;
    assert x[..|x| - 1] == [""] + r[..|r| - 1] && x[|x| - 1] == r[|r| - 1];
  }

  lemma {:induction false} SplitGlue(a: string, b: string, sep: char)
    ensures Split(a + b, sep) == Glue(Split(a, sep), Split(b, sep))
  {
    if a == "" {
      assert a + b == b;
      GlueEmpty(Split(b, sep));
    } else {
      assert (a + b)[1..] == a[1..] + b && (a + b)[0] == a[0];
      SplitGlue(a[1..], b, sep);
      if a[0] == sep {
        GlueCons(Split(a[1..], sep), Split(b, sep));
      } else {
        GlueHead(a[0], Split(a[1..], sep), Split(b, sep));
      }
    }
  }

  lemma SplitSeparator(b: string, sep: char)
    ensures Split([sep] + b, sep) == [""] + Split(b, sep)
  {
    assert ([sep] + b)[1..] == b;
  }

  lemma GlueAfterEmpty(x: seq<string>, y: seq<string>)
    requires x != []
    ensures Glue(x, [""] + y) == x + y
  {
    assert x[|x| - 1] + "" == x[|x| - 1];
    assert ([""] + y)[1..] == y;
  }

  lemma SplitConcat(a: string, b: string, sep: char)
    ensures Split(a + [sep] + b, sep) == Split(a, sep) + Split(b, sep)
  {
    assert a + [sep] + b == a + ([sep] + b);
    SplitGlue(a, [sep] + b, sep);
    SplitSeparator(b, sep);
    GlueAfterEmpty(Split(a, sep), Split(b, sep));
  }

  lemma {:induction false} SplitWithout(s: string, sep: char)
    requires sep !in s
    ensures Split(s, sep) == [s]
  {
    if s != "" {
      SplitWithout(s[1..], sep);
      assert [s[0]] + s[1..] == s;
    }
  }

  lemma JoinConsChar(c: char, parts: seq<string>, sep: string)
    requires parts != []
    ensures Join([[c] + parts[0]] + parts[1..], sep) == [c] + Join(parts, sep)
  {
    var longer := [[c] + parts[0]] + parts[1..];
    if |parts| > 1 {
      assert longer[1..] == parts[1..];
      assert [c] + parts[0] + sep + Join(parts[1..], sep) == [c] + (parts[0] + sep + Join(parts[1..], sep));
    }
  }

  lemma JoinConsEmpty(parts: seq<string>, sep: string)
    requires parts != []
    ensures Join([""] + parts, sep) == sep + Join(parts, sep)
  {
    assert ([""] + parts)[1..] == parts;
    assert "" + sep == sep;
  }

  lemma {:induction false} JoinSplit(s: string, sep: char)
    ensures Join(Split(s, sep), [sep]) == s
  {
    if s != "" {
      JoinSplit(s[1..], sep);
      var rest := Split(s[1..], sep);
      if s[0] == sep {
        JoinConsEmpty(rest, [sep]);
      } else {
        JoinConsChar(s[0], rest, [sep]);
      }
    }
  }

  lemma {:induction false} JoinSnoc(parts: seq<string>, last: string, sep: string)
    ensures Join(parts + [last], sep) == if parts == [] then last else Join(parts, sep) + sep + last
  {
    if |parts| > 1 {
      assert (parts + [last])[1..] == parts[1..] + [last];
      JoinSnoc(parts[1..], last, sep);
    } else if |parts| == 1 {
      assert (parts + [last])[1..] == [last];
    }
  }

  lemma {:induction false} LinesOfJoin(lines: seq<string>)
    requires lines != [] && forall i :: 0 <= i < |lines| ==> '\n' !in lines[i]
    ensures Lines(Join(lines, "\n")) == lines
  {
    SplitWithout(lines[0], '\n');
    if |lines| == 1 {
      assert lines == [lines[0]];
    } else {
      LinesOfJoin(lines[1..]);
      SplitConcat(lines[0], Join(lines[1..], "\n"), '\n');
      assert lines == [lines[0]] + lines[1..];
    }
  }

  // ---------------------------------------------------------------- searching

  /** strings.IndexByte, with |s| for "not found". */
  function IndexOf(s: string, c: char): (n: nat)
    ensures n <= |s| && c !in s[..n] && (n < |s| ==> s[n] == c)
  {
    if s == "" || s[0] == c then 0
    else
      assert s[..1 + IndexOf(s[1..], c)] == [s[0]] + s[1..][..IndexOf(s[1..], c)];
      1 + IndexOf(s[1..], c)
  }

  lemma {:induction false} IndexOfFirst(a: string, c: char, b: string)
    requires c !in a
    ensures IndexOf(a + [c] + b, c) == |a|
  {
    if a == "" {
      assert (a + [c] + b)[0] == c;
    } else {
      assert (a + [c] + b)[1..] == a[1..] + [c] + b;
      IndexOfFirst(a[1..], c, b);
    }
  }

  // ---------------------------------------------------------------- strings.Fields

  predicate NoSpace(s: string) { forall i :: 0 <= i < |s| ==> !IsSpace(s[i]) }

  /** The length of the leading word. */
  function Span(s: string): (n: nat)
    ensures n <= |s|
    ensures s != "" && !IsSpace(s[0]) ==> n > 0
  {
    if s == "" || IsSpace(s[0]) then 0 else 1 + Span(s[1..])
  }

  function Fields(s: string): seq<string>
    decreases |s|
  {
    if s == "" then [] else if IsSpace(s[0]) then Fields(s[1..]) else [s[..Span(s)]] + Fields(s[Span(s)..])
  }

  lemma {:induction false} SpanOf(w: string, rest: string)
    requires NoSpace(w) && (rest == "" || IsSpace(rest[0]))
    ensures Span(w + rest) == |w|
  {
    if w == "" {
      assert w + rest == rest;
    } else {
      assert (w + rest)[1..] == w[1..] + rest;
      SpanOf(w[1..], rest);
    }
  }

  lemma FieldsWord(w: string, rest: string)
    requires w != "" && NoSpace(w) && (rest == "" || IsSpace(rest[0]))
    ensures Fields(w + rest) == [w] + Fields(rest)
  {
    SpanOf(w, rest);
    assert (w + rest)[..|w|] == w && (w + rest)[|w|..] == rest;
  }

  /** w is the first word of s. */
  ghost predicate FirstWord(s: string, w: string) {
    && w != "" && NoSpace(w)
    && exists pre, post :: Blank(pre) && EndsWord(post) && s == pre + w + post
  }

  predicate EndsWord(rest: string) { rest == "" || IsSpace(rest[0]) }

  lemma {:induction false} SpanStops(s: string)
    ensures NoSpace(s[..Span(s)]) && (Span(s) < |s| ==> IsSpace(s[Span(s)]))
  {
    if s != "" && !IsSpace(s[0]) {
      SpanStops(s[1..]);
      assert s[..Span(s)] == [s[0]] + s[1..][..Span(s[1..])];
    }
  }

  lemma {:induction false} FieldsBlank(pre: string, s: string)
    requires Blank(pre)
    ensures Fields(pre + s) == Fields(s)
  {
    if pre == "" {
      assert pre + s == s;
    } else {
      FieldsBlank(pre[1..], s);
      assert (pre + s)[1..] == pre[1..] + s;
    }
  }

  lemma StandsFirst(pre: string, w: string, post: string, s: string)
    requires s == pre + w + post && w != "" && NoSpace(w) && Blank(pre) && EndsWord(post)
    ensures FirstWord(s, w)
  {}

  lemma FirstWordAfterSpace(s: string, w: string)
    requires s != "" && IsSpace(s[0]) && FirstWord(s[1..], w)
    ensures FirstWord(s, w)
  {
    var pre, post :| Blank(pre) && EndsWord(post) && s[1..] == pre + w + post;
    assert s == ([s[0]] + pre) + w + post;
    StandsFirst([s[0]] + pre, w, post, s);
  }

  lemma {:induction false} FieldStartsIt(s: string)
    requires Fields(s) != []
    ensures FirstWord(s, Fields(s)[0])
  {
    if IsSpace(s[0]) {
      FieldStartsIt(s[1..]);
      FirstWordAfterSpace(s, Fields(s)[0]);
    } else {
      SpanStops(s);
      assert s == "" + s[..Span(s)] + s[Span(s)..];
      StandsFirst("", s[..Span(s)], s[Span(s)..], s);
    }
  }

  lemma FirstFieldIs(pre: string, w: string, post: string)
    requires w != "" && NoSpace(w) && Blank(pre) && EndsWord(post)
    ensures Fields(pre + w + post) == [w] + Fields(post)
  {
    assert pre + w + post == pre + (w + post);
    FieldsBlank(pre, w + post);
    FieldsWord(w, post);
  }

  lemma FirstFieldIff(s: string, w: string)
    ensures Fields(s) != [] && Fields(s)[0] == w <==> FirstWord(s, w)
  {
    if Fields(s) != [] {
      FieldStartsIt(s);
    }
    if FirstWord(s, w) {
      var pre, post :| Blank(pre) && EndsWord(post) && s == pre + w + post;
      FirstFieldIs(pre, w, post);
    }
  }

  lemma FieldsSpace(s: string)
    ensures Fields(" " + s) == Fields(s)
  {
    assert (" " + s)[1..] == s;
  }
}
