/** The WWW-Authenticate parser of the registry client, against a printer for the challenges of
    section 2.1 of RFC 7235. */
module Challenge {
  import opened Text

  // ---------------------------------------------------------------- splitting the parameters

  /** An odd number of quotes. */
  predicate InQuotes(s: string) {
    s != "" && (InQuotes(s[..|s| - 1]) != (s[|s| - 1] == '"'))
  }

  /** The finished pieces and the piece being built after reading s. */
  function Scan(s: string): (seq<string>, string) {
    if s == "" then ([], "")
    else
      var init, c := s[..|s| - 1], s[|s| - 1];
      var (out, b) := Scan(init);
      if c == ',' && !InQuotes(init) then (out + [b], "") else (out, b + [c])
  }

  function Pieces(s: string): seq<string> {
    var (out, b) := Scan(s);
    if |b| > 0 then out + [b] else out
  }

  method SplitParams(s: string) returns (out: seq<string>)
    ensures out == Pieces(s)
  {
    out := [];
    var b := "";
    var inQuotes := false;
    for i := 0 to |s|
      invariant (out, b) == Scan(s[..i]) && inQuotes == InQuotes(s[..i])
    {
      assert s[..i + 1][..i] == s[..i];
      if s[i] == '"' {
        inQuotes := !inQuotes;
        b := b + [s[i]];
      } else if s[i] == ',' {
        if inQuotes {
          b := b + [s[i]];
        } else {
          out := out + [b];
          b := "";
        }
      } else {
        b := b + [s[i]];
      }
    }
    assert s[..|s|] == s;
    if |b| > 0 {
      out := out + [b];
    }
  }

  /** Every comma of s is inside quotes. */
  predicate NoBareComma(s: string) {
    forall i :: 0 <= i < |s| && s[i] == ',' ==> InQuotes(s[..i])
  }

  predicate EndsInBareComma(s: string) {
    s != "" && s[|s| - 1] == ',' && !InQuotes(s[..|s| - 1])
  }

  /** A list that SplitParams can return: all commas quoted, quotes closed before the end of every
      piece but the last, and the last not empty. */
  ghost predicate WellCut(pieces: seq<string>) {
    && (forall i :: 0 <= i < |pieces| ==> NoBareComma(pieces[i]))
    && (forall i :: 0 <= i < |pieces| - 1 ==> !InQuotes(pieces[i]))
    && (pieces != [] ==> pieces[|pieces| - 1] != "")
  }

  /** Pieces that are each followed by a comma. */
  function Ended(pieces: seq<string>): string {
    if pieces == [] then "" else Ended(pieces[..|pieces| - 1]) + pieces[|pieces| - 1] + ","
  }

  /** What the scan knows after each character. */
  ghost predicate Scanned(s: string, out: seq<string>, b: string) {
    && Ended(out) + b == s
    && (forall i :: 0 <= i < |out| ==> NoBareComma(out[i]) && !InQuotes(out[i]))
    && NoBareComma(b) && InQuotes(b) == InQuotes(s)
    && (s != "" && b == "" ==> EndsInBareComma(s))
  }

  lemma NoBareCommaSnoc(s: string, c: char)
    ensures NoBareComma(s + [c]) <==> NoBareComma(s) && (c == ',' ==> InQuotes(s))
  {
    var t := s + [c];
    assert forall i :: 0 <= i <= |s| ==> t[..i] == s[..i];
    assert t[..|s|] == s;
    if NoBareComma(t) {
      forall i | 0 <= i < |s| && s[i] == ',' ensures InQuotes(s[..i]) {
        assert t[i] == ',';
      }
    }
  }

  lemma InQuotesSnoc(s: string, c: char)
    ensures InQuotes(s + [c]) == (InQuotes(s) != (c == '"'))
  {
    assert (s + [c])[..|s|] == s;
  }

  lemma ScannedComma(s: string, out: seq<string>, b: string)
    requires Scanned(s, out, b) && !InQuotes(s)
    ensures Scanned(s + ",", out + [b], "")
  {
    InQuotesSnoc(s, ',');
    assert (out + [b])[..|out|] == out;
    assert Ended(out + [b]) + "" == Ended(out) + b + ",";
    assert (s + ",")[..|s|] == s;
  }

  lemma ScannedOther(s: string, out: seq<string>, b: string, c: char)
    requires Scanned(s, out, b) && (c == ',' ==> InQuotes(s))
    ensures Scanned(s + [c], out, b + [c])
  {
    InQuotesSnoc(s, c);
    InQuotesSnoc(b, c);
    NoBareCommaSnoc(b, c);
    assert Ended(out) + (b + [c]) == Ended(out) + b + [c];
  }

  lemma {:induction false} ScanIsScanned(s: string)
    ensures Scanned(s, Scan(s).0, Scan(s).1)
  {
    if s != "" {
      var init, c := s[..|s| - 1], s[|s| - 1];
      var (out, b) := Scan(init);
      assert s == init + [c];
      ScanIsScanned(init);
      if c == ',' && !InQuotes(init) {
        ScannedComma(init, out, b);
      } else {
        ScannedOther(init, out, b, c);
      }
    }
  }

  lemma {:induction false} EndedJoins(pieces: seq<string>, b: string)
    ensures Ended(pieces) + b == Join(pieces + [b], ",")
  {
    if pieces == [] {
      assert [] + [b] == [b];
    } else {
      var init, last := pieces[..|pieces| - 1], pieces[|pieces| - 1];
      assert pieces == init + [last];
      EndedJoins(init, last);
      JoinSnoc(pieces, b, ",");
    }
  }

  lemma PiecesJoin(s: string, out: seq<string>, b: string)
    requires Scanned(s, out, b) && (b == "" && s != "" ==> out != [])
    ensures b != "" ==> Join(out + [b], ",") == s
    ensures b == "" && s != "" ==> Join(out, ",") + "," == s
  {
    EndedJoins(out, b);
    if b == "" && s != "" {
      EndedJoins(out[..|out| - 1], out[|out| - 1]);
      assert out[..|out| - 1] + [out[|out| - 1]] == out;
    }
  }

  /** The parameters are cut at bare commas only: the pieces are well cut, and putting the commas
      back restores the input exactly when it does not end in a bare comma, which would be lost. */
  lemma SplitKeepsTheText(s: string)
    ensures WellCut(Pieces(s)) || EndsInBareComma(s)
    ensures forall i :: 0 <= i < |Pieces(s)| ==> NoBareComma(Pieces(s)[i])
    ensures Join(Pieces(s), ",") == s <==> !EndsInBareComma(s)
    ensures EndsInBareComma(s) ==> Join(Pieces(s), ",") + "," == s
  {
    ScanIsScanned(s);
    if s != "" {
      LastIsScanned(s);
      PiecesJoin(s, Scan(s).0, Scan(s).1);
    }
  }

  /** The buffer is empty exactly after a bare comma. */
  lemma LastIsScanned(s: string)
    requires s != ""
    ensures Scan(s).1 == "" <==> EndsInBareComma(s)
    ensures Scan(s).1 == "" ==> Scan(s).0 != []
  {}

  lemma {:induction false} ScanAfterComma(x: string, p: string)
    requires Scan(x).1 == "" && !InQuotes(x) && NoBareComma(p)
    ensures Scan(x + p) == (Scan(x).0, p) && InQuotes(x + p) == InQuotes(p)
  {
    if p == "" {
      assert x + p == x;
    } else {
      var init, c := p[..|p| - 1], p[|p| - 1];
      assert p == init + [c];
      NoBareCommaSnoc(init, c);
      ScanAfterComma(x, init);
      assert (x + p)[..|x + p| - 1] == x + init;
    }
  }

  lemma {:induction false} ScanOfEnded(pieces: seq<string>)
    requires forall i :: 0 <= i < |pieces| ==> NoBareComma(pieces[i]) && !InQuotes(pieces[i])
    ensures Scan(Ended(pieces)) == (pieces, "") && !InQuotes(Ended(pieces))
  {
    if pieces != [] {
      var init, p := pieces[..|pieces| - 1], pieces[|pieces| - 1];
      ScanOfEnded(init);
      ScanAfterComma(Ended(init), p);
      var s := Ended(init) + p + ",";
      assert s[..|s| - 1] == Ended(init) + p;
      assert init + [p] == pieces;
    }
  }

  /** The converse: any well-cut list is what its joined text splits into.  With the lemma above this
      determines SplitParams completely. */
  lemma SplitUndoesJoin(pieces: seq<string>)
    requires WellCut(pieces)
    ensures Pieces(Join(pieces, ",")) == pieces
  {
    if pieces != [] {
      var init, p := pieces[..|pieces| - 1], pieces[|pieces| - 1];
      ScanOfEnded(init);
      ScanAfterComma(Ended(init), p);
      EndedJoins(init, p);
      assert init + [p] == pieces;
    }
  }

  // ---------------------------------------------------------------- the header

  /** strings.Trim for quotes. */
  function TrimQuotesLeft(s: string): string { if s != "" && s[0] == '"' then TrimQuotesLeft(s[1..]) else s }

  function TrimQuotesRight(s: string): string {
    if s != "" && s[|s| - 1] == '"' then TrimQuotesRight(s[..|s| - 1]) else s
  }

  function TrimQuotes(s: string): string { TrimQuotesRight(TrimQuotesLeft(s)) }

  type Params = map<string, string>

  function Assign(params: Params, kv: string): Params {
    var eq := IndexOf(kv, '=');
    if eq == |kv| then params else params[Trim(kv[..eq]) := TrimQuotes(Trim(kv[eq + 1..]))]
  }

  function AssignAll(pieces: seq<string>): Params {
    if pieces == [] then map[] else Assign(AssignAll(pieces[..|pieces| - 1]), pieces[|pieces| - 1])
  }

  lemma AssignNext(pieces: seq<string>, i: nat)
    requires i < |pieces|
    ensures AssignAll(pieces[..i + 1]) == Assign(AssignAll(pieces[..i]), pieces[i])
  {
    assert pieces[..i + 1][..i] == pieces[..i];
  }

  function Parsed(header: string): (string, Params) {
    var h := Trim(header);
    var space := IndexOf(h, ' ');
    if space == |h| then (h, map[]) else (h[..space], AssignAll(Pieces(h[space + 1..])))
  }

  method ParseWWWAuthenticate(header: string) returns (scheme: string, params: Params)
    ensures (scheme, params) == Parsed(header)
  {
    params := map[];
    var h := Trim(header);
    if h == "" {
      return "", params;
    }
    var space := IndexOf(h, ' ');
    if space == |h| {
      return h, params;
    }
    scheme := h[..space];
    var pieces := SplitParams(h[space + 1..]);
    ParsedIs(header, h, space, pieces);
    for i := 0 to |pieces|
      invariant params == AssignAll(pieces[..i])
    {
      AssignNext(pieces, i);
      var kv := pieces[i];
      var eq := IndexOf(kv, '=');
      if eq == |kv| {
        continue;
      }
      var key := Trim(kv[..eq]);
      var val := Trim(kv[eq + 1..]);
      val := TrimQuotes(val);
      params := params[key := val];
    }
    assert pieces[..|pieces|] == pieces;
  }

  lemma ParsedIs(header: string, h: string, space: nat, pieces: seq<string>)
    requires h == Trim(header) && space == IndexOf(h, ' ') < |h| && pieces == Pieces(h[space + 1..])
    ensures Parsed(header) == (h[..space], AssignAll(pieces))
  {}

  // ---------------------------------------------------------------- the printer

  /** KeyOnly has neither equals sign nor value. */
  datatype Form = Quoted | Bare | KeyOnly

  /** One parameter, with optional blanks before the key and around the equals sign. */
  datatype Param = Param(before: string, key: string, left: string, right: string, value: string, form: Form)

  /** Wider than the tokens of the RFC. */
  predicate Token(s: string) {
    s != "" && forall i :: 0 <= i < |s| ==> !IsSpace(s[i]) && s[i] != '"' && s[i] != ',' && s[i] != '='
  }

  /** A quoted value may hold anything but quotes; a bare one no comma either and no blanks at its
      ends. */
  predicate Printable(p: Param) {
    && Blank(p.before) && Token(p.key) && Blank(p.left) && Blank(p.right)
    && match p.form
       case Quoted => '"' !in p.value
       case Bare => '"' !in p.value && ',' !in p.value && Trimmed(p.value) && (p.value == "" ==> p.right == "")
       case KeyOnly => p.left == ""
  }

  function PrintParam(p: Param): string {
    match p.form
    case Quoted => Head(p) + InQuotationMarks(p.value)
    case Bare => Head(p) + p.value
    case KeyOnly => p.before + p.key
  }

  /** The text before the value. */
  function Head(p: Param): string { p.before + p.key + p.left + "=" + p.right }

  function InQuotationMarks(v: string): string { "\"" + v + "\"" }

  function PrintParams(ps: seq<Param>): (s: seq<string>)
    ensures |s| == |ps| && forall i :: 0 <= i < |ps| ==> s[i] == PrintParam(ps[i])
  {
    if ps == [] then [] else PrintParams(ps[..|ps| - 1]) + [PrintParam(ps[|ps| - 1])]
  }

  function Print(scheme: string, ps: seq<Param>): string {
    if ps == [] then scheme else scheme + " " + Join(PrintParams(ps), ",")
  }

  /** Later parameters win; a key without a value binds nothing. */
  function Bindings(ps: seq<Param>): Params {
    if ps == [] then map[] else Bind(Bindings(ps[..|ps| - 1]), ps[|ps| - 1])
  }

  function Bind(params: Params, p: Param): Params { if p.form.KeyOnly? then params else params[p.key := p.value] }

  lemma {:induction false} QuoteFree(s: string, t: string)
    requires '"' !in t
    ensures InQuotes(s + t) == InQuotes(s)
  {
    if t == "" {
      assert s + t == s;
    } else {
      assert (s + t)[..|s + t| - 1] == s + t[..|t| - 1];
      QuoteFree(s, t[..|t| - 1]);
    }
  }

  /** Inside the quotes after head the quote is open, after the second one it is closed. */
  lemma QuotedParity(head: string, part: string)
    requires '"' !in head && '"' !in part
    ensures InQuotes(head + ['"'] + part) && !InQuotes(head + ['"'] + part + ['"'])
  {
    QuoteFree("", head);
    assert "" + head == head;
    InQuotesSnoc(head, '"');
    QuoteFree(head + ['"'], part);
    InQuotesSnoc(head + ['"'] + part, '"');
  }

  lemma QuotedIsClosed(head: string, v: string)
    requires '"' !in head && ',' !in head && '"' !in v
    ensures NoBareComma(head + InQuotationMarks(v)) && !InQuotes(head + InQuotationMarks(v))
  {
    var s := head + InQuotationMarks(v);
    assert s == head + ['"'] + v + ['"'];
    QuotedParity(head, v);
    forall i | 0 <= i < |s| && s[i] == ',' ensures InQuotes(s[..i]) {
      assert s[..|head|] == head;
      var part := v[..i - |head| - 1];
      assert s[..i] == head + ['"'] + part;
      QuotedParity(head, part);
    }
  }

  lemma HeadIsPlain(p: Param)
    requires Printable(p)
    ensures '"' !in Head(p) && ',' !in Head(p)
    ensures '=' !in p.before + p.key + p.left
  {
    assert forall c :: c in p.before || c in p.left || c in p.right ==> IsSpace(c);
  }

  lemma PlainIsClosed(s: string)
    requires '"' !in s && ',' !in s
    ensures NoBareComma(s) && !InQuotes(s)
  {
    QuoteFree("", s);
    assert "" + s == s;
  }

  lemma PrintedIsClosed(p: Param)
    requires Printable(p)
    ensures NoBareComma(PrintParam(p)) && !InQuotes(PrintParam(p)) && PrintParam(p) != ""
  {
    HeadIsPlain(p);
    match p.form
    case Quoted => QuotedIsClosed(Head(p), p.value);
    case Bare => PlainIsClosed(Head(p) + p.value);
    case KeyOnly => PlainIsClosed(p.before + p.key);
  }

  lemma {:induction false} TrimQuotesRightOf(v: string)
    requires '"' !in v
    ensures TrimQuotesRight(v + "\"") == v && TrimQuotesRight(v) == v
  {
    assert (v + "\"")[..|v|] == v;
  }

  lemma TrimQuoted(v: string)
    requires '"' !in v
    ensures TrimQuotes(InQuotationMarks(v)) == v
  {
    var rest := v + "\"";
    assert InQuotationMarks(v) == "\"" + rest && InQuotationMarks(v)[1..] == rest;
    if v == "" {
      assert rest[1..] == "";
      assert TrimQuotesLeft(rest) == "";
    } else {
      assert rest[0] == v[0] && v[0] in v;
      assert TrimQuotesLeft(rest) == rest;
      TrimQuotesRightOf(v);
    }
  }

  lemma TrimBare(v: string)
    requires '"' !in v
    ensures TrimQuotes(v) == v
  {
    assert v != "" ==> v[0] in v;
    TrimQuotesRightOf(v);
  }

  /** A text with an equals sign binds what stands before it to what stands after it. */
  lemma AssignPair(params: Params, name: string, rest: string)
    requires '=' !in name
    ensures Assign(params, name + ['='] + rest) == params[Trim(name) := TrimQuotes(Trim(rest))]
  {
    var kv := name + ['='] + rest;
    IndexOfFirst(name, '=', rest);
    assert kv[..|name|] == name && kv[|name| + 1..] == rest;
  }

  lemma AssignPrinted(params: Params, p: Param)
    requires Printable(p)
    ensures Assign(params, PrintParam(p)) == Bind(params, p)
  {
    var name := p.before + p.key + p.left;
    HeadIsPlain(p);
    TrimOf(p.before, p.key, p.left);
    match p.form {
      case Quoted =>
        assert PrintParam(p) == name + ['='] + (p.right + InQuotationMarks(p.value));
        AssignPair(params, name, p.right + InQuotationMarks(p.value));
        TrimOf(p.right, InQuotationMarks(p.value), "");
        assert p.right + InQuotationMarks(p.value) + "" == p.right + InQuotationMarks(p.value);
        TrimQuoted(p.value);
      case Bare =>
        assert PrintParam(p) == name + ['='] + (p.right + p.value);
        AssignPair(params, name, p.right + p.value);
        TrimOf(p.right, p.value, "");
        assert p.right + p.value + "" == p.right + p.value;
        TrimBare(p.value);
      case KeyOnly =>
        assert PrintParam(p) + p.left == name;
    }
  }

  lemma {:induction false} AssignAllPrinted(ps: seq<Param>)
    requires forall i :: 0 <= i < |ps| ==> Printable(ps[i])
    ensures AssignAll(PrintParams(ps)) == Bindings(ps)
  {
    if ps != [] {
      var init, p := ps[..|ps| - 1], ps[|ps| - 1];
      AssignAllPrinted(init);
      assert PrintParams(ps)[..|ps| - 1] == PrintParams(init);
      AssignPrinted(Bindings(init), p);
    }
  }

  lemma EndsSolid(p: Param)
    requires Printable(p)
    ensures PrintParam(p) != "" && !IsSpace(PrintParam(p)[|PrintParam(p)| - 1])
  {
    var s := PrintParam(p);
    match p.form {
      case Quoted => assert s[|s| - 1] == '"';
      case Bare =>
        assert p.value == "" ==> s[|s| - 1] == '=';
        assert p.value != "" ==> s[|s| - 1] == p.value[|p.value| - 1];
      case KeyOnly => assert s[|s| - 1] == p.key[|p.key| - 1];
    }
  }

  lemma BodyEndsSolid(ps: seq<Param>)
    requires ps != [] && forall i :: 0 <= i < |ps| ==> Printable(ps[i])
    ensures
      var s := Join(PrintParams(ps), ",");
      s != "" && !IsSpace(s[|s| - 1])
  {
    var n := |ps| - 1;
    EndsSolid(ps[n]);
    JoinSnoc(PrintParams(ps[..n]), PrintParam(ps[n]), ",");
  }

  lemma BodyReadsBack(ps: seq<Param>)
    requires ps != [] && forall i :: 0 <= i < |ps| ==> Printable(ps[i])
    ensures AssignAll(Pieces(Join(PrintParams(ps), ","))) == Bindings(ps)
  {
    var pieces := PrintParams(ps);
    forall i | 0 <= i < |ps| ensures NoBareComma(pieces[i]) && !InQuotes(pieces[i]) && pieces[i] != "" {
      PrintedIsClosed(ps[i]);
    }
    SplitUndoesJoin(pieces);
    AssignAllPrinted(ps);
  }

  lemma HeaderReadsBack(pre: string, scheme: string, body: string, post: string, params: Params)
    requires Blank(pre) && Blank(post) && Token(scheme) && body != "" && !IsSpace(body[|body| - 1])
    requires AssignAll(Pieces(body)) == params
    ensures Parsed(pre + (scheme + " " + body) + post) == (scheme, params)
  {
    var h := scheme + " " + body;
    TrimOf(pre, h, post);
    IndexOfFirst(scheme, ' ', body);
    assert h == scheme + [' '] + body;
    assert h[..|scheme|] == scheme && h[|scheme| + 1..] == body;
  }

  lemma SchemeReadsBack(pre: string, scheme: string, post: string)
    requires Blank(pre) && Blank(post) && Token(scheme)
    ensures Parsed(pre + scheme + post) == (scheme, map[])
  {
    TrimOf(pre, scheme, post);
    assert IndexOf(scheme, ' ') == |scheme|;
  }

  /** Parsing undoes printing: any scheme, any number of parameters, quote-free values with commas,
      equals signs and blanks in them, bare ones with equals signs, any optional blanks; the last of
      equal keys wins, and a key without an equals sign is passed over. */
  lemma ParseUndoesPrint(pre: string, scheme: string, ps: seq<Param>, post: string)
    requires Blank(pre) && Blank(post) && Token(scheme)
    requires forall i :: 0 <= i < |ps| ==> Printable(ps[i])
    ensures Parsed(pre + Print(scheme, ps) + post) == (scheme, Bindings(ps))
  {
    if ps == [] {
      SchemeReadsBack(pre, scheme, post);
    } else {
      BodyEndsSolid(ps);
      BodyReadsBack(ps);
      HeaderReadsBack(pre, scheme, Join(PrintParams(ps), ","), post, Bindings(ps));
    }
  }

  /** With distinct keys every parameter comes back. */
  lemma {:induction false} DistinctKeysAllComeBack(ps: seq<Param>)
    requires forall i, j :: 0 <= i < j < |ps| ==> ps[i].key != ps[j].key
    ensures Bindings(ps).Keys == set p | p in ps && !p.form.KeyOnly? :: p.key
    ensures forall p :: p in ps && !p.form.KeyOnly? ==> p.key in Bindings(ps) && Bindings(ps)[p.key] == p.value
  {
    if ps != [] {
      var init, last := ps[..|ps| - 1], ps[|ps| - 1];
      assert ps == init + [last];
      DistinctKeysAllComeBack(init);
    }
  }
}
