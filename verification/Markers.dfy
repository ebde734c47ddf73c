/** splitByMarkers: cutting the output of one combined remote script back into blocks.

    Go visits the marker map in an arbitrary order, and a fresh one for every line, so the parser
    is first described as a relation (Steps, Outcome) that allows every choice.  The relation is
    then shown to be a function exactly when no marker is a proper suffix of another, and that
    function is shown to invert the script's printer. */
module Markers {
  import opened Text

  /** The parser's variables: the open marker ("" before the first), its lines, the result. */
  datatype State = State(current: string, buf: seq<string>, out: map<string, string>)

  const INITIAL := State("", [], map[])

  function Flush(st: State): State {
    State(st.current, [], if st.current != "" then st.out[st.current := Trim(Join(st.buf, "\n"))] else st.out)
  }

  function Open(st: State, marker: string): State { Flush(st).(current := marker) }

  function Keep(st: State, line: string): State { st.(buf := st.buf + [line]) }

  /** marker ends s and is not all of it. */
  predicate Glued(s: string, marker: string) { |s| > |marker| && HasSuffix(s, marker) }

  function Before(s: string, marker: string): string
    requires Glued(s, marker)
  {
    Trim(s[..|s| - |marker|])
  }

  /** One line whose trimmed form is s, once marker has been picked as the glued one. */
  function OpenGlued(st: State, line: string, s: string, marker: string): State
    requires Glued(s, marker)
  {
    if marker == "" then Keep(st, line)
    else if Before(s, marker) != "" then Open(Keep(st, Before(s, marker)), marker)
    else Open(st, marker)
  }

  ghost predicate Steps(markers: set<string>, line: string, st: State, st': State) {
    var s := Trim(line);
    if s in markers then st' == Open(st, s)
    else if exists m :: m in markers && Glued(s, m) then
      exists m :: m in markers && Glued(s, m) && st' == OpenGlued(st, line, s, m)
    else st' == Keep(st, line)
  }

  ghost predicate Reaches(markers: set<string>, lines: seq<string>, st: State, st': State) {
    if lines == [] then st' == st
    else
      var n := |lines| - 1;
      exists mid :: Reaches(markers, lines[..n], st, mid) && Steps(markers, lines[n], mid, st')
  }

  /** out is a result that some sequence of map iteration orders produces. */
  ghost predicate Outcome(markers: set<string>, text: string, out: map<string, string>) {
    if text == "" then out == map[]
    else exists st :: Reaches(markers, Lines(text), INITIAL, st) && out == Flush(st).out
  }

  /** splitTrailingMarker: the map is visited in an arbitrary order. */
  method SplitTrailingMarker(s: string, markers: set<string>) returns (marker: string, prefix: string)
    ensures
      if exists m :: m in markers && Glued(s, m)
      then marker in markers && Glued(s, marker) && prefix == Before(s, marker)
      else marker == "" && prefix == ""
  {
    var rest := markers;
    while rest != {}
      invariant rest <= markers
      invariant forall m :: m in markers - rest ==> !Glued(s, m)
      decreases rest
    {
      var m :| m in rest;
      if |s| > |m| && HasSuffix(s, m) {
        return m, Trim(s[..|s| - |m|]);
      }
      rest := rest - {m};
    }
    return "", "";
  }

  /** splitByMarkers */
  method SplitByMarkers(text: string, markers: seq<string>) returns (out: map<string, string>)
    ensures Outcome((set m | m in markers), text, out)
  {
    out := map[];
    if text == "" {
      return;
    }
    var markerSet := set m | m in markers;
    var lines := Lines(text);
    var current, buf := "", [];
    for i := 0 to |lines|
      invariant Reaches(markerSet, lines[..i], INITIAL, State(current, buf, out))
    {
      ghost var st := State(current, buf, out);
      assert lines[..i + 1][..i] == lines[..i];
      var ln := lines[i];
      var trimmed := Trim(ln);
      if trimmed in markerSet {
        if current != "" {
          out := out[current := Trim(Join(buf, "\n"))];
        }
        buf := [];
        current := trimmed;
        assert State(current, buf, out) == Open(st, trimmed);
      } else {
        var marker, prefix := SplitTrailingMarker(trimmed, markerSet);
        if marker != "" {
          if prefix != "" {
            buf := buf + [prefix];
          }
          if current != "" {
            out := out[current := Trim(Join(buf, "\n"))];
          }
          buf := [];
          current := marker;
          assert State(current, buf, out) == OpenGlued(st, ln, trimmed, marker);
        } else {
          buf := buf + [ln];
          assert State(current, buf, out) == Keep(st, ln);
        }
      }
      assert Steps(markerSet, ln, st, State(current, buf, out));
    }
    assert lines[..|lines|] == lines;
    ghost var last := State(current, buf, out);
    if current != "" {
      out := out[current := Trim(Join(buf, "\n"))];
    }
    assert out == Flush(last).out;
  }

  // ---------------------------------------------------------------- determinism

  ghost predicate SuffixFree(markers: set<string>) {
    forall m, m' :: m in markers && m' in markers ==> !Glued(m', m)
  }

  predicate WellFormed(marker: string) { marker != "" && Trimmed(marker) && '\n' !in marker }

  ghost predicate AllWellFormed(markers: set<string>) { forall m :: m in markers ==> WellFormed(m) }

  /** The step as a function; under SuffixFree the choice it makes is the only one. */
  ghost function Next(markers: set<string>, line: string, st: State): State {
    var s := Trim(line);
    if s in markers then Open(st, s)
    else if exists m :: m in markers && Glued(s, m) then
      var m :| m in markers && Glued(s, m);
      OpenGlued(st, line, s, m)
    else Keep(st, line)
  }

  ghost function Run(markers: set<string>, lines: seq<string>, st: State): State {
    if lines == [] then st
    else Next(markers, lines[|lines| - 1], Run(markers, lines[..|lines| - 1], st))
  }

  ghost function Result(markers: set<string>, text: string): map<string, string> {
    if text == "" then map[] else Flush(Run(markers, Lines(text), INITIAL)).out
  }

  lemma SuffixesNest(s: string, m: string, m': string)
    requires HasSuffix(s, m) && HasSuffix(s, m') && m != m'
    ensures Glued(m', m) || Glued(m, m')
  {
    if |m| <= |m'| {
      assert m'[|m'| - |m|..] == s[|s| - |m|..];
    } else {
      assert m[|m| - |m'|..] == s[|s| - |m'|..];
    }
  }

  lemma GluedUnique(markers: set<string>, s: string, m: string, m': string)
    requires SuffixFree(markers) && m in markers && m' in markers && Glued(s, m) && Glued(s, m')
    ensures m == m'
  {
    if m != m' {
      SuffixesNest(s, m, m');
    }
  }

  lemma StepsIsNext(markers: set<string>, line: string, st: State, st': State)
    requires SuffixFree(markers)
    ensures Steps(markers, line, st, st') <==> st' == Next(markers, line, st)
  {
    var s := Trim(line);
    forall m, m' | m in markers && m' in markers && Glued(s, m) && Glued(s, m') ensures m == m' {
      GluedUnique(markers, s, m, m');
    }
  }

  lemma {:induction false} ReachesIsRun(markers: set<string>, lines: seq<string>, st: State, st': State)
    requires SuffixFree(markers)
    ensures Reaches(markers, lines, st, st') <==> st' == Run(markers, lines, st)
  {
    if lines != [] {
      var n := |lines| - 1;
      forall mid ensures Reaches(markers, lines[..n], st, mid) <==> mid == Run(markers, lines[..n], st) {
        ReachesIsRun(markers, lines[..n], st, mid);
      }
      StepsIsNext(markers, lines[n], Run(markers, lines[..n], st), st');
    }
  }

  lemma OutcomeIsResult(markers: set<string>, text: string, out: map<string, string>)
    requires SuffixFree(markers)
    ensures Outcome(markers, text, out) <==> out == Result(markers, text)
  {
    if text != "" {
      forall st ensures Reaches(markers, Lines(text), INITIAL, st) <==> st == Run(markers, Lines(text), INITIAL) {
        ReachesIsRun(markers, Lines(text), INITIAL, st);
      }
    }
  }

  /** A text no marker can equal, ending in the given marker. */
  lemma FreshText(markers: set<string>, tail: string) returns (text: string)
    requires WellFormed(tail)
    ensures text !in markers && Glued(text, tail) && Trimmed(text) && '\n' !in text
    decreases markers
  {
    text := "x" + tail;
    ghost var rest := markers;
    while text in rest
      invariant rest <= markers
      invariant Glued(text, tail) && Trimmed(text) && '\n' !in text
      invariant forall m :: m in markers - rest ==> |m| < |text|
      decreases rest
    {
      rest := rest - {text};
      text := "x" + text;
      assert text[|text| - |tail|..] == tail;
    }
  }

  /** The map iteration order cannot be observed, for any text, if and only if no marker is a
      proper suffix of another. */
  lemma DeterministicIffSuffixFree(markers: set<string>)
    requires AllWellFormed(markers)
    ensures
      (forall text, a, b :: Outcome(markers, text, a) && Outcome(markers, text, b) ==> a == b)
      <==> SuffixFree(markers)
  {
    if SuffixFree(markers) {
      forall text, a, b | Outcome(markers, text, a) && Outcome(markers, text, b) ensures a == b {
        OutcomeIsResult(markers, text, a);
        OutcomeIsResult(markers, text, b);
      }
    } else {
      var m, m' :| m in markers && m' in markers && Glued(m', m);
      var text := FreshText(markers, m');
      assert text[|text| - |m|..] == m;
      GluedOutcome(markers, text, m);
      GluedOutcome(markers, text, m');
      assert map[m := ""] != map[m' := ""] by { assert m in map[m := ""]; }
    }
  }

  /** A one-line text that only ends in a marker may yield that marker with an empty block. */
  lemma GluedOutcome(markers: set<string>, text: string, m: string)
    requires m in markers && m != "" && Glued(text, m) && text !in markers && Trimmed(text) && '\n' !in text
    ensures Outcome(markers, text, map[m := ""])
  {
    SplitWithout(text, '\n');
    TrimOfTrimmed(text);
    var st := OpenGlued(INITIAL, text, text, m);
    assert Steps(markers, text, INITIAL, st);
    assert [text][..0] == [];
    assert Reaches(markers, [text][..0], INITIAL, INITIAL);
    assert Reaches(markers, [text], INITIAL, st);
    assert Join([], "\n") == "" && Trim("") == "";
    assert Flush(st).out == map[m := ""];
  }

  // ---------------------------------------------------------------- the printer

  /** One block of the script's output.  When glued, the block's text ran straight into the next
      marker; otherwise a newline separates them. */
  datatype Section = Section(marker: string, body: string, glued: bool)

  function Printed(sections: seq<Section>): string
    requires sections != []
  {
    var s := sections[0];
    var block := s.marker + "\n" + s.body;
    if |sections| == 1 then block
    else block + (if s.glued then "" else "\n") + Printed(sections[1..])
  }

  function Init(lines: seq<string>): seq<string>
    requires lines != []
  {
    lines[..|lines| - 1]
  }

  function Last(lines: seq<string>): string
    requires lines != []
  {
    lines[|lines| - 1]
  }

  /** The lines a block contributes: a last line glued to a marker arrives trimmed, or not at all. */
  function BodyLines(s: Section): seq<string> {
    var lines := Lines(s.body);
    if s.glued then Init(lines) + (if Trim(Last(lines)) == "" then [] else [Trim(Last(lines))]) else lines
  }

  /** What the caller should find under the marker of s. */
  function Content(s: Section): string {
    if s.glued then Trim(Join(BodyLines(s), "\n")) else Trim(s.body)
  }

  function Contents(sections: seq<Section>, out: map<string, string>): map<string, string>
  {
    if sections == [] then out else Contents(sections[1..], out[sections[0].marker := Content(sections[0])])
  }

  predicate NoMarkerEnds(markers: set<string>, line: string) {
    forall m :: m in markers ==> !HasSuffix(Trim(line), m)
  }

  /** No line of a block reads as a marker; the last line of a glued block may hold anything. */
  predicate Clean(markers: set<string>, s: Section) {
    var lines := Lines(s.body);
    forall i :: 0 <= i < (if s.glued then |lines| - 1 else |lines|) ==> NoMarkerEnds(markers, lines[i])
  }

  predicate Printable(markers: set<string>, sections: seq<Section>) {
    && sections != []
    && !sections[|sections| - 1].glued
    && forall i :: 0 <= i < |sections| ==> sections[i].marker in markers && Clean(markers, sections[i])
  }

  // ---------------------------------------------------------------- reading it back

  lemma {:induction false} RunConcat(markers: set<string>, a: seq<string>, b: seq<string>, st: State)
    ensures Run(markers, a + b, st) == Run(markers, b, Run(markers, a, st))
  {
    if b == [] {
      assert a + b == a;
    } else {
      var n := |b| - 1;
      assert (a + b)[..|a + b| - 1] == a + b[..n];
      RunConcat(markers, a, b[..n], st);
    }
  }

  lemma RunOne(markers: set<string>, line: string, st: State)
    ensures Run(markers, [line], st) == Next(markers, line, st)
  {
    assert [line][..0] == [];
  }

  /** Reading lines, then one more, then the rest. */
  lemma RunAround(markers: set<string>, a: seq<string>, line: string, b: seq<string>, st: State)
    ensures Run(markers, a + ([line] + b), st) == Run(markers, b, Next(markers, line, Run(markers, a, st)))
  {
    RunConcat(markers, a, [line] + b, st);
    RunConcat(markers, [line], b, Run(markers, a, st));
    RunOne(markers, line, Run(markers, a, st));
  }

  lemma RunHead(markers: set<string>, y: seq<string>, st: State)
    requires y != []
    ensures Run(markers, y, st) == Run(markers, y[1..], Next(markers, y[0], st))
  {
    assert y == [y[0]] + y[1..];
    RunConcat(markers, [y[0]], y[1..], st);
    RunOne(markers, y[0], st);
  }

  lemma RunGlue(markers: set<string>, x: seq<string>, y: seq<string>, st: State)
    requires x != [] && y != []
    ensures
      Run(markers, Glue(x, y), st)
      == Run(markers, y[1..], Next(markers, Last(x) + y[0], Run(markers, Init(x), st)))
  {
    assert Glue(x, y) == Init(x) + ([Last(x) + y[0]] + y[1..]);
    RunAround(markers, Init(x), Last(x) + y[0], y[1..], st);
  }

  lemma {:induction false} RunKeeps(markers: set<string>, lines: seq<string>, st: State)
    requires forall i :: 0 <= i < |lines| ==> NoMarkerEnds(markers, lines[i])
    ensures Run(markers, lines, st) == st.(buf := st.buf + lines)
  {
    if lines == [] {
      assert st.buf + lines == st.buf;
    } else {
      var n := |lines| - 1;
      RunKeeps(markers, lines[..n], st);
      assert NoMarkerEnds(markers, lines[n]);
      var s := Trim(lines[n]);
      assert s !in markers by { if s in markers { assert HasSuffix(s, s); } }
      assert st.buf + lines[..n] + [lines[n]] == st.buf + lines;
    }
  }

  lemma NextMarker(markers: set<string>, m: string, st: State)
    requires m in markers && WellFormed(m)
    ensures Next(markers, m, st) == Open(st, m)
  {
    TrimOfTrimmed(m);
  }

  /** A line with a marker glued to its end acts as its trimmed text followed by the marker. */
  lemma NextGlued(markers: set<string>, line: string, m: string, st: State)
    requires SuffixFree(markers) && m in markers && WellFormed(m)
    ensures
      Next(markers, line + m, st)
      == Open(if Trim(line) == "" then st else Keep(st, Trim(line)), m)
  {
    var pre, post := TrimParts(line);
    var core := Trim(line);
    if core == "" {
      assert line + m + "" == line + m;
      TrimBlank(line);
      TrimOf(line, m, "");
    } else {
      var s := core + post + m;
      assert line + m == pre + s + "";
      TrimOf(pre, s, "");
      assert Trim(line + m) == s && Glued(s, m) && s !in markers;
      assert s[..|s| - |m|] == "" + core + post;
      TrimOf("", core, post);
      assert Before(s, m) == core;
      forall m' | m' in markers && Glued(s, m') ensures m' == m { GluedUnique(markers, s, m, m'); }
    }
  }

  lemma BlockLines(marker: string, body: string)
    requires '\n' !in marker
    ensures Lines(marker + "\n" + body) == [marker] + Lines(body)
  {
    SplitWithout(marker, '\n');
    SplitConcat(marker, body, '\n');
  }

  lemma GluedBlockLines(marker: string, body: string, rest: string)
    requires '\n' !in marker
    ensures Lines(marker + "\n" + body + "" + rest) == [marker] + Glue(Lines(body), Lines(rest))
  {
    var a := marker + "\n";
    assert a + body + "" + rest == a + (body + rest);
    BlockLines(marker, body + rest);
    SplitGlue(body, rest, '\n');
  }

  lemma SeparateBlockLines(marker: string, body: string, rest: string)
    requires '\n' !in marker
    ensures Lines(marker + "\n" + body + "\n" + rest) == [marker] + (Lines(body) + Lines(rest))
  {
    var a, b := marker + "\n", body + "\n";
    assert a + body + "\n" + rest == a + (b + rest);
    BlockLines(marker, b + rest);
    SplitConcat(body, rest, '\n');
  }

  lemma PrintedLines(sections: seq<Section>)
    requires sections != [] && '\n' !in sections[0].marker
    ensures
      var s := sections[0];
      Lines(Printed(sections)) ==
        [s.marker] +
        if |sections| == 1 then Lines(s.body)
        else if s.glued then Glue(Lines(s.body), Lines(Printed(sections[1..])))
        else Lines(s.body) + Lines(Printed(sections[1..]))
  {
    var s := sections[0];
    if |sections| == 1 {
      BlockLines(s.marker, s.body);
    } else if s.glued {
      GluedBlockLines(s.marker, s.body, Printed(sections[1..]));
    } else {
      SeparateBlockLines(s.marker, s.body, Printed(sections[1..]));
    }
  }

  /** The state after a whole printed text, whatever came before it. */
  function Final(sections: seq<Section>, st: State): State
    requires sections != []
  {
    var st' := Open(st, sections[0].marker).(buf := BodyLines(sections[0]));
    if |sections| == 1 then st' else Final(sections[1..], st')
  }

  lemma {:induction false} RunPrinted(markers: set<string>, sections: seq<Section>, st: State)
    requires SuffixFree(markers) && AllWellFormed(markers) && Printable(markers, sections)
    ensures Run(markers, Lines(Printed(sections)), st) == Final(sections, st)
    decreases sections
  {
    var s := sections[0];
    var lines := Lines(s.body);
    assert s.marker in markers && Clean(markers, s);
    PrintedLines(sections);
    RunOne(markers, s.marker, st);
    NextMarker(markers, s.marker, st);
    var begun := Open(st, s.marker);
    assert begun.buf == [];
    if |sections| == 1 {
      RunConcat(markers, [s.marker], lines, st);
      RunKeeps(markers, lines, begun);
      assert [] + lines == lines;
    } else {
      var rest := sections[1..];
      assert Printable(markers, rest);
      var tail := Lines(Printed(rest));
      var st' := begun.(buf := BodyLines(s));
      RunPrinted(markers, rest, st');
      if s.glued {
        RunGluedBody(markers, s, rest, begun);
        RunConcat(markers, [s.marker], Glue(lines, tail), st);
      } else {
        RunConcat(markers, [s.marker], lines + tail, st);
        RunConcat(markers, lines, tail, begun);
        RunKeeps(markers, lines, begun);
        assert [] + lines == lines;
      }
    }
  }

  lemma RunGluedBody(markers: set<string>, s: Section, rest: seq<Section>, begun: State)
    requires SuffixFree(markers) && AllWellFormed(markers) && Printable(markers, rest)
    requires s.glued && Clean(markers, s) && begun.buf == []
    ensures
      Run(markers, Glue(Lines(s.body), Lines(Printed(rest))), begun)
      == Run(markers, Lines(Printed(rest)), begun.(buf := BodyLines(s)))
  {
    var lines, tail := Lines(s.body), Lines(Printed(rest));
    var m := rest[0].marker;
    assert m in markers;
    PrintedLines(rest);
    assert tail[0] == m;
    var kept, st' := begun.(buf := Init(lines)), begun.(buf := BodyLines(s));
    RunKeeps(markers, Init(lines), begun);
    assert [] + Init(lines) == Init(lines);
    RunGlue(markers, lines, tail, begun);
    RunHead(markers, tail, st');
    NextMarker(markers, m, st');
    NextGlued(markers, Last(lines), m, kept);
    GluedBodyState(s, kept);
  }

  lemma GluedBodyState(s: Section, kept: State)
    requires s.glued && kept.buf == Init(Lines(s.body))
    ensures
      var last := Trim(Last(Lines(s.body)));
      (if last == "" then kept else Keep(kept, last)) == kept.(buf := BodyLines(s))
  {
    assert Init(Lines(s.body)) + [] == Init(Lines(s.body));
  }

  lemma {:induction false} FinalContents(markers: set<string>, sections: seq<Section>, st: State)
    requires AllWellFormed(markers) && Printable(markers, sections)
    ensures Flush(Final(sections, st)).out == Contents(sections, Flush(st).out)
    decreases sections
  {
    var s := sections[0];
    assert s.marker in markers;
    var st' := Open(st, s.marker).(buf := BodyLines(s));
    assert Flush(st').out == Flush(st).out[s.marker := Content(s)] by {
      if !s.glued {
        JoinSplit(s.body, '\n');
      }
    }
    if |sections| == 1 {
      assert sections[1..] == [];
    } else {
      assert Printable(markers, sections[1..]);
      FinalContents(markers, sections[1..], st');
    }
  }

  /** The parser undoes the printer: every order of map iteration yields exactly the printed
      blocks, each trimmed, under their markers. */
  lemma SplitUndoesPrint(markers: set<string>, sections: seq<Section>, out: map<string, string>)
    requires SuffixFree(markers) && AllWellFormed(markers) && Printable(markers, sections)
    ensures Outcome(markers, Printed(sections), out) <==> out == Contents(sections, map[])
  {
    OutcomeIsResult(markers, Printed(sections), out);
    RunPrinted(markers, sections, INITIAL);
    FinalContents(markers, sections, INITIAL);
  }

  lemma {:induction false} ContentsKeep(sections: seq<Section>, out: map<string, string>, m: string)
    requires forall i :: 0 <= i < |sections| ==> sections[i].marker != m
    ensures m in Contents(sections, out) <==> m in out
    ensures m in out ==> Contents(sections, out)[m] == out[m]
  {
    if sections != [] {
      ContentsKeep(sections[1..], out[sections[0].marker := Content(sections[0])], m);
    }
  }

  ghost function MarkersOf(sections: seq<Section>): set<string> {
    set k | 0 <= k < |sections| :: sections[k].marker
  }

  lemma {:induction false} ContentsKeys(sections: seq<Section>, out: map<string, string>)
    ensures Contents(sections, out).Keys == out.Keys + MarkersOf(sections)
  {
    if sections != [] {
      var rest := sections[1..];
      ContentsKeys(rest, out[sections[0].marker := Content(sections[0])]);
      assert forall k :: 0 < k < |sections| ==> sections[k].marker == rest[k - 1].marker;
      assert MarkersOf(sections) == {sections[0].marker} + MarkersOf(rest);
    }
  }

  /** With distinct markers, the k-th marker maps to the k-th block. */
  lemma {:induction false} ContentsAt(sections: seq<Section>, out: map<string, string>, k: nat)
    requires k < |sections|
    requires forall i, j :: 0 <= i < j < |sections| ==> sections[i].marker != sections[j].marker
    ensures sections[k].marker in Contents(sections, out)
    ensures Contents(sections, out)[sections[k].marker] == Content(sections[k])
  {
    var out' := out[sections[0].marker := Content(sections[0])];
    if k == 0 {
      ContentsKeep(sections[1..], out', sections[0].marker);
    } else {
      ContentsAt(sections[1..], out', k - 1);
    }
  }

  /** For distinct markers the parser returns, in every map iteration order, exactly one entry
      per printed block: its marker with its trimmed text. */
  lemma SplitRecoversBlocks(markers: set<string>, sections: seq<Section>, out: map<string, string>)
    requires SuffixFree(markers) && AllWellFormed(markers) && Printable(markers, sections)
    requires forall i, j :: 0 <= i < j < |sections| ==> sections[i].marker != sections[j].marker
    requires Outcome(markers, Printed(sections), out)
    ensures out.Keys == MarkersOf(sections)
    ensures forall k :: 0 <= k < |sections| ==>
      sections[k].marker in out && out[sections[k].marker] == Content(sections[k])
  {
    SplitUndoesPrint(markers, sections, out);
    ContentsKeys(sections, map[]);
    forall k | 0 <= k < |sections|
      ensures sections[k].marker in out && out[sections[k].marker] == Content(sections[k])
    {
      ContentsAt(sections, map[], k);
    }
  }

  /** TrimOf for a core with a known first part. */
  lemma TrimKept(pre: string, mid: string, line: string, post: string)
    requires Blank(pre) && Blank(post)
    requires mid != "" && !IsSpace(mid[0]) && line != "" && !IsSpace(line[|line| - 1])
    ensures Trim((pre + mid) + "\n" + line + post) == mid + "\n" + line
  {
    var kept := mid + "\n" + line;
    assert (pre + mid) + "\n" + line + post == pre + kept + post;
    TrimOf(pre, kept, post);
  }

  lemma TrimAfterBlankLines(head: string, indent: string, core: string, post: string)
    requires Blank(head) && Blank(indent) && Blank(post) && Trimmed(core)
    ensures Trim(head + "\n" + (indent + core) + post) == core
  {
    var pre := head + "\n" + indent;
    assert head + "\n" + (indent + core) + post == pre + core + post;
    TrimOf(pre, core, post);
  }

  /** Trimming head, a newline, and a line that is not blank. */
  lemma TrimLastLine(head: string, indent: string, core: string, post: string)
    requires Blank(indent) && Blank(post) && Trimmed(core) && core != ""
    ensures
      Trim(head + "\n" + (indent + core) + post)
      == if Blank(head) then core else TrimLeft(head) + "\n" + (indent + core)
  {
    if Blank(head) {
      TrimAfterBlankLines(head, indent, core, post);
    } else {
      var pre := TrimLeftParts(head);
      assert TrimLeft(head) != "";
      TrimKept(pre, TrimLeft(head), indent + core, post);
    }
  }

  lemma GluedBodyJoined(head: string, last: string, marker: string)
    requires '\n' !in last && Trim(last) != ""
    ensures Join(BodyLines(Section(marker, head + "\n" + last, true)), "\n") == head + "\n" + Trim(last)
  {
    SplitConcat(head, last, '\n');
    SplitWithout(last, '\n');
    var lines := Lines(head + "\n" + last);
    assert lines == Lines(head) + [last] && Init(lines) == Lines(head) && Last(lines) == last;
    JoinSnoc(Lines(head), Trim(last), "\n");
    JoinSplit(head, '\n');
  }

  lemma TrimUnindented(head: string, core: string)
    requires Trimmed(core) && core != ""
    ensures Trim(head + "\n" + core) == if Blank(head) then core else TrimLeft(head) + "\n" + core
  {
    TrimLastLine(head, "", core, "");
    assert "" + core == core;
    assert (head + "\n" + core) + "" == head + "\n" + core;
  }

  lemma GluedContent(head: string, last: string, marker: string)
    requires '\n' !in last && Trim(last) != ""
    ensures
      Content(Section(marker, head + "\n" + last, true))
      == if Blank(head) then Trim(last) else TrimLeft(head) + "\n" + Trim(last)
  {
    var pre, post := TrimParts(last);
    GluedBodyJoined(head, last, marker);
    TrimUnindented(head, Trim(last));
  }

  lemma SeparateContent(head: string, indent: string, core: string, post: string, marker: string)
    requires Blank(indent) && Blank(post) && Trimmed(core) && core != ""
    ensures
      Content(Section(marker, head + "\n" + (indent + core + post), false))
      == if Blank(head) then core else TrimLeft(head) + "\n" + (indent + core)
  {
    var front := head + "\n";
    assert front + (indent + core + post) == front + (indent + core) + post;
    TrimLastLine(head, indent, core, post);
  }

  /** The lines of a block that ends in a blank line. */
  lemma BlankLastLines(head: string, last: string)
    requires Blank(last) && '\n' !in last
    ensures Lines(head + "\n" + last) == Lines(head) + [last] && Trim(last) == ""
    ensures Init(Lines(head + "\n" + last)) == Lines(head)
  {
    SplitConcat(head, last, '\n');
    SplitWithout(last, '\n');
    TrimBlank(last);
  }

  lemma TrimBlankLastLine(head: string, last: string)
    requires Blank(last)
    ensures Trim(head + "\n" + last) == Trim(head)
  {
    TrimIgnoresBlankEnds("", head, "\n" + last);
    assert "" + head + ("\n" + last) == head + "\n" + last;
  }

  /** A last line that is blank counts for nothing, glued or not. */
  lemma BlankLastLine(head: string, last: string, marker: string)
    requires Blank(last) && '\n' !in last
    ensures Content(Section(marker, head + "\n" + last, true)) == Trim(head)
    ensures Content(Section(marker, head + "\n" + last, false)) == Trim(head)
  {
    BlankLastLines(head, last);
    TrimBlankLastLine(head, last);
    assert Lines(head) + [] == Lines(head);
    JoinSplit(head, '\n');
  }

  /** What gluing can cost, whatever the block of several lines: only the indentation of its last
      line. */
  lemma GluedLosesIndentation(head: string, indent: string, core: string, post: string, marker: string)
    requires Blank(indent) && Blank(post) && Trimmed(core) && '\n' !in indent + core + post
    ensures
      var body := head + "\n" + (indent + core + post);
      var glued, separate := Content(Section(marker, body, true)), Content(Section(marker, body, false));
      if core == "" then glued == Trim(head) && separate == Trim(head)
      else
        && glued == (if Blank(head) then core else TrimLeft(head) + "\n" + core)
        && separate == (if Blank(head) then core else TrimLeft(head) + "\n" + (indent + core))
  {
    if core == "" {
      BlankLastLine(head, indent + core + post, marker);
    } else {
      TrimOf(indent, core, post);
      GluedContent(head, indent + core + post, marker);
      SeparateContent(head, indent, core, post, marker);
    }
  }

  /** A one-line block loses nothing by being glued. */
  lemma GluedSingleLine(line: string, marker: string)
    requires '\n' !in line
    ensures Content(Section(marker, line, true)) == Content(Section(marker, line, false)) == Trim(line)
  {
    SplitWithout(line, '\n');
    var pre, post := TrimParts(line);
    TrimOfTrimmed(Trim(line));
    assert Init([line]) == [] && Last([line]) == line;
  }

  // ---------------------------------------------------------------- trimming the text first

  /** Lines of equal trimmed form act alike on the state apart from the kept text. */
  lemma NextSameTrim(markers: set<string>, line: string, line': string, st: State)
    requires Trim(line) == Trim(line') && AllWellFormed(markers)
    ensures
      || Next(markers, line, st) == Next(markers, line', st)
      || (Next(markers, line, st) == Keep(st, line) && Next(markers, line', st) == Keep(st, line'))
  {}

  /** Lines kept before the first marker are never seen again. */
  predicate SameSoFar(a: State, b: State) {
    a == b || (a.current == "" && b.current == "" && a.out == b.out)
  }

  lemma NextSameSoFar(markers: set<string>, line: string, line': string, a: State, b: State)
    requires AllWellFormed(markers) && Trim(line) == Trim(line') && SameSoFar(a, b)
    requires line == line' || (a.current == "" && b.current == "")
    ensures SameSoFar(Next(markers, line, a), Next(markers, line', b))
  {}

  lemma {:induction false} RunSameSoFar(markers: set<string>, lines: seq<string>, a: State, b: State)
    requires AllWellFormed(markers) && SameSoFar(a, b)
    ensures SameSoFar(Run(markers, lines, a), Run(markers, lines, b))
  {
    if lines != [] {
      var n := |lines| - 1;
      RunSameSoFar(markers, lines[..n], a, b);
      NextSameSoFar(markers, lines[n], lines[n], Run(markers, lines[..n], a), Run(markers, lines[..n], b));
    }
  }

  lemma {:induction false} BlankPieces(s: string)
    requires Blank(s)
    ensures forall i :: 0 <= i < |Lines(s)| ==> Blank(Lines(s)[i])
  {
    if s != "" {
      BlankPieces(s[1..]);
      var rest := Lines(s[1..]);
      assert Blank([s[0]] + rest[0]);
      assert Lines(s) == [""] + rest || Lines(s) == [[s[0]] + rest[0]] + rest[1..];
    }
  }

  lemma BlankLinesKept(markers: set<string>, lines: seq<string>, st: State)
    requires AllWellFormed(markers) && forall i :: 0 <= i < |lines| ==> Blank(lines[i])
    ensures Run(markers, lines, st) == st.(buf := st.buf + lines)
  {
    forall i | 0 <= i < |lines| ensures NoMarkerEnds(markers, lines[i]) {
      TrimBlank(lines[i]);
    }
    RunKeeps(markers, lines, st);
  }

  /** Blank text in front of the script's output changes nothing. */
  lemma ResultDropsLeading(markers: set<string>, pre: string, s: string)
    requires AllWellFormed(markers) && Blank(pre) && s != ""
    ensures Result(markers, pre + s) == Result(markers, s)
  {
    var x, y := Lines(pre), Lines(s);
    SplitGlue(pre, s, '\n');
    BlankPieces(pre);
    LeadingBlankLines(markers, x, y);
  }

  lemma LeadingBlankLines(markers: set<string>, x: seq<string>, y: seq<string>)
    requires AllWellFormed(markers) && x != [] && y != [] && forall i :: 0 <= i < |x| ==> Blank(x[i])
    ensures SameSoFar(Run(markers, Glue(x, y), INITIAL), Run(markers, y, INITIAL))
  {
    RunGlue(markers, x, y, INITIAL);
    RunHead(markers, y, INITIAL);
    BlankLinesKept(markers, Init(x), INITIAL);
    var a := Run(markers, Init(x), INITIAL);
    TrimAfterBlank(Last(x), y[0]);
    NextSameSoFar(markers, Last(x) + y[0], y[0], a, INITIAL);
    RunSameSoFar(markers, y[1..], Next(markers, Last(x) + y[0], a), Next(markers, y[0], INITIAL));
  }

  lemma TrimAfterBlank(pre: string, s: string)
    requires Blank(pre)
    ensures Trim(pre + s) == Trim(s)
  {
    assert pre + s + "" == pre + s;
    TrimIgnoresBlankEnds(pre, s, "");
  }

  lemma TrimBeforeBlank(s: string, post: string)
    requires Blank(post)
    ensures Trim(s + post) == Trim(s)
  {
    assert "" + s + post == s + post;
    TrimIgnoresBlankEnds("", s, post);
  }

  lemma {:induction false} JoinGlue(x: seq<string>, y: seq<string>)
    requires x != [] && y != []
    ensures Join(Glue(x, y), "\n") == Join(x, "\n") + Join(y, "\n")
  {
    if |x| == 1 {
      var merged := x[0] + y[0];
      assert Glue(x, y) == [merged] + y[1..];
      assert Glue(x, y)[1..] == y[1..];
    } else {
      assert Glue(x, y) == [x[0]] + Glue(x[1..], y);
      JoinGlue(x[1..], y);
    }
  }

  /** The last line with blank text y run into it, then blank lines: the blocks are the same. */
  lemma TrailingBlankLines(markers: set<string>, l: string, y: seq<string>, st: State)
    requires AllWellFormed(markers) && y != [] && forall i :: 0 <= i < |y| ==> Blank(y[i])
    ensures
      Flush(Run(markers, y[1..], Next(markers, l + y[0], st))).out == Flush(Next(markers, l, st)).out
  {
    TrimBeforeBlank(l, y[0]);
    NextSameTrim(markers, l, l + y[0], st);
    var a, b := Next(markers, l, st), Next(markers, l + y[0], st);
    BlankLinesKept(markers, y[1..], b);
    KeptOrOpened(markers, l, st);
    KeptOrOpened(markers, l + y[0], st);
    if a == b && a.buf == [] {
      BlankJoin(y[1..]);
      assert [] + y[1..] == y[1..];
    } else {
      KeptTail(st.buf, l, y);
    }
  }

  lemma KeptTail(buf: seq<string>, l: string, y: seq<string>)
    requires y != [] && forall i :: 0 <= i < |y| ==> Blank(y[i])
    ensures Trim(Join(buf + [l + y[0]] + y[1..], "\n")) == Trim(Join(buf + [l], "\n"))
  {
    var x := buf + [l];
    assert buf + [l + y[0]] + y[1..] == Glue(x, y);
    JoinGlue(x, y);
    BlankJoin(y);
    TrimBeforeBlank(Join(x, "\n"), Join(y, "\n"));
  }

  /** Blank text after the script's output changes nothing. */
  lemma ResultDropsTrailing(markers: set<string>, s: string, post: string)
    requires AllWellFormed(markers) && Blank(post) && s != ""
    ensures Result(markers, s + post) == Result(markers, s)
  {
    var x, y := Lines(s), Lines(post);
    SplitGlue(s, post, '\n');
    BlankPieces(post);
    TrailingBlankRun(markers, x, y);
  }

  lemma TrailingBlankRun(markers: set<string>, x: seq<string>, y: seq<string>)
    requires AllWellFormed(markers) && x != [] && y != [] && forall i :: 0 <= i < |y| ==> Blank(y[i])
    ensures Flush(Run(markers, Glue(x, y), INITIAL)).out == Flush(Run(markers, x, INITIAL)).out
  {
    var st := Run(markers, Init(x), INITIAL);
    RunGlue(markers, x, y, INITIAL);
    TrailingBlankLines(markers, Last(x), y, st);
    assert Run(markers, x, INITIAL) == Next(markers, Last(x), st);
  }

  lemma KeptOrOpened(markers: set<string>, line: string, st: State)
    requires AllWellFormed(markers)
    ensures Next(markers, line, st).buf == [] || Next(markers, line, st) == Keep(st, line)
  {}

  lemma {:induction false} BlankJoin(lines: seq<string>)
    requires forall i :: 0 <= i < |lines| ==> Blank(lines[i])
    ensures Blank(Join(lines, "\n")) && Trim(Join(lines, "\n")) == "" == Trim(Join([], "\n"))
  {
    if |lines| > 1 {
      BlankJoin(lines[1..]);
    }
    TrimBlank(Join(lines, "\n"));
  }

  /** The run helpers trim the output before it is split; that never changes the blocks. */
  lemma TrimmingFirstIsHarmless(markers: set<string>, text: string, out: map<string, string>)
    requires SuffixFree(markers) && AllWellFormed(markers)
    ensures Outcome(markers, Trim(text), out) <==> Outcome(markers, text, out)
  {
    OutcomeIsResult(markers, Trim(text), out);
    OutcomeIsResult(markers, text, out);
    var pre, post := TrimParts(text);
    if Trim(text) == "" {
      if text != "" {
        assert text == pre + post;
        BlankPieces(text);
        BlankLinesKept(markers, Lines(text), INITIAL);
      }
    } else {
      ResultDropsTrailing(markers, pre + Trim(text), post);
      ResultDropsLeading(markers, pre, Trim(text));
    }
  }

  // ---------------------------------------------------------------- the markers in use

  /** The names used in the collectors' scripts consist of capitals, digits and underscores. */
  predicate MarkerName(name: string) {
    name != "" && forall i :: 0 <= i < |name| ==> 'A' <= name[i] <= 'Z' || '0' <= name[i] <= '9' || name[i] == '_'
  }

  function Marker(name: string): string { "===" + name + "===" }

  lemma MarkerWellFormed(name: string)
    requires MarkerName(name)
    ensures WellFormed(Marker(name))
  {
    var m := Marker(name);
    forall i | 0 <= i < |m| ensures m[i] != '\n' {
      assert m[i] == '=' || m[i] == name[i - 3];
    }
  }

  lemma MarkersDoNotNest(name: string, name': string)
    requires MarkerName(name) && MarkerName(name')
    ensures !Glued(Marker(name'), Marker(name))
  {
    var m, m' := Marker(name), Marker(name');
    assert m[0] == '=' && m[1] == '=' && m[2] == '=' && |m| > 6;
    assert forall i :: 0 <= i < |name'| ==> m'[3 + i] == name'[i];
    forall k | 0 < k <= |m'| - |m| ensures m'[k..] != m {
      assert m'[k..][0] == m'[k] && m'[k..][1] == m'[k + 1] && m'[k..][2] == m'[k + 2];
      assert m'[k] != '=' || m'[k + 1] != '=' || m'[k + 2] != '=';
    }
  }

  /** Any set of markers built from such names meets the two conditions of the theorems above. */
  lemma NamedMarkersAreSafe(names: set<string>)
    requires forall n :: n in names ==> MarkerName(n)
    ensures var markers := set n | n in names :: Marker(n); AllWellFormed(markers) && SuffixFree(markers)
  {
    var markers := set n | n in names :: Marker(n);
    forall n | n in names ensures WellFormed(Marker(n)) {
      MarkerWellFormed(n);
    }
    forall n, n' | n in names && n' in names ensures !Glued(Marker(n'), Marker(n)) {
      MarkersDoNotNest(n, n');
    }
  }

  // Every marker list at a call site of splitByMarkers.

  const HOST_NAMES := {
    "HOSTNAME", "FQDN", "UNAME", "OS_RELEASE", "UPTIME", "TIMEZONE", "MACHINE_ID", "VIRT", "PRIMARY_IP",
    "PUBLIC_IP", "END"
  }
  const CPU_NAMES := {"CPUINFO", "LOADAVG", "STAT1", "SLEEP", "STAT2", "END"}
  const NETWORK_NAMES := {"IP_ADDR", "NET_DEV", "SS", "END"}
  const DISK_NAMES := {"DF", "DF_INODES", "MOUNTS", "DISKSTATS", "END"}
  const VERSION_NAMES := {"ENGINE", "COMPOSE", "END"}
  const CONTAINER_NAMES := {"WHICH", "VERSION", "INFO", "INSPECT", "END"}
  const IMAGE_NAMES := {"WHICH", "VERSION", "INFO", "IMAGES", "PS_IMAGEIDS", "END"}
  const SERVICE_NAMES := {"WHICH", "VERSION", "ARCH", "LIST", "END"}

  lemma HostNames()
    ensures forall n :: n in HOST_NAMES ==> MarkerName(n)
  {}

  lemma CpuNames()
    ensures forall n :: n in CPU_NAMES ==> MarkerName(n)
  {}

  lemma NetworkNames()
    ensures forall n :: n in NETWORK_NAMES ==> MarkerName(n)
    ensures forall n :: n in DISK_NAMES ==> MarkerName(n)
  {}

  lemma ContainerNames()
    ensures forall n :: n in VERSION_NAMES ==> MarkerName(n)
    ensures forall n :: n in CONTAINER_NAMES ==> MarkerName(n)
  {}

  lemma ImageNames()
    ensures forall n :: n in IMAGE_NAMES ==> MarkerName(n)
    ensures forall n :: n in SERVICE_NAMES ==> MarkerName(n)
  {}

  /** No collector can observe the map iteration order. */
  lemma CallSitesAreDeterministic(names: set<string>, text: string, a: map<string, string>, b: map<string, string>)
    requires
      || names in {HOST_NAMES, CPU_NAMES, NETWORK_NAMES, DISK_NAMES}
      || names in {VERSION_NAMES, CONTAINER_NAMES, IMAGE_NAMES, SERVICE_NAMES}
    requires Outcome((set n | n in names :: Marker(n)), text, a) && Outcome((set n | n in names :: Marker(n)), text, b)
    ensures a == b
  {
    HostNames();
    CpuNames();
    NetworkNames();
    ContainerNames();
    ImageNames();
    NamedMarkersAreSafe(names);
    DeterministicIffSuffixFree((set n | n in names :: Marker(n)));
  }
}
