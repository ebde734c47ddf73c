/** The remote side of the deploy and purge runners: what it may answer (anything at all), and,
    separately, what a Docker host does with each command. */
module Remote {
  import opened Text
  import opened DockerCommands

  /** What runSSH hands back: trimmed output and whether the command succeeded. */
  datatype Reply = Reply(stdout: string, stderr: string, ok: bool)

  /** Any behaviour of the remote side: each answer may depend on everything asked so far,
      including the command being asked, which is last. */
  type Oracle = seq<Command> -> Reply

  class Session {
    const oracle: Oracle
    var log: seq<Command>

    constructor (oracle: Oracle)
      ensures this.oracle == oracle && log == []
    {
      this.oracle := oracle;
      log := [];
    }

    method Exec(c: Command) returns (r: Reply)
      modifies this
      ensures log == old(log) + [c] && r == oracle(log)
    {
      log := log + [c];
      r := oracle(log);
    }
  }

  /** c was asked somewhere in log and succeeded. */
  ghost predicate Succeeded(o: Oracle, log: seq<Command>, c: Command) {
    exists j :: 0 <= j < |log| && log[j] == c && o(log[..j + 1]).ok
  }

  lemma SucceededLast(o: Oracle, log: seq<Command>, c: Command)
    requires o(log + [c]).ok
    ensures Succeeded(o, log + [c], c)
  {
    var more := log + [c];
    assert more[|log|] == c && more[..|log| + 1] == more;
  }

  lemma SucceededLater(o: Oracle, log: seq<Command>, more: seq<Command>, c: Command)
    requires Succeeded(o, log, c) && log <= more
    ensures Succeeded(o, more, c)
  {
    var j :| 0 <= j < |log| && log[j] == c && o(log[..j + 1]).ok;
    assert more[..j + 1] == log[..j + 1];
  }

  // ---------------------------------------------------------------- container ids

  function Merge(ids: seq<string>, line: string): seq<string> {
    var id := Trim(line);
    if id == "" || id in ids then ids else ids + [id]
  }

  function Collect(ids: seq<string>, lines: seq<string>): seq<string> {
    if lines == [] then ids else Merge(Collect(ids, lines[..|lines| - 1]), lines[|lines| - 1])
  }

  /** The ids that one output of docker ps -q lists. */
  function Listed(stdout: string): set<string> {
    set i | 0 <= i < |Lines(stdout)| && Trim(Lines(stdout)[i]) != "" :: Trim(Lines(stdout)[i])
  }

  function SetOf(ids: seq<string>): set<string> { set i | 0 <= i < |ids| :: ids[i] }

  ghost predicate Occurs(lines: seq<string>, id: string) {
    exists i :: 0 <= i < |lines| && Trim(lines[i]) == id
  }

  lemma OccursSnoc(lines: seq<string>, line: string, id: string)
    ensures Occurs(lines + [line], id) <==> Occurs(lines, id) || Trim(line) == id
  {
    var all := lines + [line];
    if Occurs(lines, id) {
      var i :| 0 <= i < |lines| && Trim(lines[i]) == id;
      assert all[i] == lines[i];
    }
    assert all[|lines|] == line;
  }

  /** Collecting adds exactly the listed ids, after those it has, and never repeats one. */
  lemma {:induction false} CollectIds(ids: seq<string>, lines: seq<string>)
    requires Distinct(ids)
    ensures Distinct(Collect(ids, lines)) && ids <= Collect(ids, lines)
    ensures forall id :: id in Collect(ids, lines) <==> id in ids || (id != "" && Occurs(lines, id))
  {
    if lines != [] {
      var n := |lines| - 1;
      CollectIds(ids, lines[..n]);
      assert lines == lines[..n] + [lines[n]];
      forall id ensures Occurs(lines, id) <==> Occurs(lines[..n], id) || Trim(lines[n]) == id {
        OccursSnoc(lines[..n], lines[n], id);
      }
    }
  }

  /** findExistingContainerIDs: what is asked ... */
  function FindLog(log: seq<Command>, byName: bool, name: string, ref: string): seq<Command> {
    (if byName then log + [ListByName(name)] else log) + [ListByImage(ref)]
  }

  /** ... and what comes back; failed listings contribute whatever they printed. */
  function FindIds(o: Oracle, log: seq<Command>, byName: bool, name: string, ref: string): seq<string> {
    var first := if byName then Collect([], Lines(o(log + [ListByName(name)]).stdout)) else [];
    Collect(first, Lines(o(FindLog(log, byName, name, ref)).stdout))
  }

  lemma FindIdsAre(o: Oracle, log: seq<Command>, byName: bool, name: string, ref: string)
    ensures
      var ids := FindIds(o, log, byName, name, ref);
      && Distinct(ids)
      && SetOf(ids)
         == (if byName then Listed(o(log + [ListByName(name)]).stdout) else {})
            + Listed(o(FindLog(log, byName, name, ref)).stdout)
  {
    var lines := Lines(o(log + [ListByName(name)]).stdout);
    CollectIds([], lines);
    var first := if byName then Collect([], lines) else [];
    CollectIds(first, Lines(o(FindLog(log, byName, name, ref)).stdout));
    ListedOccur(o(log + [ListByName(name)]).stdout);
    ListedOccur(o(FindLog(log, byName, name, ref)).stdout);
    var ids := FindIds(o, log, byName, name, ref);
    assert forall id :: id in SetOf(ids) <==> id in ids;
  }

  lemma ListedOccur(stdout: string)
    ensures forall id :: id in Listed(stdout) <==> id != "" && Occurs(Lines(stdout), id)
  {}

  lemma {:induction false} BlankLines(s: string)
    ensures Blank(s) <==> forall i :: 0 <= i < |Lines(s)| ==> Blank(Lines(s)[i])
  {
    if s != "" {
      var rest := Lines(s[1..]);
      BlankLines(s[1..]);
      assert s == [s[0]] + s[1..];
      assert Lines(s)[1..] == if s[0] == '\n' then rest else rest[1..];
      assert s[0] != '\n' ==> Lines(s)[0] == [s[0]] + rest[0];
      assert Blank(s) <==> IsSpace(s[0]) && Blank(s[1..]);
      if forall i :: 0 <= i < |Lines(s)| ==> Blank(Lines(s)[i]) {
        forall i | 0 <= i < |rest| ensures Blank(rest[i]) {
          assert s[0] == '\n' ==> Lines(s)[i + 1] == rest[i];
          assert s[0] != '\n' ==> Lines(s)[i] == if i == 0 then [s[0]] + rest[0] else rest[i];
          assert s[0] != '\n' && i == 0 ==> forall j :: 0 <= j < |rest[0]| ==> Lines(s)[0][j + 1] == rest[0][j];
        }
        assert s[0] != '\n' ==> Lines(s)[0][0] == s[0];
      }
      if Blank(s) {
        forall i | 0 <= i < |Lines(s)| ensures Blank(Lines(s)[i]) {
          assert i > 0 ==> Lines(s)[i] == Lines(s)[1..][i - 1];
        }
      }
    }
  }

  /** A listing shows nothing exactly when it prints nothing but whitespace. */
  lemma ListsNothingIff(stdout: string)
    ensures Listed(stdout) == {} <==> Blank(stdout)
  {
    BlankLines(stdout);
    forall i | 0 <= i < |Lines(stdout)|
      ensures Trim(Lines(stdout)[i]) == "" <==> Blank(Lines(stdout)[i])
      ensures Trim(Lines(stdout)[i]) != "" ==> Trim(Lines(stdout)[i]) in Listed(stdout)
    {
      TrimBlank(Lines(stdout)[i]);
    }
  }

  /** A search finds nothing exactly when its listings, failed or not, show nothing. */
  lemma FindsNothingIff(o: Oracle, log: seq<Command>, byName: bool, name: string, ref: string)
    ensures
      FindIds(o, log, byName, name, ref) == []
      <==>
      && (byName ==> Blank(o(log + [ListByName(name)]).stdout))
      && Blank(o(FindLog(log, byName, name, ref)).stdout)
  {
    var ids := FindIds(o, log, byName, name, ref);
    FindIdsAre(o, log, byName, name, ref);
    ListsNothingIff(o(log + [ListByName(name)]).stdout);
    ListsNothingIff(o(FindLog(log, byName, name, ref)).stdout);
    assert ids != [] ==> ids[0] in SetOf(ids);
  }

  /** The loop of findExistingContainerIDs over one listing, with its seen map. */
  method CollectLines(ids: seq<string>, stdout: string) returns (out: seq<string>)
    ensures out == Collect(ids, Lines(stdout))
  {
    var seen := SetOf(ids);
    out := ids;
    var lines := Lines(stdout);
    for i := 0 to |lines|
      invariant out == Collect(ids, lines[..i])
      invariant forall id :: id in seen <==> id in out
    {
      assert lines[..i + 1][..i] == lines[..i];
      var id := Trim(lines[i]);
      if id == "" {
        continue;
      }
      if id in seen {
        continue;
      }
      seen := seen + {id};
      out := out + [id];
    }
    assert lines[..|lines|] == lines;
  }

  method FindExisting(s: Session, byName: bool, name: string, ref: string) returns (ids: seq<string>)
    modifies s
    ensures s.log == FindLog(old(s.log), byName, name, ref)
    ensures ids == FindIds(s.oracle, old(s.log), byName, name, ref)
  {
    ids := [];
    if byName {
      var named := s.Exec(ListByName(name));
      ids := CollectLines(ids, named.stdout);
    }
    var derived := s.Exec(ListByImage(ref));
    ids := CollectLines(ids, derived.stdout);
  }

  // ---------------------------------------------------------------- a Docker host

  /** A container may end by itself at any time, and its restart policy may bring it back; only a
      command leaves it stopped. */
  datatype RunState = Running | Exited | Stopped

  /** ancestry: ids of the image the container was created from and of that image's parents. */
  datatype Container = Container(name: string, state: RunState, ancestry: set<string>)

  /** images maps a reference to the id of the image it is a tag of. */
  datatype Host = Host(containers: map<string, Container>, images: map<string, string>)

  /** c' is c, up to what c may have done by itself: nobody has stopped, started or replaced it. */
  predicate LeftToItself(c: Container, c': Container) {
    c' == c.(state := c'.state) && (c'.state == Stopped <==> c.state == Stopped)
  }

  /** Nobody but the containers themselves has done anything. */
  ghost predicate Drifted(h: Host, h': Host) {
    && h'.images == h.images && h'.containers.Keys == h.containers.Keys
    && forall id :: id in h.containers ==> LeftToItself(h.containers[id], h'.containers[id])
  }

  /** Docker reads the name filter ^name$ as a regular expression.  In a valid container name the
      only character that means more than itself is '.', which matches any character. */
  predicate NameFilter(name: string, candidate: string) {
    |name| == |candidate| && forall i :: 0 <= i < |name| ==> name[i] == '.' || name[i] == candidate[i]
  }

  function NamedLike(h: Host, name: string): set<string> {
    set id | id in h.containers && NameFilter(name, h.containers[id].name)
  }

  function DerivedFrom(h: Host, ref: string): set<string> {
    set id | id in h.containers && ref in h.images && h.images[ref] in h.containers[id].ancestry
  }

  function Matching(h: Host, byName: bool, name: string, ref: string): set<string> {
    (if byName then NamedLike(h, name) else {}) + DerivedFrom(h, ref)
  }

  /** What Docker may do on each command; failures may stop half-way, and every container and
      image that the command does not name is left to itself. */
  ghost predicate Effect(h: Host, c: Command, r: Reply, h': Host) {
    match c
    case Stop(ids) => h'.images == h.images && OnlyTouches(h, SetOf(ids), h')
    case Remove(ids) =>
      && h'.images == h.images && OnlyTouches(h, SetOf(ids), h')
      && (r.ok ==> forall id :: id in ids ==> id !in h'.containers)
    case RemoveImage(ref) =>
      && Drifted(h.(images := h'.images), h')
      && (forall i :: i != ref ==>
            (i in h.images <==> i in h'.images) && (i in h.images ==> h'.images[i] == h.images[i]))
      && (r.ok ==> ref !in h'.images)
      && (ref in h'.images ==> ref in h.images)
    case Pull(ref) =>
      && Drifted(h.(images := h'.images), h')
      && (forall i :: i != ref ==>
            (i in h.images <==> i in h'.images) && (i in h.images ==> h'.images[i] == h.images[i]))
      && (r.ok ==> ref in h'.images)
    case Start(spec) =>
      && h'.images == h.images
      && (forall id :: id in h.containers ==>
            id in h'.containers && LeftToItself(h.containers[id], h'.containers[id]))
      && (forall id :: id in h'.containers && id !in h.containers ==> h'.containers[id].name == spec.name)
      && |h'.containers.Keys - h.containers.Keys| <= 1
      && (r.ok ==> |h'.containers.Keys - h.containers.Keys| == 1)
    case _ => Drifted(h, h')
  }

  /** The containers in ids may be stopped or disappear; all others are left to themselves. */
  ghost predicate OnlyTouches(h: Host, ids: set<string>, h': Host) {
    && (forall id :: id in h'.containers ==>
          id in h.containers && h'.containers[id] == h.containers[id].(state := h'.containers[id].state))
    && (forall id :: id in h.containers && id !in ids ==>
          id in h'.containers && LeftToItself(h.containers[id], h'.containers[id]))
  }

  /** One command on a host that began the run as h0: Docker never gives an id twice. */
  ghost predicate Proceeds(h0: Host, h: Host, c: Command, r: Reply, h': Host) {
    Effect(h, c, r, h') && forall id :: id in h'.containers && id !in h.containers ==> id !in h0.containers
  }

  /** hosts are the states of a Docker host before, between and after the commands of log, with
      nobody else acting on it. */
  ghost predicate Executes(o: Oracle, log: seq<Command>, hosts: seq<Host>) {
    && |hosts| == |log| + 1
    && forall k :: 0 <= k < |log| ==> Proceeds(hosts[0], hosts[k], log[k], o(log[..k + 1]), hosts[k + 1])
  }

  /** The answers that report on the host are true of it. */
  ghost predicate TruthfulListing(h: Host, c: Command, r: Reply) {
    && (c.ListByName? ==> Listed(r.stdout) == NamedLike(h, c.name))
    && (c.ListByImage? ==> Listed(r.stdout) == DerivedFrom(h, c.ref))
  }

  ghost predicate TruthfulImage(h: Host, c: Command, r: Reply) {
    c.InspectImage? ==> (r.ok <==> c.ref in h.images)
  }

  /** docker inspect NAME with the running/exit/status format */
  ghost predicate TruthfulInspect(h: Host, c: Command, r: Reply) {
    c.InspectContainer? && r.ok && SaysRunning(r.stdout)
    ==> exists id :: id in h.containers && h.containers[id].name == c.name && h.containers[id].state == Running
  }

  /** strings.SplitN(stdout, "|", 3) has three parts and the first is "true". */
  predicate SaysRunning(stdout: string) {
    var parts := Split(stdout, '|');
    |parts| >= 3 && parts[0] == "true"
  }

  lemma {:induction false} SplitCount(s: string, sep: char)
    ensures |Split(s, sep)| >= 2 <==> sep in s
  {
    if s != "" {
      SplitCount(s[1..], sep);
    }
  }

  /** That is, it begins with "true|" and has another bar after that. */
  lemma SaysRunningIff(stdout: string)
    ensures SaysRunning(stdout) <==> "true|" <= stdout && '|' in stdout[5..]
  {
    var bar := IndexOf(stdout, '|');
    if bar == |stdout| {
      SplitWithout(stdout, '|');
    } else {
      var first, rest := stdout[..bar], stdout[bar + 1..];
      assert stdout == first + ['|'] + rest;
      SplitConcat(first, rest, '|');
      SplitWithout(first, '|');
      SplitCount(rest, '|');
      FirstBar(stdout, first, rest);
    }
  }

  lemma FirstBar(stdout: string, first: string, rest: string)
    requires stdout == first + ['|'] + rest && '|' !in first
    ensures first == "true" <==> "true|" <= stdout
    ensures first == "true" ==> stdout[5..] == rest
  {
    IndexOfFirst(first, '|', rest);
    if "true|" <= stdout {
      IndexOfFirst("true", '|', stdout[5..]);
      assert stdout == "true" + ['|'] + stdout[5..];
      assert first == stdout[..4] == "true";
    }
  }

  // ---------------------------------------------------------------- what a log does to a host

  /** Every destructive command of log names exactly ids, every start is of spec, and there is at
      most one start. */
  ghost predicate Disciplined(log: seq<Command>, ids: seq<string>, spec: Option<RunSpec>) {
    && (forall k :: 0 <= k < |log| && log[k].Stop? ==> log[k].ids == ids)
    && (forall k :: 0 <= k < |log| && log[k].Remove? ==> log[k].ids == ids)
    && (forall k :: 0 <= k < |log| && log[k].Start? ==> spec == Some(log[k].spec))
    && (forall k, l :: 0 <= k < l < |log| ==> !(log[k].Start? && log[l].Start?))
  }

  /** What a disciplined command leaves alone. */
  lemma EffectKeepsOthers(h: Host, c: Command, r: Reply, h': Host, ids: seq<string>, id: string)
    requires Effect(h, c, r, h') && (c.Stop? || c.Remove? ==> c.ids == ids)
    requires id in h.containers && id !in SetOf(ids)
    ensures id in h'.containers && LeftToItself(h.containers[id], h'.containers[id])
  {}

  /** Containers outside ids survive the whole run, left to themselves. */
  lemma {:induction false} OthersUntouched(
    o: Oracle, log: seq<Command>, hosts: seq<Host>, ids: seq<string>, spec: Option<RunSpec>, k: nat, id: string)
    requires Executes(o, log, hosts) && Disciplined(log, ids, spec) && k <= |log|
    requires id in hosts[0].containers && id !in SetOf(ids)
    ensures id in hosts[k].containers && LeftToItself(hosts[0].containers[id], hosts[k].containers[id])
  {
    if k > 0 {
      OthersUntouched(o, log, hosts, ids, spec, k - 1, id);
      var c := log[k - 1];
      assert Proceeds(hosts[0], hosts[k - 1], c, o(log[..k]), hosts[k]);
      EffectKeepsOthers(hosts[k - 1], c, o(log[..k]), hosts[k], ids, id);
    }
  }

  /** A container once gone stays gone. */
  lemma {:induction false} GoneStaysGone(o: Oracle, log: seq<Command>, hosts: seq<Host>, j: nat, k: nat, id: string)
    requires Executes(o, log, hosts) && j <= k <= |log|
    requires id in hosts[0].containers && id !in hosts[j].containers
    ensures id !in hosts[k].containers
    decreases k
  {
    if j < k {
      GoneStaysGone(o, log, hosts, j, k - 1, id);
      var c := log[k - 1];
      assert Proceeds(hosts[0], hosts[k - 1], c, o(log[..k]), hosts[k]);
    }
  }

  /** After a successful removal of ids none of the original containers among them is left. */
  lemma RemovedAreGone(o: Oracle, log: seq<Command>, hosts: seq<Host>, ids: seq<string>, id: string)
    requires Executes(o, log, hosts) && Succeeded(o, log, Remove(ids))
    requires id in ids && id in hosts[0].containers
    ensures id !in hosts[|log|].containers
  {
    var j :| 0 <= j < |log| && log[j] == Remove(ids) && o(log[..j + 1]).ok;
    assert Proceeds(hosts[0], hosts[j], log[j], o(log[..j + 1]), hosts[j + 1]);
    GoneStaysGone(o, log, hosts, j + 1, |log|, id);
  }

  lemma RemovedSetIsGone(o: Oracle, log: seq<Command>, hosts: seq<Host>, ids: seq<string>, id: string)
    requires Executes(o, log, hosts) && (ids != [] ==> Succeeded(o, log, Remove(ids)))
    requires id in SetOf(ids) && id in hosts[0].containers
    ensures id !in hosts[|log|].containers
  {
    RemovedAreGone(o, log, hosts, ids, id);
  }

  /** When ids are what the filters select on the host before the run, removing them leaves none. */
  lemma SelectedAreGone(
    o: Oracle, log: seq<Command>, hosts: seq<Host>, ids: seq<string>, byName: bool, name: string, ref: string,
    id: string)
    requires Executes(o, log, hosts) && (ids != [] ==> Succeeded(o, log, Remove(ids)))
    requires SetOf(ids) == Matching(hosts[0], byName, name, ref) && id in SetOf(ids)
    ensures id !in hosts[|log|].containers
  {
    RemovedSetIsGone(o, log, hosts, ids, id);
  }

  predicate ReadOnly(c: Command) {
    c.Probe? || c.Login? || c.ListByName? || c.ListByImage? || c.InspectImage? || c.InspectContainer? || c.Pause?
  }

  lemma DriftKeepsMatching(h: Host, h': Host)
    requires Drifted(h, h')
    ensures forall name :: NamedLike(h', name) == NamedLike(h, name)
    ensures forall ref :: DerivedFrom(h', ref) == DerivedFrom(h, ref)
  {
    assert forall id :: id in h.containers ==>
      h'.containers[id].name == h.containers[id].name && h'.containers[id].ancestry == h.containers[id].ancestry;
  }

  /** Commands that only read leave the host to itself. */
  lemma {:induction false} ReadingLeavesHost(o: Oracle, log: seq<Command>, hosts: seq<Host>, j: nat, k: nat)
    requires Executes(o, log, hosts) && j <= k <= |log|
    requires forall i :: j <= i < k ==> ReadOnly(log[i])
    ensures Drifted(hosts[j], hosts[k])
    decreases k
  {
    if j < k {
      ReadingLeavesHost(o, log, hosts, j, k - 1);
      var c := log[k - 1];
      assert ReadOnly(c) && Proceeds(hosts[0], hosts[k - 1], c, o(log[..k]), hosts[k]);
    }
  }

  function Idle(h: Host, n: nat): (hosts: seq<Host>)
    ensures |hosts| == n && forall i :: 0 <= i < n ==> hosts[i] == h
  {
    seq(n, i => h)
  }

  /** Any host may sit still while it is only read. */
  lemma IdleExecutes(o: Oracle, log: seq<Command>, h: Host)
    requires forall i :: 0 <= i < |log| ==> ReadOnly(log[i])
    ensures Executes(o, log, Idle(h, |log| + 1))
  {
    var hosts := Idle(h, |log| + 1);
    forall k | 0 <= k < |log| ensures Proceeds(hosts[0], hosts[k], log[k], o(log[..k + 1]), hosts[k + 1]) {
      assert ReadOnly(log[k]);
    }
  }

  /** One command keeps names, and what it adds bears the started name. */
  lemma EffectNames(h: Host, c: Command, r: Reply, h': Host, name: string, id: string)
    requires Effect(h, c, r, h') && (c.Start? ==> c.spec.name == name) && id in h'.containers
    ensures h'.containers[id].name == if id in h.containers then h.containers[id].name else name
  {}

  /** Everything that appears during a run bears a started name. */
  lemma {:induction false} NewcomersAreNamed(
    o: Oracle, log: seq<Command>, hosts: seq<Host>, ids: seq<string>, spec: RunSpec, k: nat, id: string)
    requires Executes(o, log, hosts) && Disciplined(log, ids, Some(spec)) && k <= |log|
    requires id in hosts[k].containers && id !in hosts[0].containers
    ensures hosts[k].containers[id].name == spec.name
  {
    if k > 0 {
      var c, r := log[k - 1], o(log[..k]);
      assert Proceeds(hosts[0], hosts[k - 1], c, r, hosts[k]);
      EffectNames(hosts[k - 1], c, r, hosts[k], spec.name, id);
      if id in hosts[k - 1].containers {
        NewcomersAreNamed(o, log, hosts, ids, spec, k - 1, id);
      }
    }
  }

  // ---------------------------------------------------------------- truthful listings

  /** Listings at positions from .. to - 1 told the truth. */
  ghost predicate TruthfulListings(o: Oracle, log: seq<Command>, hosts: seq<Host>, from: nat, to: nat)
    requires |hosts| == |log| + 1 && to <= |log|
  {
    forall k :: from <= k < to ==> TruthfulListing(hosts[k], log[k], o(log[..k + 1]))
  }

  /** What is asked at each position of a search. */
  lemma FindAsks(log: seq<Command>, before: seq<Command>, byName: bool, name: string, ref: string)
    requires FindLog(before, byName, name, ref) <= log
    ensures
      var n := |FindLog(before, byName, name, ref)|;
      && log[n - 1] == ListByImage(ref) && log[..n] == FindLog(before, byName, name, ref)
      && (if byName then
            n == |before| + 2 && log[|before|] == ListByName(name) && log[..|before| + 1] == before + [ListByName(name)]
          else n == |before| + 1)
  {
    var found := FindLog(before, byName, name, ref);
    assert log[..|found|] == found;
    assert forall i :: 0 <= i < |found| ==> log[i] == found[i];
    assert log[..|before| + 1] == found[..|before| + 1];
  }

  /** The host at the listing by image is still that of the beginning of the search. */
  lemma SearchLeavesHost(
    o: Oracle, log: seq<Command>, hosts: seq<Host>, before: seq<Command>, byName: bool, name: string, ref: string)
    requires Executes(o, log, hosts) && FindLog(before, byName, name, ref) <= log
    ensures
      var n := |FindLog(before, byName, name, ref)|;
      DerivedFrom(hosts[n - 1], ref) == DerivedFrom(hosts[|before|], ref)
  {
    var n := |FindLog(before, byName, name, ref)|;
    FindAsks(log, before, byName, name, ref);
    ReadingLeavesHost(o, log, hosts, |before|, n - 1);
    DriftKeepsMatching(hosts[|before|], hosts[n - 1]);
  }

  /** Truthful listings of a host left to itself find exactly the containers that match. */
  lemma ListingFinds(
    o: Oracle, log: seq<Command>, hosts: seq<Host>, before: seq<Command>, byName: bool, name: string, ref: string)
    requires Executes(o, log, hosts) && FindLog(before, byName, name, ref) <= log
    requires TruthfulListings(o, log, hosts, |before|, |FindLog(before, byName, name, ref)|)
    ensures SetOf(FindIds(o, before, byName, name, ref)) == Matching(hosts[|before|], byName, name, ref)
  {
    var n := |FindLog(before, byName, name, ref)|;
    FindIdsAre(o, before, byName, name, ref);
    FindAsks(log, before, byName, name, ref);
    SearchLeavesHost(o, log, hosts, before, byName, name, ref);
    assert TruthfulListing(hosts[n - 1], log[n - 1], o(log[..n]));
    assert TruthfulListing(hosts[|before|], log[|before|], o(log[..|before| + 1]));
  }

  // ---------------------------------------------------------------- the name filter

  predicate NameChar(c: char) {
    'a' <= c <= 'z' || 'A' <= c <= 'Z' || '0' <= c <= '9' || c == '.' || c == '_' || c == '-'
  }

  /** containerNameRe: ^[a-zA-Z0-9][a-zA-Z0-9._-]{0,254}$ */
  predicate ContainerName(s: string) {
    && 1 <= |s| <= 255
    && s[0] != '.' && s[0] != '_' && s[0] != '-'
    && forall i :: 0 <= i < |s| ==> NameChar(s[i])
  }

  lemma UndottedFilter(name: string, other: string)
    requires '.' !in name && NameFilter(name, other)
    ensures other == name
  {
    assert forall i :: 0 <= i < |name| ==> name[i] != '.';
  }

  /** The "exact" name filter finds exactly the container of that name, among all valid names,
      if and only if the name contains no dot. */
  lemma NameFilterExactIff(name: string)
    requires ContainerName(name)
    ensures
      (forall other :: ContainerName(other) ==> (NameFilter(name, other) <==> other == name))
      <==> '.' !in name
  {
    if '.' in name {
      var i :| 0 <= i < |name| && name[i] == '.';
      var other := name[i := 'x'];
      assert ContainerName(other) && NameFilter(name, other) && other[i] != name[i];
    } else {
      forall other | ContainerName(other) && NameFilter(name, other) ensures other == name {
        UndottedFilter(name, other);
      }
    }
  }

  /** A valid name whose filter also selects another valid container. */
  lemma DottedNameSelectsOther()
    ensures ContainerName("a.b") && ContainerName("axb") && NameFilter("a.b", "axb")
  {}
}
