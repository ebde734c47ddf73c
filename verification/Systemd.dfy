/** The systemd collector: unit names go to systemctl show in batches, the answers are written into
    the list in place, and the list is sorted.  Timestamps are not part of this model. */
module Systemd {
  import opened Text
  import opened Decimal
  import opened StableSort
  import ShellWords

  datatype Service = Service(
    name: string, loadState: string, activeState: string, subState: string, description: string,
    unitFileState: string, enabled: bool, kind: string, result: string, user: string, group: string,
    fragmentPath: string, figures: Figures)

  /** The numeric columns of a service. */
  datatype Figures = Figures(
    mainPID: int, nRestarts: int, memoryCurrent: int, memoryPeak: int, cpuUsage: int, tasksCurrent: int, tasksMax: int)

  type Props = map<string, string>

  // ---------------------------------------------------------------- batches

  const BATCH_SIZE := 200

  function Batches(names: seq<string>): seq<seq<string>> {
    if names == [] then []
    else if |names| <= BATCH_SIZE then [names]
    else [names[..BATCH_SIZE]] + Batches(names[BATCH_SIZE..])
  }

  function Flatten(batches: seq<seq<string>>): seq<string> {
    if batches == [] then [] else batches[0] + Flatten(batches[1..])
  }

  /** The batches are the names in order, each name in exactly one place; a batch holds 1 to 200 of
      them and every one but the last is full. */
  lemma {:induction false} BatchesPartition(names: seq<string>)
    ensures Flatten(Batches(names)) == names
    ensures forall i :: 0 <= i < |Batches(names)| ==> 1 <= |Batches(names)[i]| <= 200
    ensures forall i :: 0 <= i < |Batches(names)| - 1 ==> |Batches(names)[i]| == 200
  {
    if |names| > BATCH_SIZE {
      BatchesPartition(names[BATCH_SIZE..]);
      assert names[..BATCH_SIZE] + names[BATCH_SIZE..] == names;
    } else if names != [] {
      assert Batches(names)[1..] == [];
    }
  }

  // ---------------------------------------------------------------- reading systemctl show

  function Get(kv: Props, key: string): string { if key in kv then kv[key] else "" }

  function ReadLine(kv: Props, line: string): Props {
    var i := IndexOf(line, '=');
    if i == 0 || i == |line| then kv else kv[Trim(line[..i]) := line[i + 1..]]
  }

  function ReadLines(lines: seq<string>): Props {
    if lines == [] then map[] else ReadLine(ReadLines(lines[..|lines| - 1]), lines[|lines| - 1])
  }

  method ParseShowBlock(block: string) returns (kv: Props)
    ensures kv == ReadLines(Lines(block))
  {
    kv := map[];
    if block == "" {
      assert Lines(block)[..0] == [];
      return;
    }
    var lines := Lines(block);
    for k := 0 to |lines|
      invariant kv == ReadLines(lines[..k])
    {
      assert lines[..k + 1][..k] == lines[..k];
      var i := IndexOf(lines[k], '=');
      if i == 0 || i == |lines[k]| {
        continue;
      }
      kv := kv[Trim(lines[k][..i]) := lines[k][i + 1..]];
    }
    assert lines[..|lines|] == lines;
  }

  /** strings.Split for the separator of two newlines. */
  function SplitBlocks(s: string): (blocks: seq<string>)
    ensures blocks != []
  {
    if s == "" then [""]
    else if |s| >= 2 && s[0] == '\n' && s[1] == '\n' then [""] + SplitBlocks(s[2..])
    else
      var rest := SplitBlocks(s[1..]);
      [[s[0]] + rest[0]] + rest[1..]
  }

  /** The unit a block is about: the first of its Names. */
  function HeadName(kv: Props): Option<string> {
    var f := Fields(Get(kv, "Names"));
    if f == [] then None else Some(f[0])
  }

  /** The first word printed for Names. */
  lemma HeadNameIff(kv: Props, name: string)
    ensures HeadName(kv) == Some(name) <==> "Names" in kv && FirstWord(kv["Names"], name)
  {
    FirstFieldIff(Get(kv, "Names"), name);
  }

  // ---------------------------------------------------------------- what a block writes

  const TWO64: int := MAX_UINT64 + 1

  /** int64(v) */
  function ToInt64(v: nat): int
    requires v <= MAX_UINT64
  {
    if v <= MAX_INT64 then v else v - TWO64
  }

  function UnsetMax(v: nat): int
    requires v <= MAX_UINT64
  {
    if v == MAX_UINT64 then -1 else ToInt64(v)
  }

  /** The conversion already turns the all-ones value into -1, so the special case changes nothing;
      and no other value is reported as -1. */
  lemma UnsetMaxIsTheConversion(v: nat)
    requires v <= MAX_UINT64
    ensures UnsetMax(v) == ToInt64(v) && (UnsetMax(v) == -1 <==> v == MAX_UINT64)
    ensures (UnsetMax(v) - v) % TWO64 == 0 && -MAX_INT64 - 1 <= UnsetMax(v) <= MAX_INT64
  {
    if v > MAX_INT64 {
      assert UnsetMax(v) - v == -1 * TWO64;
    }
  }

  function Count(kv: Props, key: string): int { UnsetMax(ParseUint64(Trim(Get(kv, key)))) }

  function Number(kv: Props, key: string): int { ParseInt64(Trim(Get(kv, key))) }

  function Either(v: string, was: string): string { if v != "" then v else was }

  /** Properties that an empty answer leaves as listed. */
  function Relisted(s: Service, kv: Props): Service {
    var unitFile := Get(kv, "UnitFileState");
    s.(description := Either(Get(kv, "Description"), s.description),
       loadState := Either(Get(kv, "LoadState"), s.loadState),
       activeState := Either(Get(kv, "ActiveState"), s.activeState),
       subState := Either(Get(kv, "SubState"), s.subState),
       unitFileState := Either(unitFile, s.unitFileState),
       enabled := if unitFile != "" then "enabled" <= unitFile else s.enabled)
  }

  /** Properties that are always overwritten. */
  function Overwritten(s: Service, kv: Props): Service {
    s.(kind := Get(kv, "Type"), result := Get(kv, "Result"), user := Get(kv, "User"), group := Get(kv, "Group"),
       fragmentPath := Get(kv, "FragmentPath"), figures := FiguresOf(kv))
  }

  function FiguresOf(kv: Props): Figures {
    Figures(
      Number(kv, "MainPID"), Number(kv, "NRestarts"), Count(kv, "MemoryCurrent"), Count(kv, "MemoryPeak"),
      Count(kv, "CPUUsageNSec"), Count(kv, "TasksCurrent"), Count(kv, "TasksMax"))
  }

  function Applied(s: Service, kv: Props): Service { Overwritten(Relisted(s, kv), kv) }

  /** Numbers that systemctl prints come out in their own columns; the all-ones value as -1. */
  lemma ProcessReadsBack(kv: Props, pid: nat, restarts: nat)
    requires pid <= MAX_INT64 && Get(kv, "MainPID") == Digits(pid)
    requires restarts <= MAX_INT64 && Get(kv, "NRestarts") == Digits(restarts)
    ensures FiguresOf(kv).mainPID == pid && FiguresOf(kv).nRestarts == restarts
  {
    NumberReadsBack(kv, "MainPID", pid);
    NumberReadsBack(kv, "NRestarts", restarts);
  }

  lemma MemoryReadsBack(kv: Props, cur: nat, peak: nat)
    requires cur <= MAX_UINT64 && Get(kv, "MemoryCurrent") == Digits(cur)
    requires peak <= MAX_UINT64 && Get(kv, "MemoryPeak") == Digits(peak)
    ensures FiguresOf(kv).memoryCurrent == ToInt64(cur) && FiguresOf(kv).memoryPeak == ToInt64(peak)
  {
    CountReadsBack(kv, "MemoryCurrent", cur);
    CountReadsBack(kv, "MemoryPeak", peak);
  }

  lemma LoadReadsBack(kv: Props, cpu: nat, tasks: nat, limit: nat)
    requires cpu <= MAX_UINT64 && Get(kv, "CPUUsageNSec") == Digits(cpu)
    requires tasks <= MAX_UINT64 && Get(kv, "TasksCurrent") == Digits(tasks)
    requires limit <= MAX_UINT64 && Get(kv, "TasksMax") == Digits(limit)
    ensures FiguresOf(kv).cpuUsage == ToInt64(cpu)
    ensures FiguresOf(kv).tasksCurrent == ToInt64(tasks) && FiguresOf(kv).tasksMax == ToInt64(limit)
  {
    CountReadsBack(kv, "CPUUsageNSec", cpu);
    CountReadsBack(kv, "TasksCurrent", tasks);
    CountReadsBack(kv, "TasksMax", limit);
  }

  lemma CountReadsBack(kv: Props, key: string, n: nat)
    requires n <= MAX_UINT64 && Get(kv, key) == Digits(n)
    ensures Count(kv, key) == ToInt64(n)
  {
    TrimOfTrimmed(Digits(n));
    ParsePrinted(n);
  }

  lemma NumberReadsBack(kv: Props, key: string, n: nat)
    requires n <= MAX_INT64 && Get(kv, key) == Digits(n)
    ensures Number(kv, key) == n
  {
    TrimOfTrimmed(Digits(n));
    ParsePrintedInt(n);
  }

  /** The column takes the printed value, and keeps the listed one where nothing is printed. */
  predicate Updated(kv: Props, key: string, listed: string, column: string) {
    column == if key in kv && kv[key] != "" then kv[key] else listed
  }

  /** The column takes the printed value, and is empty where nothing is printed. */
  predicate Taken(kv: Props, key: string, column: string) { column == if key in kv then kv[key] else "" }

  /** The column takes the printed number, as a signed one, and is 0 where nothing is printed. */
  ghost predicate Counted(kv: Props, key: string, bound: nat, column: int) {
    if key in kv then
      forall n: nat :: n <= bound && kv[key] == Digits(n) ==>
        column == if n <= 0x7FFF_FFFF_FFFF_FFFF then n else n - 0x1_0000_0000_0000_0000
    else column == 0
  }

  /** s is the listed service with every column as kv has it. */
  ghost predicate Reported(listed: Service, kv: Props, s: Service) {
    && s.name == listed.name
    && Updated(kv, "LoadState", listed.loadState, s.loadState)
    && Updated(kv, "ActiveState", listed.activeState, s.activeState)
    && Updated(kv, "SubState", listed.subState, s.subState)
    && Updated(kv, "Description", listed.description, s.description)
    && Updated(kv, "UnitFileState", listed.unitFileState, s.unitFileState)
    && (if "UnitFileState" in kv && kv["UnitFileState"] != "" then s.enabled <==> "enabled" <= kv["UnitFileState"]
        else s.enabled == listed.enabled)
    && Taken(kv, "Type", s.kind) && Taken(kv, "Result", s.result) && Taken(kv, "User", s.user)
    && Taken(kv, "Group", s.group) && Taken(kv, "FragmentPath", s.fragmentPath)
    && Counted(kv, "MainPID", MAX_INT64, s.figures.mainPID) && Counted(kv, "NRestarts", MAX_INT64, s.figures.nRestarts)
    && Counted(kv, "MemoryCurrent", MAX_UINT64, s.figures.memoryCurrent)
    && Counted(kv, "MemoryPeak", MAX_UINT64, s.figures.memoryPeak)
    && Counted(kv, "CPUUsageNSec", MAX_UINT64, s.figures.cpuUsage)
    && Counted(kv, "TasksCurrent", MAX_UINT64, s.figures.tasksCurrent)
    && Counted(kv, "TasksMax", MAX_UINT64, s.figures.tasksMax)
  }

  lemma CountIsCounted(kv: Props, key: string)
    ensures Counted(kv, key, MAX_UINT64, Count(kv, key)) && Counted(kv, key, MAX_INT64, Number(kv, key))
  {
    if key in kv {
      forall n: nat | n <= MAX_UINT64 && kv[key] == Digits(n) ensures Count(kv, key) == ToInt64(n) {
        CountReadsBack(kv, key, n);
      }
      forall n: nat | n <= MAX_INT64 && kv[key] == Digits(n) ensures Number(kv, key) == n {
        NumberReadsBack(kv, key, n);
      }
    } else {
      TrimOfTrimmed("");
    }
  }

  /** Every column under its own key. */
  lemma AppliedIsReported(listed: Service, kv: Props)
    ensures Reported(listed, kv, Applied(listed, kv))
  {
    CountIsCounted(kv, "MainPID");
    CountIsCounted(kv, "NRestarts");
    CountIsCounted(kv, "MemoryCurrent");
    CountIsCounted(kv, "MemoryPeak");
    CountIsCounted(kv, "CPUUsageNSec");
    CountIsCounted(kv, "TasksCurrent");
    CountIsCounted(kv, "TasksMax");
  }

  method ApplyShowProps(was: Service, kv: Props) returns (s: Service)
    ensures s == Applied(was, kv)
    ensures Reported(was, kv, s)
  {
    AppliedIsReported(was, kv);
    s := was;
    if Get(kv, "Description") != "" {
      s := s.(description := Get(kv, "Description"));
    }
    if Get(kv, "LoadState") != "" {
      s := s.(loadState := Get(kv, "LoadState"));
    }
    if Get(kv, "ActiveState") != "" {
      s := s.(activeState := Get(kv, "ActiveState"));
    }
    if Get(kv, "SubState") != "" {
      s := s.(subState := Get(kv, "SubState"));
    }
    if Get(kv, "UnitFileState") != "" {
      s := s.(unitFileState := Get(kv, "UnitFileState"), enabled := "enabled" <= Get(kv, "UnitFileState"));
    }
    assert s == Relisted(was, kv);
    s := s.(kind := Get(kv, "Type"), result := Get(kv, "Result"), user := Get(kv, "User"), group := Get(kv, "Group"),
            fragmentPath := Get(kv, "FragmentPath"), figures := FiguresOf(kv));
  }

  // ---------------------------------------------------------------- enrichment in place

  function Names(services: seq<Service>): (names: seq<string>)
    ensures |names| == |services| && forall i :: 0 <= i < |names| ==> names[i] == services[i].name
  {
    if services == [] then [] else [services[0].name] + Names(services[1..])
  }

  /** The index map keeps the last position of a name; -1 when there is none. */
  function LastIndex(services: seq<Service>, name: string): (i: int)
    ensures -1 <= i < |services| && (i >= 0 ==> services[i].name == name)
    ensures forall j :: i < j < |services| ==> services[j].name != name
  {
    if services == [] then -1
    else if services[|services| - 1].name == name then |services| - 1
    else LastIndex(services[..|services| - 1], name)
  }

  /** How a block names its entry and what it writes there. */
  datatype Writer = Writer(head: Props -> Option<string>, apply: (Service, Props) -> Service)

  /** The collector's writer. */
  function ShowWriter(): Writer { Writer(HeadName, Applied) }

  ghost predicate KeepsNames(w: Writer) { forall s, kv :: w.apply(s, kv).name == s.name }

  function WithBlock(services: seq<Service>, kv: Props, w: Writer): (t: seq<Service>)
    ensures |t| == |services|
  {
    var head := w.head(kv);
    if head.None? || LastIndex(services, head.value) < 0 then services
    else
      var i := LastIndex(services, head.value);
      services[i := w.apply(services[i], kv)]
  }

  function Enriched(services: seq<Service>, blocks: seq<Props>, w: Writer): (t: seq<Service>)
    ensures |t| == |services|
  {
    if blocks == [] then services
    else WithBlock(Enriched(services, blocks[..|blocks| - 1], w), blocks[|blocks| - 1], w)
  }

  function ReadBlocks(texts: seq<string>): (blocks: seq<Props>)
    ensures |blocks| == |texts| && forall i :: 0 <= i < |blocks| ==> blocks[i] == ReadLines(Lines(texts[i]))
  {
    if texts == [] then [] else ReadBlocks(texts[..|texts| - 1]) + [ReadLines(Lines(texts[|texts| - 1]))]
  }

  /** The blocks about one unit, in order. */
  function Own(blocks: seq<Props>, name: string, w: Writer): seq<Props> {
    if blocks == [] then []
    else
      Own(blocks[..|blocks| - 1], name, w)
      + (if w.head(blocks[|blocks| - 1]) == Some(name) then [blocks[|blocks| - 1]] else [])
  }

  function Written(s: Service, blocks: seq<Props>, w: Writer): Service {
    if blocks == [] then s else w.apply(Written(s, blocks[..|blocks| - 1], w), blocks[|blocks| - 1])
  }

  /** Position i is the one the index map has for its name. */
  predicate Indexed(services: seq<Service>, i: nat)
    requires i < |services|
  {
    LastIndex(services, services[i].name) == i
  }

  lemma LastIndexByNames(a: seq<Service>, b: seq<Service>, name: string)
    requires |a| == |b| && forall i :: 0 <= i < |a| ==> a[i].name == b[i].name
    ensures LastIndex(a, name) == LastIndex(b, name)
  {
    var i, j := LastIndex(a, name), LastIndex(b, name);
    assert i >= 0 ==> b[i].name == name;
    assert j >= 0 ==> a[j].name == name;
  }

  lemma WithBlockEntry(services: seq<Service>, kv: Props, w: Writer, i: nat)
    requires KeepsNames(w) && i < |services|
    ensures WithBlock(services, kv, w)[i].name == services[i].name
    ensures WithBlock(services, kv, w)[i]
            == if Indexed(services, i) && w.head(kv) == Some(services[i].name)
               then w.apply(services[i], kv) else services[i]
  {}

  /** In place, but entry by entry: enrichment keeps the length and every name, and an entry ends up
      with exactly the blocks headed by its own name written in order, whatever is in the other
      blocks and wherever they stand; entries hidden from the index stay as they were. */
  lemma {:induction false} EnrichedEntry(services: seq<Service>, blocks: seq<Props>, w: Writer, i: nat)
    requires KeepsNames(w) && i < |services|
    ensures Enriched(services, blocks, w)[i].name == services[i].name
    ensures Enriched(services, blocks, w)[i]
            == if Indexed(services, i) then Written(services[i], Own(blocks, services[i].name, w), w) else services[i]
  {
    if blocks != [] {
      var n := |blocks| - 1;
      var kv, before := blocks[n], Enriched(services, blocks[..n], w);
      forall k | 0 <= k < |services| ensures before[k].name == services[k].name {
        EnrichedEntry(services, blocks[..n], w, k);
      }
      EnrichedEntry(services, blocks[..n], w, i);
      var name := services[i].name;
      LastIndexByNames(before, services, name);
      WithBlockEntry(before, kv, w, i);
      WrittenNext(services[i], Own(blocks[..n], name, w), kv, w);
      assert w.head(kv) != Some(name) ==> Own(blocks, name, w) == Own(blocks[..n], name, w);
    }
  }

  lemma WrittenNext(s: Service, blocks: seq<Props>, kv: Props, w: Writer)
    ensures Written(s, blocks + [kv], w) == w.apply(Written(s, blocks, w), kv)
  {
    assert (blocks + [kv])[..|blocks|] == blocks;
  }

  /** An entry whose name heads no block is untouched. */
  lemma {:induction false} NoOwnBlocks(blocks: seq<Props>, name: string, w: Writer)
    requires forall k :: 0 <= k < |blocks| ==> w.head(blocks[k]) != Some(name)
    ensures Own(blocks, name, w) == []
  {
    if blocks != [] {
      NoOwnBlocks(blocks[..|blocks| - 1], name, w);
    }
  }

  lemma {:induction false} OneOwnBlock(blocks: seq<Props>, name: string, w: Writer, j: nat)
    requires j < |blocks| && w.head(blocks[j]) == Some(name)
    requires forall k :: 0 <= k < |blocks| && k != j ==> w.head(blocks[k]) != Some(name)
    ensures Own(blocks, name, w) == [blocks[j]]
  {
    var n := |blocks| - 1;
    if j == n {
      NoOwnBlocks(blocks[..n], name, w);
    } else {
      OneOwnBlock(blocks[..n], name, w, j);
      assert w.head(blocks[n]) != Some(name);
    }
  }

  lemma EnrichedNext(services: seq<Service>, blocks: seq<Props>, kv: Props, w: Writer)
    ensures Enriched(services, blocks + [kv], w) == WithBlock(Enriched(services, blocks, w), kv, w)
  {
    assert (blocks + [kv])[..|blocks|] == blocks;
  }

  lemma {:induction false} EnrichedConcat(services: seq<Service>, a: seq<Props>, b: seq<Props>, w: Writer)
    ensures Enriched(services, a + b, w) == Enriched(Enriched(services, a, w), b, w)
  {
    if b == [] {
      assert a + b == a;
    } else {
      var init, kv, first := b[..|b| - 1], b[|b| - 1], Enriched(services, a, w);
      EnrichedConcat(services, a, init, w);
      assert Enriched(services, a + b, w) == WithBlock(Enriched(services, a + init, w), kv, w) by {
        EnrichedNext(services, a + init, kv, w);
        assert a + b == a + init + [kv];
      }
      assert Enriched(first, b, w) == WithBlock(Enriched(first, init, w), kv, w) by {
        EnrichedNext(first, init, kv, w);
        assert b == init + [kv];
      }
    }
  }

  lemma ShowWriterKeepsNames()
    ensures KeepsNames(ShowWriter())
  {}

  lemma ReadBlocksNext(texts: seq<string>, k: nat)
    requires k < |texts|
    ensures ReadBlocks(texts[..k + 1]) == ReadBlocks(texts[..k]) + [ReadLines(Lines(texts[k]))]
  {
    assert texts[..k + 1][..k] == texts[..k];
  }

  /** The index map that enrichment builds first. */
  ghost predicate IsIndex(idx: map<string, int>, services: seq<Service>) {
    && (forall name :: name in idx <==> LastIndex(services, name) >= 0)
    && (forall name :: name in idx ==> idx[name] == LastIndex(services, name))
  }

  lemma IndexNext(idx: map<string, int>, services: seq<Service>, i: nat)
    requires i < |services| && IsIndex(idx, services[..i])
    ensures IsIndex(idx[services[i].name := i], services[..i + 1])
  {
    assert services[..i + 1][..i] == services[..i];
  }

  lemma SameIndex(idx: map<string, int>, a: seq<Service>, b: seq<Service>)
    requires IsIndex(idx, a) && Names(a) == Names(b)
    ensures IsIndex(idx, b)
  {
    forall name ensures LastIndex(a, name) == LastIndex(b, name) {
      LastIndexByNames(a, b, name);
    }
  }

  lemma WithBlockNames(services: seq<Service>, kv: Props, w: Writer)
    requires KeepsNames(w)
    ensures Names(WithBlock(services, kv, w)) == Names(services)
  {}

  /** One turn of the loop over the blocks. */
  method EnrichOne(services: array<Service>, idx: map<string, int>, block: string)
    requires IsIndex(idx, services[..])
    modifies services
    ensures services[..] == WithBlock(old(services[..]), ReadLines(Lines(block)), ShowWriter())
  {
    var kv := ParseShowBlock(block);
    if |kv| == 0 {
      assert Get(kv, "Names") == "";
      return;
    }
    var f := Fields(Get(kv, "Names"));
    if |f| == 0 || f[0] !in idx {
      return;
    }
    var i := idx[f[0]];
    assert i == LastIndex(services[..], f[0]);
    var s := ApplyShowProps(services[i], kv);
    services[i] := s;
  }

  method EnrichFromShow(raw: string, services: array<Service>)
    modifies services
    ensures services[..]
            == if raw == "" then old(services[..])
               else Enriched(old(services[..]), ReadBlocks(SplitBlocks(raw)), ShowWriter())
  {
    if raw == "" {
      return;
    }
    ghost var was := services[..];
    var idx: map<string, int> := map[];
    for i := 0 to services.Length
      invariant services[..] == was
      invariant IsIndex(idx, was[..i])
    {
      IndexNext(idx, was, i);
      idx := idx[services[i].name := i];
    }
    assert was[..services.Length] == was;
    ShowWriterKeepsNames();
    var texts := SplitBlocks(raw);
    for k := 0 to |texts|
      invariant services[..] == Enriched(was, ReadBlocks(texts[..k]), ShowWriter())
      invariant IsIndex(idx, services[..])
    {
      ReadBlocksNext(texts, k);
      EnrichedNext(was, ReadBlocks(texts[..k]), ReadLines(Lines(texts[k])), ShowWriter());
      WithBlockNames(services[..], ReadLines(Lines(texts[k])), ShowWriter());
      SameIndex(idx, services[..], WithBlock(services[..], ReadLines(Lines(texts[k])), ShowWriter()));
      EnrichOne(services, idx, texts[k]);
    }
    assert texts[..|texts|] == texts;
  }

  // ---------------------------------------------------------------- the order of the list

  function StateRank(active: string): int {
    if active == "failed" then 0
    else if active == "activating" then 1
    else if active == "active" then 2
    else if active == "deactivating" then 3
    else if active == "inactive" then 4
    else 5
  }

  function ServiceKey(s: Service): Key { Key(StateRank(s.activeState), s.name) }

  /** The states that come first in the list, in their order. */
  const STATES := ["failed", "activating", "active", "deactivating", "inactive"]

  /** a may stand before b: by the order of the states, other states last, and then by name. */
  predicate MayPrecede(a: Service, b: Service) {
    && (forall x, y :: 0 <= x < y < |STATES| ==> !(a.activeState == STATES[y] && b.activeState == STATES[x]))
    && (a.activeState !in STATES ==> b.activeState !in STATES)
    && (a.activeState == b.activeState || (a.activeState !in STATES && b.activeState !in STATES)
        ==> !StringLess(b.name, a.name))
  }

  lemma RankIsPosition(active: string)
    ensures active !in STATES ==> StateRank(active) == 5
    ensures forall x :: 0 <= x < 5 && active == STATES[x] ==> StateRank(active) == x
  {
    assert STATES[0] == "failed" && STATES[1] == "activating" && STATES[2] == "active";
    assert STATES[3] == "deactivating" && STATES[4] == "inactive";
  }

  lemma KeyOrderIsListOrder(a: Service, b: Service)
    requires !Less(ServiceKey(b), ServiceKey(a))
    ensures MayPrecede(a, b)
  {
    RankIsPosition(a.activeState);
    RankIsPosition(b.activeState);
  }

  // ---------------------------------------------------------------- the collector

  /** What the host answers to systemctl show for a batch; None is an error without output. */
  type Host = seq<string> -> Option<string>

  function BatchBlocks(answer: Option<string>): seq<Props> {
    if answer.None? || answer.value == "" then [] else ReadBlocks(SplitBlocks(answer.value))
  }

  /** All blocks of all batches. */
  function AllBlocks(batches: seq<seq<string>>, host: Host): seq<Props> {
    if batches == [] then []
    else AllBlocks(batches[..|batches| - 1], host) + BatchBlocks(host(batches[|batches| - 1]))
  }

  function Failures(batches: seq<seq<string>>, host: Host): nat {
    if batches == [] then 0
    else Failures(batches[..|batches| - 1], host) + if host(batches[|batches| - 1]).None? then 1 else 0
  }

  /** One error for each batch that fails. */
  lemma {:induction false} FailuresAre(batches: seq<seq<string>>, host: Host)
    ensures Failures(batches, host) == |set k | 0 <= k < |batches| && host(batches[k]).None?|
  {
    var failed := set k | 0 <= k < |batches| && host(batches[k]).None?;
    if batches != [] {
      var n := |batches| - 1;
      var before := set k | 0 <= k < n && host(batches[..n][k]).None?;
      FailuresAre(batches[..n], host);
      assert before == set k | 0 <= k < n && host(batches[k]).None?;
      assert failed == if host(batches[n]).None? then before + {n} else before;
    }
  }

  lemma {:induction false} BatchAt(names: seq<string>, k: nat)
    requires k * BATCH_SIZE < |names|
    ensures k < |Batches(names)|
    ensures Batches(names)[k]
            == names[k * BATCH_SIZE..if (k + 1) * BATCH_SIZE > |names| then |names| else (k + 1) * BATCH_SIZE]
  {
    if k > 0 {
      BatchAt(names[BATCH_SIZE..], k - 1);
    }
  }

  lemma {:induction false} BatchCount(names: seq<string>)
    ensures (|Batches(names)| - 1) * BATCH_SIZE < |names| <= |Batches(names)| * BATCH_SIZE
  {
    if |names| > BATCH_SIZE {
      BatchCount(names[BATCH_SIZE..]);
    }
  }

  lemma NextBatch(services: seq<Service>, batches: seq<seq<string>>, k: nat, host: Host, w: Writer)
    requires k < |batches|
    ensures Enriched(services, AllBlocks(batches[..k + 1], host), w)
            == Enriched(Enriched(services, AllBlocks(batches[..k], host), w), BatchBlocks(host(batches[k])), w)
    ensures Failures(batches[..k + 1], host) == Failures(batches[..k], host) + if host(batches[k]).None? then 1 else 0
  {
    assert batches[..k + 1][..k] == batches[..k];
    EnrichedConcat(services, AllBlocks(batches[..k], host), BatchBlocks(host(batches[k])), w);
  }

  /** One failed batch costs one error and contributes no blocks. */
  method CollectServices(services: array<Service>, host: Host) returns (errors: nat)
    modifies services
    ensures
      var batches := Batches(Names(old(services[..])));
      && services[..] == Sorted(Enriched(old(services[..]), AllBlocks(batches, host), ShowWriter()), ServiceKey)
      && errors == Failures(batches, host)
  {
    errors := 0;
    var names := Names(services[..]);
    ghost var was, batches := services[..], Batches(names);
    var start := 0;
    ghost var k := 0;
    BatchCount(names);
    while start < |names|
      invariant start == k * BATCH_SIZE && k <= |batches|
      invariant services[..] == Enriched(was, AllBlocks(batches[..k], host), ShowWriter())
      invariant errors == Failures(batches[..k], host)
    {
      var end := start + BATCH_SIZE;
      if end > |names| {
        end := |names|;
      }
      var batch := names[start..end];
      BatchAt(names, k);
      assert batch == batches[k];
      NextBatch(was, batches, k, host, ShowWriter());
      var answer := host(batch);
      k := k + 1;
      start := start + BATCH_SIZE;
      if answer.None? {
        errors := errors + 1;
        continue;
      }
      EnrichFromShow(answer.value, services);
    }
    assert batches[..|batches|] == batches;
    assert k == |batches|;
    SortStable(services, ServiceKey);
  }

  /** The arguments of the show command read back, as shell words, to the names of the batch. */
  method BatchArguments(batch: seq<string>) returns (args: string)
    ensures ShellWords.Words(args) == if ShellWords.NulFree(batch) then Some(batch) else None
  {
    var quoted := ShellWords.QuoteAll(batch);
    args := Join(quoted, " ");
  }

  /** The list that is reported: the enriched entries permuted, failed ones first, then activating,
      active, deactivating, inactive and others, each by name, equal ones in their listed order; and no
      other list is that. */
  lemma ReportIsStableSort(services: seq<Service>, blocks: seq<Props>, other: seq<Service>)
    ensures
      var enriched := Enriched(services, blocks, ShowWriter());
      var report := Sorted(enriched, ServiceKey);
      && IsStableSort(enriched, report, ServiceKey)
      && (forall i, j :: 0 <= i < j < |report| ==> MayPrecede(report[i], report[j]))
      && multiset(report) == multiset(enriched) && |report| == |services|
      && (IsStableSort(enriched, other, ServiceKey) ==> other == report)
  {
    var enriched := Enriched(services, blocks, ShowWriter());
    SortedIsStable(enriched, ServiceKey);
    StableSortPermutes(enriched, Sorted(enriched, ServiceKey), ServiceKey);
    var report := Sorted(enriched, ServiceKey);
    forall i, j | 0 <= i < j < |report| ensures MayPrecede(report[i], report[j]) {
      KeyOrderIsListOrder(report[i], report[j]);
    }
    if IsStableSort(enriched, other, ServiceKey) {
      AnyStableSortIsSorted(enriched, other, ServiceKey);
    }
  }

  // ---------------------------------------------------------------- reading back what systemctl prints

  datatype Prop = Prop(key: string, value: string)

  predicate PrintableProp(p: Prop) {
    p.key != "" && Trimmed(p.key) && '=' !in p.key && '\n' !in p.key && '\n' !in p.value
  }

  predicate PrintableUnit(ps: seq<Prop>) { ps != [] && forall i :: 0 <= i < |ps| ==> PrintableProp(ps[i]) }

  function PropLine(p: Prop): string { p.key + "=" + p.value }

  function PropLines(ps: seq<Prop>): (lines: seq<string>)
    ensures |lines| == |ps| && forall i :: 0 <= i < |lines| ==> lines[i] == PropLine(ps[i])
  {
    if ps == [] then [] else PropLines(ps[..|ps| - 1]) + [PropLine(ps[|ps| - 1])]
  }

  function PrintUnit(ps: seq<Prop>): string { Join(PropLines(ps), "\n") }

  function PrintUnits(units: seq<seq<Prop>>): (texts: seq<string>)
    ensures |texts| == |units| && forall i :: 0 <= i < |texts| ==> texts[i] == PrintUnit(units[i])
  {
    if units == [] then [] else [PrintUnit(units[0])] + PrintUnits(units[1..])
  }

  function Bindings(ps: seq<Prop>): Props {
    if ps == [] then map[] else Bindings(ps[..|ps| - 1])[ps[|ps| - 1].key := ps[|ps| - 1].value]
  }

  lemma ReadPropLine(kv: Props, p: Prop)
    requires PrintableProp(p)
    ensures ReadLine(kv, PropLine(p)) == kv[p.key := p.value]
  {
    IndexOfFirst(p.key, '=', p.value);
    assert PropLine(p) == p.key + ['='] + p.value;
    assert PropLine(p)[..|p.key|] == p.key && PropLine(p)[|p.key| + 1..] == p.value;
    TrimOfTrimmed(p.key);
  }

  lemma {:induction false} ReadPropLines(ps: seq<Prop>)
    requires forall i :: 0 <= i < |ps| ==> PrintableProp(ps[i])
    ensures ReadLines(PropLines(ps)) == Bindings(ps)
  {
    if ps != [] {
      var n := |ps| - 1;
      ReadPropLines(ps[..n]);
      assert PropLines(ps)[..n] == PropLines(ps[..n]);
      ReadPropLine(Bindings(ps[..n]), ps[n]);
    }
  }

  /** A block reads back to its properties: values may hold equals signs and blanks. */
  lemma BlockReadsBack(ps: seq<Prop>)
    requires PrintableUnit(ps)
    ensures ReadLines(Lines(PrintUnit(ps))) == Bindings(ps)
  {
    forall i | 0 <= i < |ps| ensures '\n' !in PropLines(ps)[i] {
      assert PrintableProp(ps[i]);
    }
    LinesOfJoin(PropLines(ps));
    ReadPropLines(ps);
  }

  /** No empty line inside, and no newline at the ends. */
  predicate Solid(s: string) {
    && s != "" && s[0] != '\n' && s[|s| - 1] != '\n'
    && forall i :: 0 <= i < |s| - 1 ==> s[i] != '\n' || s[i + 1] != '\n'
  }

  lemma SolidConcat(a: string, b: string)
    requires Solid(a) && Solid(b)
    ensures Solid(a + "\n" + b)
  {
    var s := a + "\n" + b;
    forall i | 0 <= i < |s| - 1 ensures s[i] != '\n' || s[i + 1] != '\n' {
      if i + 1 < |a| {
        assert s[i] == a[i] && s[i + 1] == a[i + 1];
      } else if i > |a| {
        assert s[i] == b[i - |a| - 1] && s[i + 1] == b[i - |a|];
      }
    }
  }

  lemma {:induction false} UnitIsSolid(ps: seq<Prop>)
    requires PrintableUnit(ps)
    ensures Solid(PrintUnit(ps))
  {
    var n := |ps| - 1;
    var last := PropLine(ps[n]);
    assert PrintableProp(ps[n]);
    assert Solid(last) by {
      assert last == ps[n].key + ['='] + ps[n].value;
      assert '\n' !in last;
    }
    JoinSnoc(PropLines(ps[..n]), last, "\n");
    if n > 0 {
      UnitIsSolid(ps[..n]);
      SolidConcat(PrintUnit(ps[..n]), last);
    }
  }

  lemma {:induction false} SplitPlain(s: string, rest: string)
    requires s != "" && s[|s| - 1] != '\n' && forall i :: 0 <= i < |s| - 1 ==> s[i] != '\n' || s[i + 1] != '\n'
    ensures SplitBlocks(s + "\n\n" + rest) == [s] + SplitBlocks(rest)
    ensures SplitBlocks(s) == [s]
  {
    var t := s + "\n\n" + rest;
    if |s| == 1 {
      assert t[1..] == "\n\n" + rest && t[1..][2..] == rest;
      assert SplitBlocks(t[1..]) == [""] + SplitBlocks(rest);
      assert [s[0]] + "" == s && s[1..] == "";
    } else {
      SplitPlain(s[1..], rest);
      assert t[1..] == s[1..] + "\n\n" + rest;
      assert [s[0]] + s[1..] == s;
    }
  }

  lemma {:induction false} UnitsSplit(units: seq<seq<Prop>>)
    requires units != [] && forall i :: 0 <= i < |units| ==> PrintableUnit(units[i])
    ensures SplitBlocks(Join(PrintUnits(units), "\n\n")) == PrintUnits(units)
  {
    var first := PrintUnit(units[0]);
    UnitIsSolid(units[0]);
    if |units| == 1 {
      SplitPlain(first, "");
      assert PrintUnits(units) == [first];
    } else {
      UnitsSplit(units[1..]);
      SplitPlain(first, Join(PrintUnits(units[1..]), "\n\n"));
    }
  }

  /** The whole answer reads back: block k holds the properties printed for unit k. */
  lemma ShowReadsBack(units: seq<seq<Prop>>)
    requires units != [] && forall i :: 0 <= i < |units| ==> PrintableUnit(units[i])
    ensures
      var blocks := ReadBlocks(SplitBlocks(Join(PrintUnits(units), "\n\n")));
      |blocks| == |units| && forall i :: 0 <= i < |units| ==> blocks[i] == Bindings(units[i])
  {
    UnitsSplit(units);
    forall i | 0 <= i < |units| ensures ReadLines(Lines(PrintUnit(units[i]))) == Bindings(units[i]) {
      BlockReadsBack(units[i]);
    }
  }

  lemma EntryFromBlocks(services: seq<Service>, blocks: seq<Props>, w: Writer, i: nat, j: nat)
    requires KeepsNames(w) && i < |services| && Indexed(services, i)
    requires forall k :: 0 <= k < |blocks| && k != j ==> w.head(blocks[k]) != Some(services[i].name)
    ensures
      Enriched(services, blocks, w)[i]
      == if j < |blocks| && w.head(blocks[j]) == Some(services[i].name)
         then w.apply(services[i], blocks[j]) else services[i]
  {
    EnrichedEntry(services, blocks, w, i);
    if j < |blocks| && w.head(blocks[j]) == Some(services[i].name) {
      OneOwnBlock(blocks, services[i].name, w, j);
      assert [blocks[j]][..0] == [];
    } else {
      NoOwnBlocks(blocks, services[i].name, w);
    }
  }

  /** One answer: if systemctl prints at most one block for a listed service, the service ends up with
      the properties of its unit, or, having none, with what was listed. */
  lemma OneAnswerEnriches(services: seq<Service>, units: seq<seq<Prop>>, w: Writer, i: nat, j: nat)
    requires KeepsNames(w) && i < |services| && Indexed(services, i)
    requires units != [] && forall k :: 0 <= k < |units| ==> PrintableUnit(units[k])
    requires forall k :: 0 <= k < |units| && k != j ==> w.head(Bindings(units[k])) != Some(services[i].name)
    ensures
      Enriched(services, ReadBlocks(SplitBlocks(Join(PrintUnits(units), "\n\n"))), w)[i]
      == if j < |units| && w.head(Bindings(units[j])) == Some(services[i].name)
         then w.apply(services[i], Bindings(units[j])) else services[i]
  {
    var blocks := ReadBlocks(SplitBlocks(Join(PrintUnits(units), "\n\n")));
    ShowReadsBack(units);
    forall k | 0 <= k < |blocks| && k != j ensures w.head(blocks[k]) != Some(services[i].name) {
      assert blocks[k] == Bindings(units[k]);
    }
    EntryFromBlocks(services, blocks, w, i, j);
  }

  // ---------------------------------------------------------------- all batches together

  /** The units of a batch, as the host knows them. */
  function UnitsOf(batch: seq<string>, show: string -> seq<Prop>): (units: seq<seq<Prop>>)
    ensures |units| == |batch| && forall k :: 0 <= k < |units| ==> units[k] == show(batch[k])
  {
    if batch == [] then [] else [show(batch[0])] + UnitsOf(batch[1..], show)
  }

  /** The host prints the units of each batch, or fails on it without output. */
  ghost predicate Prints(host: Host, show: string -> seq<Prop>, batches: seq<seq<string>>) {
    forall k :: 0 <= k < |batches| && host(batches[k]).Some? ==>
      && batches[k] != [] && (forall m :: m in batches[k] ==> PrintableUnit(show(m)))
      && host(batches[k]).value == Join(PrintUnits(UnitsOf(batches[k], show)), "\n\n")
  }

  /** The unit is in a batch that was answered. */
  ghost predicate Answered(host: Host, batches: seq<seq<string>>, name: string) {
    exists k :: 0 <= k < |batches| && host(batches[k]).Some? && name in batches[k]
  }

  lemma BatchReadsBack(batch: seq<string>, show: string -> seq<Prop>)
    requires batch != [] && forall m :: m in batch ==> PrintableUnit(show(m))
    ensures
      var blocks := BatchBlocks(Some(Join(PrintUnits(UnitsOf(batch, show)), "\n\n")));
      |blocks| == |batch| && forall k :: 0 <= k < |batch| ==> blocks[k] == Bindings(show(batch[k]))
  {
    var units := UnitsOf(batch, show);
    forall k | 0 <= k < |units| ensures PrintableUnit(units[k]) {
      assert batch[k] in batch;
    }
    ShowReadsBack(units);
    PrintIsNotEmpty(units);
  }

  lemma PrintIsNotEmpty(units: seq<seq<Prop>>)
    requires units != [] && PrintableUnit(units[0])
    ensures Join(PrintUnits(units), "\n\n") != ""
  {
    UnitIsSolid(units[0]);
  }

  /** The blocks of all batches are those of the units in answered batches. */
  lemma {:induction false} AllBlocksAre(batches: seq<seq<string>>, host: Host, show: string -> seq<Prop>, kv: Props)
    requires Prints(host, show, batches)
    ensures kv in AllBlocks(batches, host) <==> exists m :: Answered(host, batches, m) && kv == Bindings(show(m))
  {
    if batches != [] {
      var n := |batches| - 1;
      var init, last := batches[..n], batches[n];
      AllBlocksAre(init, host, show, kv);
      forall m ensures Answered(host, batches, m) <==> Answered(host, init, m) || (host(last).Some? && m in last) {
        AnsweredSnoc(host, batches, m);
      }
      if host(last).Some? {
        BatchReadsBack(last, show);
        LastBatchHolds(last, BatchBlocks(host(last)), show, kv);
      }
    }
  }

  lemma AnsweredSnoc(host: Host, batches: seq<seq<string>>, m: string)
    requires batches != []
    ensures
      var n := |batches| - 1;
      Answered(host, batches, m) <==> Answered(host, batches[..n], m) || (host(batches[n]).Some? && m in batches[n])
  {
    var n := |batches| - 1;
    if Answered(host, batches[..n], m) {
      var k :| 0 <= k < n && host(batches[..n][k]).Some? && m in batches[..n][k];
      assert host(batches[k]).Some? && m in batches[k];
    }
    if Answered(host, batches, m) {
      var k :| 0 <= k < |batches| && host(batches[k]).Some? && m in batches[k];
      assert k < n ==> batches[..n][k] == batches[k];
    }
  }

  lemma LastBatchHolds(batch: seq<string>, blocks: seq<Props>, show: string -> seq<Prop>, kv: Props)
    requires |blocks| == |batch| && forall k :: 0 <= k < |batch| ==> blocks[k] == Bindings(show(batch[k]))
    ensures kv in blocks <==> exists m :: m in batch && kv == Bindings(show(m))
  {
    if kv in blocks {
      var k :| 0 <= k < |blocks| && blocks[k] == kv;
      assert batch[k] in batch;
    }
    if m :| m in batch && kv == Bindings(show(m)) {
      var k :| 0 <= k < |batch| && batch[k] == m;
      assert blocks[k] == kv;
    }
  }

  /** Writing the same block twice is writing it once. */
  ghost predicate Settles(w: Writer) { forall s, kv :: w.apply(w.apply(s, kv), kv) == w.apply(s, kv) }

  lemma ShowWriterSettles()
    ensures Settles(ShowWriter())
  {
    forall s: Service, kv: Props ensures Applied(Applied(s, kv), kv) == Applied(s, kv) {
      AppliedSettles(s, kv);
    }
  }

  lemma AppliedSettles(s: Service, kv: Props)
    ensures Applied(Applied(s, kv), kv) == Applied(s, kv)
  {
    assert Relisted(Overwritten(Relisted(s, kv), kv), kv) == Overwritten(Relisted(s, kv), kv);
  }

  /** When all of a unit's blocks are alike, so are its own; and it has some if there are any. */
  lemma {:induction false} OwnCopies(blocks: seq<Props>, name: string, w: Writer, b: Props)
    requires forall kv :: kv in blocks && w.head(kv) == Some(name) ==> kv == b
    ensures forall k :: 0 <= k < |Own(blocks, name, w)| ==> Own(blocks, name, w)[k] == b
    ensures Own(blocks, name, w) != [] <==> exists kv :: kv in blocks && w.head(kv) == Some(name)
  {
    if blocks != [] {
      var n := |blocks| - 1;
      OwnCopies(blocks[..n], name, w, b);
      assert blocks == blocks[..n] + [blocks[n]];
    }
  }

  lemma {:induction false} WrittenCopies(s: Service, blocks: seq<Props>, w: Writer, b: Props)
    requires Settles(w) && forall k :: 0 <= k < |blocks| ==> blocks[k] == b
    ensures Written(s, blocks, w) == if blocks == [] then s else w.apply(s, b)
  {
    if blocks != [] {
      WrittenCopies(s, blocks[..|blocks| - 1], w, b);
    }
  }

  /** From end to end, through all batches: a listed service ends up with the properties of its unit
      when its batch was answered and the unit's block is headed by that name, and with what was
      listed otherwise, however the other batches fared.  Names may repeat in the list; the entry
      with the last index speaks for the name.  ShowWriter, the collector's writer, keeps names and
      settles. */
  lemma ServiceGetsItsProperties(services: seq<Service>, host: Host, show: string -> seq<Prop>, w: Writer, i: nat)
    requires KeepsNames(w) && Settles(w) && i < |services| && Indexed(services, i)
    requires Prints(host, show, Batches(Names(services)))
    requires forall m :: m in Names(services) && m != services[i].name ==>
      w.head(Bindings(show(m))) != Some(services[i].name)
    ensures
      var name, batches := services[i].name, Batches(Names(services));
      Enriched(services, AllBlocks(batches, host), w)[i]
      == if Answered(host, batches, name) && w.head(Bindings(show(name))) == Some(name)
         then w.apply(services[i], Bindings(show(name))) else services[i]
  {
    var name, batches := services[i].name, Batches(Names(services));
    var blocks, b := AllBlocks(batches, host), Bindings(show(name));
    EnrichedEntry(services, blocks, w, i);
    forall m | Answered(host, batches, m) ensures m in Names(services) {
      var k :| 0 <= k < |batches| && host(batches[k]).Some? && m in batches[k];
      BatchNamesAreNames(Names(services), k, m);
    }
    forall kv | kv in blocks && w.head(kv) == Some(name)
      ensures kv == b && Answered(host, batches, name) && w.head(b) == Some(name)
    {
      AllBlocksAre(batches, host, show, kv);
    }
    AllBlocksAre(batches, host, show, b);
    OwnCopies(blocks, name, w, b);
    WrittenCopies(services[i], Own(blocks, name, w), w, b);
  }

  /** What the report holds for a listed service, the last of its name: when its batch was answered
      and the unit's block begins its Names with that name, every column as printed under its key;
      otherwise the service as it was listed. */
  lemma ReportHoldsTheProperties(services: seq<Service>, host: Host, show: string -> seq<Prop>, i: nat)
    requires i < |services| && forall j :: i < j < |services| ==> services[j].name != services[i].name
    requires Prints(host, show, Batches(Names(services)))
    requires forall m :: m in Names(services) && m != services[i].name ==>
      var kv := Bindings(show(m));
      !("Names" in kv && FirstWord(kv["Names"], services[i].name))
    ensures
      var name, batches := services[i].name, Batches(Names(services));
      var s, kv := Enriched(services, AllBlocks(batches, host), ShowWriter())[i], Bindings(show(name));
      && s in Sorted(Enriched(services, AllBlocks(batches, host), ShowWriter()), ServiceKey)
      && if Answered(host, batches, name) && "Names" in kv && FirstWord(kv["Names"], name)
         then Reported(services[i], kv, s) else s == services[i]
  {
    var name, batches := services[i].name, Batches(Names(services));
    var blocks, kv := AllBlocks(batches, host), Bindings(show(name));
    forall m ensures HeadName(Bindings(show(m))) == Some(name)
                     <==> "Names" in Bindings(show(m)) && FirstWord(Bindings(show(m))["Names"], name)
    {
      HeadNameIff(Bindings(show(m)), name);
    }
    ShowWriterKeepsNames();
    ShowWriterSettles();
    assert Indexed(services, i);
    ServiceGetsItsProperties(services, host, show, ShowWriter(), i);
    AppliedIsReported(services[i], kv);
    EveryEntryIsReported(services, blocks, i);
  }

  lemma EveryEntryIsReported(services: seq<Service>, blocks: seq<Props>, i: nat)
    requires i < |services|
    ensures
      var enriched := Enriched(services, blocks, ShowWriter());
      enriched[i] in Sorted(enriched, ServiceKey)
  {
    var enriched := Enriched(services, blocks, ShowWriter());
    ReportIsStableSort(services, blocks, enriched);
    assert enriched[i] in multiset(enriched);
  }

  lemma {:induction false} BatchNamesAreNames(names: seq<string>, k: nat, m: string)
    requires k < |Batches(names)| && m in Batches(names)[k]
    ensures m in names
  {
    if |names| > BATCH_SIZE && k > 0 {
      BatchNamesAreNames(names[BATCH_SIZE..], k - 1, m);
    }
  }
}
