/** The local container snapshot: every listed container is inspected by the worker pool, what is known
    about it is merged, and the list is sorted. */
module Inspect {
  import opened Text
  import opened StableSort
  import opened Workers

  // ---------------------------------------------------------------- what is collected

  datatype Endpoint = Endpoint(ip: string, gateway: string, mac: string, networkId: string)

  datatype Network = Network(name: string, ip: string, gateway: string, mac: string, networkId: string)

  datatype Item = Item(
    id: string, names: seq<string>, image: string, imageId: string, command: string, state: string, status: string)

  datatype Inspection = Inspection(
    id: string, name: string, image: string, imageId: string, state: string, running: bool, restartCount: int,
    networks: map<string, Endpoint>)

  /** What the daemon answers to an inspect. */
  datatype Answer = Failed(message: string) | Inspected(inspection: Inspection)

  datatype Container = Container(
    id: string, shortId: string, name: string, image: string, imageId: string, command: string, status: string,
    state: string, running: bool, restartCount: int, networks: seq<Network>)

  function TrimPrefix(s: string, prefix: string): string { if prefix <= s then s[|prefix|..] else s }

  function ShortID(id: string): string {
    var bare := TrimPrefix(id, "sha256:");
    if |bare| > 12 then bare[..12] else bare
  }

  function CleanName(name: string): string { TrimPrefix(name, "/") }

  function FirstName(names: seq<string>): string { if names == [] then "" else CleanName(names[0]) }

  // ---------------------------------------------------------------- networks in a fixed order

  function NameKey(name: string): Key { Key(0, name) }

  predicate IsLeast(k: string, keys: set<string>) {
    k in keys && forall j :: j in keys ==> !StringLess(j, k)
  }

  lemma {:induction false} LeastExists(keys: set<string>)
    requires keys != {}
    ensures exists k :: IsLeast(k, keys)
    ensures forall j, k :: IsLeast(j, keys) && IsLeast(k, keys) ==> j == k
  {
    var x :| x in keys;
    if keys == {x} {
      StringOrder(x, x, x);
      assert IsLeast(x, keys);
    } else {
      var rest := keys - {x};
      assert keys == rest + {x};
      LeastExists(rest);
      var k :| IsLeast(k, rest);
      StringOrder(x, x, x);
      if StringLess(x, k) {
        forall j | j in keys ensures !StringLess(j, x) {
          StringOrder(j, x, k);
          assert j == x || j in rest;
        }
        assert IsLeast(x, keys);
      } else {
        assert IsLeast(k, keys);
      }
    }
    forall j, k | IsLeast(j, keys) && IsLeast(k, keys) ensures j == k {
      StringOrder(j, k, j);
    }
  }

  /** The keys in ascending order. */
  function SortedKeys(keys: set<string>): (names: seq<string>)
    ensures |names| == |keys| && forall k :: k in names <==> k in keys
    decreases |keys|
  {
    if keys == {} then []
    else
      LeastExists(keys);
      var k :| IsLeast(k, keys);
      [k] + SortedKeys(keys - {k})
  }

  lemma {:induction false} SortedKeysAscend(keys: set<string>)
    ensures InOrder(SortedKeys(keys), NameKey) && Distinct(SortedKeys(keys))
    decreases |keys|
  {
    if keys != {} {
      LeastExists(keys);
      var k := SortedKeys(keys)[0];
      var rest := SortedKeys(keys - {k});
      SortedKeysAscend(keys - {k});
      assert SortedKeys(keys) == [k] + rest;
      forall j | 0 <= j < |rest| ensures !StringLess(rest[j], k) && rest[j] != k {
        assert rest[j] in rest;
      }
    }
  }

  lemma {:induction false} BucketOfDistinct(names: seq<string>, k: Key)
    requires Distinct(names)
    ensures WithKey(names, NameKey, k) == if k.rank == 0 && k.name in names then [k.name] else []
  {
    if names != [] {
      BucketOfDistinct(names[1..], k);
      if NameKey(names[0]) == k {
        assert k.name !in names[1..];
      }
    }
  }

  /** Sorting the keys of a map gives one answer, whatever order the iteration took. */
  lemma SortForgetsIteration(keys: set<string>, names: seq<string>)
    requires Distinct(names) && forall k :: k in names <==> k in keys
    ensures Sorted(names, NameKey) == SortedKeys(keys)
  {
    SortedKeysAscend(keys);
    forall k ensures WithKey(SortedKeys(keys), NameKey, k) == WithKey(names, NameKey, k) {
      BucketOfDistinct(names, k);
      BucketOfDistinct(SortedKeys(keys), k);
    }
    AnyStableSortIsSorted(names, SortedKeys(keys), NameKey);
  }

  function NetworkOf(name: string, ep: Endpoint): Network {
    Network(name, ep.ip, ep.gateway, ep.mac, ShortID(ep.networkId))
  }

  function NetworksOf(names: seq<string>, m: map<string, Endpoint>): seq<Network>
    requires forall k :: k in names ==> k in m
  {
    if names == [] then []
    else NetworksOf(names[..|names| - 1], m) + [NetworkOf(names[|names| - 1], m[names[|names| - 1]])]
  }

  /** Ranging over a map: every key once, in any order. */
  method AnyOrder(keys: set<string>) returns (names: seq<string>)
    ensures Distinct(names) && forall k :: k in names <==> k in keys
  {
    names := [];
    var left := keys;
    while left != {}
      invariant Distinct(names) && left <= keys
      invariant forall k :: k in names <==> k in keys && k !in left
      decreases |left|
    {
      var name :| name in left;
      names := names + [name];
      left := left - {name};
    }
  }

  lemma NetworksNext(names: seq<string>, m: map<string, Endpoint>, i: nat)
    requires i < |names| && forall k :: k in names ==> k in m
    ensures NetworksOf(names[..i + 1], m) == NetworksOf(names[..i], m) + [NetworkOf(names[i], m[names[i]])]
  {
    assert names[..i + 1][..i] == names[..i];
  }

  /** The sorted list does not depend on the order of the range. */
  method SortedNames(keys: set<string>) returns (names: seq<string>)
    ensures names == SortedKeys(keys)
  {
    names := AnyOrder(keys);
    SortForgetsIteration(keys, names);
    names := Sorted(names, NameKey);
  }

  method ListNetworks(m: map<string, Endpoint>) returns (networks: seq<Network>)
    ensures networks == NetworksOf(SortedKeys(m.Keys), m)
  {
    var names := SortedNames(m.Keys);
    networks := [];
    for i := 0 to |names|
      invariant networks == NetworksOf(names[..i], m)
    {
      NetworksNext(names, m, i);
      networks := networks + [NetworkOf(names[i], m[names[i]])];
    }
    assert names[..|names|] == names;
  }

  // ---------------------------------------------------------------- one container

  function Merged(item: Item, ins: Inspection): Container {
    Container(ins.id, ShortID(ins.id), CleanName(ins.name), ins.image, ins.imageId, item.command, item.status,
              ins.state, ins.running, ins.restartCount, NetworksOf(SortedKeys(ins.networks.Keys), ins.networks))
  }

  function FromList(item: Item): Container {
    Container(item.id, ShortID(item.id), FirstName(item.names), item.image, item.imageId, item.command, item.status,
              item.state, item.state == "running", 0, [])
  }

  function ResultOf(item: Item, answer: Answer): Container {
    if answer.Failed? then FromList(item) else Merged(item, answer.inspection)
  }

  function ErrorLine(item: Item, message: string): string { "inspect " + ShortID(item.id) + ": " + message }

  // ---------------------------------------------------------------- the snapshot

  /** The goroutine of one item, given the daemon's answer. */
  function JobOf(item: Item, answer: Answer): Job<Container> {
    Job(if answer.Failed? then Some(ErrorLine(item, answer.message)) else None, ResultOf(item, answer))
  }

  function Jobs(items: seq<Item>, answers: seq<Answer>): seq<Job<Container>>
    requires |items| == |answers|
  {
    Zip(items, answers, JobOf)
  }

  function Results(jobs: seq<Job<Container>>): (r: seq<Container>)
    ensures |r| == |jobs| && forall i :: 0 <= i < |r| ==> r[i] == jobs[i].result
  {
    if jobs == [] then [] else Results(jobs[..|jobs| - 1]) + [jobs[|jobs| - 1].result]
  }

  /** Each failed inspect adds exactly one error line, and each success none. */
  lemma OneLinePerFailure(items: seq<Item>, answers: seq<Answer>)
    requires |items| == |answers|
    ensures |JobLines(Jobs(items, answers))| == |set i | 0 <= i < |answers| && answers[i].Failed?|
  {
    var jobs := Jobs(items, answers);
    CountJobLines(jobs);
    forall i | 0 <= i < |jobs| ensures jobs[i].line.Some? <==> answers[i].Failed? {
      assert jobs[i] == JobOf(items[i], answers[i]);
    }
    assert (set i | 0 <= i < |jobs| && jobs[i].line.Some?) == (set i | 0 <= i < |answers| && answers[i].Failed?);
  }

  // ---------------------------------------------------------------- where each column comes from

  /** rest is s without the prefix, if s has it. */
  predicate Stripped(s: string, prefix: string, rest: string) {
    s == prefix + rest || (rest == s && !(prefix <= s))
  }

  /** short is the first twelve characters of id, not counting "sha256:". */
  ghost predicate Shortened(id: string, short: string) {
    exists bare :: Stripped(id, "sha256:", bare) && short == if |bare| > 12 then bare[..12] else bare
  }

  lemma ShortIDShortens(id: string)
    ensures Shortened(id, ShortID(id))
  {
    assert Stripped(id, "sha256:", TrimPrefix(id, "sha256:"));
  }

  /** The networks of a container: each once, in ascending order of their names, with the endpoint's
      columns. */
  ghost predicate NetworksAre(m: map<string, Endpoint>, networks: seq<Network>) {
    && |networks| == |m|
    && (forall i, j :: 0 <= i < j < |networks| ==> StringLess(networks[i].name, networks[j].name))
    && forall i :: 0 <= i < |networks| ==> IsNetwork(m, networks[i])
  }

  ghost predicate IsNetwork(m: map<string, Endpoint>, n: Network) {
    && n.name in m && n.ip == m[n.name].ip && n.gateway == m[n.name].gateway && n.mac == m[n.name].mac
    && Shortened(m[n.name].networkId, n.networkId)
  }

  lemma {:induction false} NetworksOfAt(names: seq<string>, m: map<string, Endpoint>, i: nat)
    requires i < |names| && forall k :: k in names ==> k in m
    ensures |NetworksOf(names, m)| == |names| && NetworksOf(names, m)[i] == NetworkOf(names[i], m[names[i]])
  {
    var n := |names| - 1;
    var init := names[..n];
    if i < n {
      NetworksOfAt(init, m, i);
    } else if n > 0 {
      NetworksOfAt(init, m, 0);
    } else {
      assert NetworksOf(init, m) == [];
    }
  }

  lemma ListedNetworksAre(m: map<string, Endpoint>)
    ensures NetworksAre(m, NetworksOf(SortedKeys(m.Keys), m))
  {
    var names := SortedKeys(m.Keys);
    KeysAscend(m.Keys);
    if names != [] {
      NetworksOfAt(names, m, 0);
    }
    forall i | 0 <= i < |names|
      ensures NetworksOf(names, m)[i].name == names[i] && IsNetwork(m, NetworksOf(names, m)[i])
    {
      NetworksOfAt(names, m, i);
      NetworkOfIs(m, names[i]);
    }
    assert |m| == |m.Keys|;
  }

  lemma NetworkOfIs(m: map<string, Endpoint>, name: string)
    requires name in m
    ensures NetworkOf(name, m[name]).name == name && IsNetwork(m, NetworkOf(name, m[name]))
  {
    ShortIDShortens(m[name].networkId);
  }

  lemma KeysAscend(keys: set<string>)
    ensures
      var names := SortedKeys(keys);
      forall i, j :: 0 <= i < j < |names| ==> StringLess(names[i], names[j])
  {
    var names := SortedKeys(keys);
    SortedKeysAscend(keys);
    forall i, j | 0 <= i < j < |names| ensures StringLess(names[i], names[j]) {
      StringOrder(names[i], names[j], "");
      assert !Less(NameKey(names[j]), NameKey(names[i]));
    }
  }

  /** An inspected container: what it is comes from the inspection, the command and the printed status
      from the list. */
  ghost predicate FromInspection(item: Item, ins: Inspection, c: Container) {
    && c.id == ins.id && Shortened(ins.id, c.shortId) && Stripped(ins.name, "/", c.name)
    && c.image == ins.image && c.imageId == ins.imageId && c.state == ins.state && c.running == ins.running
    && c.restartCount == ins.restartCount && c.command == item.command && c.status == item.status
    && NetworksAre(ins.networks, c.networks)
  }

  /** A container whose inspection failed: what the list says, and nothing else. */
  ghost predicate FromListing(item: Item, c: Container) {
    && c.id == item.id && Shortened(item.id, c.shortId)
    && (if item.names == [] then c.name == "" else Stripped(item.names[0], "/", c.name))
    && c.image == item.image && c.imageId == item.imageId && c.state == item.state && c.command == item.command
    && c.status == item.status && (c.running <==> item.state == "running") && c.restartCount == 0 && c.networks == []
  }

  /** An error line names the container by its shortened id. */
  ghost predicate Reports(item: Item, message: string, line: string) {
    exists short :: Shortened(item.id, short) && line == "inspect " + short + ": " + message
  }

  lemma MergedIs(item: Item, ins: Inspection)
    ensures FromInspection(item, ins, Merged(item, ins))
  {
    ShortIDShortens(ins.id);
    ListedNetworksAre(ins.networks);
  }

  lemma FromListIs(item: Item)
    ensures FromListing(item, FromList(item))
  {
    ShortIDShortens(item.id);
  }

  lemma ErrorLineReports(item: Item, message: string)
    ensures Reports(item, message, ErrorLine(item, message))
  {
    ShortIDShortens(item.id);
    assert ErrorLine(item, message) == "inspect " + ShortID(item.id) + ": " + message;
  }

  /** Slot i of the collected list, and the error line that goes with it. */
  lemma SlotHoldsItsContainer(items: seq<Item>, answers: seq<Answer>, i: nat)
    requires i < |items| == |answers|
    ensures
      var c, line := Results(Jobs(items, answers))[i], Jobs(items, answers)[i].line;
      match answers[i]
      case Inspected(ins) => FromInspection(items[i], ins, c) && line == None
      case Failed(message) => FromListing(items[i], c) && line.Some? && Reports(items[i], message, line.value)
  {
    var jobs := Jobs(items, answers);
    assert jobs[i] == JobOf(items[i], answers[i]);
    match answers[i]
    case Inspected(ins) => MergedIs(items[i], ins);
    case Failed(message) =>
      FromListIs(items[i]);
      ErrorLineReports(items[i], message);
  }

  // ---------------------------------------------------------------- the report

  /** Running containers first, then by name. */
  function ContainerKey(c: Container): Key { Key(if c.running then 0 else 1, c.name) }

  /** Collect, after the list has been fetched: whatever the schedule, the reported list is the same,
      its count is that of the list, and the errors are the same up to their order. */
  method Collect(items: seq<Item>, answers: seq<Answer>, before: seq<string>)
    returns (containers: seq<Container>, count: nat, errors: seq<string>)
    requires |items| == |answers|
    ensures containers == Sorted(Results(Jobs(items, answers)), ContainerKey)
    ensures count == |containers| == |items|
    ensures multiset(errors) == multiset(before) + multiset(JobLines(Jobs(items, answers)))
  {
    var list;
    list, errors := RunAll(Jobs(items, answers), before);
    assert list == Results(Jobs(items, answers));
    containers := Sorted(list, ContainerKey);
    count := |containers|;
  }

  /** That list is the results permuted, running first and then by name, ties in list order; no other
      list is. */
  lemma ReportIsStableSort(results: seq<Container>, other: seq<Container>)
    ensures
      var report := Sorted(results, ContainerKey);
      && (forall i, j :: 0 <= i < j < |report| ==>
            (report[j].running ==> report[i].running)
            && (report[i].running == report[j].running ==> !StringLess(report[j].name, report[i].name)))
      && multiset(report) == multiset(results)
      && (IsStableSort(results, other, ContainerKey) ==> other == report)
  {
    var report := Sorted(results, ContainerKey);
    SortedIsStable(results, ContainerKey);
    StableSortPermutes(results, report, ContainerKey);
    forall i, j | 0 <= i < j < |report|
      ensures (report[j].running ==> report[i].running)
      ensures (report[i].running == report[j].running ==> !StringLess(report[j].name, report[i].name))
    {
      assert !Less(ContainerKey(report[j]), ContainerKey(report[i]));
    }
    if IsStableSort(results, other, ContainerKey) {
      AnyStableSortIsSorted(results, other, ContainerKey);
    }
  }
}
