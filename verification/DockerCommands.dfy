/** The remote command lines of the deploy, purge and log collectors: their parameters, the text
    each is sent as and the argument vector a POSIX shell must read from it. */
module DockerCommands {
  import opened Text
  import opened ShellWords
  import opened Decimal

  datatype PortMapping = PortMapping(host: int, container: int)

  /** DeployParams */
  datatype DeployParams = DeployParams(
    registryHost: string,
    registryNamespace: string,
    registryUsername: string,
    registryPassword: string,
    image: string,
    tag: string,
    containerName: string,
    ports: seq<PortMapping>,
    restartPolicy: string)
  {
    function Ref(): string { ImageRef(registryHost, registryNamespace, image, tag) }

    function Spec(): RunSpec { RunSpec(containerName, ports, restartPolicy, Ref()) }
  }

  /** What docker run is told. */
  datatype RunSpec = RunSpec(name: string, ports: seq<PortMapping>, policy: string, ref: string)

  /** imageRef: [host/][namespace/]image:tag */
  function ImageRef(host: string, namespace: string, image: string, tag: string): string {
    var ref := if namespace != "" then namespace + "/" + image else image;
    var ref' := if host != "" then host + "/" + ref else ref;
    ref' + ":" + tag
  }

  /** Parameters of docker logs. */
  datatype LogParams = LogParams(container: string, tail: int, since: string, until: string, timestamps: bool)

  const LAST_N_LINES_DEFAULT := 10000
  const SENTINEL_TAIL_ALL := -1

  /** Everything a runner asks of the remote side; stdin is what is piped into docker login.  Pause is
      the one-second wait before the verification step, whose only answer is whether the context was
      cancelled. */
  datatype Command =
    | Probe
    | Login(host: string, user: string, stdin: string)
    | ListByName(name: string)
    | ListByImage(ref: string)
    | Stop(ids: seq<string>)
    | Remove(ids: seq<string>)
    | InspectImage(ref: string)
    | RemoveImage(ref: string)
    | Pull(ref: string)
    | Start(spec: RunSpec)
    | Pause
    | InspectContainer(name: string)

  const INSPECT_FORMAT := "{{.State.Running}}|{{.State.ExitCode}}|{{.State.Status}}"

  function PortText(p: PortMapping): string { Itoa(p.host) + ":" + Itoa(p.container) }

  function PortPair(p: PortMapping): seq<string> { ["-p", PortText(p)] }

  function PortArgs(ports: seq<PortMapping>): seq<Arg> {
    if ports == [] then []
    else Plains(PortPair(ports[0])) + PortArgs(ports[1..])
  }

  function RestartArgs(policy: string): seq<Arg> {
    if policy == "" then [] else Plains(["--restart"]) + QuotedArgs([policy])
  }

  function StartArgs(p: RunSpec): seq<Arg> {
    Plains(["docker", "run", "-d", "--name"]) + QuotedArgs([p.name]) + PortArgs(p.ports)
    + RestartArgs(p.policy) + QuotedArgs([p.ref])
  }

  function TailText(tail: int): string {
    if tail == SENTINEL_TAIL_ALL then "all"
    else Itoa(if tail == 0 then LAST_N_LINES_DEFAULT else tail)
  }

  function OptionArgs(flag: string, value: string): seq<Arg> {
    if value == "" then [] else Plains([flag]) + QuotedArgs([value])
  }

  function LogArgs(p: LogParams): seq<Arg> {
    Plains(["docker", "logs", "--tail", TailText(p.tail)]) + OptionArgs("--since", p.since)
    + OptionArgs("--until", p.until) + (if p.timestamps then Plains(["--timestamps"]) else [])
    + QuotedArgs([p.container])
  }

  function Args(c: Command): seq<Arg> {
    match c
    case Probe => Plains(["command", "-v", "docker"])
    case Login(host, user, _) =>
      Plains(["docker", "login"]) + (if host != "" then QuotedArgs([host]) else [])
      + Plains(["-u"]) + QuotedArgs([user]) + Plains(["--password-stdin"])
    case ListByName(name) => ListArgs("name=^" + name + "$")
    case ListByImage(ref) => ListArgs("ancestor=" + ref)
    case Stop(ids) => Plains(["docker", "stop"]) + QuotedArgs(ids)
    case Remove(ids) => Plains(["docker", "rm", "-f"]) + QuotedArgs(ids)
    case InspectImage(ref) => Plains(["docker", "image", "inspect"]) + QuotedArgs([ref])
    case RemoveImage(ref) => Plains(["docker", "rmi", "-f"]) + QuotedArgs([ref])
    case Pull(ref) => Plains(["docker", "pull"]) + QuotedArgs([ref])
    case Start(p) => StartArgs(p)
    case Pause => []
    case InspectContainer(name) => Plains(["docker", "inspect", "-f"]) + QuotedArgs([INSPECT_FORMAT, name])
  }

  function ListArgs(filter: string): seq<Arg> {
    Plains(["docker", "ps", "-a", "--filter"]) + QuotedArgs([filter]) + Plains(["-q", "--no-trunc"])
  }

  /** The text sent over SSH, before the fixed redirection that InspectImage appends. */
  function CommandText(c: Command): string { CommandLine(Args(c)) }

  // ---------------------------------------------------------------- intended argument vectors

  function PortVector(ports: seq<PortMapping>): seq<string> {
    if ports == [] then []
    else ["-p", Itoa(ports[0].host) + ":" + Itoa(ports[0].container)] + PortVector(ports[1..])
  }

  function RunVector(p: RunSpec): seq<string> {
    ["docker", "run", "-d", "--name", p.name] + PortVector(p.ports)
    + (if p.policy == "" then [] else ["--restart", p.policy]) + [p.ref]
  }

  function Vector(c: Command): seq<string> {
    match c
    case Probe => ["command", "-v", "docker"]
    case Login(host, user, _) =>
      if host == "" then ["docker", "login", "-u", user, "--password-stdin"]
      else ["docker", "login", host, "-u", user, "--password-stdin"]
    case ListByName(name) => ["docker", "ps", "-a", "--filter", "name=^" + name + "$", "-q", "--no-trunc"]
    case ListByImage(ref) => ["docker", "ps", "-a", "--filter", "ancestor=" + ref, "-q", "--no-trunc"]
    case Stop(ids) => ["docker", "stop"] + ids
    case Remove(ids) => ["docker", "rm", "-f"] + ids
    case InspectImage(ref) => ["docker", "image", "inspect", ref]
    case RemoveImage(ref) => ["docker", "rmi", "-f", ref]
    case Pull(ref) => ["docker", "pull", ref]
    case Start(p) => RunVector(p)
    case Pause => []
    case InspectContainer(name) => ["docker", "inspect", "-f", INSPECT_FORMAT, name]
  }

  function OptionVector(flag: string, value: string): seq<string> {
    if value == "" then [] else [flag, value]
  }

  function LogVector(p: LogParams): seq<string> {
    ["docker", "logs", "--tail", TailText(p.tail)]
    + OptionVector("--since", p.since) + OptionVector("--until", p.until)
    + (if p.timestamps then ["--timestamps"] else [])
    + [p.container]
  }

  // ---------------------------------------------------------------- what the vectors say

  /** [host/][namespace/]image:tag, with the empty parts left out. */
  function RefText(host: string, namespace: string, image: string, tag: string): string {
    Join((if host == "" then [] else [host]) + (if namespace == "" then [] else [namespace]) + [image], "/")
    + ":" + tag
  }

  lemma RefIs(host: string, namespace: string, image: string, tag: string)
    ensures ImageRef(host, namespace, image, tag) == RefText(host, namespace, image, tag)
  {
    var rest := (if namespace == "" then [] else [namespace]) + [image];
    assert Join(rest, "/") == if namespace == "" then image else namespace + "/" + image by {
      assert namespace != "" ==> rest[1..] == [image];
    }
    if host == "" {
      assert [] + (if namespace == "" then [] else [namespace]) + [image] == rest;
    } else {
      var parts := [host] + (if namespace == "" then [] else [namespace]) + [image];
      assert parts == [host] + rest && parts[1..] == rest;
    }
  }

  /** One port option: the host's port, a colon, the container's port, in decimal. */
  ghost predicate Publishes(word: string, p: PortMapping) {
    exists host, container ::
      word == host + ":" + container && Denotes(host, p.host) && Denotes(container, p.container)
  }

  /** docker run -d --name NAME -p HOST:CONTAINER ... [--restart POLICY] REF */
  ghost predicate AsksToRun(words: seq<string>, name: string, ports: seq<PortMapping>, policy: string, ref: string) {
    var n := 5 + 2 * |ports|;
    && |words| >= n
    && words[..5] == ["docker", "run", "-d", "--name", name]
    && (forall i :: 0 <= i < |ports| ==> words[5 + 2 * i] == "-p" && Publishes(words[6 + 2 * i], ports[i]))
    && words[n..] == (if policy == "" then [] else ["--restart", policy]) + [ref]
  }

  /** docker logs --tail N [--since TIME] [--until TIME] [--timestamps] CONTAINER, where N is "all" for
      -1, 10000 for 0, and the number asked for otherwise. */
  ghost predicate AsksForLogs(words: seq<string>, p: LogParams) {
    && |words| >= 4 && words[..3] == ["docker", "logs", "--tail"]
    && (if p.tail == -1 then words[3] == "all" else Denotes(words[3], if p.tail == 0 then 10000 else p.tail))
    && words[4..]
       == (if p.since == "" then [] else ["--since", p.since]) + (if p.until == "" then [] else ["--until", p.until])
          + (if p.timestamps then ["--timestamps"] else []) + [p.container]
  }

  lemma PortTextPublishes(p: PortMapping)
    ensures Publishes(PortText(p), p)
  {
    ItoaIff(p.host, Itoa(p.host));
    ItoaIff(p.container, Itoa(p.container));
  }

  lemma PortVectorStep(ports: seq<PortMapping>)
    requires ports != []
    ensures PortVector(ports) == ["-p", PortText(ports[0])] + PortVector(ports[1..])
  {}

  lemma {:induction false} PortVectorSize(ports: seq<PortMapping>)
    ensures |PortVector(ports)| == 2 * |ports|
  {
    if ports != [] {
      PortVectorSize(ports[1..]);
    }
  }

  predicate OptionAt(v: seq<string>, i: nat, text: string) {
    2 * i + 1 < |v| && v[2 * i] == "-p" && v[2 * i + 1] == text
  }

  lemma AfterPair(pair: seq<string>, rest: seq<string>, i: nat, text: string)
    requires |pair| == 2 && OptionAt(rest, i, text)
    ensures OptionAt(pair + rest, i + 1, text)
  {
    assert (pair + rest)[2 * i + 2] == rest[2 * i] && (pair + rest)[2 * i + 3] == rest[2 * i + 1];
  }

  lemma {:induction false} PortVectorAt(ports: seq<PortMapping>, i: nat)
    requires i < |ports|
    ensures OptionAt(PortVector(ports), i, PortText(ports[i]))
  {
    PortVectorStep(ports);
    if i > 0 {
      PortVectorAt(ports[1..], i - 1);
      AfterPair(["-p", PortText(ports[0])], PortVector(ports[1..]), i - 1, PortText(ports[i]));
    }
  }

  lemma InTheMiddle(head: seq<string>, middle: seq<string>, tail: seq<string>, k: nat)
    requires k < |middle|
    ensures (head + middle + tail)[|head| + k] == middle[k]
  {}

  lemma PortOptionAt(head: seq<string>, ports: seq<PortMapping>, tail: seq<string>, i: nat)
    requires |head| == 5 && i < |ports|
    ensures |head + PortVector(ports) + tail| >= 5 + 2 * |ports|
    ensures
      var v := head + PortVector(ports) + tail;
      v[5 + 2 * i] == "-p" && Publishes(v[6 + 2 * i], ports[i])
  {
    PortVectorSize(ports);
    PortVectorAt(ports, i);
    InTheMiddle(head, PortVector(ports), tail, 2 * i);
    InTheMiddle(head, PortVector(ports), tail, 2 * i + 1);
    PortTextPublishes(ports[i]);
  }

  lemma RunVectorIs(p: RunSpec)
    ensures AsksToRun(RunVector(p), p.name, p.ports, p.policy, p.ref)
  {
    var head := ["docker", "run", "-d", "--name", p.name];
    var tail := (if p.policy == "" then [] else ["--restart", p.policy]) + [p.ref];
    var v := head + PortVector(p.ports) + tail;
    PortVectorSize(p.ports);
    RunParts(v, head, PortVector(p.ports), tail);
    forall i | 0 <= i < |p.ports| ensures v[5 + 2 * i] == "-p" && Publishes(v[6 + 2 * i], p.ports[i]) {
      PortOptionAt(head, p.ports, tail, i);
    }
    assert AsksToRun(v, p.name, p.ports, p.policy, p.ref);
    RunVectorParts(p, head, tail);
  }

  lemma RunVectorParts(p: RunSpec, head: seq<string>, tail: seq<string>)
    requires head == ["docker", "run", "-d", "--name", p.name]
    requires tail == (if p.policy == "" then [] else ["--restart", p.policy]) + [p.ref]
    ensures RunVector(p) == head + PortVector(p.ports) + tail
  {}

  lemma RunParts(v: seq<string>, head: seq<string>, middle: seq<string>, tail: seq<string>)
    requires v == head + middle + tail
    ensures v[..|head|] == head && v[|head| + |middle|..] == tail
  {}

  lemma LogVectorIs(p: LogParams)
    ensures AsksForLogs(LogVector(p), p)
  {
    var v, head := LogVector(p), ["docker", "logs", "--tail", TailText(p.tail)];
    var tail :=
      (if p.since == "" then [] else ["--since", p.since]) + (if p.until == "" then [] else ["--until", p.until])
      + (if p.timestamps then ["--timestamps"] else []) + [p.container];
    assert v == head + tail;
    assert v[..3] == ["docker", "logs", "--tail"] && v[3] == TailText(p.tail) && v[4..] == tail;
    if p.tail != -1 {
      var n := if p.tail == 0 then 10000 else p.tail;
      ItoaIff(n, Itoa(n));
    }
  }

  // ---------------------------------------------------------------- vocabulary

  lemma DockerWords()
    ensures SafeList(["docker", "stop"]) && SafeList(["docker", "pull"]) && SafeList(["docker", "login"])
    ensures SafeList(["-u"])
  {}

  lemma RemovalWords()
    ensures SafeList(["docker", "rm", "-f"]) && SafeList(["docker", "rmi", "-f"])
  {}

  lemma InspectWords()
    ensures SafeList(["docker", "inspect", "-f"]) && SafeList(["docker", "image", "inspect"])
  {}

  lemma ListWords()
    ensures SafeList(["docker", "ps", "-a", "--filter"]) && SafeList(["-q", "--no-trunc"])
  {}

  lemma ProbeWords()
    ensures SafeList(["command", "-v", "docker"])
  {}

  lemma LoginWords()
    ensures SafeList(["--password-stdin"])
  {}

  lemma RunWords()
    ensures SafeList(["docker", "run", "-d", "--name"]) && SafeList(["--restart"])
  {}

  lemma LogWords()
    ensures SafeWord("--since") && SafeWord("--until") && SafeList(["--timestamps"])
  {}

  lemma TailWords(tail: int)
    ensures SafeList(["docker", "logs", "--tail", TailText(tail)])
  {
    assert SafeWord("docker") && SafeWord("logs") && SafeWord("--tail");
    assert SafeWord(TailText(tail)) by {
      if tail == SENTINEL_TAIL_ALL {
        assert TailText(tail) == "all";
      } else {
        var n := if tail == 0 then LAST_N_LINES_DEFAULT else tail;
        forall i | 0 <= i < |Itoa(n)| ensures SafeChar(Itoa(n)[i]) {
          assert Itoa(n)[i] == '-' || IsDigit(Itoa(n)[i]);
        }
      }
    }
  }

  lemma PortWords(p: PortMapping)
    ensures SafeList(["-p", PortText(p)])
  {
    forall i | 0 <= i < |PortText(p)| ensures SafeChar(PortText(p)[i]) {
      assert PortText(p)[i] == '-' || PortText(p)[i] == ':' || IsDigit(PortText(p)[i]);
    }
    assert SafeWord("-p");
  }

  lemma PortPairSpells(p: PortMapping)
    ensures Spells(Plains(PortPair(p)), PortPair(p)) && NulFree(PortPair(p))
    ensures Rendered(Plains(PortPair(p))) == PortPair(p)
  {
    PortWords(p);
    PlainsSpell(PortPair(p));
  }

  lemma OptionSpells(flag: string, value: string)
    requires SafeWord(flag)
    ensures Spells(OptionArgs(flag, value), OptionVector(flag, value))
    ensures NulFree(OptionVector(flag, value)) <==> NUL !in value
    ensures Rendered(OptionArgs(flag, value)) == if value == "" then [] else [flag, ShellQuote(value)]
  {
    if value != "" {
      assert SafeList([flag]);
      PlainsSpell([flag]);
      OneQuoted(value);
      SpellsConcat(Plains([flag]), [flag], QuotedArgs([value]), [value]);
      RenderedConcat(Plains([flag]), QuotedArgs([value]));
      assert [flag] + [value] == [flag, value];
    }
  }

  // ---------------------------------------------------------------- proofs

  /** The port options are safe plain text and spell the intended vector. */
  lemma {:induction false} PortArgsSpell(ports: seq<PortMapping>)
    ensures Spells(PortArgs(ports), PortVector(ports)) && NulFree(PortVector(ports))
  {
    if ports != [] {
      var rest := ports[1..];
      PortArgsSpell(rest);
      PortPairSpells(ports[0]);
      SpellsConcat(Plains(PortPair(ports[0])), PortPair(ports[0]), PortArgs(rest), PortVector(rest));
    }
  }

  lemma {:induction false} PortArgsSnoc(ports: seq<PortMapping>, p: PortMapping)
    ensures PortArgs(ports + [p]) == PortArgs(ports) + Plains(PortPair(p))
  {
    if ports == [] {
      assert [p][1..] == [];
    } else {
      assert (ports + [p])[1..] == ports[1..] + [p];
      PortArgsSnoc(ports[1..], p);
    }
  }

  /** docker run -d --name N, and the ports. */
  lemma StartPrefixSpells(name: string, ports: seq<PortMapping>)
    ensures
      var args := Plains(["docker", "run", "-d", "--name"]) + QuotedArgs([name]) + PortArgs(ports);
      var vector := ["docker", "run", "-d", "--name", name] + PortVector(ports);
      Intends(args, vector) && (NulFree(vector) <==> NUL !in name)
  {
    var v0 := ["docker", "run", "-d", "--name"];
    RunWords();
    PlainsSpell(v0);
    OneQuoted(name);
    PortArgsSpell(ports);
    SpellsConcat(Plains(v0), v0, QuotedArgs([name]), [name]);
    SpellsConcat(Plains(v0) + QuotedArgs([name]), v0 + [name], PortArgs(ports), PortVector(ports));
    assert v0 + [name] == ["docker", "run", "-d", "--name", name];
  }

  /** The restart policy, if any, and the image. */
  lemma StartSuffixSpells(policy: string, ref: string)
    ensures
      var args := RestartArgs(policy) + QuotedArgs([ref]);
      var vector := OptionVector("--restart", policy) + [ref];
      Spells(args, vector) && (NulFree(vector) <==> NUL !in policy && NUL !in ref)
  {
    RunWords();
    assert ["--restart"][0] == "--restart";
    OptionSpells("--restart", policy);
    OneQuoted(ref);
    SpellsConcat(RestartArgs(policy), OptionVector("--restart", policy), QuotedArgs([ref]), [ref]);
  }

  lemma StartArgsSpell(p: RunSpec)
    ensures Intends(StartArgs(p), RunVector(p))
    ensures NulFree(RunVector(p)) <==> NUL !in p.name && NUL !in p.policy && NUL !in p.ref
  {
    var a := Plains(["docker", "run", "-d", "--name"]) + QuotedArgs([p.name]) + PortArgs(p.ports);
    var v := ["docker", "run", "-d", "--name", p.name] + PortVector(p.ports);
    var b, w := RestartArgs(p.policy) + QuotedArgs([p.ref]), OptionVector("--restart", p.policy) + [p.ref];
    StartPrefixSpells(p.name, p.ports);
    StartSuffixSpells(p.policy, p.ref);
    SpellsConcat(a, v, b, w);
    assert a + b == StartArgs(p) && v + w == RunVector(p);
  }

  /** Whatever the parameters hold, even ones ValidateParams would reject, the shell reads the
      docker run command as exactly the intended argument vector if and only if the name, the
      restart policy and the image reference are free of NUL; otherwise it reads no command. */
  lemma RunCommandReadsBack(p: RunSpec)
    ensures
      Words(CommandText(Start(p)))
      == if NUL !in p.name && NUL !in p.policy && NUL !in p.ref then Some(RunVector(p)) else None
    ensures AsksToRun(RunVector(p), p.name, p.ports, p.policy, p.ref)
  {
    StartIsRead(p);
    RunVectorIs(p);
  }

  lemma StartIsRead(p: RunSpec)
    ensures
      Words(CommandText(Start(p)))
      == if NUL !in p.name && NUL !in p.policy && NUL !in p.ref then Some(RunVector(p)) else None
  {
    CommandReadsBack(Start(p));
    StartArgsSpell(p);
  }

  /** docker logs --tail N, and the times. */
  lemma LogPrefixSpells(p: LogParams)
    ensures
      var v0 := ["docker", "logs", "--tail", TailText(p.tail)];
      var args := Plains(v0) + OptionArgs("--since", p.since) + OptionArgs("--until", p.until);
      var vector := v0 + OptionVector("--since", p.since) + OptionVector("--until", p.until);
      Intends(args, vector) && (NulFree(vector) <==> NUL !in p.since && NUL !in p.until)
  {
    var v0 := ["docker", "logs", "--tail", TailText(p.tail)];
    var v1, v2 := OptionVector("--since", p.since), OptionVector("--until", p.until);
    var a1, a2 := OptionArgs("--since", p.since), OptionArgs("--until", p.until);
    TailWords(p.tail);
    PlainsSpell(v0);
    LogWords();
    OptionSpells("--since", p.since);
    OptionSpells("--until", p.until);
    SpellsConcat(Plains(v0), v0, a1, v1);
    SpellsConcat(Plains(v0) + a1, v0 + v1, a2, v2);
  }

  /** The flag for timestamps, and the container. */
  lemma LogSuffixSpells(timestamps: bool, container: string)
    ensures
      var args := (if timestamps then Plains(["--timestamps"]) else []) + QuotedArgs([container]);
      var vector := (if timestamps then ["--timestamps"] else []) + [container];
      Spells(args, vector) && (NulFree(vector) <==> NUL !in container)
  {
    LogWords();
    PlainsSpell(["--timestamps"]);
    OneQuoted(container);
    SpellsConcat(if timestamps then Plains(["--timestamps"]) else [], if timestamps then ["--timestamps"] else [],
                 QuotedArgs([container]), [container]);
  }

  lemma LogArgsSpell(p: LogParams)
    ensures Intends(LogArgs(p), LogVector(p))
    ensures NulFree(LogVector(p)) <==> NUL !in p.container && NUL !in p.since && NUL !in p.until
  {
    var v0 := ["docker", "logs", "--tail", TailText(p.tail)];
    var a := Plains(v0) + OptionArgs("--since", p.since) + OptionArgs("--until", p.until);
    var v := v0 + OptionVector("--since", p.since) + OptionVector("--until", p.until);
    var b := (if p.timestamps then Plains(["--timestamps"]) else []) + QuotedArgs([p.container]);
    var w := (if p.timestamps then ["--timestamps"] else []) + [p.container];
    LogPrefixSpells(p);
    LogSuffixSpells(p.timestamps, p.container);
    SpellsConcat(a, v, b, w);
    assert a + b == LogArgs(p) && v + w == LogVector(p);
  }

  lemma LogCommandReadsBack(p: LogParams)
    ensures
      Words(CommandLine(LogArgs(p)))
      == if NUL !in p.container && NUL !in p.since && NUL !in p.until then Some(LogVector(p)) else None
    ensures AsksForLogs(LogVector(p), p)
  {
    LogVectorIs(p);
    LogArgsSpell(p);
    CommandLineReadsBack(LogArgs(p), LogVector(p));
  }

  lemma LoginTailSpells(a: seq<Arg>, v: seq<string>, user: string)
    requires Spells(a, v)
    ensures
      Spells(a + Plains(["-u"]) + QuotedArgs([user]) + Plains(["--password-stdin"]),
             v + ["-u", user, "--password-stdin"])
  {
    DockerWords();
    LoginWords();
    PlainsSpell(["-u"]);
    PlainsSpell(["--password-stdin"]);
    OneQuoted(user);
    SpellsConcat(a, v, Plains(["-u"]), ["-u"]);
    SpellsConcat(a + Plains(["-u"]), v + ["-u"], QuotedArgs([user]), [user]);
    SpellsConcat(a + Plains(["-u"]) + QuotedArgs([user]), v + ["-u"] + [user],
                 Plains(["--password-stdin"]), ["--password-stdin"]);
    assert v + ["-u"] + [user] + ["--password-stdin"] == v + ["-u", user, "--password-stdin"];
  }

  lemma LoginSpells(host: string, user: string, stdin: string)
    ensures Spells(Args(Login(host, user, stdin)), Vector(Login(host, user, stdin)))
  {
    var a, v := Plains(["docker", "login"]), ["docker", "login"];
    DockerWords();
    PlainsSpell(v);
    if host == "" {
      assert a + [] == a;
      LoginTailSpells(a, v, user);
      assert v + ["-u", user, "--password-stdin"] == Vector(Login(host, user, stdin));
    } else {
      OneQuoted(host);
      SpellsConcat(a, v, QuotedArgs([host]), [host]);
      LoginTailSpells(a + QuotedArgs([host]), v + [host], user);
      assert v + [host] + ["-u", user, "--password-stdin"] == Vector(Login(host, user, stdin));
    }
  }

  lemma ListSpells(filter: string)
    ensures Spells(ListArgs(filter), ["docker", "ps", "-a", "--filter", filter, "-q", "--no-trunc"])
  {
    var v0, v1, v2 := ["docker", "ps", "-a", "--filter"], [filter], ["-q", "--no-trunc"];
    ListWords();
    PlainsSpell(v0);
    OneQuoted(filter);
    PlainsSpell(v2);
    SpellsConcat(Plains(v0), v0, QuotedArgs(v1), v1);
    SpellsConcat(Plains(v0) + QuotedArgs(v1), v0 + v1, Plains(v2), v2);
    assert v0 + v1 + v2 == ["docker", "ps", "-a", "--filter", filter, "-q", "--no-trunc"];
  }

  lemma PrefixSpells(prefix: seq<string>, values: seq<string>)
    requires SafeList(prefix)
    ensures Spells(Plains(prefix) + QuotedArgs(values), prefix + values)
  {
    PlainsSpell(prefix);
    QuotedArgsSpell(values);
    SpellsConcat(Plains(prefix), prefix, QuotedArgs(values), values);
  }

  /** Commands that are a fixed prefix and quoted values. */
  lemma PrefixedSpells(c: Command)
    requires c.Stop? || c.Remove? || c.InspectImage? || c.RemoveImage? || c.Pull? || c.InspectContainer?
    ensures Intends(Args(c), Vector(c))
  {
    match c
    case Stop(ids) => DockerWords(); PrefixSpells(["docker", "stop"], ids);
    case Remove(ids) => RemovalWords(); PrefixSpells(["docker", "rm", "-f"], ids);
    case InspectImage(ref) => InspectWords(); PrefixSpells(["docker", "image", "inspect"], [ref]);
    case RemoveImage(ref) => RemovalWords(); PrefixSpells(["docker", "rmi", "-f"], [ref]);
    case Pull(ref) => DockerWords(); PrefixSpells(["docker", "pull"], [ref]);
    case InspectContainer(name) => InspectWords(); PrefixSpells(["docker", "inspect", "-f"], [INSPECT_FORMAT, name]);
  }

  lemma ArgsSpell(c: Command)
    ensures Intends(Args(c), Vector(c))
  {
    match c
    case Probe => ProbeWords(); PlainsSpell(["command", "-v", "docker"]);
    case Login(host, user, stdin) => LoginSpells(host, user, stdin);
    case ListByName(name) => ListSpells("name=^" + name + "$");
    case ListByImage(ref) => ListSpells("ancestor=" + ref);
    case Start(p) => StartArgsSpell(p);
    case Pause =>
    case _ => PrefixedSpells(c);
  }

  /** Every command a runner can send is read by the shell as its intended argument vector,
      if and only if that vector is free of NUL; otherwise as no command at all.  In particular
      container ids echoed by the remote host cannot change the shape of a command. */
  lemma CommandReadsBack(c: Command)
    ensures Words(CommandText(c)) == if NulFree(Vector(c)) then Some(Vector(c)) else None
  {
    ArgsSpell(c);
    CommandLineReadsBack(Args(c), Vector(c));
  }

  // ---------------------------------------------------------------- the builders

  function StartHead(p: RunSpec): seq<Arg> {
    Plains(["docker", "run", "-d", "--name"]) + QuotedArgs([p.name])
  }

  lemma StartHeadRendered(p: RunSpec)
    ensures Rendered(StartHead(p)) == ["docker", "run", "-d", "--name", ShellQuote(p.name)]
  {
    RunWords();
    PlainsSpell(["docker", "run", "-d", "--name"]);
    OneQuoted(p.name);
    RenderedConcat(Plains(["docker", "run", "-d", "--name"]), QuotedArgs([p.name]));
  }

  lemma StartTailRendered(args: seq<Arg>, policy: string, ref: string)
    ensures
      Rendered(args + RestartArgs(policy) + QuotedArgs([ref]))
      == Rendered(args) + (if policy != "" then ["--restart", ShellQuote(policy)] else []) + [ShellQuote(ref)]
  {
    RunWords();
    assert ["--restart"][0] == "--restart";
    OptionSpells("--restart", policy);
    assert RestartArgs(policy) == OptionArgs("--restart", policy);
    RenderedConcat(args, RestartArgs(policy));
    OneQuoted(ref);
    RenderedConcat(args + RestartArgs(policy), QuotedArgs([ref]));
  }

  lemma StartRendered(p: DeployParams, spec: RunSpec, head: seq<string>)
    requires spec == p.Spec() && head == Rendered(StartHead(spec) + PortArgs(p.ports))
    ensures
      Rendered(Args(Start(spec)))
      == head + (if p.restartPolicy != "" then ["--restart", ShellQuote(p.restartPolicy)] else [])
         + [ShellQuote(p.Ref())]
  {
    StartTailRendered(StartHead(spec) + PortArgs(p.ports), p.restartPolicy, p.Ref());
  }

  /** The shell reads cmd as the docker run that p asks for, or as nothing when a parameter holds NUL. */
  ghost predicate ReadsAsRun(cmd: string, p: DeployParams) {
    var ref := RefText(p.registryHost, p.registryNamespace, p.image, p.tag);
    if NUL !in p.containerName && NUL !in p.restartPolicy && NUL !in ref
    then Words(cmd).Some? && AsksToRun(Words(cmd).value, p.containerName, p.ports, p.restartPolicy, ref)
    else Words(cmd) == None
  }

  lemma RunCommandIsRead(p: DeployParams)
    ensures ReadsAsRun(CommandText(Start(p.Spec())), p)
  {
    RefIs(p.registryHost, p.registryNamespace, p.image, p.tag);
    RunCommandReadsBack(p.Spec());
  }

  /** buildDockerRunCommand */
  method BuildDockerRunCommand(p: DeployParams) returns (cmd: string)
    ensures cmd == CommandText(Start(p.Spec()))
    ensures ReadsAsRun(cmd, p)
  {
    ghost var spec := p.Spec();
    var parts := ["docker", "run", "-d"];
    parts := parts + ["--name", ShellQuote(p.containerName)];
    StartHeadRendered(spec);
    assert StartHead(spec) + PortArgs(p.ports[..0]) == StartHead(spec);
    for i := 0 to |p.ports|
      invariant parts == Rendered(StartHead(spec) + PortArgs(p.ports[..i]))
    {
      parts := parts + ["-p", Itoa(p.ports[i].host) + ":" + Itoa(p.ports[i].container)];
      PortStep(StartHead(spec), p.ports, i);
    }
    assert p.ports[..|p.ports|] == p.ports;
    ghost var head := parts;
    if p.restartPolicy != "" {
      parts := parts + ["--restart", ShellQuote(p.restartPolicy)];
    }
    assert parts == head + if p.restartPolicy != "" then ["--restart", ShellQuote(p.restartPolicy)] else [];
    parts := parts + [ShellQuote(p.Ref())];
    StartRendered(p, spec, head);
    cmd := Join(parts, " ");
    RunCommandIsRead(p);
  }

  lemma PortStep(args: seq<Arg>, ports: seq<PortMapping>, i: nat)
    requires i < |ports|
    ensures Rendered(args + PortArgs(ports[..i + 1])) == Rendered(args + PortArgs(ports[..i])) + PortPair(ports[i])
  {
    var pair := PortPair(ports[i]);
    assert ports[..i + 1] == ports[..i] + [ports[i]];
    PortArgsSnoc(ports[..i], ports[i]);
    assert args + PortArgs(ports[..i + 1]) == (args + PortArgs(ports[..i])) + Plains(pair);
    PortPairSpells(ports[i]);
    RenderedConcat(args + PortArgs(ports[..i]), Plains(pair));
  }

  lemma OptionRendered(args: seq<Arg>, flag: string, value: string)
    requires SafeWord(flag)
    ensures Rendered(args + OptionArgs(flag, value))
            == Rendered(args) + if value == "" then [] else [flag, ShellQuote(value)]
  {
    OptionSpells(flag, value);
    RenderedConcat(args, OptionArgs(flag, value));
  }

  lemma LogTailRendered(args: seq<Arg>, p: LogParams)
    ensures
      Rendered(args + (if p.timestamps then Plains(["--timestamps"]) else []) + QuotedArgs([p.container]))
      == Rendered(args) + (if p.timestamps then ["--timestamps"] else []) + [ShellQuote(p.container)]
  {
    LogWords();
    PlainsSpell(["--timestamps"]);
    OneQuoted(p.container);
    var middle := if p.timestamps then Plains(["--timestamps"]) else [];
    RenderedConcat(args, middle);
    RenderedConcat(args + middle, QuotedArgs([p.container]));
  }

  lemma LogArgsRendered(p: LogParams)
    ensures
      Rendered(LogArgs(p)) ==
        ["docker", "logs", "--tail", TailText(p.tail)]
        + (if p.since == "" then [] else ["--since", ShellQuote(p.since)])
        + (if p.until == "" then [] else ["--until", ShellQuote(p.until)])
        + (if p.timestamps then ["--timestamps"] else [])
        + [ShellQuote(p.container)]
  {
    var head := ["docker", "logs", "--tail", TailText(p.tail)];
    TailWords(p.tail);
    PlainsSpell(head);
    LogWords();
    OptionRendered(Plains(head), "--since", p.since);
    OptionRendered(Plains(head) + OptionArgs("--since", p.since), "--until", p.until);
    LogTailRendered(Plains(head) + OptionArgs("--since", p.since) + OptionArgs("--until", p.until), p);
  }

  /** buildDockerLogsCommand */
  method BuildDockerLogsCommand(p: LogParams) returns (cmd: string)
    ensures
      if NUL !in p.container && NUL !in p.since && NUL !in p.until
      then Words(cmd).Some? && AsksForLogs(Words(cmd).value, p) else Words(cmd) == None
  {
    var parts := ["docker", "logs"];
    var tail := p.tail;
    if tail == 0 {
      tail := LAST_N_LINES_DEFAULT;
    }
    if tail == SENTINEL_TAIL_ALL {
      parts := parts + ["--tail", "all"];
    } else {
      parts := parts + ["--tail", Itoa(tail)];
    }
    ghost var head := ["docker", "logs", "--tail", TailText(p.tail)];
    assert parts == head;
    if p.since != "" {
      parts := parts + ["--since", ShellQuote(p.since)];
    }
    ghost var since := if p.since == "" then [] else ["--since", ShellQuote(p.since)];
    assert parts == head + since;
    if p.until != "" {
      parts := parts + ["--until", ShellQuote(p.until)];
    }
    ghost var until := if p.until == "" then [] else ["--until", ShellQuote(p.until)];
    assert parts == head + since + until;
    if p.timestamps {
      parts := parts + ["--timestamps"];
    }
    assert parts == head + since + until + if p.timestamps then ["--timestamps"] else [];
    parts := parts + [ShellQuote(p.container)];
    LogArgsRendered(p);
    cmd := Join(parts, " ");
    LogCommandReadsBack(p);
  }
}
