/** The deploy runner: login, stop, rm, rmi, pull, run, verify, against any remote side.

    DeployRun is the run as a function of the remote side's behaviour; the methods at the end are the
    runner itself, filling in its result step by step, and are proved equal to it.  The lemmas
    state what every run reports, what it asks in which order, and what it does to a host. */
module Deploy {
  import opened Text
  import opened DockerCommands
  import opened Remote
  import opened Runner
  import ShellWords

  const NAMES: seq<StepName> :=
    [RegistryLogin, StopExisting, RemoveExisting, RemoveImageStep, PullImage, RunContainer, VerifyRunning]

  // ---------------------------------------------------------------- pure helpers

  /** strings.ToLower on ASCII, and on the two other code points whose lower case is ASCII. */
  function LowerChar(c: char): char {
    if 'A' <= c <= 'Z' then (c as int + 32) as char
    else if c == '\U{130}' then 'i' else if c == '\U{212A}' then 'k' else c
  }

  function Lower(s: string): string { seq(|s|, i requires 0 <= i < |s| => LowerChar(s[i])) }

  predicate Contains(s: string, t: string) { t <= s || (s != "" && Contains(s[1..], t)) }

  predicate IsDockerHubHost(host: string) {
    Lower(Trim(host)) in {"", "docker.io", "index.docker.io", "registry-1.docker.io", "registry.hub.docker.com"}
  }

  predicate ControlChar(c: char) { c == '\r' || c == '\n' || c == '\t' }

  function SanitizeRegistryPassword(pw: string): string {
    if pw != "" && (ControlChar(pw[|pw| - 1]) || pw[|pw| - 1] == ' ')
    then SanitizeRegistryPassword(pw[..|pw| - 1]) else pw
  }

  predicate ContainsControlChar(s: string) { exists i :: 0 <= i < |s| && ControlChar(s[i]) }

  predicate IsHardStopError(stderr: string) {
    var s := Lower(stderr);
    !(Contains(s, "is not running") || Contains(s, "no such container")) && s != ""
  }

  // ---------------------------------------------------------------- what the helpers mean

  /** t is s in lower case: A to Z moved up by 32, the two other code points with an ASCII lower case
      replaced, everything else as it is. */
  predicate IsLower(s: string, t: string) {
    && |t| == |s|
    && forall i :: 0 <= i < |s| ==>
         if 'A' <= s[i] <= 'Z' then t[i] as int == s[i] as int + 32
         else if s[i] == '\U{130}' then t[i] == 'i' else if s[i] == '\U{212A}' then t[i] == 'k' else t[i] == s[i]
  }

  lemma LowerIff(s: string, t: string)
    ensures IsLower(s, t) <==> t == Lower(s)
  {
    if IsLower(s, t) {
      forall i | 0 <= i < |s| ensures t[i] == LowerChar(s[i]) {
        assert 'A' <= s[i] <= 'Z' ==> LowerChar(s[i]) as int == s[i] as int + 32;
      }
    }
  }

  /** Nothing but blanks, or one of the four names of Docker Hub in any case and with any blanks
      around it. */
  predicate NamesDockerHub(host: string) {
    var h := Trim(host);
    || h == "" || IsLower(h, "docker.io") || IsLower(h, "index.docker.io") || IsLower(h, "registry-1.docker.io")
    || IsLower(h, "registry.hub.docker.com")
  }

  lemma HubHostIff(host: string)
    ensures IsDockerHubHost(if host == "" then "docker.io" else host) <==> NamesDockerHub(host)
  {
    var h := Trim(host);
    LowerIff(h, "docker.io");
    LowerIff(h, "index.docker.io");
    LowerIff(h, "registry-1.docker.io");
    LowerIff(h, "registry.hub.docker.com");
    TrimOfTrimmed("docker.io");
    LowerIff("docker.io", "docker.io");
    assert Lower(h) == "" <==> h == "";
  }

  /** clean is the longest prefix of password that does not end in CR, LF, TAB or a blank. */
  predicate IsSanitised(password: string, clean: string) {
    && clean <= password && (clean != "" ==> clean[|clean| - 1] !in "\r\n\t ")
    && forall i :: |clean| <= i < |password| ==> password[i] in "\r\n\t "
  }

  lemma {:induction false} SanitisedIff(password: string, clean: string)
    ensures IsSanitised(password, clean) <==> clean == SanitizeRegistryPassword(password)
  {
    if password != "" {
      var init, last := password[..|password| - 1], password[|password| - 1];
      assert last in "\r\n\t " <==> ControlChar(last) || last == ' ';
      SanitisedIff(init, clean);
      if last in "\r\n\t " {
        assert clean <= init ==> clean <= password;
        assert IsSanitised(password, clean) ==> clean != password;
        assert forall i :: 0 <= i < |init| ==> init[i] == password[i];
      }
    }
  }

  /** Neither CR nor LF nor TAB anywhere. */
  predicate NoControl(s: string) { '\r' !in s && '\n' !in s && '\t' !in s }

  lemma NoControlIff(s: string)
    ensures NoControl(s) <==> !ContainsControlChar(s)
  {}

  /** The phrase, given in lower case, stands somewhere in s. */
  ghost predicate Mentions(s: string, phrase: string) {
    exists before, word, after :: s == before + word + after && IsLower(word, phrase)
  }

  lemma {:induction false} ContainsInside(before: string, t: string, after: string)
    ensures Contains(before + t + after, t)
  {
    var s := before + t + after;
    if before == "" {
      assert s[..|t|] == t;
    } else {
      ContainsInside(before[1..], t, after);
      assert s[1..] == before[1..] + t + after;
    }
  }

  lemma {:induction false} ContainedAt(s: string, t: string) returns (before: string, after: string)
    requires Contains(s, t)
    ensures s == before + t + after
  {
    if t <= s {
      before, after := "", s[|t|..];
    } else {
      before, after := ContainedAt(s[1..], t);
      before := [s[0]] + before;
    }
  }

  lemma LowerParts(before: string, word: string, after: string)
    ensures Lower(before + word + after) == Lower(before) + Lower(word) + Lower(after)
  {}

  lemma MentionedIsContained(before: string, word: string, after: string, phrase: string)
    requires IsLower(word, phrase)
    ensures Contains(Lower(before + word + after), phrase)
  {
    LowerIff(word, phrase);
    LowerParts(before, word, after);
    ContainsInside(Lower(before), phrase, Lower(after));
  }

  lemma ContainedIsMentioned(s: string, phrase: string)
    requires Contains(Lower(s), phrase)
    ensures Mentions(s, phrase)
  {
    var before, after := ContainedAt(Lower(s), phrase);
    var i, j := |before|, |before| + |phrase|;
    assert s == s[..i] + s[i..j] + s[j..];
    assert Lower(s[i..j]) == Lower(s)[i..j] == phrase;
    LowerIff(s[i..j], phrase);
  }

  lemma MentionsIff(s: string, phrase: string)
    ensures Mentions(s, phrase) <==> Contains(Lower(s), phrase)
  {
    if Mentions(s, phrase) {
      var before, word, after :| s == before + word + after && IsLower(word, phrase);
      MentionedIsContained(before, word, after, phrase);
    }
    if Contains(Lower(s), phrase) {
      ContainedIsMentioned(s, phrase);
    }
  }

  /** A failed docker stop is forgiven when it says nothing, or that a container is not running or
      not there. */
  ghost predicate Forgiven(stderr: string) {
    stderr == "" || Mentions(stderr, "is not running") || Mentions(stderr, "no such container")
  }

  lemma HardStopIff(stderr: string)
    ensures IsHardStopError(stderr) <==> !Forgiven(stderr)
  {
    MentionsIff(stderr, "is not running");
    MentionsIff(stderr, "no such container");
  }

  // ---------------------------------------------------------------- the run

  datatype Run = Run(log: seq<Command>, done: seq<Status>, containerID: string)

  function LoginCommand(p: DeployParams): Command {
    var host := if p.registryHost == "" then "docker.io" else p.registryHost;
    var password := SanitizeRegistryPassword(p.registryPassword);
    if IsDockerHubHost(host) then Login("", Lower(p.registryUsername), password)
    else Login(host, p.registryUsername, password)
  }

  predicate HasCredentials(p: DeployParams) {
    p.registryUsername != "" && SanitizeRegistryPassword(p.registryPassword) != ""
  }

  function LoginLog(log: seq<Command>, p: DeployParams): seq<Command> {
    if HasCredentials(p) && !ContainsControlChar(SanitizeRegistryPassword(p.registryPassword))
    then log + [LoginCommand(p)] else log
  }

  function LoginStatus(o: Oracle, log: seq<Command>, p: DeployParams): Status {
    if !HasCredentials(p) then Skipped
    else if ContainsControlChar(SanitizeRegistryPassword(p.registryPassword)) then Failed
    else if o(LoginLog(log, p)).ok then Ok else Failed
  }

  function FromVerify(o: Oracle, log: seq<Command>, p: DeployParams, done: seq<Status>, id: string): Run {
    var paused := log + [Pause];
    if !o(paused).ok then Run(paused, done + [Failed], id)
    else
      var asked := paused + [InspectContainer(p.containerName)];
      Run(asked, done + [if o(asked).ok && SaysRunning(o(asked).stdout) then Ok else Failed], id)
  }

  function FromStart(o: Oracle, log: seq<Command>, p: DeployParams, done: seq<Status>): Run {
    var started := log + [Start(p.Spec())];
    if !o(started).ok then Run(started, done + [Failed], "")
    else FromVerify(o, started, p, done + [Ok], Trim(o(started).stdout))
  }

  function FromPull(o: Oracle, log: seq<Command>, p: DeployParams, done: seq<Status>): Run {
    var pulled := log + [Pull(p.Ref())];
    if !o(pulled).ok then Run(pulled, done + [Failed], "") else FromStart(o, pulled, p, done + [Ok])
  }

  function FromImage(o: Oracle, log: seq<Command>, p: DeployParams, done: seq<Status>): Run {
    var inspected := log + [InspectImage(p.Ref())];
    if !o(inspected).ok then FromPull(o, inspected, p, done + [Skipped])
    else
      var removed := inspected + [RemoveImage(p.Ref())];
      FromPull(o, removed, p, done + [if o(removed).ok then Ok else Skipped])
  }

  function FromRemove(o: Oracle, log: seq<Command>, p: DeployParams, done: seq<Status>, ids: seq<string>): Run {
    if ids == [] then FromImage(o, log, p, done + [Skipped])
    else
      var removed := log + [Remove(ids)];
      if !o(removed).ok then Run(removed, done + [Failed], "") else FromImage(o, removed, p, done + [Ok])
  }

  function FromFind(o: Oracle, log: seq<Command>, p: DeployParams, done: seq<Status>): Run {
    var ids := FindIds(o, log, true, p.containerName, p.Ref());
    var found := FindLog(log, true, p.containerName, p.Ref());
    if ids == [] then FromRemove(o, found, p, done + [Skipped], ids)
    else
      var stopped := found + [Stop(ids)];
      if !o(stopped).ok && IsHardStopError(o(stopped).stderr) then Run(stopped, done + [Failed], "")
      else FromRemove(o, stopped, p, done + [Ok], ids)
  }

  function FromLogin(o: Oracle, log: seq<Command>, p: DeployParams): Run {
    var st := LoginStatus(o, log, p);
    if st == Failed then Run(LoginLog(log, p), [Failed], "") else FromFind(o, LoginLog(log, p), p, [st])
  }

  predicate Available(o: Oracle) { o([Probe]).ok && o([Probe]).stdout != "" }

  function DeployRun(o: Oracle, p: DeployParams): Run {
    if Available(o) then FromLogin(o, [Probe], p) else Run([Probe], [], "")
  }

  /** Success is computed only at the end of the chain. */
  function ReportOf(available: bool, run: Run): Report {
    Report(available, |run.done| == |NAMES| && AllOK(Padded(NAMES, run.done)), run.containerID, Padded(NAMES, run.done))
  }

  function DeployReport(o: Oracle, p: DeployParams): Report { ReportOf(Available(o), DeployRun(o, p)) }

  // ---------------------------------------------------------------- every run's report

  /** All passed, or the last one failed and the rest have not run. */
  predicate Chain(done: seq<Status>) {
    && done != []
    && (forall i :: 0 <= i < |done| - 1 ==> Passed(done[i]))
    && (done[|done| - 1] == Failed || (done[|done| - 1] == Ok && |done| == |NAMES|))
    && |done| <= |NAMES|
  }

  predicate AllPassed(done: seq<Status>) { forall i :: 0 <= i < |done| ==> Passed(done[i]) }

  lemma VerifyChain(o: Oracle, log: seq<Command>, p: DeployParams, done: seq<Status>, id: string)
    requires |done| == 6 && AllPassed(done)
    ensures var d := FromVerify(o, log, p, done, id).done; Chain(d) && done <= d
  {}

  lemma StartChain(o: Oracle, log: seq<Command>, p: DeployParams, done: seq<Status>)
    requires |done| == 5 && AllPassed(done)
    ensures var d := FromStart(o, log, p, done).done; Chain(d) && done <= d
  {
    var started := log + [Start(p.Spec())];
    VerifyChain(o, started, p, done + [Ok], Trim(o(started).stdout));
  }

  lemma PullChain(o: Oracle, log: seq<Command>, p: DeployParams, done: seq<Status>)
    requires |done| == 4 && AllPassed(done)
    ensures var d := FromPull(o, log, p, done).done; Chain(d) && done <= d
  {
    StartChain(o, log + [Pull(p.Ref())], p, done + [Ok]);
  }

  lemma ImageChain(o: Oracle, log: seq<Command>, p: DeployParams, done: seq<Status>)
    requires |done| == 3 && AllPassed(done)
    ensures var d := FromImage(o, log, p, done).done; Chain(d) && done <= d && (|d| > 3 ==> Passed(d[3]))
  {
    var inspected := log + [InspectImage(p.Ref())];
    var removed := inspected + [RemoveImage(p.Ref())];
    PullChain(o, inspected, p, done + [Skipped]);
    PullChain(o, removed, p, done + [if o(removed).ok then Ok else Skipped]);
  }

  lemma FindChain(o: Oracle, log: seq<Command>, p: DeployParams, done: seq<Status>)
    requires |done| == 1 && AllPassed(done)
    ensures var d := FromFind(o, log, p, done).done; Chain(d) && done <= d && (|d| > 3 ==> Passed(d[3]))
  {
    var ids := FindIds(o, log, true, p.containerName, p.Ref());
    var found := FindLog(log, true, p.containerName, p.Ref());
    if ids == [] {
      ImageChain(o, found, p, done + [Skipped] + [Skipped]);
    } else {
      ImageChain(o, found + [Stop(ids)] + [Remove(ids)], p, done + [Ok] + [Ok]);
    }
  }

  lemma DeployChain(o: Oracle, p: DeployParams)
    requires Available(o)
    ensures var d := DeployRun(o, p).done; Chain(d) && (|d| > 3 ==> Passed(d[3]))
  {
    var st := LoginStatus(o, [Probe], p);
    if st != Failed {
      FindChain(o, LoginLog([Probe], p), p, [st]);
    }
  }

  /** Whatever the remote side does, a deploy report has exactly one of the three shapes, and the
      best-effort image removal is never the step that failed. */
  lemma DeployIsWellShaped(o: Oracle, p: DeployParams)
    ensures WellShaped(DeployReport(o, p))
    ensures Unavailable(DeployReport(o, p)) <==> !Available(o)
    ensures !FailedAt(DeployReport(o, p), 3)
  {
    if Available(o) {
      DeployChain(o, p);
      ChainIsShaped(DeployRun(o, p), DeployReport(o, p));
    }
  }

  lemma ChainIsShaped(run: Run, r: Report)
    requires Chain(run.done) && r == ReportOf(true, run)
    ensures WellShaped(r) && !Unavailable(r)
    ensures (|run.done| > 3 ==> Passed(run.done[3])) ==> !FailedAt(r, 3)
  {
    var d := run.done;
    assert forall i :: 0 <= i < |d| ==> r.steps[i].status == d[i];
    PaddedShape(NAMES, d, r);
  }

  // ---------------------------------------------------------------- what is asked, in which order

  /** The containers a run stops and removes. */
  function Targets(o: Oracle, p: DeployParams): seq<string> {
    if Reached(o, p) then FindIds(o, LoginLog([Probe], p), true, p.containerName, p.Ref()) else []
  }

  /** The run gets as far as looking for containers. */
  predicate Reached(o: Oracle, p: DeployParams) {
    Available(o) && LoginStatus(o, [Probe], p) != Failed
  }

  /** From position n on, no login and nothing that stops, removes or starts a container. */
  predicate Harmless(log: seq<Command>, n: nat) {
    forall k :: n <= k < |log| ==> !log[k].Login? && !log[k].Stop? && !log[k].Remove? && !log[k].Start?
  }

  lemma VerifyLog(o: Oracle, log: seq<Command>, p: DeployParams, done: seq<Status>, id: string)
    ensures
      var r := FromVerify(o, log, p, done, id);
      && log <= r.log && Harmless(r.log, |log|)
      && (r.done[|r.done| - 1] == Ok ==>
            && |r.log| > 0 && r.log[|r.log| - 1] == InspectContainer(p.containerName)
            && o(r.log).ok && SaysRunning(o(r.log).stdout))
  {}

  /** The tail of a run from the pull on: at most one start, right after a successful pull. */
  ghost predicate TailLog(o: Oracle, log: seq<Command>, p: DeployParams, r: Run) {
    && log <= r.log
    && (forall k :: |log| <= k < |r.log| ==> !r.log[k].Login? && !r.log[k].Stop? && !r.log[k].Remove?)
    && (forall k :: |log| <= k < |r.log| && r.log[k].Start? ==>
          && r.log[k] == Start(p.Spec())
          && k > |log| && r.log[k - 1] == Pull(p.Ref()) && o(r.log[..k]).ok
          && Harmless(r.log, k + 1))
    && (|r.done| == |NAMES| && r.done[|r.done| - 1] == Ok ==>
          && |r.log| > 0 && r.log[|r.log| - 1] == InspectContainer(p.containerName)
          && o(r.log).ok && SaysRunning(o(r.log).stdout))
  }

  lemma PullLog(o: Oracle, log: seq<Command>, p: DeployParams, done: seq<Status>)
    requires |done| == 4
    ensures TailLog(o, log, p, FromPull(o, log, p, done))
  {
    var pulled := log + [Pull(p.Ref())];
    var r := FromPull(o, log, p, done);
    if o(pulled).ok {
      var started := pulled + [Start(p.Spec())];
      if o(started).ok {
        VerifyLog(o, started, p, done + [Ok] + [Ok], Trim(o(started).stdout));
        assert started <= r.log && Harmless(r.log, |started|);
      } else {
        assert r.log == started;
      }
      assert r.log[|pulled|] == Start(p.Spec()) && r.log[..|pulled|] == pulled;
      assert r.log[|log|] == Pull(p.Ref());
    }
  }

  lemma ImageLog(o: Oracle, log: seq<Command>, p: DeployParams, done: seq<Status>)
    requires |done| == 3
    ensures TailLog(o, log, p, FromImage(o, log, p, done))
  {
    var inspected := log + [InspectImage(p.Ref())];
    if o(inspected).ok {
      var removed := inspected + [RemoveImage(p.Ref())];
      PullLog(o, removed, p, done + [if o(removed).ok then Ok else Skipped]);
    } else {
      PullLog(o, inspected, p, done + [Skipped]);
    }
  }

  /** What a run does once the containers are known. */
  ghost predicate FindTail(o: Oracle, log: seq<Command>, p: DeployParams, r: Run) {
    var ids := FindIds(o, log, true, p.containerName, p.Ref());
    var found := FindLog(log, true, p.containerName, p.Ref());
    && found <= r.log
    && (forall k :: |found| <= k < |r.log| ==>
          !r.log[k].Login? && (r.log[k].Stop? || r.log[k].Remove? ==> r.log[k].ids == ids && ids != []))
    && (forall k :: |found| <= k < |r.log| && r.log[k].Start? ==>
          && r.log[k] == Start(p.Spec())
          && (ids != [] ==> Succeeded(o, r.log[..k], Remove(ids)))
          && Succeeded(o, r.log[..k], Pull(p.Ref()))
          && Harmless(r.log, k + 1))
    && (|r.done| > 2 && Passed(r.done[2]) && ids != [] ==> Succeeded(o, r.log, Remove(ids)))
    && (|r.done| == |NAMES| && r.done[|r.done| - 1] == Ok ==>
          && |r.log| > 0 && r.log[|r.log| - 1] == InspectContainer(p.containerName)
          && o(r.log).ok && SaysRunning(o(r.log).stdout))
  }

  lemma PullJustSucceeded(o: Oracle, log: seq<Command>, k: nat, ref: string)
    requires 0 < k <= |log| && log[k - 1] == Pull(ref) && o(log[..k]).ok
    ensures Succeeded(o, log[..k], Pull(ref))
  {
    var init := log[..k - 1];
    assert log[..k] == init + [Pull(ref)];
    SucceededLast(o, init, Pull(ref));
  }

  /** What makes a start in the tail legitimate. */
  lemma StartIsReady(o: Oracle, p: DeployParams, before: seq<Command>, ids: seq<string>, r: Run, k: nat)
    requires TailLog(o, before, p, r) && |before| <= k < |r.log| && r.log[k].Start?
    requires ids != [] ==> Succeeded(o, before, Remove(ids))
    ensures (ids != [] ==> Succeeded(o, r.log[..k], Remove(ids))) && Succeeded(o, r.log[..k], Pull(p.Ref()))
  {
    assert k > |before|;
    PullJustSucceeded(o, r.log, k, p.Ref());
    if ids != [] {
      SucceededLater(o, before, r.log[..k], Remove(ids));
    }
  }

  lemma FindTailFromImage(o: Oracle, log: seq<Command>, p: DeployParams, before: seq<Command>, r: Run)
    requires TailLog(o, before, p, r)
    requires
      var ids := FindIds(o, log, true, p.containerName, p.Ref());
      var found := FindLog(log, true, p.containerName, p.Ref());
      if ids == [] then before == found
      else before == found + [Stop(ids)] + [Remove(ids)] && o(before).ok
    ensures FindTail(o, log, p, r)
  {
    var ids := FindIds(o, log, true, p.containerName, p.Ref());
    var found := FindLog(log, true, p.containerName, p.Ref());
    if ids != [] {
      SucceededLast(o, found + [Stop(ids)], Remove(ids));
      SucceededLater(o, before, r.log, Remove(ids));
      assert r.log[|found|] == before[|found|] && r.log[|found| + 1] == before[|found| + 1];
    }
    forall k | |found| <= k < |r.log| && r.log[k].Start?
      ensures (ids != [] ==> Succeeded(o, r.log[..k], Remove(ids))) && Succeeded(o, r.log[..k], Pull(p.Ref()))
    {
      StartIsReady(o, p, before, ids, r, k);
    }
  }

  lemma FindLogFacts(o: Oracle, log: seq<Command>, p: DeployParams, done: seq<Status>)
    requires |done| == 1
    ensures FindTail(o, log, p, FromFind(o, log, p, done))
  {
    var ids := FindIds(o, log, true, p.containerName, p.Ref());
    var found := FindLog(log, true, p.containerName, p.Ref());
    var r := FromFind(o, log, p, done);
    if ids == [] {
      ImageLog(o, found, p, done + [Skipped] + [Skipped]);
      FindTailFromImage(o, log, p, found, r);
    } else {
      var stopped := found + [Stop(ids)];
      var removed := stopped + [Remove(ids)];
      if !(!o(stopped).ok && IsHardStopError(o(stopped).stderr)) && o(removed).ok {
        ImageLog(o, removed, p, done + [Ok] + [Ok]);
        FindTailFromImage(o, log, p, removed, r);
      }
    }
  }

  /** The run up to and including the listings. */
  lemma FoundPrefix(o: Oracle, p: DeployParams)
    requires Reached(o, p)
    ensures
      var before, log := LoginLog([Probe], p), DeployRun(o, p).log;
      var found := FindLog(before, true, p.containerName, p.Ref());
      && FindTail(o, before, p, DeployRun(o, p))
      && before <= found <= log
      && forall k :: 0 <= k < |found| ==> ReadOnly(log[k])
  {
    var before, log := LoginLog([Probe], p), DeployRun(o, p).log;
    var found := FindLog(before, true, p.containerName, p.Ref());
    FindLogFacts(o, before, p, [LoginStatus(o, [Probe], p)]);
    forall k | 0 <= k < |found| ensures ReadOnly(log[k]) {
      assert log[k] == found[k];
    }
  }

  lemma DisciplineFrom(log: seq<Command>, n: nat, ids: seq<string>, spec: RunSpec)
    requires n <= |log| && forall k :: 0 <= k < n ==> ReadOnly(log[k])
    requires forall k :: n <= k < |log| ==> (log[k].Stop? || log[k].Remove? ==> log[k].ids == ids)
    requires forall k :: n <= k < |log| && log[k].Start? ==> log[k] == Start(spec) && Harmless(log, k + 1)
    ensures Disciplined(log, ids, Some(spec))
  {
    forall k, l | 0 <= k < l < |log| ensures !(log[k].Start? && log[l].Start?) {
      if log[k].Start? {
        assert k >= n && Harmless(log, k + 1);
      }
    }
  }

  /** Stop and rm name exactly the containers found, and docker run is asked at most once and with
      the given parameters. */
  lemma DeployIsDisciplined(o: Oracle, p: DeployParams)
    ensures Disciplined(DeployRun(o, p).log, Targets(o, p), Some(p.Spec()))
  {
    if Reached(o, p) {
      FoundPrefix(o, p);
      var found := FindLog(LoginLog([Probe], p), true, p.containerName, p.Ref());
      DisciplineFrom(DeployRun(o, p).log, |found|, Targets(o, p), p.Spec());
    }
  }

  /** docker run is asked only after the login (when there are credentials), the removal of every
      container found and the pull have all succeeded. */
  lemma DeployOrder(o: Oracle, p: DeployParams, k: nat)
    requires k < |DeployRun(o, p).log| && DeployRun(o, p).log[k].Start?
    ensures
      var log := DeployRun(o, p).log;
      && (HasCredentials(p) ==> Succeeded(o, log[..k], LoginCommand(p)))
      && (Targets(o, p) != [] ==> Succeeded(o, log[..k], Remove(Targets(o, p))))
      && Succeeded(o, log[..k], Pull(p.Ref()))
  {
    assert Reached(o, p);
    FoundPrefix(o, p);
    var log, before := DeployRun(o, p).log, LoginLog([Probe], p);
    if HasCredentials(p) {
      SucceededLast(o, [Probe], LoginCommand(p));
      assert before <= log[..k];
      SucceededLater(o, before, log[..k], LoginCommand(p));
    }
  }

  // ---------------------------------------------------------------- the login

  /** The login for p: at the host it names, or, for Docker Hub, at no host and in lower case. */
  ghost predicate IsLogin(p: DeployParams, clean: string, c: Command) {
    && c.Login? && c.stdin == clean
    && if NamesDockerHub(p.registryHost) then c.host == "" && IsLower(p.registryUsername, c.user)
       else c.host == p.registryHost && c.user == p.registryUsername
  }

  /** login is what a deploy asks before its search: nothing when user or password is empty or the
      password holds a control character, else the one login. */
  ghost predicate IsLoginPart(p: DeployParams, clean: string, login: seq<Command>) {
    if p.registryUsername == "" || clean == "" || !NoControl(clean) then login == []
    else |login| == 1 && IsLogin(p, clean, login[0])
  }

  lemma LoginCommandIff(p: DeployParams, clean: string, c: Command)
    requires IsSanitised(p.registryPassword, clean)
    ensures IsLogin(p, clean, c) <==> c == LoginCommand(p)
  {
    SanitisedIff(p.registryPassword, clean);
    HubHostIff(p.registryHost);
    if c.Login? {
      LowerIff(p.registryUsername, c.user);
    }
    assert p.registryHost == "" ==> NamesDockerHub(p.registryHost) by {
      assert Trim("") == "";
    }
  }

  lemma LoginPartIff(p: DeployParams, clean: string, login: seq<Command>)
    requires IsSanitised(p.registryPassword, clean)
    ensures IsLoginPart(p, clean, login) <==> LoginLog([Probe], p) == [Probe] + login
  {
    SanitisedIff(p.registryPassword, clean);
    NoControlIff(clean);
    if |login| == 1 {
      LoginCommandIff(p, clean, login[0]);
      assert ([Probe] + login)[1] == login[0] && login == [login[0]];
    }
    assert ([Probe] + login)[1..] == login && ([Probe] + [LoginCommand(p)])[1..] == [LoginCommand(p)];
  }

  /** When a login is asked at all: the docker client answers, and there are a user and a password,
      free of control characters. */
  lemma LoginIsAskedIff(o: Oracle, p: DeployParams, clean: string)
    requires IsSanitised(p.registryPassword, clean)
    ensures
      (exists k :: 0 <= k < |DeployRun(o, p).log| && DeployRun(o, p).log[k].Login?)
      <==>
      && o([Probe]).ok && o([Probe]).stdout != ""
      && p.registryUsername != "" && clean != "" && NoControl(clean)
  {
    var log := DeployRun(o, p).log;
    SanitisedIff(p.registryPassword, clean);
    NoControlIff(clean);
    LoginGrows(o, p);
    if Available(o) && HasCredentials(p) && NoControl(clean) {
      assert LoginLog([Probe], p)[1] == LoginCommand(p) && log[1] == LoginCommand(p);
    }
    if k :| 0 <= k < |log| && log[k].Login? {
      LoginIsSecond(o, p, k);
    }
  }

  lemma LoginIsSecond(o: Oracle, p: DeployParams, k: nat)
    requires k < |DeployRun(o, p).log| && DeployRun(o, p).log[k].Login?
    ensures k == 1 && DeployRun(o, p).log[k] == LoginCommand(p) && Available(o)
    ensures LoginLog([Probe], p) == [Probe] + [LoginCommand(p)]
  {
    if Reached(o, p) {
      FoundPrefix(o, p);
      var before := LoginLog([Probe], p);
      var found := FindLog(before, true, p.containerName, p.Ref());
      assert k < |found| && DeployRun(o, p).log[k] == found[k];
    }
  }

  /** What the shell on the remote side reads: the user and the host as given, except at Docker Hub,
      where there is no host and the user is in lower case; and the sanitised password goes to
      stdin.  It is the second command of the run. */
  lemma LoginCommandLine(o: Oracle, p: DeployParams, clean: string, k: nat)
    requires IsSanitised(p.registryPassword, clean)
    requires k < |DeployRun(o, p).log| && DeployRun(o, p).log[k].Login?
    ensures k == 1 && DeployRun(o, p).log[k].stdin == clean
    ensures
      var c := DeployRun(o, p).log[k];
      var user := c.user;
      var words := ShellWords.Words(CommandText(c));
      if NamesDockerHub(p.registryHost) then
        && IsLower(p.registryUsername, user)
        && words == if ShellWords.NUL in user then None else Some(["docker", "login", "-u", user, "--password-stdin"])
      else
        && user == p.registryUsername
        && words == if ShellWords.NUL in p.registryHost || ShellWords.NUL in user then None
                    else Some(["docker", "login", p.registryHost, "-u", user, "--password-stdin"])
  {
    var c := DeployRun(o, p).log[k];
    LoginIsSecond(o, p, k);
    LoginCommandIff(p, clean, c);
    LoginWordsAre(c);
    assert !NamesDockerHub(p.registryHost) ==> p.registryHost != "" by {
      assert Trim("") == "";
    }
  }

  lemma LoginWordsAre(c: Command)
    requires c.Login?
    ensures
      ShellWords.Words(CommandText(c))
      == if ShellWords.NUL in c.host || ShellWords.NUL in c.user then None
         else if c.host == "" then Some(["docker", "login", "-u", c.user, "--password-stdin"])
         else Some(["docker", "login", c.host, "-u", c.user, "--password-stdin"])
  {
    CommandReadsBack(c);
    LoginNulFree(c.host, c.user);
  }

  lemma LoginNulFree(host: string, user: string)
    ensures
      ShellWords.NulFree(["docker", "login", host, "-u", user, "--password-stdin"])
      <==> ShellWords.NUL !in host && ShellWords.NUL !in user
    ensures ShellWords.NulFree(["docker", "login", "-u", user, "--password-stdin"]) <==> ShellWords.NUL !in user
  {
    var v, w := ["docker", "login", host, "-u", user, "--password-stdin"],
                ["docker", "login", "-u", user, "--password-stdin"];
    assert v[2] == host && v[4] == user && w[3] == user;
  }

  // ---------------------------------------------------------------- every run, answer by answer

  /** What has been asked by the end of each step, if the run gets there: login, stop, rm, rmi, pull,
      run, verify.  login is what is asked before the search, ids what the search finds. */
  function Asked(o: Oracle, p: DeployParams, login: seq<Command>, ids: seq<string>): (asked: seq<seq<Command>>)
    ensures |asked| == 7
  {
    var start := [Probe] + login;
    var found := start + [ListByName(p.containerName), ListByImage(p.Ref())];
    var stopped := found + if ids == [] then [] else [Stop(ids)];
    var removed := stopped + if ids == [] then [] else [Remove(ids)];
    [start, stopped, removed] + AskedFromImage(o, p, removed)
  }

  function AskedFromImage(o: Oracle, p: DeployParams, removed: seq<Command>): (asked: seq<seq<Command>>)
    ensures |asked| == 4
  {
    var inspected := removed + [InspectImage(p.Ref())];
    var untagged := inspected + if o(inspected).ok then [RemoveImage(p.Ref())] else [];
    var pulled := untagged + [Pull(p.Ref())];
    var started := pulled + [Start(RunSpec(p.containerName, p.ports, p.restartPolicy, p.Ref()))];
    var paused := started + [Pause];
    [untagged, pulled, started, paused + if o(paused).ok then [InspectContainer(p.containerName)] else []]
  }

  /** Which steps go well: a login that is accepted, if there is one to ask, and no control character
      in its password; a stop that succeeds or is forgiven; a removal, a pull, a start that succeed;
      and an inspection that begins with "true|".  Removing the image always does. */
  ghost function Went(o: Oracle, p: DeployParams, clean: string, login: seq<Command>, ids: seq<string>)
    : (went: seq<bool>)
    ensures |went| == 7
  {
    var asked := Asked(o, p, login, ids);
    [ (p.registryUsername == "" || clean == "" || NoControl(clean)) && (login == [] || o(asked[0]).ok),
      ids == [] || o(asked[1]).ok || Forgiven(o(asked[1]).stderr),
      ids == [] || o(asked[2]).ok,
      true,
      o(asked[4]).ok,
      o(asked[5]).ok,
      o(asked[5] + [Pause]).ok && o(asked[6]).ok
      && "true|" <= o(asked[6]).stdout && '|' in o(asked[6]).stdout[5..] ]
  }

  /** How each step is reported when it goes well. */
  function PassedAs(o: Oracle, p: DeployParams, login: seq<Command>, ids: seq<string>): (passed: seq<Status>)
    ensures |passed| == 7
  {
    var asked := Asked(o, p, login, ids);
    var inspected := asked[2] + [InspectImage(p.Ref())];
    [ if login == [] then Skipped else Ok,
      if ids == [] then Skipped else Ok,
      if ids == [] then Skipped else Ok,
      if o(inspected).ok && o(asked[3]).ok then Ok else Skipped,
      Ok, Ok, Ok ]
  }

  lemma FromImageAsks(o: Oracle, removed: seq<Command>, p: DeployParams, done: seq<Status>)
    requires |done| == 3
    ensures
      var asked := AskedFromImage(o, p, removed);
      var untagged, pulled, started, verified := asked[0], asked[1], asked[2], asked[3];
      var image := done + [if o(removed + [InspectImage(p.Ref())]).ok && o(untagged).ok then Ok else Skipped];
      var running :=
        && o(started + [Pause]).ok && o(verified).ok
        && "true|" <= o(verified).stdout && '|' in o(verified).stdout[5..];
      FromImage(o, removed, p, done)
      == if !o(pulled).ok then Run(pulled, image + [Failed], "")
         else if !o(started).ok then Run(started, image + [Ok] + [Failed], "")
         else Run(verified, image + [Ok] + [Ok] + [if running then Ok else Failed], Trim(o(started).stdout))
  {
    var inspected := removed + [InspectImage(p.Ref())];
    var asked := AskedFromImage(o, p, removed);
    assert inspected + [] == inspected;
    var image := done + [if o(inspected).ok && o(asked[0]).ok then Ok else Skipped];
    assert FromImage(o, removed, p, done) == FromPull(o, asked[0], p, image);
    FromPullAsks(o, asked[0], p, image);
  }

  lemma FromPullAsks(o: Oracle, untagged: seq<Command>, p: DeployParams, done: seq<Status>)
    requires |done| == 4
    ensures
      var pulled := untagged + [Pull(p.Ref())];
      var started := pulled + [Start(RunSpec(p.containerName, p.ports, p.restartPolicy, p.Ref()))];
      var paused := started + [Pause];
      var verified := paused + if o(paused).ok then [InspectContainer(p.containerName)] else [];
      var running :=
        o(paused).ok && o(verified).ok && "true|" <= o(verified).stdout && '|' in o(verified).stdout[5..];
      FromPull(o, untagged, p, done)
      == if !o(pulled).ok then Run(pulled, done + [Failed], "")
         else if !o(started).ok then Run(started, done + [Ok] + [Failed], "")
         else Run(verified, done + [Ok] + [Ok] + [if running then Ok else Failed], Trim(o(started).stdout))
  {
    var pulled := untagged + [Pull(p.Ref())];
    var paused := pulled + [Start(p.Spec())] + [Pause];
    assert paused + [] == paused;
    SaysRunningIff(o(paused + [InspectContainer(p.containerName)]).stdout);
  }

  /** The run and its report are the script up to the first step that does not go well. */
  ghost predicate Explained(
    run: Run, r: Report, asked: seq<seq<Command>>, went: seq<bool>, passed: seq<Status>, printed: string)
    requires |asked| == |went| == |passed| == 7
  {
    && Follows(
         r, [RegistryLogin, StopExisting, RemoveExisting, RemoveImageStep, PullImage, RunContainer, VerifyRunning],
         went, passed)
    && (forall k: nat :: FirstToFail(went, k) ==> run.log == asked[k])
    && (AllWent(went) ==> run.log == asked[6])
    && r.containerID == if AllWent(went[..6]) then Trim(printed) else ""
  }

  /** Every run, from the answers to its commands: the report step by step, what was asked by then,
      and the id that docker run printed. */
  lemma DeployOutcome(o: Oracle, p: DeployParams, clean: string, login: seq<Command>)
    requires IsSanitised(p.registryPassword, clean) && IsLoginPart(p, clean, login)
    ensures !(o([Probe]).ok && o([Probe]).stdout != "") ==>
      DeployRun(o, p).log == [Probe] && DeployReport(o, p) == Report(false, false, "", Padded(NAMES, []))
    ensures o([Probe]).ok && o([Probe]).stdout != "" ==>
      var ids := FindIds(o, [Probe] + login, true, p.containerName, p.Ref());
      var asked := Asked(o, p, login, ids);
      Explained(DeployRun(o, p), DeployReport(o, p), asked, Went(o, p, clean, login, ids), PassedAs(o, p, login, ids),
                o(asked[5]).stdout)
  {
    if Available(o) {
      var ids := FindIds(o, [Probe] + login, true, p.containerName, p.Ref());
      RunIs(o, p, clean, login, ids);
      PassedStatuses(o, p, login, ids);
      ScriptExplains(DeployRun(o, p), DeployReport(o, p), Asked(o, p, login, ids), Went(o, p, clean, login, ids),
                     PassedAs(o, p, login, ids), o(Asked(o, p, login, ids)[5]).stdout);
    }
  }

  lemma PassedStatuses(o: Oracle, p: DeployParams, login: seq<Command>, ids: seq<string>)
    ensures forall i :: 0 <= i < 7 ==> Passed(PassedAs(o, p, login, ids)[i])
  {}

  /** The script, written out. */
  function ScriptRun(asked: seq<seq<Command>>, went: seq<bool>, passed: seq<Status>, id: string): Run
    requires |asked| == |went| == |passed| == 7
  {
    if !went[0] then Run(asked[0], [Failed], "")
    else if !went[1] then Run(asked[1], passed[..1] + [Failed], "")
    else if !went[2] then Run(asked[2], passed[..2] + [Failed], "")
    else if !went[3] then Run(asked[3], passed[..3] + [Failed], "")
    else if !went[4] then Run(asked[4], passed[..4] + [Failed], "")
    else if !went[5] then Run(asked[5], passed[..5] + [Failed], "")
    else if !went[6] then Run(asked[6], passed[..6] + [Failed], id)
    else Run(asked[6], passed, id)
  }

  lemma ScriptExplains(
    run: Run, r: Report, asked: seq<seq<Command>>, went: seq<bool>, passed: seq<Status>, printed: string)
    requires |asked| == |went| == |passed| == 7 && forall i :: 0 <= i < 7 ==> Passed(passed[i])
    requires run == ScriptRun(asked, went, passed, Trim(printed)) && r == ReportOf(true, run)
    ensures Explained(run, r, asked, went, passed, printed)
  {
    if AllWent(went) {
      FollowsToTheEnd(r, NAMES, went, passed);
    } else {
      var k := FirstFailure(went);
      ScriptStopsAt(asked, went, passed, Trim(printed), k);
      assert Padded(NAMES, run.done)[k].status == Failed;
      FollowsUpTo(r, NAMES, went, passed, k);
      OnlyFirst(went, k);
      assert AllWent(went[..6]) <==> k == 6;
    }
  }

  lemma ScriptStopsAt(asked: seq<seq<Command>>, went: seq<bool>, passed: seq<Status>, id: string, k: nat)
    requires |asked| == |went| == |passed| == 7 && FirstToFail(went, k)
    ensures
      ScriptRun(asked, went, passed, id) == Run(asked[k], passed[..k] + [Failed], if k == 6 then id else "")
  {
    assert forall j :: 0 <= j < k ==> went[..k][j] == went[j];
    assert passed[..0] + [Failed] == [Failed];
  }

  lemma RunIs(o: Oracle, p: DeployParams, clean: string, login: seq<Command>, ids: seq<string>)
    requires IsSanitised(p.registryPassword, clean) && IsLoginPart(p, clean, login) && Available(o)
    requires ids == FindIds(o, [Probe] + login, true, p.containerName, p.Ref())
    ensures
      var asked := Asked(o, p, login, ids);
      DeployRun(o, p)
      == ScriptRun(asked, Went(o, p, clean, login, ids), PassedAs(o, p, login, ids), Trim(o(asked[5]).stdout))
  {
    var asked, went, passed := Asked(o, p, login, ids), Went(o, p, clean, login, ids), PassedAs(o, p, login, ids);
    LoginStatusIs(o, p, clean, login);
    FromFindAsks(o, p, login, ids, passed[0]);
    FromImageAsks(o, asked[2], p, passed[..3]);
    StatusLists(passed);
  }

  lemma StatusLists(passed: seq<Status>)
    requires |passed| == 7
    ensures [passed[0]] == passed[..1] && [passed[0]] + [passed[1]] == passed[..2]
    ensures [passed[0]] + [passed[1]] + [passed[2]] == passed[..3] && passed[..3] + [passed[3]] == passed[..4]
    ensures passed[..4] + [passed[4]] == passed[..5] && passed[..5] + [passed[5]] == passed[..6]
    ensures passed[..6] + [passed[6]] == passed
  {}

  lemma LoginStatusIs(o: Oracle, p: DeployParams, clean: string, login: seq<Command>)
    requires IsSanitised(p.registryPassword, clean) && IsLoginPart(p, clean, login)
    ensures LoginLog([Probe], p) == [Probe] + login
    ensures
      LoginStatus(o, [Probe], p)
      == if !((p.registryUsername == "" || clean == "" || NoControl(clean)) && (login == [] || o([Probe] + login).ok))
         then Failed else if login == [] then Skipped else Ok
  {
    LoginPartIff(p, clean, login);
    SanitisedIff(p.registryPassword, clean);
    NoControlIff(clean);
  }

  lemma FromFindAsks(o: Oracle, p: DeployParams, login: seq<Command>, ids: seq<string>, st: Status)
    requires ids == FindIds(o, [Probe] + login, true, p.containerName, p.Ref())
    ensures
      var asked := Asked(o, p, login, ids);
      var found := if ids == [] then Skipped else Ok;
      FromFind(o, [Probe] + login, p, [st])
      == if ids != [] && !(o(asked[1]).ok || Forgiven(o(asked[1]).stderr)) then Run(asked[1], [st] + [Failed], "")
         else if ids != [] && !o(asked[2]).ok then Run(asked[2], [st] + [Ok] + [Failed], "")
         else FromImage(o, asked[2], p, [st] + [found] + [found])
  {
    var start := [Probe] + login;
    var found := FindLog(start, true, p.containerName, p.Ref());
    assert found == start + [ListByName(p.containerName), ListByImage(p.Ref())];
    assert found + [] == found;
    HardStopIff(o(found + [Stop(ids)]).stderr);
  }

  // ---------------------------------------------------------------- the password

  /** A command without what is piped into it. */
  function Hidden(c: Command): Command { if c.Login? then c.(stdin := "") else c }

  function HiddenAll(log: seq<Command>): (hidden: seq<Command>)
    ensures |hidden| == |log|
  {
    if log == [] then [] else HiddenAll(log[..|log| - 1]) + [Hidden(log[|log| - 1])]
  }

  function Texts(log: seq<Command>): seq<string> {
    if log == [] then [] else Texts(log[..|log| - 1]) + [CommandText(log[|log| - 1])]
  }

  /** As far as both logs go, the two remote sides gave the same answers. */
  ghost predicate AnsweredAlike(o: Oracle, o': Oracle, log: seq<Command>, log': seq<Command>) {
    forall k :: 1 <= k <= |log| && k <= |log'| ==> o(log[..k]) == o'(log'[..k])
  }

  lemma HiddenSnoc(log: seq<Command>, c: Command)
    ensures HiddenAll(log + [c]) == HiddenAll(log) + [Hidden(c)]
  {
    assert (log + [c])[..|log|] == log;
  }

  /** The stdin is not on the command line. */
  lemma {:induction false} HiddenTexts(log: seq<Command>, log': seq<Command>)
    requires HiddenAll(log) == HiddenAll(log')
    ensures Texts(log) == Texts(log')
  {
    if log != [] && log' != [] {
      var n, n' := |log| - 1, |log'| - 1;
      assert HiddenAll(log) == HiddenAll(log[..n]) + [Hidden(log[n])];
      assert HiddenAll(log') == HiddenAll(log'[..n']) + [Hidden(log'[n'])];
      assert HiddenAll(log)[..|HiddenAll(log)| - 1] == HiddenAll(log[..n]) == HiddenAll(log'[..n']);
      HiddenTexts(log[..n], log'[..n']);
      SameText(log[n], log'[n']);
    }
  }

  lemma SameText(c: Command, c': Command)
    requires Hidden(c) == Hidden(c')
    ensures CommandText(c) == CommandText(c')
  {
    if c.Login? {
      assert c' == c.(stdin := c'.stdin);
    }
  }

  /** Equal up to the stdin of the login. */
  ghost predicate SameRun(r: Run, r': Run) {
    HiddenAll(r.log) == HiddenAll(r'.log) && r.done == r'.done && r.containerID == r'.containerID
  }

  /** The next question of two runs that have asked alike so far: the answers are the same. */
  lemma AskBoth(o: Oracle, o': Oracle, r: Run, r': Run, log: seq<Command>, log': seq<Command>, c: Command)
    requires AnsweredAlike(o, o', r.log, r'.log) && HiddenAll(log) == HiddenAll(log')
    requires log + [c] <= r.log && log' + [c] <= r'.log
    ensures HiddenAll(log + [c]) == HiddenAll(log' + [c]) && o(log + [c]) == o'(log' + [c])
  {
    HiddenSnoc(log, c);
    HiddenSnoc(log', c);
    assert |log| == |HiddenAll(log)| == |log'|;
    assert r.log[..|log| + 1] == log + [c] && r'.log[..|log| + 1] == log' + [c];
  }

  /** Each stage asks its first question, and goes on from there. */
  lemma PullGrows(o: Oracle, log: seq<Command>, p: DeployParams, done: seq<Status>)
    ensures log + [Pull(p.Ref())] <= FromPull(o, log, p, done).log
    ensures
      o(log + [Pull(p.Ref())]).ok ==> log + [Pull(p.Ref())] + [Start(p.Spec())] <= FromPull(o, log, p, done).log
  {}

  lemma ImageGrows(o: Oracle, log: seq<Command>, p: DeployParams, done: seq<Status>)
    ensures
      var inspected := log + [InspectImage(p.Ref())];
      && inspected <= FromImage(o, log, p, done).log
      && (o(inspected).ok ==> inspected + [RemoveImage(p.Ref())] <= FromImage(o, log, p, done).log)
  {
    var inspected := log + [InspectImage(p.Ref())];
    var removed := inspected + [RemoveImage(p.Ref())];
    PullGrows(o, inspected, p, done + [Skipped]);
    PullGrows(o, removed, p, done + [if o(removed).ok then Ok else Skipped]);
  }

  lemma RemoveGrows(o: Oracle, log: seq<Command>, p: DeployParams, done: seq<Status>, ids: seq<string>)
    ensures (if ids == [] then log else log + [Remove(ids)]) <= FromRemove(o, log, p, done, ids).log
  {
    ImageGrows(o, log, p, done + [Skipped]);
    ImageGrows(o, log + [Remove(ids)], p, done + [Ok]);
  }

  lemma FindGrows(o: Oracle, log: seq<Command>, p: DeployParams, done: seq<Status>)
    ensures
      var ids := FindIds(o, log, true, p.containerName, p.Ref());
      var found := log + [ListByName(p.containerName)] + [ListByImage(p.Ref())];
      && found == FindLog(log, true, p.containerName, p.Ref())
      && (if ids == [] then found else found + [Stop(ids)]) <= FromFind(o, log, p, done).log
  {
    var ids := FindIds(o, log, true, p.containerName, p.Ref());
    var found := FindLog(log, true, p.containerName, p.Ref());
    RemoveGrows(o, found, p, done + [Skipped], ids);
    RemoveGrows(o, found + [Stop(ids)], p, done + [Ok], ids);
  }

  lemma VerifyHides(
    o: Oracle, o': Oracle, log: seq<Command>, log': seq<Command>, p: DeployParams, done: seq<Status>, id: string)
    requires HiddenAll(log) == HiddenAll(log')
    requires AnsweredAlike(o, o', FromVerify(o, log, p, done, id).log, FromVerify(o', log', p, done, id).log)
    ensures SameRun(FromVerify(o, log, p, done, id), FromVerify(o', log', p, done, id))
  {
    var r, r' := FromVerify(o, log, p, done, id), FromVerify(o', log', p, done, id);
    AskBoth(o, o', r, r', log, log', Pause);
    if o(log + [Pause]).ok {
      AskBoth(o, o', r, r', log + [Pause], log' + [Pause], InspectContainer(p.containerName));
    }
  }

  lemma PullHides(o: Oracle, o': Oracle, log: seq<Command>, log': seq<Command>, p: DeployParams, done: seq<Status>)
    requires HiddenAll(log) == HiddenAll(log')
    requires AnsweredAlike(o, o', FromPull(o, log, p, done).log, FromPull(o', log', p, done).log)
    ensures SameRun(FromPull(o, log, p, done), FromPull(o', log', p, done))
  {
    var r, r' := FromPull(o, log, p, done), FromPull(o', log', p, done);
    var pulled, pulled' := log + [Pull(p.Ref())], log' + [Pull(p.Ref())];
    PullGrows(o, log, p, done);
    PullGrows(o', log', p, done);
    AskBoth(o, o', r, r', log, log', Pull(p.Ref()));
    if o(pulled).ok {
      var started, started' := pulled + [Start(p.Spec())], pulled' + [Start(p.Spec())];
      AskBoth(o, o', r, r', pulled, pulled', Start(p.Spec()));
      if o(started).ok {
        VerifyHides(o, o', started, started', p, done + [Ok] + [Ok], Trim(o(started).stdout));
      }
    }
  }

  lemma ImageHides(o: Oracle, o': Oracle, log: seq<Command>, log': seq<Command>, p: DeployParams, done: seq<Status>)
    requires HiddenAll(log) == HiddenAll(log')
    requires AnsweredAlike(o, o', FromImage(o, log, p, done).log, FromImage(o', log', p, done).log)
    ensures SameRun(FromImage(o, log, p, done), FromImage(o', log', p, done))
  {
    var r, r' := FromImage(o, log, p, done), FromImage(o', log', p, done);
    var inspected, inspected' := log + [InspectImage(p.Ref())], log' + [InspectImage(p.Ref())];
    ImageGrows(o, log, p, done);
    ImageGrows(o', log', p, done);
    AskBoth(o, o', r, r', log, log', InspectImage(p.Ref()));
    if !o(inspected).ok {
      PullHides(o, o', inspected, inspected', p, done + [Skipped]);
    } else {
      var removed, removed' := inspected + [RemoveImage(p.Ref())], inspected' + [RemoveImage(p.Ref())];
      AskBoth(o, o', r, r', inspected, inspected', RemoveImage(p.Ref()));
      PullHides(o, o', removed, removed', p, done + [if o(removed).ok then Ok else Skipped]);
    }
  }

  lemma RemoveHides(
    o: Oracle, o': Oracle, log: seq<Command>, log': seq<Command>, p: DeployParams, done: seq<Status>, ids: seq<string>)
    requires HiddenAll(log) == HiddenAll(log')
    requires AnsweredAlike(o, o', FromRemove(o, log, p, done, ids).log, FromRemove(o', log', p, done, ids).log)
    ensures SameRun(FromRemove(o, log, p, done, ids), FromRemove(o', log', p, done, ids))
  {
    var r, r' := FromRemove(o, log, p, done, ids), FromRemove(o', log', p, done, ids);
    if ids == [] {
      ImageHides(o, o', log, log', p, done + [Skipped]);
    } else {
      var removed, removed' := log + [Remove(ids)], log' + [Remove(ids)];
      RemoveGrows(o, log, p, done, ids);
      RemoveGrows(o', log', p, done, ids);
      AskBoth(o, o', r, r', log, log', Remove(ids));
      if o(removed).ok {
        ImageHides(o, o', removed, removed', p, done + [Ok]);
      }
    }
  }

  /** The two searches ask alike and find alike. */
  lemma SearchHides(
    o: Oracle, o': Oracle, r: Run, r': Run, log: seq<Command>, log': seq<Command>, name: string, ref: string)
    requires HiddenAll(log) == HiddenAll(log') && AnsweredAlike(o, o', r.log, r'.log)
    requires log + [ListByName(name)] + [ListByImage(ref)] <= r.log
    requires log' + [ListByName(name)] + [ListByImage(ref)] <= r'.log
    ensures HiddenAll(FindLog(log, true, name, ref)) == HiddenAll(FindLog(log', true, name, ref))
    ensures FindIds(o, log, true, name, ref) == FindIds(o', log', true, name, ref)
  {
    AskBoth(o, o', r, r', log, log', ListByName(name));
    AskBoth(o, o', r, r', log + [ListByName(name)], log' + [ListByName(name)], ListByImage(ref));
  }

  lemma FindHides(o: Oracle, o': Oracle, log: seq<Command>, log': seq<Command>, p: DeployParams, done: seq<Status>)
    requires HiddenAll(log) == HiddenAll(log')
    requires AnsweredAlike(o, o', FromFind(o, log, p, done).log, FromFind(o', log', p, done).log)
    ensures SameRun(FromFind(o, log, p, done), FromFind(o', log', p, done))
  {
    var r, r' := FromFind(o, log, p, done), FromFind(o', log', p, done);
    FindGrows(o, log, p, done);
    FindGrows(o', log', p, done);
    SearchHides(o, o', r, r', log, log', p.containerName, p.Ref());
    var ids := FindIds(o, log, true, p.containerName, p.Ref());
    var found, found' := FindLog(log, true, p.containerName, p.Ref()), FindLog(log', true, p.containerName, p.Ref());
    if ids == [] {
      RemoveHides(o, o', found, found', p, done + [Skipped], ids);
    } else {
      var stopped, stopped' := found + [Stop(ids)], found' + [Stop(ids)];
      AskBoth(o, o', r, r', found, found', Stop(ids));
      if !(!o(stopped).ok && IsHardStopError(o(stopped).stderr)) {
        RemoveHides(o, o', stopped, stopped', p, done + [Ok], ids);
      }
    }
  }

  /** After the login nothing depends on the password any more. */
  lemma FindIgnoresPassword(o: Oracle, log: seq<Command>, p: DeployParams, p': DeployParams, done: seq<Status>)
    requires p' == p.(registryPassword := p'.registryPassword)
    ensures FromFind(o, log, p', done) == FromFind(o, log, p, done)
  {
    forall log', done' ensures FromImage(o, log', p', done') == FromImage(o, log', p, done') {
      ImageIgnoresPassword(o, log', p, p', done');
    }
  }

  lemma ImageIgnoresPassword(o: Oracle, log: seq<Command>, p: DeployParams, p': DeployParams, done: seq<Status>)
    requires p' == p.(registryPassword := p'.registryPassword)
    ensures FromImage(o, log, p', done) == FromImage(o, log, p, done)
  {
    assert p'.Spec() == p.Spec() && p'.Ref() == p.Ref();
    forall log', done' ensures FromPull(o, log', p', done') == FromPull(o, log', p, done') {
      forall log'', done'', id ensures FromVerify(o, log'', p', done'', id) == FromVerify(o, log'', p, done'', id) {}
    }
  }

  /** A password that reaches the registry. */
  predicate WellFormedPassword(password: string) {
    SanitizeRegistryPassword(password) != "" && !ContainsControlChar(SanitizeRegistryPassword(password))
  }

  /** The run begins with the probe, and with the login if there is to be one. */
  lemma LoginGrows(o: Oracle, p: DeployParams)
    ensures [Probe] <= DeployRun(o, p).log
    ensures Available(o) ==> LoginLog([Probe], p) <= DeployRun(o, p).log
  {
    if Reached(o, p) {
      FindGrows(o, LoginLog([Probe], p), p, [LoginStatus(o, [Probe], p)]);
    }
  }

  lemma LoginHides(o: Oracle, o': Oracle, p: DeployParams, p': DeployParams)
    requires p' == p.(registryPassword := p'.registryPassword)
    requires WellFormedPassword(p.registryPassword) && WellFormedPassword(p'.registryPassword)
    requires AnsweredAlike(o, o', DeployRun(o, p).log, DeployRun(o', p').log)
    ensures Available(o) == Available(o') && HiddenAll(LoginLog([Probe], p)) == HiddenAll(LoginLog([Probe], p'))
    ensures Available(o) ==> LoginStatus(o, [Probe], p) == LoginStatus(o', [Probe], p')
  {
    var r, r' := DeployRun(o, p), DeployRun(o', p');
    var before, before' := LoginLog([Probe], p), LoginLog([Probe], p');
    LoginGrows(o, p);
    LoginGrows(o', p');
    assert r.log[..1] == [Probe] && r'.log[..1] == [Probe];
    HiddenSnoc([Probe], LoginCommand(p));
    HiddenSnoc([Probe], LoginCommand(p'));
    if Available(o) {
      assert r.log[..|before|] == before && r'.log[..|before|] == before';
    }
  }

  /** The registry password is on no command line.  Take two deploys that differ in their well-formed
      passwords only, on remote sides that may tell the passwords apart: if these two runs were given
      the same answers, they sent the same command lines one by one and report the same, and they
      differ in nothing but what is piped into docker login. */
  lemma PasswordStaysOffTheCommandLine(o: Oracle, o': Oracle, p: DeployParams, password: string)
    requires WellFormedPassword(p.registryPassword) && WellFormedPassword(password)
    requires AnsweredAlike(o, o', DeployRun(o, p).log, DeployRun(o', p.(registryPassword := password)).log)
    ensures
      var r, r' := DeployRun(o, p), DeployRun(o', p.(registryPassword := password));
      Texts(r.log) == Texts(r'.log) && SameRun(r, r')
    ensures DeployReport(o, p) == DeployReport(o', p.(registryPassword := password))
  {
    var p' := p.(registryPassword := password);
    var before, before' := LoginLog([Probe], p), LoginLog([Probe], p');
    LoginHides(o, o', p, p');
    if Reached(o, p) {
      var st := LoginStatus(o, [Probe], p);
      FindIgnoresPassword(o', before', p, p', [st]);
      FindHides(o, o', before, before', p, [st]);
    }
    HiddenTexts(DeployRun(o, p).log, DeployRun(o', p').log);
  }

  /** What is piped into the one login is the sanitised password. */
  lemma LoginPipesThePassword(o: Oracle, p: DeployParams, k: nat)
    requires k < |DeployRun(o, p).log| && DeployRun(o, p).log[k].Login?
    ensures k == 1 && IsSanitised(p.registryPassword, DeployRun(o, p).log[k].stdin)
  {
    LoginIsSecond(o, p, k);
    SanitisedIff(p.registryPassword, DeployRun(o, p).log[k].stdin);
  }

  // ---------------------------------------------------------------- what it does to a host

  /** hosts are the states of a Docker host during the run, and every listing told the truth. */
  ghost predicate TruthfulRun(o: Oracle, p: DeployParams, hosts: seq<Host>) {
    var log := DeployRun(o, p).log;
    Executes(o, log, hosts) && TruthfulListings(o, log, hosts, 0, |log|)
  }

  /** The host when the run has ended. */
  function Final(hosts: seq<Host>): Host
    requires hosts != []
  {
    hosts[|hosts| - 1]
  }

  function Matches(p: DeployParams, h: Host): set<string> { Matching(h, true, p.containerName, p.Ref()) }

  /** With truthful listings a run's targets are exactly the containers the two filters select on
      the host as it was before the run, each once. */
  lemma TargetsAreTheMatches(o: Oracle, p: DeployParams, hosts: seq<Host>)
    requires TruthfulRun(o, p, hosts) && Reached(o, p)
    ensures Distinct(Targets(o, p))
    ensures SetOf(Targets(o, p)) == Matches(p, hosts[0])
  {
    var log, before := DeployRun(o, p).log, LoginLog([Probe], p);
    FoundPrefix(o, p);
    ReadingLeavesHost(o, log, hosts, 0, |before|);
    DriftKeepsMatching(hosts[0], hosts[|before|]);
    ListingFinds(o, log, hosts, before, true, p.containerName, p.Ref());
    FindIdsAre(o, before, true, p.containerName, p.Ref());
  }

  /** Containers that neither filter selects are left to themselves by any deploy. */
  lemma UnmatchedUntouched(o: Oracle, p: DeployParams, hosts: seq<Host>, id: string)
    requires TruthfulRun(o, p, hosts)
    requires id in hosts[0].containers && id !in Matches(p, hosts[0])
    ensures id in Final(hosts).containers && LeftToItself(hosts[0].containers[id], Final(hosts).containers[id])
  {
    DeployIsDisciplined(o, p);
    if Reached(o, p) {
      TargetsAreTheMatches(o, p, hosts);
    }
    OthersUntouched(o, DeployRun(o, p).log, hosts, Targets(o, p), Some(p.Spec()), |DeployRun(o, p).log|, id);
  }

  lemma RemovalSucceeded(o: Oracle, p: DeployParams)
    requires Passed(DeployReport(o, p).steps[2].status)
    ensures Reached(o, p)
    ensures Targets(o, p) != [] ==> Succeeded(o, DeployRun(o, p).log, Remove(Targets(o, p)))
  {
    var d := DeployRun(o, p).done;
    assert |d| > 2 && Passed(d[2]);
    assert Reached(o, p);
    FoundPrefix(o, p);
  }

  lemma RemovedMatchesAreGone(o: Oracle, p: DeployParams, hosts: seq<Host>, id: string)
    requires TruthfulRun(o, p, hosts) && Reached(o, p) && id in Matches(p, hosts[0])
    requires Targets(o, p) != [] ==> Succeeded(o, DeployRun(o, p).log, Remove(Targets(o, p)))
    ensures id !in Final(hosts).containers
  {
    TargetsAreTheMatches(o, p, hosts);
    SelectedAreGone(o, DeployRun(o, p).log, hosts, Targets(o, p), true, p.containerName, p.Ref(), id);
  }

  /** Once the removal step has passed, a container that either filter selected is gone. */
  lemma RemovalPassed(o: Oracle, p: DeployParams, hosts: seq<Host>, id: string)
    requires TruthfulRun(o, p, hosts) && Passed(DeployReport(o, p).steps[2].status)
    requires id in Matches(p, hosts[0])
    ensures id !in Final(hosts).containers
  {
    RemovalSucceeded(o, p);
    RemovedMatchesAreGone(o, p, hosts, id);
  }

  /** Whatever a deploy adds to the host bears the requested name. */
  lemma AddsOnlyTheName(o: Oracle, p: DeployParams, hosts: seq<Host>, id: string)
    requires TruthfulRun(o, p, hosts)
    requires id in Final(hosts).containers && id !in hosts[0].containers
    ensures Final(hosts).containers[id].name == p.containerName
  {
    DeployIsDisciplined(o, p);
    NewcomersAreNamed(o, DeployRun(o, p).log, hosts, Targets(o, p), p.Spec(), |DeployRun(o, p).log|, id);
  }

  /** The last thing a successful run asked. */
  lemma SuccessLog(o: Oracle, p: DeployParams)
    requires DeployReport(o, p).success
    ensures
      var log := DeployRun(o, p).log;
      && |log| > 0 && log[|log| - 1] == InspectContainer(p.containerName)
      && o(log).ok && SaysRunning(o(log).stdout)
      && Passed(DeployReport(o, p).steps[2].status)
  {
    var d := DeployRun(o, p).done;
    DeployChain(o, p);
    assert Padded(NAMES, d)[6].status == d[6] && Padded(NAMES, d)[2].status == d[2];
    FoundPrefix(o, p);
  }

  /** The final inspection told the truth. */
  ghost predicate TruthfulVerification(o: Oracle, p: DeployParams, hosts: seq<Host>)
    requires hosts != []
  {
    TruthfulInspect(Final(hosts), InspectContainer(p.containerName), o(DeployRun(o, p).log))
  }

  /** A successful deploy leaves a running container of the requested name, and it is one that did
      not exist before the run. */
  lemma SuccessRuns(o: Oracle, p: DeployParams, hosts: seq<Host>) returns (id: string)
    requires TruthfulRun(o, p, hosts) && DeployReport(o, p).success && TruthfulVerification(o, p, hosts)
    ensures id in Final(hosts).containers && id !in hosts[0].containers
    ensures Final(hosts).containers[id].state == Running && Final(hosts).containers[id].name == p.containerName
  {
    SuccessLog(o, p);
    var h := Final(hosts);
    id :| id in h.containers && h.containers[id].name == p.containerName && h.containers[id].state == Running;
    if id in hosts[0].containers {
      if id in Matches(p, hosts[0]) {
        RemovalPassed(o, p, hosts, id);
      } else {
        UnmatchedUntouched(o, p, hosts, id);
      }
    }
  }

  /** For a name without a dot: every container of another name that does not derive from the
      image is left to itself, exactly as the step promises. */
  lemma UndottedNameTouchesOnlyItself(o: Oracle, p: DeployParams, hosts: seq<Host>, id: string)
    requires TruthfulRun(o, p, hosts) && '.' !in p.containerName
    requires id in hosts[0].containers && hosts[0].containers[id].name != p.containerName
    requires id !in DerivedFrom(hosts[0], p.Ref())
    ensures id in Final(hosts).containers && LeftToItself(hosts[0].containers[id], Final(hosts).containers[id])
  {
    if id in NamedLike(hosts[0], p.containerName) {
      UndottedFilter(p.containerName, hosts[0].containers[id].name);
    }
    UnmatchedUntouched(o, p, hosts, id);
  }

  // ---------------------------------------------------------------- the runner

  method StepLogin(s: Session, p: DeployParams, res: Result) returns (proceed: bool)
    requires res.steps == Padded(NAMES, [])
    modifies s, res`steps
    ensures s.log == LoginLog(old(s.log), p)
    ensures res.steps == Padded(NAMES, [LoginStatus(s.oracle, old(s.log), p)])
    ensures proceed <==> LoginStatus(s.oracle, old(s.log), p) != Failed
  {
    var password := SanitizeRegistryPassword(p.registryPassword);
    if p.registryUsername == "" || password == "" {
      res.Record(NAMES, [], RegistryLogin, Skipped);
      return true;
    }
    if ContainsControlChar(password) {
      res.Record(NAMES, [], RegistryLogin, Failed);
      return false;
    }
    var host := p.registryHost;
    if host == "" {
      host := "docker.io";
    }
    var username := p.registryUsername;
    if IsDockerHubHost(host) {
      username := Lower(username);
    }
    var r := s.Exec(if IsDockerHubHost(host) then Login("", username, password) else Login(host, username, password));
    if !r.ok {
      res.Record(NAMES, [], RegistryLogin, Failed);
      return false;
    }
    res.Record(NAMES, [], RegistryLogin, Ok);
    return true;
  }

  method StepFindAndStop(s: Session, p: DeployParams, res: Result, ghost st: Status)
    returns (ids: seq<string>, ghost st': Status)
    requires res.steps == Padded(NAMES, [st])
    modifies s, res`steps
    ensures ids == FindIds(s.oracle, old(s.log), true, p.containerName, p.Ref())
    ensures
      var found := FindLog(old(s.log), true, p.containerName, p.Ref());
      var stopped := found + [Stop(ids)];
      if ids == [] then s.log == found && st' == Skipped
      else
        && s.log == stopped
        && st' == if !s.oracle(stopped).ok && IsHardStopError(s.oracle(stopped).stderr) then Failed else Ok
    ensures res.steps == Padded(NAMES, [st] + [st'])
  {
    ids := FindExisting(s, true, p.containerName, p.Ref());
    if |ids| == 0 {
      st' := Skipped;
      res.Record(NAMES, [st], StopExisting, Skipped);
      return;
    }
    var r := s.Exec(Stop(ids));
    if !r.ok {
      if IsHardStopError(r.stderr) {
        st' := Failed;
        res.Record(NAMES, [st], StopExisting, Failed);
        return;
      }
    }
    st' := Ok;
    res.Record(NAMES, [st], StopExisting, Ok);
  }

  method StepRemoveContainers(s: Session, ids: seq<string>, res: Result, ghost done: seq<Status>)
    returns (proceed: bool, ghost st: Status)
    requires |done| == 2 && res.steps == Padded(NAMES, done)
    modifies s, res`steps
    ensures
      if ids == [] then s.log == old(s.log) && st == Skipped
      else s.log == old(s.log) + [Remove(ids)] && st == if s.oracle(s.log).ok then Ok else Failed
    ensures proceed <==> st != Failed
    ensures res.steps == Padded(NAMES, done + [st])
  {
    if |ids| == 0 {
      res.Record(NAMES, done, RemoveExisting, Skipped);
      return true, Skipped;
    }
    var r := s.Exec(Remove(ids));
    if !r.ok {
      res.Record(NAMES, done, RemoveExisting, Failed);
      return false, Failed;
    }
    res.Record(NAMES, done, RemoveExisting, Ok);
    return true, Ok;
  }

  method StepRemoveImage(s: Session, p: DeployParams, res: Result, ghost done: seq<Status>) returns (ghost st: Status)
    requires |done| == 3 && res.steps == Padded(NAMES, done)
    modifies s, res`steps
    ensures st != Unset && res.steps == Padded(NAMES, done + [st])
    ensures FromImage(s.oracle, old(s.log), p, done) == FromPull(s.oracle, s.log, p, done + [st])
  {
    var r := s.Exec(InspectImage(p.Ref()));
    if !r.ok {
      st := Skipped;
      res.Record(NAMES, done, RemoveImageStep, Skipped);
      return;
    }
    r := s.Exec(RemoveImage(p.Ref()));
    if !r.ok {
      st := Skipped;
      res.Record(NAMES, done, RemoveImageStep, Skipped);
      return;
    }
    st := Ok;
    res.Record(NAMES, done, RemoveImageStep, Ok);
  }

  method StepVerify(s: Session, p: DeployParams, res: Result, ghost done: seq<Status>) returns (ghost st: Status)
    requires |done| == 6 && res.steps == Padded(NAMES, done)
    modifies s, res`steps
    ensures res.steps == Padded(NAMES, done + [st])
    ensures forall id :: FromVerify(s.oracle, old(s.log), p, done, id) == Run(s.log, done + [st], id)
  {
    st := Failed;
    var r := s.Exec(Pause);
    if !r.ok {
      res.Record(NAMES, done, VerifyRunning, Failed);
      return;
    }
    r := s.Exec(InspectContainer(p.containerName));
    if !r.ok {
      res.Record(NAMES, done, VerifyRunning, Failed);
      return;
    }
    var parts := Split(r.stdout, '|');
    if |parts| < 3 {
      res.Record(NAMES, done, VerifyRunning, Failed);
      return;
    }
    var running := parts[0] == "true";
    if !running {
      res.Record(NAMES, done, VerifyRunning, Failed);
      return;
    }
    st := Ok;
    res.Record(NAMES, done, VerifyRunning, Ok);
  }

  /** stepPull and stepRun */
  method StepPullAndRun(s: Session, p: DeployParams, res: Result, ghost done: seq<Status>)
    returns (proceed: bool, ghost done': seq<Status>)
    requires |done| == 4 && res.steps == Padded(NAMES, done) && res.containerID == ""
    requires forall i :: 0 <= i < |done| ==> done[i] != Unset
    modifies s, res`steps, res`containerID
    ensures res.steps == Padded(NAMES, done')
    ensures
      FromPull(s.oracle, old(s.log), p, done)
      == if proceed then FromVerify(s.oracle, s.log, p, done', res.containerID) else Run(s.log, done', res.containerID)
    ensures |done'| <= 6 && (proceed ==> |done'| == 6)
  {
    var r := s.Exec(Pull(p.Ref()));
    if !r.ok {
      res.Record(NAMES, done, PullImage, Failed);
      res.Stop(NAMES, done + [Failed], PullImage);
      return false, done + [Failed];
    }
    res.Record(NAMES, done, PullImage, Ok);
    r := s.Exec(Start(p.Spec()));
    if !r.ok {
      res.Record(NAMES, done + [Ok], RunContainer, Failed);
      res.Stop(NAMES, done + [Ok] + [Failed], RunContainer);
      return false, done + [Ok] + [Failed];
    }
    res.containerID := Trim(r.stdout);
    res.Record(NAMES, done + [Ok], RunContainer, Ok);
    return true, done + [Ok] + [Ok];
  }

  /** Runner.Run from the image removal on. */
  method RunFromImage(s: Session, p: DeployParams, res: Result, ghost done: seq<Status>)
    requires |done| == 3 && res.View() == Report(true, false, "", Padded(NAMES, done))
    requires forall i :: 0 <= i < 3 ==> done[i] != Unset
    modifies s, res
    ensures
      var run := FromImage(s.oracle, old(s.log), p, done);
      s.log == run.log && res.View() == ReportOf(true, run)
  {
    ghost var start := s.log;
    ghost var st := StepRemoveImage(s, p, res, done);
    var proceed; ghost var done';
    proceed, done' := StepPullAndRun(s, p, res, done + [st]);
    if !proceed {
      return;
    }
    ghost var last := StepVerify(s, p, res, done');
    assert FromImage(s.oracle, start, p, done) == Run(s.log, done' + [last], res.containerID);
    res.ComputeSuccess();
  }

  /** Runner.Run from the removal of containers on. */
  method RunFromRemove(s: Session, p: DeployParams, res: Result, ids: seq<string>, ghost done: seq<Status>)
    requires |done| == 2 && res.View() == Report(true, false, "", Padded(NAMES, done))
    requires forall i :: 0 <= i < 2 ==> done[i] != Unset
    modifies s, res
    ensures
      var run := FromRemove(s.oracle, old(s.log), p, done, ids);
      s.log == run.log && res.View() == ReportOf(true, run)
  {
    var proceed; ghost var st;
    proceed, st := StepRemoveContainers(s, ids, res, done);
    if !proceed {
      res.Stop(NAMES, done + [st], RemoveExisting);
      return;
    }
    RunFromImage(s, p, res, done + [st]);
  }

  /** Runner.Run from the second step on. */
  method RunFromFind(s: Session, p: DeployParams, res: Result, ghost st: Status)
    requires res.View() == Report(true, false, "", Padded(NAMES, [st])) && st != Unset
    modifies s, res
    ensures
      var run := FromFind(s.oracle, old(s.log), p, [st]);
      s.log == run.log && res.View() == ReportOf(true, run)
  {
    var ids; ghost var st2;
    ids, st2 := StepFindAndStop(s, p, res, st);
    ghost var done := [st] + [st2];
    assert res.steps[1] == Step(StopExisting, st2);
    assert forall i :: 0 <= i < |res.steps| ==> res.steps[i].name == NAMES[i];
    var failed := res.HasFailed(StopExisting);
    if failed {
      res.Stop(NAMES, done, StopExisting);
      return;
    }
    RunFromRemove(s, p, res, ids, done);
  }

  /** The three ways a run can begin. */
  lemma Beginnings(o: Oracle, p: DeployParams)
    ensures !Available(o) ==>
      DeployRun(o, p).log == [Probe] && DeployReport(o, p) == Report(false, false, "", Padded(NAMES, []))
    ensures Available(o) && LoginStatus(o, [Probe], p) == Failed ==>
      && DeployRun(o, p).log == LoginLog([Probe], p)
      && DeployReport(o, p) == Report(true, false, "", Padded(NAMES, [Failed]))
    ensures Reached(o, p) ==>
      DeployRun(o, p) == FromFind(o, LoginLog([Probe], p), p, [LoginStatus(o, [Probe], p)])
  {}

  /** Runner.Run */
  method RunDeploy(oracle: Oracle, p: DeployParams) returns (res: Result, s: Session)
    ensures fresh(res) && fresh(s) && s.oracle == oracle
    ensures res.View() == DeployReport(oracle, p)
    ensures s.log == DeployRun(oracle, p).log
  {
    Beginnings(oracle, p);
    s := new Session(oracle);
    res := new Result(NAMES);
    var r := s.Exec(Probe);
    assert s.log == [Probe];
    if !r.ok || r.stdout == "" {
      return;
    }
    res.available := true;
    ghost var st := LoginStatus(oracle, [Probe], p);
    var proceed := StepLogin(s, p, res);
    if !proceed {
      assert [st] == [Failed];
      res.Stop(NAMES, [Failed], RegistryLogin);
    } else {
      RunFromFind(s, p, res, st);
    }
  }
}
