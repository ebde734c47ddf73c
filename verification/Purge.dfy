/** The purge runner: find, stop, rm, rmi, verify, against any remote side.  Laid out as the
    deploy runner: the run as a function, what every run reports and does, and the runner itself. */
module Purge {
  import opened Text
  import opened DockerCommands
  import opened Remote
  import opened Runner
  import Deploy

  const NAMES: seq<StepName> := [FindContainers, StopContainers, RemoveContainers, RemoveImageStep, VerifyPurged]

  /** PurgeParams; an empty container name means "search by image only". */
  datatype PurgeParams = PurgeParams(
    registryHost: string, registryNamespace: string, image: string, tag: string, containerName: string)
  {
    function Ref(): string { ImageRef(registryHost, registryNamespace, image, tag) }

    predicate ByName() { containerName != "" }
  }

  datatype Run = Run(log: seq<Command>, done: seq<Status>)

  function Ids(o: Oracle, log: seq<Command>, p: PurgeParams): seq<string> {
    FindIds(o, log, p.ByName(), p.containerName, p.Ref())
  }

  function Listing(log: seq<Command>, p: PurgeParams): seq<Command> {
    FindLog(log, p.ByName(), p.containerName, p.Ref())
  }

  function FromVerify(o: Oracle, log: seq<Command>, p: PurgeParams, done: seq<Status>): Run {
    var found := Listing(log, p);
    if Ids(o, log, p) != [] then Run(found, done + [Failed])
    else
      var asked := found + [InspectImage(p.Ref())];
      Run(asked, done + [if o(asked).ok then Failed else Ok])
  }

  function FromImage(o: Oracle, log: seq<Command>, p: PurgeParams, done: seq<Status>): Run {
    var inspected := log + [InspectImage(p.Ref())];
    if !o(inspected).ok then FromVerify(o, inspected, p, done + [Skipped])
    else
      var removed := inspected + [RemoveImage(p.Ref())];
      if !o(removed).ok then Run(removed, done + [Failed]) else FromVerify(o, removed, p, done + [Ok])
  }

  function FromFind(o: Oracle, log: seq<Command>, p: PurgeParams): Run {
    var ids := Ids(o, log, p);
    var found := Listing(log, p);
    if ids == [] then FromImage(o, found, p, [Skipped, Skipped, Skipped])
    else
      var stopped := found + [Stop(ids)];
      if !o(stopped).ok && Deploy.IsHardStopError(o(stopped).stderr) then Run(stopped, [Ok, Failed])
      else
        var removed := stopped + [Remove(ids)];
        if !o(removed).ok then Run(removed, [Ok, Ok, Failed]) else FromImage(o, removed, p, [Ok, Ok, Ok])
  }

  predicate Available(o: Oracle) { o([Probe]).ok && o([Probe]).stdout != "" }

  function PurgeRun(o: Oracle, p: PurgeParams): Run {
    if Available(o) then FromFind(o, [Probe], p) else Run([Probe], [])
  }

  function ReportOf(available: bool, run: Run): Report {
    Report(available, |run.done| == |NAMES| && AllOK(Padded(NAMES, run.done)), "", Padded(NAMES, run.done))
  }

  function PurgeReport(o: Oracle, p: PurgeParams): Report { ReportOf(Available(o), PurgeRun(o, p)) }

  // ---------------------------------------------------------------- every run's report

  predicate Chain(done: seq<Status>) {
    && done != [] && |done| <= |NAMES|
    && (forall i :: 0 <= i < |done| - 1 ==> Passed(done[i]))
    && (done[|done| - 1] == Failed || (done[|done| - 1] == Ok && |done| == |NAMES|))
  }

  lemma ImageChain(o: Oracle, log: seq<Command>, p: PurgeParams, done: seq<Status>)
    requires |done| == 3 && forall i :: 0 <= i < 3 ==> Passed(done[i])
    ensures Chain(FromImage(o, log, p, done).done) && done <= FromImage(o, log, p, done).done
  {
    var inspected := log + [InspectImage(p.Ref())];
    var removed := inspected + [RemoveImage(p.Ref())];
    assert Chain(done + [Failed]);
    forall log', st | Passed(st) ensures Chain(FromVerify(o, log', p, done + [st]).done) {
      assert |FromVerify(o, log', p, done + [st]).done| == 5;
    }
  }

  lemma PurgeChain(o: Oracle, p: PurgeParams)
    requires Available(o)
    ensures Chain(PurgeRun(o, p).done)
  {
    var found := Listing([Probe], p);
    var ids := Ids(o, [Probe], p);
    ImageChain(o, found, p, [Skipped, Skipped, Skipped]);
    ImageChain(o, found + [Stop(ids)] + [Remove(ids)], p, [Ok, Ok, Ok]);
    assert Chain([Ok, Failed]) && Chain([Ok, Ok, Failed]);
  }

  /** Whatever the remote side does, a purge report has exactly one of the three shapes; the find
      step never fails. */
  lemma PurgeIsWellShaped(o: Oracle, p: PurgeParams)
    ensures WellShaped(PurgeReport(o, p))
    ensures Unavailable(PurgeReport(o, p)) <==> !Available(o)
    ensures !FailedAt(PurgeReport(o, p), 0)
  {
    if Available(o) {
      PurgeChain(o, p);
      var d, r := PurgeRun(o, p).done, PurgeReport(o, p);
      assert forall i :: 0 <= i < |d| ==> r.steps[i].status == d[i];
      PaddedShape(NAMES, d, r);
      FindNeverFails(o, p);
    }
  }

  lemma FindNeverFails(o: Oracle, p: PurgeParams)
    requires Available(o)
    ensures var d := PurgeRun(o, p).done; d != [] && Passed(d[0])
  {
    var found := Listing([Probe], p);
    var ids := Ids(o, [Probe], p);
    ImageChain(o, found, p, [Skipped, Skipped, Skipped]);
    ImageChain(o, found + [Stop(ids)] + [Remove(ids)], p, [Ok, Ok, Ok]);
  }

  // ---------------------------------------------------------------- what is asked

  function Targets(o: Oracle, p: PurgeParams): seq<string> {
    if Available(o) then Ids(o, [Probe], p) else []
  }

  predicate Harmless(c: Command) { ReadOnly(c) || c.RemoveImage? }

  /** From position |log| on a run neither stops, removes nor starts a container, and when it ends
      well its last questions are the verification's. */
  ghost predicate TailLog(o: Oracle, log: seq<Command>, p: PurgeParams, r: Run) {
    && log <= r.log
    && (forall k :: |log| <= k < |r.log| ==> Harmless(r.log[k]))
    && (|r.done| == |NAMES| && r.done[4] == Ok ==> Verified(o, p, r.log))
  }

  /** log ends with the verification: listings that found nothing and an inspect that failed. */
  ghost predicate Verified(o: Oracle, p: PurgeParams, log: seq<Command>) {
    exists before :: VerifiedFrom(o, p, log, before)
  }

  ghost predicate VerifiedFrom(o: Oracle, p: PurgeParams, log: seq<Command>, before: seq<Command>) {
    && log == Listing(before, p) + [InspectImage(p.Ref())]
    && Ids(o, before, p) == [] && !o(log).ok
  }

  lemma VerifyLog(o: Oracle, log: seq<Command>, p: PurgeParams, done: seq<Status>)
    requires |done| == 4
    ensures TailLog(o, log, p, FromVerify(o, log, p, done))
  {
    var r := FromVerify(o, log, p, done);
    if r.done[4] == Ok {
      assert VerifiedFrom(o, p, r.log, log);
    }
  }

  lemma ImageLog(o: Oracle, log: seq<Command>, p: PurgeParams, done: seq<Status>)
    requires |done| == 3
    ensures TailLog(o, log, p, FromImage(o, log, p, done))
  {
    var inspected := log + [InspectImage(p.Ref())];
    var removed := inspected + [RemoveImage(p.Ref())];
    if !o(inspected).ok {
      VerifyLog(o, inspected, p, done + [Skipped]);
    } else if o(removed).ok {
      VerifyLog(o, removed, p, done + [Ok]);
    }
  }

  /** What a run does once the containers are known. */
  ghost predicate FindTail(o: Oracle, p: PurgeParams, r: Run) {
    var ids, found := Ids(o, [Probe], p), Listing([Probe], p);
    && found <= r.log
    && (forall k :: 0 <= k < |found| ==> ReadOnly(r.log[k]))
    && (forall k :: |found| <= k < |r.log| ==> Harmless(r.log[k]) || r.log[k] == Stop(ids) || r.log[k] == Remove(ids))
    && (|r.done| > 3 && ids != [] ==> Succeeded(o, r.log, Remove(ids)))
    && (|r.done| == |NAMES| && r.done[4] == Ok ==> Verified(o, p, r.log))
  }

  lemma FoundIsRead(p: PurgeParams)
    ensures forall k :: 0 <= k < |Listing([Probe], p)| ==> ReadOnly(Listing([Probe], p)[k])
  {}

  lemma FindLogFacts(o: Oracle, p: PurgeParams)
    requires Available(o)
    ensures FindTail(o, p, PurgeRun(o, p))
  {
    var ids, found, r := Ids(o, [Probe], p), Listing([Probe], p), PurgeRun(o, p);
    var stopped := found + [Stop(ids)];
    var removed := stopped + [Remove(ids)];
    FoundIsRead(p);
    if ids == [] {
      ImageLog(o, found, p, [Skipped, Skipped, Skipped]);
      assert forall k :: 0 <= k < |found| ==> r.log[k] == found[k];
    } else if !o(stopped).ok && Deploy.IsHardStopError(o(stopped).stderr) {
      assert r.log == stopped;
    } else if !o(removed).ok {
      assert r.log == removed;
    } else {
      ImageLog(o, removed, p, [Ok, Ok, Ok]);
      assert forall k :: 0 <= k < |removed| ==> r.log[k] == removed[k];
      SucceededLast(o, stopped, Remove(ids));
      SucceededLater(o, removed, r.log, Remove(ids));
    }
  }

  /** Stop and rm name exactly the containers found, and nothing is started. */
  lemma PurgeIsDisciplined(o: Oracle, p: PurgeParams)
    ensures Disciplined(PurgeRun(o, p).log, Targets(o, p), None)
  {
    if Available(o) {
      FindLogFacts(o, p);
    }
  }

  /** A run that got past the removal step has removed what it found; one that ended well has
      verified. */
  lemma PurgeLog(o: Oracle, p: PurgeParams)
    requires Available(o)
    ensures
      var r := PurgeRun(o, p);
      && Listing([Probe], p) <= r.log
      && (|r.done| > 3 && Targets(o, p) != [] ==> Succeeded(o, r.log, Remove(Targets(o, p))))
      && (|r.done| == |NAMES| && r.done[4] == Ok ==> Verified(o, p, r.log))
  {
    FindLogFacts(o, p);
  }

  // ---------------------------------------------------------------- every run, answer by answer

  function Search(p: PurgeParams): seq<Command> {
    (if p.containerName != "" then [ListByName(p.containerName)] else []) + [ListByImage(p.Ref())]
  }

  /** The listings asked for after log show nothing but whitespace. */
  predicate ShowNothing(o: Oracle, p: PurgeParams, log: seq<Command>) {
    && (p.containerName != "" ==> Blank(o(log + [ListByName(p.containerName)]).stdout))
    && Blank(o(log + Search(p)).stdout)
  }

  /** What has been asked by the end of each step, if the run gets there: find, stop, rm, rmi, verify.
      ids is what the first search finds. */
  function Asked(o: Oracle, p: PurgeParams, ids: seq<string>): (asked: seq<seq<Command>>)
    ensures |asked| == 5
  {
    var found := [Probe] + Search(p);
    var stopped := found + if ids == [] then [] else [Stop(ids)];
    var removed := stopped + if ids == [] then [] else [Remove(ids)];
    [found, stopped, removed] + AskedFromImage(o, p, removed)
  }

  function AskedFromImage(o: Oracle, p: PurgeParams, removed: seq<Command>): (asked: seq<seq<Command>>)
    ensures |asked| == 2
  {
    var inspected := removed + [InspectImage(p.Ref())];
    var untagged := inspected + if o(inspected).ok then [RemoveImage(p.Ref())] else [];
    [untagged, untagged + Search(p) + if ShowNothing(o, p, untagged) then [InspectImage(p.Ref())] else []]
  }

  /** Which steps go well: finding always; a stop that succeeds or is forgiven; a removal that
      succeeds; an image that is not there or is removed; and a verification whose listings show
      nothing and whose inspection fails. */
  ghost function Went(o: Oracle, p: PurgeParams, ids: seq<string>): (went: seq<bool>)
    ensures |went| == 5
  {
    var asked := Asked(o, p, ids);
    [ true,
      ids == [] || o(asked[1]).ok || Deploy.Forgiven(o(asked[1]).stderr),
      ids == [] || o(asked[2]).ok,
      o(asked[2] + [InspectImage(p.Ref())]).ok ==> o(asked[3]).ok,
      ShowNothing(o, p, asked[3]) && !o(asked[4]).ok ]
  }

  /** How each step is reported when it goes well. */
  function PassedAs(o: Oracle, p: PurgeParams, ids: seq<string>): (passed: seq<Status>)
    ensures |passed| == 5
  {
    var found := if ids == [] then Skipped else Ok;
    [ found, found, found, if o(Asked(o, p, ids)[2] + [InspectImage(p.Ref())]).ok then Ok else Skipped, Ok ]
  }

  /** The run and its report are the script up to the first step that does not go well. */
  ghost predicate Explained(run: Run, r: Report, asked: seq<seq<Command>>, went: seq<bool>, passed: seq<Status>)
    requires |asked| == |went| == |passed| == 5
  {
    && Follows(r, [FindContainers, StopContainers, RemoveContainers, RemoveImageStep, VerifyPurged], went, passed)
    && (forall k: nat :: FirstToFail(went, k) ==> run.log == asked[k])
    && (AllWent(went) ==> run.log == asked[4])
    && r.containerID == ""
  }

  /** Every run, from the answers to its commands: the report step by step and what was asked by
      then.  In particular a purge succeeds exactly when all five steps go well. */
  lemma PurgeOutcome(o: Oracle, p: PurgeParams)
    ensures p.Ref() == RefText(p.registryHost, p.registryNamespace, p.image, p.tag)
    ensures !(o([Probe]).ok && o([Probe]).stdout != "") ==>
      PurgeRun(o, p).log == [Probe] && PurgeReport(o, p) == Report(false, false, "", Padded(NAMES, []))
    ensures o([Probe]).ok && o([Probe]).stdout != "" ==>
      var ids := FindIds(o, [Probe], p.containerName != "", p.containerName, p.Ref());
      Explained(PurgeRun(o, p), PurgeReport(o, p), Asked(o, p, ids), Went(o, p, ids), PassedAs(o, p, ids))
  {
    RefIs(p.registryHost, p.registryNamespace, p.image, p.tag);
    if Available(o) {
      var ids := FindIds(o, [Probe], p.containerName != "", p.containerName, p.Ref());
      RunIsExplained(o, p, ids);
    }
  }

  lemma RunIsExplained(o: Oracle, p: PurgeParams, ids: seq<string>)
    requires Available(o) && ids == FindIds(o, [Probe], p.containerName != "", p.containerName, p.Ref())
    ensures Explained(PurgeRun(o, p), PurgeReport(o, p), Asked(o, p, ids), Went(o, p, ids), PassedAs(o, p, ids))
  {
    RunIs(o, p, ids);
    PassedStatuses(o, p, ids);
    ScriptExplains(PurgeRun(o, p), PurgeReport(o, p), Asked(o, p, ids), Went(o, p, ids), PassedAs(o, p, ids));
  }

  /** The script, written out. */
  function ScriptRun(asked: seq<seq<Command>>, went: seq<bool>, passed: seq<Status>): Run
    requires |asked| == |went| == |passed| == 5
  {
    if !went[0] then Run(asked[0], [Failed])
    else if !went[1] then Run(asked[1], passed[..1] + [Failed])
    else if !went[2] then Run(asked[2], passed[..2] + [Failed])
    else if !went[3] then Run(asked[3], passed[..3] + [Failed])
    else if !went[4] then Run(asked[4], passed[..4] + [Failed])
    else Run(asked[4], passed)
  }

  lemma ScriptExplains(run: Run, r: Report, asked: seq<seq<Command>>, went: seq<bool>, passed: seq<Status>)
    requires |asked| == |went| == |passed| == 5 && forall i :: 0 <= i < 5 ==> Passed(passed[i])
    requires run == ScriptRun(asked, went, passed) && r == ReportOf(true, run)
    ensures Explained(run, r, asked, went, passed)
  {
    if AllWent(went) {
      FollowsToTheEnd(r, NAMES, went, passed);
    } else {
      var k := FirstFailure(went);
      assert passed[..0] + [Failed] == [Failed];
      assert run == Run(asked[k], passed[..k] + [Failed]);
      assert Padded(NAMES, run.done)[k].status == Failed;
      FollowsUpTo(r, NAMES, went, passed, k);
      OnlyFirst(went, k);
    }
  }

  lemma PassedStatuses(o: Oracle, p: PurgeParams, ids: seq<string>)
    ensures
      var passed := PassedAs(o, p, ids);
      passed == [passed[0], passed[0], passed[0], passed[3], Ok] && forall i :: 0 <= i < 5 ==> Passed(passed[i])
  {}

  lemma RunIs(o: Oracle, p: PurgeParams, ids: seq<string>)
    requires Available(o) && ids == FindIds(o, [Probe], p.containerName != "", p.containerName, p.Ref())
    ensures PurgeRun(o, p) == ScriptRun(Asked(o, p, ids), Went(o, p, ids), PassedAs(o, p, ids))
  {
    var found := if ids == [] then Skipped else Ok;
    var removed := Asked(o, p, ids)[2];
    FromFindAsks(o, p, ids);
    FromImageAsks(o, removed, p, [found, found, found]);
    PassedStatuses(o, p, ids);
    IsScript(FromFind(o, [Probe], p), Asked(o, p, ids), Went(o, p, ids), PassedAs(o, p, ids), found,
             if o(removed + [InspectImage(p.Ref())]).ok then Ok else Skipped);
  }

  lemma IsScript(
    run: Run, asked: seq<seq<Command>>, went: seq<bool>, passed: seq<Status>, found: Status, image: Status)
    requires |asked| == |went| == 5 && passed == [found, found, found, image, Ok] && went[0]
    requires !went[1] || !went[2] ==> found == Ok
    requires
      run
      == if !went[1] then Run(asked[1], [Ok, Failed])
         else if !went[2] then Run(asked[2], [Ok, Ok, Failed])
         else if !went[3] then Run(asked[3], [found, found, found] + [Failed])
         else Run(asked[4], [found, found, found] + [image] + [if went[4] then Ok else Failed])
    ensures run == ScriptRun(asked, went, passed)
  {
    assert passed[..1] + [Failed] == [found, Failed] && passed[..2] + [Failed] == [found, found, Failed];
    assert passed[..3] == [found, found, found];
    assert passed[..3] + [image] == passed[..4] && passed[..4] + [Ok] == passed;
  }

  lemma FromFindAsks(o: Oracle, p: PurgeParams, ids: seq<string>)
    requires ids == FindIds(o, [Probe], p.containerName != "", p.containerName, p.Ref())
    ensures
      var asked := Asked(o, p, ids);
      var found := if ids == [] then Skipped else Ok;
      FromFind(o, [Probe], p)
      == if ids != [] && !(o(asked[1]).ok || Deploy.Forgiven(o(asked[1]).stderr)) then Run(asked[1], [Ok, Failed])
         else if ids != [] && !o(asked[2]).ok then Run(asked[2], [Ok, Ok, Failed])
         else FromImage(o, asked[2], p, [found, found, found])
  {
    var found := Listing([Probe], p);
    ListingIsSearch([Probe], p);
    assert found + [] == found;
    Deploy.HardStopIff(o(found + [Stop(ids)]).stderr);
  }

  lemma ListingIsSearch(log: seq<Command>, p: PurgeParams)
    ensures Listing(log, p) == log + Search(p)
  {}

  lemma FromImageAsks(o: Oracle, removed: seq<Command>, p: PurgeParams, done: seq<Status>)
    requires |done| == 3
    ensures
      var untagged, verified := AskedFromImage(o, p, removed)[0], AskedFromImage(o, p, removed)[1];
      var there := o(removed + [InspectImage(p.Ref())]).ok;
      FromImage(o, removed, p, done)
      == if there && !o(untagged).ok then Run(untagged, done + [Failed])
         else Run(verified, done + [if there then Ok else Skipped]
                            + [if ShowNothing(o, p, untagged) && !o(verified).ok then Ok else Failed])
  {
    var inspected := removed + [InspectImage(p.Ref())];
    assert inspected + [] == inspected;
    VerifyAsks(o, AskedFromImage(o, p, removed)[0], p, done + [if o(inspected).ok then Ok else Skipped]);
  }

  lemma VerifyAsks(o: Oracle, log: seq<Command>, p: PurgeParams, done: seq<Status>)
    ensures
      var verified := log + Search(p) + if ShowNothing(o, p, log) then [InspectImage(p.Ref())] else [];
      FromVerify(o, log, p, done)
      == Run(verified, done + [if ShowNothing(o, p, log) && !o(verified).ok then Ok else Failed])
  {
    ListingIsSearch(log, p);
    FindsNothingIff(o, log, p.ByName(), p.containerName, p.Ref());
    assert log + Search(p) + [] == log + Search(p);
  }

  /** Before the removal of the containers has ended no image is looked at; from then on the
      inspection and, if the image is there, its removal come first. */
  lemma AskedAboutImage(o: Oracle, p: PurgeParams, ids: seq<string>)
    ensures
      var asked := Asked(o, p, ids);
      var inspected := asked[2] + [InspectImage(p.Ref())];
      && (forall n, j :: 0 <= n <= 2 && 0 <= j < |asked[n]| ==>
            !asked[n][j].InspectImage? && !asked[n][j].RemoveImage?)
      && asked[3] == inspected + (if o(inspected).ok then [RemoveImage(p.Ref())] else [])
      && asked[3] <= asked[4]
      && (forall j :: |asked[3]| <= j < |asked[4]| ==> !asked[4][j].RemoveImage?)
  {}

  /** The image step has been reached when an image has been inspected. */
  lemma ImageStepReached(o: Oracle, p: PurgeParams, ids: seq<string>, k: nat) returns (n: nat)
    requires Available(o) && ids == FindIds(o, [Probe], p.containerName != "", p.containerName, p.Ref())
    requires k < |PurgeRun(o, p).log| && PurgeRun(o, p).log[k].InspectImage?
    ensures 3 <= n <= 4 && PurgeRun(o, p).log == Asked(o, p, ids)[n]
    ensures
      PurgeReport(o, p).steps[3].status == if Went(o, p, ids)[3] then PassedAs(o, p, ids)[3] else Failed
  {
    PurgeOutcome(o, p);
    AskedAboutImage(o, p, ids);
    var went := Went(o, p, ids);
    if AllWent(went) {
      n := 4;
    } else {
      n := FirstFailure(went);
    }
  }

  /** Where the image is found to be there, its removal is asked next, and the step ends as that is
      answered; where it is not, no removal is asked and the step is skipped. */
  lemma ImageRemovalIsAsked(o: Oracle, p: PurgeParams, k: nat)
    requires k < |PurgeRun(o, p).log| && PurgeRun(o, p).log[k].InspectImage?
    requires forall j :: 0 <= j < k ==> !PurgeRun(o, p).log[j].InspectImage?
    ensures
      var log, status := PurgeRun(o, p).log, PurgeReport(o, p).steps[3].status;
      if o(log[..k + 1]).ok
      then k + 1 < |log| && log[k + 1] == RemoveImage(p.Ref()) && status == if o(log[..k + 2]).ok then Ok else Failed
      else status == Skipped && forall j :: 0 <= j < |log| ==> !log[j].RemoveImage?
  {
    var ids := FindIds(o, [Probe], p.containerName != "", p.containerName, p.Ref());
    var n := ImageStepReached(o, p, ids, k);
    AskedAboutImage(o, p, ids);
    FirstInspection(o, p.Ref(), Asked(o, p, ids)[2], Asked(o, p, ids)[3], PurgeRun(o, p).log, k);
  }

  lemma FirstInspection(
    o: Oracle, ref: string, removed: seq<Command>, untagged: seq<Command>, log: seq<Command>, k: nat)
    requires forall j :: 0 <= j < |removed| ==> !removed[j].InspectImage? && !removed[j].RemoveImage?
    requires
      var inspected := removed + [InspectImage(ref)];
      untagged == inspected + (if o(inspected).ok then [RemoveImage(ref)] else []) && untagged <= log
    requires k < |log| && log[k].InspectImage? && forall j :: 0 <= j < k ==> !log[j].InspectImage?
    ensures k == |removed| && log[..k + 1] == removed + [InspectImage(ref)]
    ensures o(log[..k + 1]).ok ==> k + 1 < |log| && log[k + 1] == RemoveImage(ref) && log[..k + 2] == untagged
    ensures !o(log[..k + 1]).ok ==> forall j :: 0 <= j < |untagged| ==> !log[j].RemoveImage?
  {
    var inspected := removed + [InspectImage(ref)];
    assert inspected <= untagged;
    assert log[..|untagged|] == untagged;
    assert log[|removed|] == untagged[|removed|] == inspected[|removed|];
    assert forall j :: 0 <= j < |removed| ==> log[j] == untagged[j] == removed[j];
  }

  // ---------------------------------------------------------------- what it does to a host

  function Final(hosts: seq<Host>): Host
    requires hosts != []
  {
    hosts[|hosts| - 1]
  }

  function Matches(p: PurgeParams, h: Host): set<string> { Matching(h, p.ByName(), p.containerName, p.Ref()) }

  /** Listings and image inspections from position n on told the truth. */
  ghost predicate TruthfulFrom(o: Oracle, log: seq<Command>, hosts: seq<Host>, n: nat)
    requires |hosts| == |log| + 1 && n <= |log|
  {
    && TruthfulListings(o, log, hosts, n, |log|)
    && forall k :: n <= k < |log| ==> TruthfulImage(hosts[k], log[k], o(log[..k + 1]))
  }

  /** The listings of the first search told the truth; later answers may be anything. */
  ghost predicate TruthfulSearch(o: Oracle, p: PurgeParams, hosts: seq<Host>) {
    var log, n := PurgeRun(o, p).log, |Listing([Probe], p)|;
    Executes(o, log, hosts) && (Available(o) ==> n <= |log| && TruthfulListings(o, log, hosts, 1, n))
  }

  /** The host after the verification, against the host at one of its questions. */
  lemma SameMatchesAtTheEnd(
    o: Oracle, log: seq<Command>, hosts: seq<Host>, before: seq<Command>, p: PurgeParams, k: nat)
    requires Executes(o, log, hosts) && VerifiedFrom(o, p, log, before) && |before| <= k <= |log|
    ensures NamedLike(Final(hosts), p.containerName) == NamedLike(hosts[k], p.containerName)
    ensures DerivedFrom(Final(hosts), p.Ref()) == DerivedFrom(hosts[k], p.Ref())
    ensures Final(hosts).images == hosts[k].images
  {
    assert forall i :: k <= i < |log| ==> ReadOnly(log[i]);
    ReadingLeavesHost(o, log, hosts, k, |log|);
    DriftKeepsMatching(hosts[k], Final(hosts));
  }

  /** A verification that found nothing listed nothing. */
  lemma NothingWasListed(o: Oracle, before: seq<Command>, p: PurgeParams)
    requires Ids(o, before, p) == []
    ensures p.ByName() ==> Listed(o(before + [ListByName(p.containerName)]).stdout) == {}
    ensures Listed(o(Listing(before, p)).stdout) == {}
  {
    FindIdsAre(o, before, p.ByName(), p.containerName, p.Ref());
    assert SetOf([]) == {};
  }

  /** What is asked at each position of a verification. */
  lemma VerificationAsks(o: Oracle, log: seq<Command>, before: seq<Command>, p: PurgeParams)
    requires VerifiedFrom(o, p, log, before)
    ensures
      var n := |log|;
      && n >= |before| + 2 && log[n - 2] == ListByImage(p.Ref()) && log[n - 1] == InspectImage(p.Ref())
      && log[..n - 1] == Listing(before, p) && log[..n] == log
      && (if p.ByName() then
            n == |before| + 3 && log[|before|] == ListByName(p.containerName)
            && log[..|before| + 1] == before + [ListByName(p.containerName)]
          else n == |before| + 2)
  {
    FindAsks(log, before, p.ByName(), p.containerName, p.Ref());
  }

  /** When a purge has succeeded, docker ps would list no container for the image or the optional
      name and the image reference is gone, if and only if the answers of the verification were
      true.  The runner takes a failed listing for an empty one and any failed inspection for an
      absent image.  This says less than it seems to: once the reference is gone docker ps lists
      nothing for it, although containers of the image may still be running (see
      ImageFilterForgets); what has become of those is SuccessRemovesExactlyTheFound. */
  lemma SuccessIsClean(o: Oracle, p: PurgeParams, hosts: seq<Host>, before: seq<Command>)
    requires var log := PurgeRun(o, p).log; Executes(o, log, hosts) && VerifiedFrom(o, p, log, before)
    ensures
      Matches(p, Final(hosts)) == {} && p.Ref() !in Final(hosts).images
      <==> TruthfulFrom(o, PurgeRun(o, p).log, hosts, |before|)
  {
    VerifiedIsClean(o, p, PurgeRun(o, p).log, hosts, before);
    CleanIsNoMatch(p, Final(hosts));
  }

  /** The verification told the truth if and only if there was nothing to tell. */
  lemma TruthfulIffNothingThere(o: Oracle, p: PurgeParams, log: seq<Command>, hosts: seq<Host>, before: seq<Command>)
    requires |hosts| == |log| + 1 && VerifiedFrom(o, p, log, before)
    ensures |log| >= |before| + 2
    ensures
      TruthfulFrom(o, log, hosts, |before|)
      <==>
      && (p.ByName() ==> NamedLike(hosts[|before|], p.containerName) == {})
      && DerivedFrom(hosts[|log| - 2], p.Ref()) == {}
      && p.Ref() !in hosts[|log| - 1].images
  {
    var n := |log|;
    VerificationAsks(o, log, before, p);
    ListingsAreTrueIff(o, p, log, hosts, before);
    assert TruthfulFrom(o, log, hosts, |before|) ==> TruthfulImage(hosts[n - 1], log[n - 1], o(log[..n]));
    assert forall k :: |before| <= k < n - 1 ==> !log[k].InspectImage?;
  }

  lemma ListingsAreTrueIff(o: Oracle, p: PurgeParams, log: seq<Command>, hosts: seq<Host>, before: seq<Command>)
    requires |hosts| == |log| + 1 && VerifiedFrom(o, p, log, before) && |log| >= |before| + 2
    ensures
      TruthfulListings(o, log, hosts, |before|, |log|)
      <==>
      && (p.ByName() ==> NamedLike(hosts[|before|], p.containerName) == {})
      && DerivedFrom(hosts[|log| - 2], p.Ref()) == {}
  {
    var n := |log|;
    NothingWasListed(o, before, p);
    VerificationAsks(o, log, before, p);
    assert TruthfulListings(o, log, hosts, |before|, |log|) ==>
      && TruthfulListing(hosts[|before|], log[|before|], o(log[..|before| + 1]))
      && TruthfulListing(hosts[n - 2], log[n - 2], o(log[..n - 1]));
  }

  /** Nothing on this host that a purge is to remove. */
  predicate Clean(p: PurgeParams, h: Host) {
    && (p.ByName() ==> NamedLike(h, p.containerName) == {})
    && DerivedFrom(h, p.Ref()) == {}
    && p.Ref() !in h.images
  }

  lemma CleanIsNoMatch(p: PurgeParams, h: Host)
    ensures Clean(p, h) <==> Matches(p, h) == {} && p.Ref() !in h.images
  {
    var named, derived := NamedLike(h, p.containerName), DerivedFrom(h, p.Ref());
    assert Matches(p, h) == (if p.ByName() then named else {}) + derived;
    assert derived <= Matches(p, h) && (p.ByName() ==> named <= Matches(p, h));
  }

  lemma CleanAtTheEnd(o: Oracle, p: PurgeParams, log: seq<Command>, hosts: seq<Host>, before: seq<Command>)
    requires Executes(o, log, hosts) && VerifiedFrom(o, p, log, before) && |log| >= |before| + 2
    ensures
      Clean(p, Final(hosts))
      <==>
      && (p.ByName() ==> NamedLike(hosts[|before|], p.containerName) == {})
      && DerivedFrom(hosts[|log| - 2], p.Ref()) == {}
      && p.Ref() !in hosts[|log| - 1].images
  {
    SameMatchesAtTheEnd(o, log, hosts, before, p, |before|);
    SameMatchesAtTheEnd(o, log, hosts, before, p, |log| - 2);
    SameMatchesAtTheEnd(o, log, hosts, before, p, |log| - 1);
  }

  lemma VerifiedIsClean(o: Oracle, p: PurgeParams, log: seq<Command>, hosts: seq<Host>, before: seq<Command>)
    requires Executes(o, log, hosts) && VerifiedFrom(o, p, log, before)
    ensures Clean(p, Final(hosts)) <==> TruthfulFrom(o, log, hosts, |before|)
  {
    TruthfulIffNothingThere(o, p, log, hosts, before);
    CleanAtTheEnd(o, p, log, hosts, before);
  }

  /** A successful run does end with such a verification. */
  lemma SuccessWasVerified(o: Oracle, p: PurgeParams) returns (before: seq<Command>)
    requires PurgeReport(o, p).success
    ensures VerifiedFrom(o, p, PurgeRun(o, p).log, before)
  {
    var d := PurgeRun(o, p).done;
    PurgeChain(o, p);
    assert Padded(NAMES, d)[4].status == d[4];
    PurgeLog(o, p);
    before :| VerifiedFrom(o, p, PurgeRun(o, p).log, before);
  }

  lemma RemovalHappened(o: Oracle, p: PurgeParams)
    requires PurgeReport(o, p).success
    ensures Available(o)
    ensures Targets(o, p) != [] ==> Succeeded(o, PurgeRun(o, p).log, Remove(Targets(o, p)))
  {
    PurgeLog(o, p);
  }

  /** With a truthful first search a purge's targets are the containers that match beforehand. */
  lemma TargetsAreTheMatches(o: Oracle, p: PurgeParams, hosts: seq<Host>)
    requires TruthfulSearch(o, p, hosts) && Available(o)
    ensures SetOf(Targets(o, p)) == Matches(p, hosts[0])
  {
    var log := PurgeRun(o, p).log;
    PurgeLog(o, p);
    ListingFinds(o, log, hosts, [Probe], p.ByName(), p.containerName, p.Ref());
    assert log[0] == Listing([Probe], p)[0] == Probe;
    ReadingLeavesHost(o, log, hosts, 0, 1);
    DriftKeepsMatching(hosts[0], hosts[1]);
  }

  /** Whatever the answers were: of the containers that were there at the start, a successful purge
      has removed exactly those that its first search found. */
  lemma SuccessRemovesExactlyTheFound(o: Oracle, p: PurgeParams, hosts: seq<Host>, id: string)
    requires Executes(o, PurgeRun(o, p).log, hosts) && PurgeReport(o, p).success && id in hosts[0].containers
    ensures id !in Final(hosts).containers <==> id in SetOf(Targets(o, p))
  {
    RemovalHappened(o, p);
    PurgeIsDisciplined(o, p);
    ExactlyTheTargets(o, PurgeRun(o, p).log, hosts, Targets(o, p), id);
  }

  lemma ExactlyTheTargets(o: Oracle, log: seq<Command>, hosts: seq<Host>, targets: seq<string>, id: string)
    requires Executes(o, log, hosts) && Disciplined(log, targets, None) && id in hosts[0].containers
    requires targets != [] ==> Succeeded(o, log, Remove(targets))
    ensures id !in Final(hosts).containers <==> id in SetOf(targets)
  {
    if id in SetOf(targets) {
      RemovedSetIsGone(o, log, hosts, targets, id);
    } else {
      OthersUntouched(o, log, hosts, targets, None, |log|, id);
    }
  }

  /** No container that matched at the start is left, and neither is the image. */
  ghost predicate Purged(p: PurgeParams, hosts: seq<Host>)
    requires hosts != []
  {
    && (forall id :: id in Matches(p, hosts[0]) ==> id !in Final(hosts).containers)
    && p.Ref() !in Final(hosts).images
  }

  lemma ImageIsGoneIff(o: Oracle, p: PurgeParams, log: seq<Command>, hosts: seq<Host>, before: seq<Command>)
    requires Executes(o, log, hosts) && VerifiedFrom(o, p, log, before)
    ensures |log| > 0
    ensures p.Ref() !in Final(hosts).images <==> TruthfulImage(hosts[|log| - 1], log[|log| - 1], o(log))
  {
    VerificationAsks(o, log, before, p);
    SameMatchesAtTheEnd(o, log, hosts, before, p, |log| - 1);
  }

  /** A successful purge has purged the host if and only if its first search missed no container and
      its last inspection told the truth; the other answers do not matter. */
  lemma SuccessMeansPurgedIff(o: Oracle, p: PurgeParams, hosts: seq<Host>)
    requires Executes(o, PurgeRun(o, p).log, hosts) && PurgeReport(o, p).success
    ensures |PurgeRun(o, p).log| > 0
    ensures
      var log := PurgeRun(o, p).log;
      Purged(p, hosts)
      <==>
      Matches(p, hosts[0]) <= SetOf(Targets(o, p)) && TruthfulImage(hosts[|log| - 1], log[|log| - 1], o(log))
  {
    var log := PurgeRun(o, p).log;
    var before := SuccessWasVerified(o, p);
    ImageIsGoneIff(o, p, log, hosts, before);
    forall id | id in Matches(p, hosts[0]) ensures id !in Final(hosts).containers <==> id in SetOf(Targets(o, p)) {
      SuccessRemovesExactlyTheFound(o, p, hosts, id);
    }
  }

  /** So after a truthful first search a successful purge has removed every container that matched
      when it started, whatever was answered later. */
  lemma SuccessRemovesMatches(o: Oracle, p: PurgeParams, hosts: seq<Host>, id: string)
    requires TruthfulSearch(o, p, hosts) && PurgeReport(o, p).success && id in Matches(p, hosts[0])
    ensures id !in Final(hosts).containers
  {
    RemovalHappened(o, p);
    TargetsAreTheMatches(o, p, hosts);
    SuccessRemovesExactlyTheFound(o, p, hosts, id);
  }

  /** Successful or not, after a truthful first search a purge leaves every container outside the
      matches to itself. */
  lemma PurgeTouchesOnlyMatches(o: Oracle, p: PurgeParams, hosts: seq<Host>, id: string)
    requires TruthfulSearch(o, p, hosts)
    requires id in hosts[0].containers && id !in Matches(p, hosts[0])
    ensures id in Final(hosts).containers && LeftToItself(hosts[0].containers[id], Final(hosts).containers[id])
  {
    var targets := Targets(o, p);
    PurgeIsDisciplined(o, p);
    if Available(o) {
      TargetsAreTheMatches(o, p, hosts);
    } else {
      assert SetOf(targets) == {};
    }
    UntargetedUntouched(o, PurgeRun(o, p).log, hosts, targets, id);
  }

  lemma UntargetedUntouched(o: Oracle, log: seq<Command>, hosts: seq<Host>, targets: seq<string>, id: string)
    requires Executes(o, log, hosts) && Disciplined(log, targets, None)
    requires id in hosts[0].containers && id !in SetOf(targets)
    ensures id in Final(hosts).containers && LeftToItself(hosts[0].containers[id], Final(hosts).containers[id])
  {
    OthersUntouched(o, log, hosts, targets, None, |log|, id);
  }

  // ---------------------------------------------------------------- how the verification can be passed

  /** A remote side on which only the first listing fails: probe, failed listing, image there, image
      removed, nothing listed, image not there. */
  function MissesOnce(): Oracle {
    log =>
      if |log| == 1 then Reply("/usr/bin/docker", "", true)
      else if |log| == 2 || |log| >= 6 then Reply("", "", false)
      else Reply("", "", true)
  }

  function Untagged(h: Host, ref: string): Host { h.(images := h.images - {ref}) }

  function MissesOnceLog(ref: string): seq<Command> {
    [Probe, ListByImage(ref), InspectImage(ref), RemoveImage(ref), ListByImage(ref), InspectImage(ref)]
  }

  lemma MissesOnceRun(p: PurgeParams)
    requires p.containerName == ""
    ensures
      PurgeRun(MissesOnce(), p)
      == Run(MissesOnceLog(p.Ref()), [Skipped, Skipped, Skipped, Ok, Ok])
  {
    var o := MissesOnce();
    var removed := [Probe, ListByImage(p.Ref()), InspectImage(p.Ref()), RemoveImage(p.Ref())];
    EmptyListing(o, [Probe], p);
    EmptyListing(o, removed, p);
    assert Listing([Probe], p) + [InspectImage(p.Ref())] + [RemoveImage(p.Ref())] == removed;
    assert [Skipped, Skipped, Skipped] + [Ok] + [Ok] == [Skipped, Skipped, Skipped, Ok, Ok];
  }

  lemma EmptyListing(o: Oracle, log: seq<Command>, p: PurgeParams)
    requires p.containerName == "" && o(log + [ListByImage(p.Ref())]).stdout == ""
    ensures Ids(o, log, p) == [] && Listing(log, p) == log + [ListByImage(p.Ref())]
  {
    assert Lines("") == [""];
    assert [""][..0] == [];
    assert Collect([], [""]) == Merge([], "") == [];
  }

  /** The hosts of that run: the image loses its tag, and nothing else happens. */
  function UntaggedAfter(h: Host, ref: string): seq<Host> {
    [h, h, h, h, Untagged(h, ref), Untagged(h, ref), Untagged(h, ref)]
  }

  lemma UntaggedProceeds(h: Host, ref: string, r: Reply)
    requires ref in h.images
    ensures Proceeds(h, h, RemoveImage(ref), r, Untagged(h, ref))
  {}

  lemma IdleProceeds(h0: Host, h: Host, c: Command, r: Reply)
    requires ReadOnly(c)
    ensures Proceeds(h0, h, c, r, h)
  {}

  lemma MissesOnceExecutes(p: PurgeParams, h: Host)
    requires p.containerName == "" && p.Ref() in h.images
    ensures Executes(MissesOnce(), MissesOnceLog(p.Ref()), UntaggedAfter(h, p.Ref()))
  {
    var o, log, hosts := MissesOnce(), MissesOnceLog(p.Ref()), UntaggedAfter(h, p.Ref());
    forall k | 0 <= k < |log| ensures Proceeds(hosts[0], hosts[k], log[k], o(log[..k + 1]), hosts[k + 1]) {
      if k == 3 {
        UntaggedProceeds(h, p.Ref(), o(log[..k + 1]));
      } else {
        IdleProceeds(h, hosts[k], log[k], o(log[..k + 1]));
      }
    }
  }

  /** A true verification is no proof of a purge.  On any host that has the image, a purge by image
      whose first listing fails removes the tag and no container; from then on docker ps truthfully
      lists nothing for the reference, and the purge succeeds while every container of the image goes
      on as before. */
  lemma ImageFilterForgets(p: PurgeParams, h: Host)
    requires p.containerName == "" && p.Ref() in h.images
    ensures
      var o, hosts := MissesOnce(), UntaggedAfter(h, p.Ref());
      var log := PurgeRun(o, p).log;
      && PurgeReport(o, p).success && Executes(o, log, hosts)
      && VerifiedFrom(o, p, log, log[..4]) && TruthfulFrom(o, log, hosts, 4)
      && Matches(p, Final(hosts)) == {} && Final(hosts).containers == h.containers
      && (Purged(p, hosts) <==> Matches(p, h) == {})
  {
    var o, hosts := MissesOnce(), UntaggedAfter(h, p.Ref());
    MissesOnceRun(p);
    MissesOnceExecutes(p, h);
    var log := PurgeRun(o, p).log;
    assert log[..4] == [Probe, ListByImage(p.Ref()), InspectImage(p.Ref()), RemoveImage(p.Ref())];
    EmptyListing(o, log[..4], p);
    assert log == Listing(log[..4], p) + [InspectImage(p.Ref())];
    VerifiedIsClean(o, p, log, hosts, log[..4]);
    CleanIsNoMatch(p, Final(hosts));
    assert Clean(p, Final(hosts));
  }

  /** The remote side that answers the probe and then fails every command without a word. */
  function Silent(): Oracle {
    log => if log == [Probe] then Reply("/usr/bin/docker", "", true) else Reply("", "", false)
  }

  lemma SilentRun(p: PurgeParams)
    ensures PurgeRun(Silent(), p).done == [Skipped, Skipped, Skipped, Skipped, Ok]
    ensures
      PurgeRun(Silent(), p).log
      == Listing(Listing([Probe], p) + [InspectImage(p.Ref())], p) + [InspectImage(p.Ref())]
  {
    var o := Silent();
    NothingListed(o, [Probe], p);
    NothingListed(o, Listing([Probe], p) + [InspectImage(p.Ref())], p);
    assert [Skipped, Skipped, Skipped] + [Skipped] + [Ok] == [Skipped, Skipped, Skipped, Skipped, Ok];
  }

  lemma ListingReads(log: seq<Command>, p: PurgeParams)
    requires forall k :: 0 <= k < |log| ==> ReadOnly(log[k])
    ensures
      var asked := Listing(log, p) + [InspectImage(p.Ref())];
      forall k :: 0 <= k < |asked| ==> ReadOnly(asked[k])
  {}

  /** Such a remote side is reported as purged, whatever is on the host: any host at all, with any
      matching containers and images, can stay exactly as it is behind a successful purge. */
  lemma SilentFailureLooksPurged(p: PurgeParams, h: Host)
    ensures
      var log := PurgeRun(Silent(), p).log;
      var hosts := Idle(h, |log| + 1);
      PurgeReport(Silent(), p).success && Executes(Silent(), log, hosts) && Final(hosts) == h
  {
    var log := PurgeRun(Silent(), p).log;
    SilentRun(p);
    ListingReads([Probe], p);
    ListingReads(Listing([Probe], p) + [InspectImage(p.Ref())], p);
    IdleExecutes(Silent(), log, h);
  }

  lemma NothingListed(o: Oracle, log: seq<Command>, p: PurgeParams)
    requires log != []
    requires forall log' :: |log'| > |log| ==> o(log') == Reply("", "", false)
    ensures Ids(o, log, p) == []
  {
    assert Lines("") == [""];
    assert [""][..0] == [];
    assert Collect([], [""]) == Merge([], "") == [];
  }

  // ---------------------------------------------------------------- the runner

  method StepFindContainers(s: Session, p: PurgeParams, res: Result) returns (ids: seq<string>)
    requires res.steps == Padded(NAMES, [])
    modifies s, res`steps
    ensures ids == Ids(s.oracle, old(s.log), p) && s.log == Listing(old(s.log), p)
    ensures res.steps == Padded(NAMES, [if ids == [] then Skipped else Ok])
  {
    ids := FindExisting(s, p.ByName(), p.containerName, p.Ref());
    if |ids| == 0 {
      res.Record(NAMES, [], FindContainers, Skipped);
      return;
    }
    res.Record(NAMES, [], FindContainers, Ok);
  }

  /** stepStopContainers and stepRemoveContainers */
  method StepStopAndRemove(s: Session, ids: seq<string>, res: Result) returns (proceed: bool, ghost done: seq<Status>)
    requires res.steps == Padded(NAMES, [if ids == [] then Skipped else Ok])
    modifies s, res`steps
    ensures res.steps == Padded(NAMES, done)
    ensures
      if ids == [] then proceed && s.log == old(s.log) && done == [Skipped] + [Skipped] + [Skipped]
      else
        var stopped := old(s.log) + [Stop(ids)];
        var removed := stopped + [Remove(ids)];
        if !s.oracle(stopped).ok && Deploy.IsHardStopError(s.oracle(stopped).stderr)
        then !proceed && s.log == stopped && done == [Ok] + [Failed]
        else
          && s.log == removed && proceed == s.oracle(removed).ok
          && done == [Ok] + [Ok] + [if proceed then Ok else Failed]
  {
    if |ids| == 0 {
      res.Record(NAMES, [Skipped], StopContainers, Skipped);
      res.Record(NAMES, [Skipped] + [Skipped], RemoveContainers, Skipped);
      return true, [Skipped] + [Skipped] + [Skipped];
    }
    var r := s.Exec(Stop(ids));
    if !r.ok && Deploy.IsHardStopError(r.stderr) {
      res.Record(NAMES, [Ok], StopContainers, Failed);
      res.Stop(NAMES, [Ok] + [Failed], StopContainers);
      return false, [Ok] + [Failed];
    }
    res.Record(NAMES, [Ok], StopContainers, Ok);
    r := s.Exec(Remove(ids));
    if !r.ok {
      res.Record(NAMES, [Ok] + [Ok], RemoveContainers, Failed);
      res.Stop(NAMES, [Ok] + [Ok] + [Failed], RemoveContainers);
      return false, [Ok] + [Ok] + [Failed];
    }
    res.Record(NAMES, [Ok] + [Ok], RemoveContainers, Ok);
    return true, [Ok] + [Ok] + [Ok];
  }

  method StepRemoveImage(s: Session, p: PurgeParams, res: Result, ghost done: seq<Status>) returns (ghost st: Status)
    requires |done| == 3 && res.steps == Padded(NAMES, done)
    modifies s, res`steps
    ensures st != Unset && res.steps == Padded(NAMES, done + [st])
    ensures
      FromImage(s.oracle, old(s.log), p, done)
      == if st == Failed then Run(s.log, done + [st]) else FromVerify(s.oracle, s.log, p, done + [st])
  {
    var r := s.Exec(InspectImage(p.Ref()));
    if !r.ok {
      st := Skipped;
      res.Record(NAMES, done, RemoveImageStep, Skipped);
      return;
    }
    r := s.Exec(RemoveImage(p.Ref()));
    if !r.ok {
      st := Failed;
      res.Record(NAMES, done, RemoveImageStep, Failed);
      return;
    }
    st := Ok;
    res.Record(NAMES, done, RemoveImageStep, Ok);
  }

  method StepVerifyPurged(s: Session, p: PurgeParams, res: Result, ghost done: seq<Status>) returns (ghost st: Status)
    requires |done| == 4 && res.steps == Padded(NAMES, done)
    modifies s, res`steps
    ensures res.steps == Padded(NAMES, done + [st])
    ensures FromVerify(s.oracle, old(s.log), p, done) == Run(s.log, done + [st])
  {
    var remaining := FindExisting(s, p.ByName(), p.containerName, p.Ref());
    if |remaining| > 0 {
      st := Failed;
      res.Record(NAMES, done, VerifyPurged, Failed);
      return;
    }
    var r := s.Exec(InspectImage(p.Ref()));
    if r.ok {
      st := Failed;
      res.Record(NAMES, done, VerifyPurged, Failed);
      return;
    }
    st := Ok;
    res.Record(NAMES, done, VerifyPurged, Ok);
  }

  /** stepRemoveImage to stepVerifyPurged */
  method StepsFromImage(s: Session, p: PurgeParams, res: Result, ghost done: seq<Status>)
    requires |done| == 3 && res.View() == Report(true, false, "", Padded(NAMES, done))
    requires forall i :: 0 <= i < 3 ==> done[i] != Unset
    modifies s, res
    ensures
      var run := FromImage(s.oracle, old(s.log), p, done);
      s.log == run.log && res.View() == ReportOf(true, run)
  {
    ghost var st := StepRemoveImage(s, p, res, done);
    assert res.steps[3] == Step(RemoveImageStep, st);
    assert forall i :: 0 <= i < |res.steps| ==> res.steps[i].name == NAMES[i];
    var failed := res.HasFailed(RemoveImageStep);
    if failed {
      res.Stop(NAMES, done + [st], RemoveImageStep);
      return;
    }
    ghost var last := StepVerifyPurged(s, p, res, done + [st]);
    res.ComputeSuccess();
  }

  /** The run after the probe. */
  method RunSteps(s: Session, p: PurgeParams, res: Result)
    requires res.View() == Report(true, false, "", Padded(NAMES, []))
    modifies s, res
    ensures
      var run := FromFind(s.oracle, old(s.log), p);
      s.log == run.log && res.View() == ReportOf(true, run)
  {
    var ids := StepFindContainers(s, p, res);
    var proceed, done := StepStopAndRemove(s, ids, res);
    assert [Ok] + [Failed] == [Ok, Failed] && [Ok] + [Ok] + [Failed] == [Ok, Ok, Failed];
    if !proceed {
      return;
    }
    assert done == if ids == [] then [Skipped, Skipped, Skipped] else [Ok, Ok, Ok];
    StepsFromImage(s, p, res, done);
  }

  /** Runner.Run */
  method RunPurge(oracle: Oracle, p: PurgeParams) returns (res: Result, s: Session)
    ensures fresh(res) && fresh(s) && s.oracle == oracle
    ensures res.View() == PurgeReport(oracle, p)
    ensures s.log == PurgeRun(oracle, p).log
  {
    s := new Session(oracle);
    res := new Result(NAMES);
    var r := s.Exec(Probe);
    assert s.log == [Probe];
    if !r.ok || r.stdout == "" {
      return;
    }
    res.available := true;
    RunSteps(s, p, res);
  }
}
