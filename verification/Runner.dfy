/** What the deploy and purge runners share: the step-by-step report, how it is filled in, and how
    the server service reads it. */
module Runner {
  import opened Text

  datatype StepName =
    | RegistryLogin | StopExisting | RemoveExisting | RemoveImageStep | PullImage | RunContainer | VerifyRunning
    | FindContainers | StopContainers | RemoveContainers | VerifyPurged

  /** Unset is Go's empty status string. */
  datatype Status = Unset | Ok | Skipped | Failed | NotRun

  datatype Step = Step(name: StepName, status: Status)

  datatype Report = Report(available: bool, success: bool, containerID: string, steps: seq<Step>)

  predicate Passed(st: Status) { st == Ok || st == Skipped }

  /** The step list when the first |done| steps have ended as given and the others have not run. */
  function Padded(names: seq<StepName>, done: seq<Status>): seq<Step> {
    seq(|names|, i requires 0 <= i < |names| => Step(names[i], if i < |done| then done[i] else NotRun))
  }

  predicate AllOK(steps: seq<Step>) {
    forall i :: 0 <= i < |steps| ==> steps[i].status != Failed && steps[i].status != NotRun
  }

  // ---------------------------------------------------------------- the three outcomes

  predicate Unavailable(r: Report) {
    !r.available && !r.success && forall i :: 0 <= i < |r.steps| ==> r.steps[i].status == NotRun
  }

  predicate Completed(r: Report) {
    r.available && r.success && forall i :: 0 <= i < |r.steps| ==> Passed(r.steps[i].status)
  }

  predicate FailedAt(r: Report, k: nat) {
    && r.available && !r.success
    && k < |r.steps| && r.steps[k].status == Failed
    && (forall i :: 0 <= i < k ==> Passed(r.steps[i].status))
    && (forall i :: k < i < |r.steps| ==> r.steps[i].status == NotRun)
  }

  ghost predicate WellShaped(r: Report) {
    Unavailable(r) || Completed(r) || exists k: nat :: FailedAt(r, k)
  }

  /** The shapes exclude each other, and so does the position of the failure. */
  lemma ShapesExclude(r: Report, k: nat, l: nat)
    requires FailedAt(r, k)
    ensures !Unavailable(r) && !Completed(r)
    ensures FailedAt(r, l) ==> l == k
  {}

  /** The report of a run in which went[i] says whether step i goes well and passed[i] how it is
      reported then: the first step that does not go well has failed, and those after it have not run. */
  ghost predicate Follows(r: Report, names: seq<StepName>, went: seq<bool>, passed: seq<Status>) {
    && |went| == |passed| == |names| == |r.steps|
    && r.available && (r.success <==> AllWent(went))
    && forall k :: 0 <= k < |names| ==>
         r.steps[k]
         == Step(names[k],
                 if exists j :: 0 <= j < k && !went[j] then NotRun else if went[k] then passed[k] else Failed)
  }

  predicate AllWent(went: seq<bool>) { forall i :: 0 <= i < |went| ==> went[i] }

  predicate FirstToFail(went: seq<bool>, k: nat) { k < |went| && !went[k] && forall i :: 0 <= i < k ==> went[i] }

  lemma FollowsToTheEnd(r: Report, names: seq<StepName>, went: seq<bool>, passed: seq<Status>)
    requires |went| == |passed| == |names| && AllWent(went)
    requires r.available && r.success && r.steps == Padded(names, passed)
    ensures Follows(r, names, went, passed)
  {}

  lemma FollowsUpTo(r: Report, names: seq<StepName>, went: seq<bool>, passed: seq<Status>, k: nat)
    requires |went| == |passed| == |names| && FirstToFail(went, k)
    requires r.available && !r.success && r.steps == Padded(names, passed[..k] + [Failed])
    ensures Follows(r, names, went, passed)
  {}

  lemma OnlyFirst(went: seq<bool>, k: nat)
    requires FirstToFail(went, k)
    ensures !AllWent(went) && forall l: nat :: FirstToFail(went, l) ==> l == k
  {
    forall l: nat | FirstToFail(went, l) ensures l == k {}
  }

  lemma FirstFailure(went: seq<bool>) returns (k: nat)
    requires !AllWent(went)
    ensures FirstToFail(went, k)
  {
    k := 0;
    while went[k]
      invariant k < |went| && forall i :: 0 <= i < k ==> went[i]
      decreases |went| - k
    {
      k := k + 1;
      assert k == |went| ==> AllWent(went);
    }
  }

  // ---------------------------------------------------------------- the result record

  /** DeployResult and PurgeResult */
  class Result {
    var available: bool
    var success: bool
    var containerID: string
    var steps: seq<Step>

    function View(): Report
      reads this
    {
      Report(available, success, containerID, steps)
    }

    /** initialSteps */
    constructor (names: seq<StepName>)
      ensures View() == Report(false, false, "", Padded(names, []))
    {
      available, success, containerID := false, false, "";
      steps := seq(|names|, i requires 0 <= i < |names| => Step(names[i], NotRun));
    }

    /** findStep(res, name).Status = status; the Go code panics when there is no such step. */
    method SetStatus(name: StepName, status: Status)
      requires exists i :: 0 <= i < |steps| && steps[i].name == name
      modifies this`steps
      ensures exists i ::
        && 0 <= i < |old(steps)| && old(steps)[i].name == name
        && (forall j :: 0 <= j < i ==> old(steps)[j].name != name)
        && steps == old(steps)[i := Step(name, status)]
    {
      var i := 0;
      while steps[i].name != name
        invariant 0 <= i < |steps| && steps == old(steps)
        invariant forall j :: 0 <= j < i ==> steps[j].name != name
        invariant exists k :: i <= k < |steps| && steps[k].name == name
        decreases |steps| - i
      {
        i := i + 1;
      }
      steps := steps[i := Step(name, status)];
    }

    /** findStep(res, name).Status == failed */
    method HasFailed(name: StepName) returns (failed: bool)
      requires exists i :: 0 <= i < |steps| && steps[i].name == name
      ensures exists i ::
        && 0 <= i < |steps| && steps[i].name == name && (failed <==> steps[i].status == Failed)
        && forall j :: 0 <= j < i ==> steps[j].name != name
    {
      var i := 0;
      while steps[i].name != name
        invariant 0 <= i < |steps|
        invariant forall j :: 0 <= j < i ==> steps[j].name != name
        invariant exists k :: i <= k < |steps| && steps[k].name == name
        decreases |steps| - i
      {
        i := i + 1;
      }
      failed := steps[i].status == Failed;
    }

    /** Recording the outcome of the next step of the chain. */
    method Record(ghost names: seq<StepName>, ghost done: seq<Status>, name: StepName, status: Status)
      requires Distinct(names) && |done| < |names| && names[|done|] == name
      requires steps == Padded(names, done)
      modifies this`steps
      ensures steps == Padded(names, done + [status])
    {
      assert steps[|done|].name == name;
      assert forall i :: 0 <= i < |steps| ==> steps[i].name == names[i];
      ghost var before := steps;
      SetStatus(name, status);
      ghost var i :| 0 <= i < |steps| && before[i].name == name && steps == before[i := Step(name, status)];
      assert i == |done|;
    }

    /** markRemainingNotRun: every later step that never got a status is marked. */
    method MarkRemainingNotRun(failedName: StepName)
      modifies this`steps
      ensures |steps| == |old(steps)|
      ensures forall i :: 0 <= i < |steps| ==>
        if old(steps)[i].status == Unset && exists j :: 0 <= j < i && old(steps)[j].name == failedName
        then steps[i] == old(steps)[i].(status := NotRun)
        else steps[i] == old(steps)[i]
    {
      var passed := false;
      for i := 0 to |steps|
        invariant |steps| == |old(steps)|
        invariant passed <==> exists j :: 0 <= j < i && old(steps)[j].name == failedName
        invariant forall k :: i <= k < |steps| ==> steps[k] == old(steps)[k]
        invariant forall k :: 0 <= k < i ==>
          if old(steps)[k].status == Unset && exists j :: 0 <= j < k && old(steps)[j].name == failedName
          then steps[k] == old(steps)[k].(status := NotRun)
          else steps[k] == old(steps)[k]
      {
        if !passed {
          if steps[i].name == failedName {
            passed := true;
          }
          continue;
        }
        if steps[i].status == NotRun || steps[i].status == Unset {
          steps := steps[i := steps[i].(status := NotRun)];
        }
      }
    }

    /** After a failure the remaining steps already say not_run. */
    method Stop(ghost names: seq<StepName>, ghost done: seq<Status>, failedName: StepName)
      requires steps == Padded(names, done) && forall i :: 0 <= i < |done| ==> done[i] != Unset
      modifies this`steps
      ensures steps == Padded(names, done)
    {
      MarkRemainingNotRun(failedName);
    }

    method ComputeSuccess()
      modifies this`success
      ensures success == AllOK(steps)
    {
      success := true;
      for i := 0 to |steps|
        modifies this`success
        invariant success <==> forall j :: 0 <= j < i ==> steps[j].status != Failed && steps[j].status != NotRun
      {
        if steps[i].status == Failed {
          success := false;
          return;
        }
        if steps[i].status == NotRun {
          success := false;
          return;
        }
      }
    }
  }

  // ---------------------------------------------------------------- how the service reads it

  datatype Diagnosis = StepFailed(name: StepName) | Reason | UnknownError

  /** firstFailedStep and firstFailedPurgeStep, for a result that is not nil. */
  method FirstFailedStep(r: Report) returns (d: Diagnosis)
    ensures d.StepFailed? <==> exists i :: 0 <= i < |r.steps| && r.steps[i].status == Failed
    ensures d.StepFailed? ==> exists i ::
      && 0 <= i < |r.steps| && r.steps[i] == Step(d.name, Failed)
      && forall j :: 0 <= j < i ==> r.steps[j].status != Failed
    ensures !d.StepFailed? ==> d == if r.available then UnknownError else Reason
    ensures WellShaped(r) ==> (d == UnknownError <==> r.success)
    ensures forall k: nat :: FailedAt(r, k) ==> d == StepFailed(r.steps[k].name)
  {
    for i := 0 to |r.steps|
      invariant forall j :: 0 <= j < i ==> r.steps[j].status != Failed
    {
      if r.steps[i].status == Failed {
        return StepFailed(r.steps[i].name);
      }
    }
    return if r.available then UnknownError else Reason;
  }

  /** The status stored for the server: OK for a successful run, else ERROR with the diagnosis. */
  datatype ServerStatus = StatusOK | StatusError(diagnosis: Diagnosis)

  method ServerStatusOf(r: Report) returns (st: ServerStatus)
    requires WellShaped(r)
    ensures st == StatusOK <==> Completed(r)
    ensures st != StatusError(UnknownError)
  {
    if r.success {
      return StatusOK;
    }
    var d := FirstFailedStep(r);
    return StatusError(d);
  }

  /** A report built from finished steps has one of the three shapes when only its last step failed
      or, all steps having passed, it is marked successful. */
  lemma PaddedShape(names: seq<StepName>, done: seq<Status>, r: Report)
    requires |done| <= |names| && r.steps == Padded(names, done) && r.available
    requires forall i :: 0 <= i < |done| - 1 ==> Passed(done[i])
    requires done != [] && done[|done| - 1] == Failed ==> !r.success
    requires done == [] || done[|done| - 1] != Failed ==> |done| == |names| && r.success
    requires done != [] ==> Passed(done[|done| - 1]) || done[|done| - 1] == Failed
    ensures WellShaped(r)
  {
    if done != [] && done[|done| - 1] == Failed {
      assert FailedAt(r, |done| - 1);
    } else {
      assert Completed(r);
    }
  }
}
