/** The worker pool of the container snapshot: an errgroup limited to eight goroutines, each of which
    may append a line to a shared error list under a mutex and then writes its own slot.  A schedule
    says which job moves next; all schedules are considered. */
module Workers {
  import opened Text

  /** What job i will do: append line, if any, and store result. */
  datatype Job<T> = Job(line: Option<string>, result: T)

  /** Waiting to be launched; waiting for its answer; about to append; about to store. */
  datatype Phase = Waiting | Asking | Logging | Storing | Done

  datatype State<T> = State(next: nat, phases: seq<Phase>, slots: seq<Option<T>>, errors: seq<string>)

  const LIMIT := 8

  predicate Active(p: Phase) { p.Asking? || p.Logging? || p.Storing? }

  function InFlight(phases: seq<Phase>): nat {
    if phases == [] then 0
    else InFlight(phases[..|phases| - 1]) + if Active(phases[|phases| - 1]) then 1 else 0
  }

  function Initial<T>(n: nat, errors: seq<string>): State<T> {
    State(0, seq(n, i => Waiting), seq(n, i => None), errors)
  }

  /** The next job may be launched when fewer than eight are in flight; a job in flight may go on. */
  predicate CanMove<T>(s: State<T>, i: nat) {
    && i < |s.phases|
    && (if s.phases[i].Waiting? then i == s.next && InFlight(s.phases) < LIMIT else !s.phases[i].Done?)
  }

  function NextPhase<T>(job: Job<T>, p: Phase): Phase {
    match p
    case Waiting => Asking
    case Asking => if job.line.Some? then Logging else Storing
    case Logging => Storing
    case _ => Done
  }

  function NextSlot<T>(job: Job<T>, p: Phase, slot: Option<T>): Option<T> {
    if p.Storing? then Some(job.result) else slot
  }

  function Move<T>(jobs: seq<Job<T>>, s: State<T>, i: nat): State<T>
    requires |jobs| == |s.phases| == |s.slots| && CanMove(s, i)
  {
    var p := s.phases[i];
    State(
      if p.Waiting? then s.next + 1 else s.next,
      s.phases[i := NextPhase(jobs[i], p)],
      s.slots[i := NextSlot(jobs[i], p, s.slots[i])],
      if p.Logging? && jobs[i].line.Some? then s.errors + [jobs[i].line.value] else s.errors)
  }

  /** None when the schedule asks a job to move that cannot. */
  function Run<T>(jobs: seq<Job<T>>, before: seq<string>, schedule: seq<nat>): (r: Option<State<T>>)
    ensures r.Some? ==> |r.value.phases| == |r.value.slots| == |jobs|
  {
    if schedule == [] then Some(Initial(|jobs|, before))
    else
      var r := Run(jobs, before, schedule[..|schedule| - 1]);
      var i := schedule[|schedule| - 1];
      if r.None? || !CanMove(r.value, i) then None else Some(Move(jobs, r.value, i))
  }

  /** Wait returns. */
  predicate Complete<T>(s: State<T>) {
    s.next == |s.phases| && forall i :: 0 <= i < |s.phases| ==> s.phases[i].Done?
  }

  // ---------------------------------------------------------------- the invariant

  predicate HasLogged<T>(job: Job<T>, p: Phase) { job.line.Some? && (p.Storing? || p.Done?) }

  function Contribution<T>(job: Job<T>, p: Phase, line: string): nat {
    if HasLogged(job, p) && job.line.value == line then 1 else 0
  }

  /** How many jobs have appended this very line so far. */
  function Logged<T>(jobs: seq<Job<T>>, phases: seq<Phase>, line: string): nat
    requires |jobs| == |phases|
  {
    if jobs == [] then 0
    else
      var n := |jobs| - 1;
      Logged(jobs[..n], phases[..n], line) + Contribution(jobs[n], phases[n], line)
  }

  predicate WorkerOk<T(==)>(job: Job<T>, p: Phase, slot: Option<T>) {
    (p.Logging? ==> job.line.Some?) && slot == if p.Done? then Some(job.result) else None
  }

  ghost predicate Good<T>(jobs: seq<Job<T>>, before: seq<string>, s: State<T>) {
    && |s.phases| == |s.slots| == |jobs| && s.next <= |jobs|
    && (forall i :: 0 <= i < |jobs| ==> (s.phases[i].Waiting? <==> s.next <= i))
    && (forall i :: 0 <= i < |jobs| ==> WorkerOk(jobs[i], s.phases[i], s.slots[i]))
    && InFlight(s.phases) <= LIMIT
    && forall line :: multiset(s.errors)[line] == multiset(before)[line] + Logged(jobs, s.phases, line)
  }

  lemma {:induction false} InFlightUpdate(phases: seq<Phase>, i: nat, p: Phase)
    requires i < |phases|
    ensures InFlight(phases[i := p])
            == InFlight(phases) - (if Active(phases[i]) then 1 else 0) + (if Active(p) then 1 else 0)
  {
    var n := |phases| - 1;
    if i == n {
      assert phases[i := p][..n] == phases[..n];
    } else {
      InFlightUpdate(phases[..n], i, p);
      assert phases[i := p][..n] == phases[..n][i := p];
    }
  }

  lemma {:induction false} LoggedUpdate<T>(jobs: seq<Job<T>>, phases: seq<Phase>, i: nat, p: Phase, line: string)
    requires |jobs| == |phases| && i < |phases|
    ensures Logged(jobs, phases[i := p], line)
            == Logged(jobs, phases, line) - Contribution(jobs[i], phases[i], line) + Contribution(jobs[i], p, line)
  {
    var n := |jobs| - 1;
    var phases' := phases[i := p];
    if i == n {
      assert phases'[..n] == phases[..n];
    } else {
      LoggedUpdate(jobs[..n], phases[..n], i, p, line);
      assert phases'[..n] == phases[..n][i := p] && phases'[n] == phases[n];
    }
  }

  lemma {:induction false} NothingInFlight(phases: seq<Phase>)
    ensures (forall i :: 0 <= i < |phases| ==> !Active(phases[i])) <==> InFlight(phases) == 0
  {
    if phases != [] {
      var n := |phases| - 1;
      NothingInFlight(phases[..n]);
      assert forall i :: 0 <= i < n ==> phases[..n][i] == phases[i];
    }
  }

  lemma {:induction false} NothingLogged<T>(jobs: seq<Job<T>>, phases: seq<Phase>, line: string)
    requires |jobs| == |phases| && forall i :: 0 <= i < |phases| ==> phases[i].Waiting?
    ensures Logged(jobs, phases, line) == 0
  {
    if jobs != [] {
      NothingLogged(jobs[..|jobs| - 1], phases[..|jobs| - 1], line);
    }
  }

  lemma InitialIsGood<T>(jobs: seq<Job<T>>, before: seq<string>)
    ensures Good(jobs, before, Initial(|jobs|, before))
  {
    var s: State<T> := Initial(|jobs|, before);
    NothingInFlight(s.phases);
    forall line ensures Logged(jobs, s.phases, line) == 0 {
      NothingLogged(jobs, s.phases, line);
    }
  }

  lemma MoveKeepsWorkers<T>(jobs: seq<Job<T>>, before: seq<string>, s: State<T>, i: nat)
    requires Good(jobs, before, s) && CanMove(s, i)
    ensures
      var t := Move(jobs, s, i);
      forall k :: 0 <= k < |jobs| ==> WorkerOk(jobs[k], t.phases[k], t.slots[k])
  {
    var t := Move(jobs, s, i);
    forall k | 0 <= k < |jobs| ensures WorkerOk(jobs[k], t.phases[k], t.slots[k]) {
      assert WorkerOk(jobs[k], s.phases[k], s.slots[k]);
    }
  }

  lemma MoveKeepsErrors<T>(jobs: seq<Job<T>>, before: seq<string>, s: State<T>, i: nat, line: string)
    requires Good(jobs, before, s) && CanMove(s, i)
    ensures
      var t := Move(jobs, s, i);
      multiset(t.errors)[line] == multiset(before)[line] + Logged(jobs, t.phases, line)
  {
    assert WorkerOk(jobs[i], s.phases[i], s.slots[i]);
    LoggedUpdate(jobs, s.phases, i, NextPhase(jobs[i], s.phases[i]), line);
  }

  lemma MoveIsGood<T>(jobs: seq<Job<T>>, before: seq<string>, s: State<T>, i: nat)
    requires Good(jobs, before, s) && CanMove(s, i)
    ensures Good(jobs, before, Move(jobs, s, i))
  {
    MoveKeepsWorkers(jobs, before, s, i);
    forall line
      ensures multiset(Move(jobs, s, i).errors)[line]
              == multiset(before)[line] + Logged(jobs, Move(jobs, s, i).phases, line)
    {
      MoveKeepsErrors(jobs, before, s, i, line);
    }
    InFlightUpdate(s.phases, i, NextPhase(jobs[i], s.phases[i]));
  }

  lemma {:induction false} RunsAreGood<T>(jobs: seq<Job<T>>, before: seq<string>, schedule: seq<nat>)
    requires Run(jobs, before, schedule).Some?
    ensures Good(jobs, before, Run(jobs, before, schedule).value)
  {
    if schedule == [] {
      InitialIsGood(jobs, before);
    } else {
      var init := schedule[..|schedule| - 1];
      RunsAreGood(jobs, before, init);
      MoveIsGood(jobs, before, Run(jobs, before, init).value, schedule[|schedule| - 1]);
    }
  }

  // ---------------------------------------------------------------- no deadlock, and an end

  function Weight(p: Phase): nat {
    match p
    case Waiting => 4
    case Asking => 3
    case Logging => 2
    case Storing => 1
    case Done => 0
  }

  function Remaining(phases: seq<Phase>): nat {
    if phases == [] then 0 else Remaining(phases[..|phases| - 1]) + Weight(phases[|phases| - 1])
  }

  lemma {:induction false} RemainingUpdate(phases: seq<Phase>, i: nat, p: Phase)
    requires i < |phases|
    ensures Remaining(phases[i := p]) == Remaining(phases) - Weight(phases[i]) + Weight(p)
  {
    var n := |phases| - 1;
    if i == n {
      assert phases[i := p][..n] == phases[..n];
    } else {
      RemainingUpdate(phases[..n], i, p);
      assert phases[i := p][..n] == phases[..n][i := p];
    }
  }

  /** Every move brings the end closer. */
  lemma MoveDecreases<T>(jobs: seq<Job<T>>, s: State<T>, i: nat)
    requires |jobs| == |s.phases| == |s.slots| && CanMove(s, i)
    ensures Remaining(Move(jobs, s, i).phases) < Remaining(s.phases)
  {
    RemainingUpdate(s.phases, i, NextPhase(jobs[i], s.phases[i]));
  }

  /** As long as the work is not complete some job can move: the limit never blocks everyone. */
  lemma NeverStuck<T>(jobs: seq<Job<T>>, before: seq<string>, s: State<T>)
    requires Good(jobs, before, s) && !Complete(s)
    ensures exists i: nat :: i < |jobs| && CanMove(s, i)
  {
    NothingInFlight(s.phases);
    if i :| 0 <= i < |jobs| && Active(s.phases[i]) {
      assert CanMove(s, i);
    } else {
      assert s.next < |jobs|;
      assert CanMove(s, s.next);
    }
  }

  lemma {:induction false} RemainingAtStart(phases: seq<Phase>)
    requires forall i :: 0 <= i < |phases| ==> phases[i].Waiting?
    ensures Remaining(phases) == 4 * |phases|
  {
    if phases != [] {
      RemainingAtStart(phases[..|phases| - 1]);
    }
  }

  /** So no schedule is longer than four moves per job. */
  lemma {:induction false} SchedulesAreBounded<T>(jobs: seq<Job<T>>, before: seq<string>, schedule: seq<nat>)
    requires Run(jobs, before, schedule).Some?
    ensures |schedule| + Remaining(Run(jobs, before, schedule).value.phases) <= 4 * |jobs|
  {
    if schedule == [] {
      var s: State<T> := Initial(|jobs|, before);
      RemainingAtStart(s.phases);
    } else {
      var init := schedule[..|schedule| - 1];
      SchedulesAreBounded(jobs, before, init);
      MoveDecreases(jobs, Run(jobs, before, init).value, schedule[|schedule| - 1]);
    }
  }

  // ---------------------------------------------------------------- what every schedule ends with

  /** The lines of the jobs that have one, in order. */
  function JobLines<T>(jobs: seq<Job<T>>): seq<string> {
    if jobs == [] then []
    else
      var n := |jobs| - 1;
      JobLines(jobs[..n]) + if jobs[n].line.Some? then [jobs[n].line.value] else []
  }

  /** One job for each pair. */
  function Zip<A, B, T>(a: seq<A>, b: seq<B>, job: (A, B) -> Job<T>): (jobs: seq<Job<T>>)
    requires |a| == |b|
    ensures |jobs| == |a| && forall i :: 0 <= i < |jobs| ==> jobs[i] == job(a[i], b[i])
  {
    if a == [] then [] else Zip(a[..|a| - 1], b[..|a| - 1], job) + [job(a[|a| - 1], b[|a| - 1])]
  }

  /** One line per job that has one. */
  lemma {:induction false} CountJobLines<T>(jobs: seq<Job<T>>)
    ensures |JobLines(jobs)| == |set i | 0 <= i < |jobs| && jobs[i].line.Some?|
  {
    if jobs != [] {
      var n := |jobs| - 1;
      CountJobLines(jobs[..n]);
      var all := set i | 0 <= i < |jobs| && jobs[i].line.Some?;
      var before := set i | 0 <= i < n && jobs[..n][i].line.Some?;
      assert all == before + if jobs[n].line.Some? then {n} else {};
    }
  }

  lemma {:induction false} AllLogged<T>(jobs: seq<Job<T>>, phases: seq<Phase>, line: string)
    requires |jobs| == |phases| && forall i :: 0 <= i < |phases| ==> phases[i].Done?
    ensures Logged(jobs, phases, line) == multiset(JobLines(jobs))[line]
  {
    if jobs != [] {
      AllLogged(jobs[..|jobs| - 1], phases[..|jobs| - 1], line);
    }
  }

  lemma CompleteStatesAgree<T>(jobs: seq<Job<T>>, before: seq<string>, s: State<T>)
    requires Good(jobs, before, s) && Complete(s)
    ensures forall i :: 0 <= i < |jobs| ==> s.slots[i] == Some(jobs[i].result)
    ensures multiset(s.errors) == multiset(before) + multiset(JobLines(jobs))
  {
    forall line ensures multiset(s.errors)[line] == (multiset(before) + multiset(JobLines(jobs)))[line] {
      AllLogged(jobs, s.phases, line);
    }
    forall i | 0 <= i < |jobs| ensures s.slots[i] == Some(jobs[i].result) {
      assert WorkerOk(jobs[i], s.phases[i], s.slots[i]);
    }
  }

  /** After any complete schedule slot i holds the result of job i, and the errors are those from
      before plus exactly the jobs' lines, in some order. */
  lemma CompleteSchedulesAgree<T>(jobs: seq<Job<T>>, before: seq<string>, schedule: seq<nat>)
    requires Run(jobs, before, schedule).Some? && Complete(Run(jobs, before, schedule).value)
    ensures
      var s := Run(jobs, before, schedule).value;
      && |s.slots| == |jobs| && (forall i :: 0 <= i < |jobs| ==> s.slots[i] == Some(jobs[i].result))
      && multiset(s.errors) == multiset(before) + multiset(JobLines(jobs))
  {
    RunsAreGood(jobs, before, schedule);
    CompleteStatesAgree(jobs, before, Run(jobs, before, schedule).value);
  }

  /** Launching and waiting, with the scheduler free to choose at every turn. */
  method RunAll<T(0)>(jobs: seq<Job<T>>, before: seq<string>) returns (results: seq<T>, errors: seq<string>)
    ensures |results| == |jobs| && forall i :: 0 <= i < |jobs| ==> results[i] == jobs[i].result
    ensures multiset(errors) == multiset(before) + multiset(JobLines(jobs))
  {
    var s: State<T> := Initial(|jobs|, before);
    InitialIsGood(jobs, before);
    while !Complete(s)
      invariant Good(jobs, before, s)
      decreases Remaining(s.phases)
    {
      NeverStuck(jobs, before, s);
      var i: nat :| i < |jobs| && CanMove(s, i);
      MoveIsGood(jobs, before, s, i);
      MoveDecreases(jobs, s, i);
      s := Move(jobs, s, i);
    }
    CompleteStatesAgree(jobs, before, s);
    results := [];
    for i := 0 to |jobs|
      invariant |results| == i && forall k :: 0 <= k < i ==> results[k] == jobs[k].result
    {
      results := results + [s.slots[i].value];
    }
    errors := s.errors;
  }
}
