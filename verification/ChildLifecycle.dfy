/**
 Life of a retained child agent (kitt/children/lifecycle.py, kitt/children/manager.py).

 `Control` is what decides who may do what: the state of the child's row, its tasks and turns, and
 the jobs submitted for it to the thread pool. An event is one section of the code that runs under
 the execution lock, or one outcome of the code between two such sections. `retain`, `revive`,
 `resume_after_approval` and `on_approved_action_executed` do not take the lock in the code; here
 each is one event. `ask` is not among the events.
 */
module ChildLifecycle {
  import opened Common

  datatype ChildState =
    | Queued | Running | WaitingApproval | Completed | Retained | Passivated | Failed | TimedOut | Cancelled

  predicate Absorbing(s: ChildState) { s.Failed? || s.TimedOut? || s.Cancelled? }

  /** TERMINAL_CHILD_STATES. */
  predicate Terminal(s: ChildState) { s.Completed? || Absorbing(s) }

  /** REUSABLE_CHILD_STATES; nothing ever writes IDLE. */
  predicate Reusable(s: ChildState) { s.Retained? || s.Completed? || s.Passivated? }

  predicate Active(s: ChildState) { s.Queued? || s.Running? || s.WaitingApproval? }

  datatype Usage = Usage(tokens: int, calls: int, cost: real, tools: int)

  datatype Kind = RunJob | ResumeJob

  /** `Raised`: an exception is on its way to `_fail_child`. `Handoff`: a resumed turn is done and its
      thread is about to call `on_approved_action_executed`. */
  datatype Phase =
    | Pending
    | Executing(turn: Option<nat>)
    | Raised(timeout: bool)
    | Handoff(approved: nat)

  datatype Job = Job(kind: Kind, assignment: nat, phase: Phase)

  /** `assignment` counts the tasks assigned so far, `turn` is current_task_id, `artifacts` counts
      the result artifacts stored, `supply` gives ids for jobs and turns. */
  datatype Control = Control(
    state: ChildState, assignment: nat, turn: Option<nat>, artifacts: nat, jobs: map<nat, Job>, supply: nat)

  /** The flags of `Returns` and `Fails` say which of the calls made on the way succeed: integrating
      the workspace, settling the budget, storing the result artifact. */
  datatype Event =
    | Start(job: nat)
    | Waits(job: nat, usage: Usage, hasTurn: bool)
    | Returns(job: nat, usage: Usage, success: bool, integrated: bool, settled: bool, stored: bool)
    | Raises(job: nat, timedOut: bool)
    | Resumed(job: nat, success: bool)
    | Continues(job: nat)
    | Fails(job: nat, settled: bool)
    | Cancel(settled: bool)
    | Retain
    | Passivate
    | Revive
    | Assign
    | ResumeAfterApproval(turn: nat)
    | Approved(turn: nat)

  function Submit(c: Control, kind: Kind): Control {
    c.(state := Queued, jobs := c.jobs[c.supply := Job(kind, c.assignment, Pending)], supply := c.supply + 1)
  }

  function Drop(c: Control, job: nat): Control { c.(jobs := c.jobs - {job}) }

  function SetPhase(c: Control, job: nat, phase: Phase): Control
    requires job in c.jobs
  {
    c.(jobs := c.jobs[job := c.jobs[job].(phase := phase)])
  }

  /** The start of `_run_child` and `_resume_child`. */
  function StartJob(c: Control, job: nat): Control
    requires job in c.jobs
  {
    if Terminal(c.state) then Drop(c, job)
    else SetPhase(c, job, Executing(c.turn)).(state := Running)
  }

  /** `_mark_waiting_approval`. A new turn brings a new id; a resumed one keeps its own. */
  function MarkWaiting(c: Control, job: nat, hasTurn: bool): Control
    requires job in c.jobs && c.jobs[job].phase.Executing?
  {
    if Terminal(c.state) then Drop(c, job)
    else if !hasTurn then SetPhase(c, job, Raised(false))
    else
      var turn := if c.jobs[job].kind.ResumeJob? then c.jobs[job].phase.turn else Some(c.supply);
      Drop(c, job).(state := WaitingApproval, turn := turn, supply := c.supply + 1)
  }

  /** `_complete_child` finds the child finished already. */
  predicate AlreadyOver(c: Control) { Absorbing(c.state) || (c.state.Completed? && c.artifacts > 0) }

  /** `_complete_child`, up to its return or its exception. */
  function Complete(c: Control, job: nat, success: bool, integrated: bool, stored: bool): Control
    requires job in c.jobs
  {
    if AlreadyOver(c) then Drop(c, job)
    else if success && integrated && stored then Drop(c, job).(state := Completed, artifacts := c.artifacts + 1)
    else SetPhase(c, job, Raised(false))
  }

  /** `_fail_child`. */
  function Fail(c: Control, job: nat): Control
    requires job in c.jobs && c.jobs[job].phase.Raised?
  {
    if Terminal(c.state) then Drop(c, job)
    else Drop(c, job).(state := if c.jobs[job].phase.timeout then TimedOut else Failed)
  }

  /** The result of a resumed turn. */
  function FinishResume(c: Control, job: nat, success: bool): Control
    requires job in c.jobs && c.jobs[job].phase.Executing?
  {
    var turn := c.jobs[job].phase.turn;
    if !success || turn.None? then SetPhase(c, job, Raised(false))
    else if Terminal(c.state) then Drop(c, job)
    else SetPhase(c, job, Handoff(turn.value)).(state := WaitingApproval, turn := turn)
  }

  /** `on_approved_action_executed`; `exhausted` says that the child has used its token budget. */
  function OnApproved(c: Control, turn: nat, exhausted: bool): Control {
    if !c.state.WaitingApproval? || c.turn != Some(turn) then c
    else if exhausted then c.(state := Failed)
    else Submit(c.(turn := Some(c.supply), supply := c.supply + 1), RunJob)
  }

  /** `assign_task`, also reached through `revive` with a task. */
  function AssignTask(c: Control, exhausted: bool): Control {
    if !Reusable(c.state) || exhausted then c
    else Submit(c.(assignment := c.assignment + 1, turn := Some(c.supply), supply := c.supply + 1), RunJob)
  }

  function ResumeApproved(c: Control, turn: nat): Control {
    if c.state.WaitingApproval? && c.turn == Some(turn) then Submit(c, ResumeJob) else c
  }

  /** Which event can come next: a job's events follow its phase, callers may call at any time. */
  predicate Enabled(c: Control, e: Event) {
    match e
    case Start(j) => j in c.jobs && c.jobs[j].phase.Pending?
    case Waits(j, _, _) => j in c.jobs && c.jobs[j].phase.Executing?
    case Returns(j, _, _, _, _, _) => j in c.jobs && c.jobs[j].phase.Executing? && c.jobs[j].kind.RunJob?
    case Raises(j, _) => j in c.jobs && c.jobs[j].phase.Executing?
    case Resumed(j, _) => j in c.jobs && c.jobs[j].phase.Executing? && c.jobs[j].kind.ResumeJob?
    case Continues(j) => j in c.jobs && c.jobs[j].phase.Handoff?
    case Fails(j, _) => j in c.jobs && c.jobs[j].phase.Raised?
    case _ => true
  }

  function Step(c: Control, e: Event, exhausted: bool): Control
    requires Enabled(c, e)
  {
    match e
    case Start(j) => StartJob(c, j)
    case Waits(j, _, hasTurn) => MarkWaiting(c, j, hasTurn)
    case Returns(j, _, success, integrated, _, stored) => Complete(c, j, success, integrated, stored)
    case Raises(j, timedOut) => SetPhase(c, j, Raised(timedOut))
    case Resumed(j, success) => FinishResume(c, j, success)
    case Continues(j) => Drop(OnApproved(c, c.jobs[j].phase.approved, exhausted), j)
    case Fails(j, _) => Fail(c, j)
    case Cancel(_) => if Terminal(c.state) then c else c.(state := Cancelled)
    case Retain => if c.state.Completed? || c.state.Retained? then c.(state := Retained) else c
    case Passivate => if Reusable(c.state) then c.(state := Passivated) else c
    case Revive => if c.state.Passivated? then c.(state := Retained) else c
    case Assign => AssignTask(c, exhausted)
    case ResumeAfterApproval(turn) => ResumeApproved(c, turn)
    case Approved(turn) => OnApproved(c, turn, exhausted)
  }

  // ---- one job at a time ----

  /** A job that can still write the row as its owner; a hand-off only writes like any other caller. */
  predicate Live(job: Job) { !job.phase.Handoff? }

  predicate Begun(job: Job) { job.phase.Executing? || job.phase.Raised? }

  /** The live job works on the current assignment, and the state says whether it has started. */
  predicate LiveOk(c: Control, job: Job) {
    && job.assignment == c.assignment
    && (Absorbing(c.state) || c.state == (if Begun(job) then Running else Queued))
    && (job.kind.ResumeJob? && !Absorbing(c.state) ==>
          && (job.phase.Pending? ==> c.turn.Some?)
          && (job.phase.Executing? ==> job.phase.turn == c.turn && c.turn.Some?))
  }

  /** A hand-off belongs to the assignment whose turn was approved. */
  predicate HandoffOk(c: Control, job: Job) {
    job.phase.Handoff? ==>
      && job.phase.approved < c.supply && job.assignment <= c.assignment
      && (c.turn == Some(job.phase.approved) ==> job.assignment == c.assignment)
  }

  predicate JobOk(c: Control, owner: Option<nat>, j: nat)
    requires j in c.jobs
  {
    j < c.supply && (Live(c.jobs[j]) ==> owner == Some(j)) && HandoffOk(c, c.jobs[j])
  }

  /** `owner` is the one live job of the child, if it has any. */
  ghost predicate Owned(c: Control, owner: Option<nat>) {
    && (owner.Some? ==> owner.value in c.jobs && Live(c.jobs[owner.value]) && LiveOk(c, c.jobs[owner.value]))
    && (forall j :: j in c.jobs ==> JobOk(c, owner, j))
    && (c.state.Queued? || c.state.Running? ==> owner.Some?)
    && (c.turn.Some? ==> c.turn.value < c.supply)
  }

  lemma {:induction false} WorkerKeeps(c: Control, owner: Option<nat>, e: Event, x: bool) returns (owner': Option<nat>)
    requires Owned(c, owner) && Enabled(c, e)
    requires e.Start? || e.Waits? || e.Returns? || e.Raises? || e.Resumed? || e.Fails?
    ensures Owned(Step(c, e, x), owner')
  {
    assert JobOk(c, owner, e.job);
    var c' := Step(c, e, x);
    owner' := if e.job in c'.jobs && Live(c'.jobs[e.job]) then owner else None;
    forall k | k in c'.jobs ensures JobOk(c', owner', k) { assert JobOk(c, owner, k); }
  }

  lemma {:induction false} ApprovedKeeps(c: Control, owner: Option<nat>, turn: nat, x: bool) returns (owner': Option<nat>)
    requires Owned(c, owner)
    ensures Owned(OnApproved(c, turn, x), owner')
    ensures owner' == owner || owner' == Some(c.supply + 1)
  {
    var c' := OnApproved(c, turn, x);
    owner' := if c'.supply == c.supply then owner else Some(c.supply + 1);
    forall k | k in c'.jobs ensures JobOk(c', owner', k) {
      if k in c.jobs { assert JobOk(c, owner, k); }
    }
  }

  lemma {:induction false} DropHandoffKeeps(c: Control, owner: Option<nat>, j: nat)
    requires Owned(c, owner) && owner != Some(j)
    ensures Owned(Drop(c, j), owner)
  {
    forall k | k in Drop(c, j).jobs ensures JobOk(Drop(c, j), owner, k) { assert JobOk(c, owner, k); }
  }

  lemma {:induction false} CallerKeeps(c: Control, owner: Option<nat>, e: Event, x: bool) returns (owner': Option<nat>)
    requires Owned(c, owner)
    requires e.Cancel? || e.Retain? || e.Passivate? || e.Revive? || e.Assign? || e.ResumeAfterApproval?
    ensures Owned(Step(c, e, x), owner')
  {
    var c' := Step(c, e, x);
    owner' := if c'.supply == c.supply then owner else Some(c'.supply - 1);
    forall k | k in c'.jobs ensures JobOk(c', owner', k) {
      if k in c.jobs { assert JobOk(c, owner, k); }
    }
  }

  /** Whatever happens next, there is at most one live job, and the state tells what it is doing. */
  lemma {:induction false} OwnedKept(c: Control, owner: Option<nat>, e: Event, x: bool) returns (owner': Option<nat>)
    requires Owned(c, owner) && Enabled(c, e)
    ensures Owned(Step(c, e, x), owner')
  {
    match e
    case Continues(j) =>
      assert JobOk(c, owner, j);
      owner' := ApprovedKeeps(c, owner, c.jobs[j].phase.approved, x);
      DropHandoffKeeps(OnApproved(c, c.jobs[j].phase.approved, x), owner', j);
    case Approved(turn) => owner' := ApprovedKeeps(c, owner, turn, x);
    case Cancel(_) => owner' := CallerKeeps(c, owner, e, x);
    case Retain => owner' := CallerKeeps(c, owner, e, x);
    case Passivate => owner' := CallerKeeps(c, owner, e, x);
    case Revive => owner' := CallerKeeps(c, owner, e, x);
    case Assign => owner' := CallerKeeps(c, owner, e, x);
    case ResumeAfterApproval(_) => owner' := CallerKeeps(c, owner, e, x);
    case _ => owner' := WorkerKeeps(c, owner, e, x);
  }

  /** `spawn`: a queued child with its job, or one that failed because the job was not admitted. */
  function Spawn(admitted: bool): Control {
    var c := Control(Failed, 1, None, 0, map[], 0);
    if admitted then Submit(c, RunJob) else c
  }

  /** What every reachable child satisfies. */
  ghost predicate ControlInv(c: Control) {
    && (exists owner :: Owned(c, owner))
    && (Reusable(c.state) ==> c.artifacts > 0)
  }

  lemma {:induction false} SpawnInv(admitted: bool)
    ensures ControlInv(Spawn(admitted))
  {
    assert Owned(Spawn(admitted), if admitted then Some(0) else None);
  }

  lemma {:induction false} StepInv(c: Control, e: Event, x: bool)
    requires ControlInv(c) && Enabled(c, e)
    ensures ControlInv(Step(c, e, x))
  {
    var owner :| Owned(c, owner);
    var owner' := OwnedKept(c, owner, e, x);
  }

  function LiveJobs(c: Control): set<nat> {
    set j | j in c.jobs && Live(c.jobs[j])
  }

  /** The state determines the jobs: a queued child has exactly one job and it has not started, a
      running child exactly one and it has, any other child that can still change has none. */
  lemma {:induction false} JobsMatchState(c: Control)
    requires ControlInv(c)
    ensures |LiveJobs(c)| <= 1
    ensures c.state.Queued? ==> |LiveJobs(c)| == 1 && forall j :: j in LiveJobs(c) ==> c.jobs[j].phase.Pending?
    ensures c.state.Running? ==> |LiveJobs(c)| == 1 && forall j :: j in LiveJobs(c) ==> Begun(c.jobs[j])
    ensures c.state.WaitingApproval? || Reusable(c.state) ==> LiveJobs(c) == {}
  {
    var owner :| Owned(c, owner);
    forall j | j in LiveJobs(c) ensures owner == Some(j) { assert JobOk(c, owner, j); }
    assert LiveJobs(c) == if owner.Some? then {owner.value} else {};
  }

  /** A job's outcome is only ever recorded against the assignment the job was submitted for. */
  lemma {:induction false} OutcomeStaysWithAssignment(c: Control, e: Event, x: bool)
    requires ControlInv(c) && Enabled(c, e)
    requires e.Waits? || e.Returns? || e.Raises? || e.Resumed? || e.Continues? || e.Fails?
    requires var c' := Step(c, e, x); c'.state != c.state || c'.turn != c.turn || c'.artifacts != c.artifacts
    ensures c.jobs[e.job].assignment == c.assignment
  {
    var owner :| Owned(c, owner);
    assert JobOk(c, owner, e.job);
  }

  // ---- which event leads where ----

  /** The approval is for the turn that the child waits with. */
  predicate ForCurrentTurn(c: Control, turn: nat) { c.state.WaitingApproval? && c.turn == Some(turn) }

  /** The event continues the current turn after its action was executed. */
  predicate Continuing(c: Control, e: Event) {
    || (e.Approved? && ForCurrentTurn(c, e.turn))
    || (e.Continues? && e.job in c.jobs && c.jobs[e.job].phase.Handoff? && ForCurrentTurn(c, c.jobs[e.job].phase.approved))
  }

  /** Exactly which events lead into each state from another one. */
  lemma {:induction false} StateIsEnteredIff(c: Control, e: Event, x: bool)
    requires ControlInv(c) && Enabled(c, e) && Step(c, e, x).state != c.state
    ensures var c', over := Step(c, e, x), c.state.Completed? || c.state.Failed? || c.state.TimedOut? || c.state.Cancelled?;
            && (c'.state.Cancelled? <==> e.Cancel? && !over)
            && (c'.state.TimedOut? <==> e.Fails? && c.jobs[e.job].phase == Raised(true) && !over)
            && (c'.state.Failed? <==> (e.Fails? && c.jobs[e.job].phase == Raised(false) && !over) || (Continuing(c, e) && x))
            && (c'.state.Completed? <==> e.Returns? && e.success && e.integrated && e.stored)
            && (c'.state.Running? <==> e.Start? && !over)
            && (c'.state.WaitingApproval? <==> (e.Waits? && e.hasTurn) || (e.Resumed? && e.success))
            && (c'.state.Queued? <==> (Continuing(c, e) && !x) || e.Assign? || e.ResumeAfterApproval?)
            && (c'.state.Retained? <==> e.Retain? || e.Revive?)
            && (c'.state.Passivated? <==> e.Passivate?)
  {
    var owner :| Owned(c, owner);
    if e.Start? || e.Waits? || e.Returns? || e.Raises? || e.Resumed? || e.Continues? || e.Fails? {
      assert JobOk(c, owner, e.job);
    }
  }

  /** Exactly when an event changes nothing about the state although it could. */
  lemma {:induction false} CallerIsHeardIff(c: Control, e: Event, x: bool)
    requires ControlInv(c) && Enabled(c, e)
    ensures var c', over := Step(c, e, x), c.state.Completed? || c.state.Failed? || c.state.TimedOut? || c.state.Cancelled?;
            && (e.Cancel? ==> (c' == c <==> over))
            && (e.Retain? ==> c'.state == if c.state.Completed? then Retained else c.state)
            && (e.Passivate? ==> c'.state == if c.state.Completed? || c.state.Retained? then Passivated else c.state)
            && (e.Revive? ==> c'.state == if c.state.Passivated? then Retained else c.state)
            && (e.Assign? ==> (c' == c <==> x || !(c.state.Completed? || c.state.Retained? || c.state.Passivated?)))
            && (e.ResumeAfterApproval? ==> (c' == c <==> !ForCurrentTurn(c, e.turn)))
            && (e.Approved? ==> (c' == c <==> !ForCurrentTurn(c, e.turn)))
            && (e.Raises? ==> c'.jobs[e.job].phase == Raised(e.timedOut))
  {
  }

  /** Becoming queued submits one new job for the current assignment: a resuming one after an approval,
      else one that runs a new turn; only an assignment counts as one. */
  lemma {:induction false} QueuedWithNewJob(c: Control, e: Event, x: bool)
    requires ControlInv(c) && Enabled(c, e)
    ensures var c' := Step(c, e, x);
            && (e.Assign? || e.ResumeAfterApproval? || Continuing(c, e) ==> c' == c || c'.state.Queued? || (Continuing(c, e) && x))
            && (c'.state.Queued? && !c.state.Queued? ==>
                  exists j :: j !in c.jobs && j in c'.jobs
                    && c'.jobs[j] == Job(if e.ResumeAfterApproval? then ResumeJob else RunJob, c'.assignment, Pending))
            && c'.assignment == c.assignment + (if e.Assign? && c'.state.Queued? && !c.state.Queued? then 1 else 0)
  {
    var owner :| Owned(c, owner);
    var c' := Step(c, e, x);
    assert forall k :: k in c.jobs ==> k < c.supply by {
      forall k | k in c.jobs ensures k < c.supply { assert JobOk(c, owner, k); }
    }
    if c'.state.Queued? && !c.state.Queued? {
      assert c'.supply - 1 in c'.jobs;
    }
  }

  /** A run that stops for approval waits with a turn later than the one before; a resume waits with its own. */
  lemma {:induction false} WaitsWithTurn(c: Control, e: Event, x: bool)
    requires ControlInv(c) && Enabled(c, e) && Step(c, e, x).state.WaitingApproval? && !c.state.WaitingApproval?
    ensures var c' := Step(c, e, x);
            && (e.Waits? || e.Resumed?) && c'.turn.Some?
            && (if c.jobs[e.job].kind.ResumeJob? then c'.turn == c.turn else c.turn.Some? ==> c'.turn.value > c.turn.value)
  {
    var owner :| Owned(c, owner);
    if e.Waits? || e.Resumed? { assert JobOk(c, owner, e.job); }
  }

  /** The turn a child waits with, or last had, is later than `t`. */
  predicate TurnedAfter(c: Control, t: nat) { c.turn.Some? && c.turn.value > t }

  lemma {:induction false} TurnsOnlyAdvance(c: Control, e: Event, x: bool, t: nat)
    requires ControlInv(c) && Enabled(c, e) && TurnedAfter(c, t)
    ensures TurnedAfter(Step(c, e, x), t)
  {
    var owner :| Owned(c, owner);
    if e.Start? || e.Waits? || e.Returns? || e.Raises? || e.Resumed? || e.Continues? || e.Fails? {
      assert JobOk(c, owner, e.job);
    }
  }

  // ---- runs of one child ----

  /** A run: events with, for each, whether the token budget is used up at that point. */
  ghost predicate Run(c: Control, steps: seq<(Event, bool)>, end: Control)
    decreases |steps|
  {
    if steps == [] then c == end
    else Enabled(c, steps[0].0) && Run(Step(c, steps[0].0, steps[0].1), steps[1..], end)
  }

  /** FAILED, TIMED_OUT and CANCELLED are final: whatever late results, approvals or calls arrive. In
      particular a child cancelled while queued never runs. */
  lemma {:induction false} AbsorbingIsForever(c: Control, steps: seq<(Event, bool)>, end: Control)
    requires ControlInv(c) && Absorbing(c.state) && Run(c, steps, end)
    ensures end.state == c.state && end.artifacts == c.artifacts
    decreases |steps|
  {
    if steps != [] {
      StepInv(c, steps[0].0, steps[0].1);
      AbsorbingIsForever(Step(c, steps[0].0, steps[0].1), steps[1..], end);
    }
  }

  lemma {:induction false} RunTurnsOnlyAdvance(c: Control, steps: seq<(Event, bool)>, end: Control, t: nat)
    requires ControlInv(c) && TurnedAfter(c, t) && Run(c, steps, end)
    ensures ControlInv(end) && TurnedAfter(end, t)
    decreases |steps|
  {
    if steps != [] {
      StepInv(c, steps[0].0, steps[0].1);
      TurnsOnlyAdvance(c, steps[0].0, steps[0].1, t);
      RunTurnsOnlyAdvance(Step(c, steps[0].0, steps[0].1), steps[1..], end, t);
    }
  }

  /** An executed approval is used once: after it has continued its turn, neither it nor a resume for the
      same turn is heard again, however the run goes on. */
  lemma {:induction false} ApprovalIsUsedOnce(c: Control, t: nat, steps: seq<(Event, bool)>, end: Control, x: bool)
    requires ControlInv(c) && ForCurrentTurn(c, t) && Run(Step(c, Approved(t), false), steps, end)
    ensures Step(end, Approved(t), x) == end && Step(end, ResumeAfterApproval(t), x) == end
  {
    var owner :| Owned(c, owner);
    StepInv(c, Approved(t), false);
    RunTurnsOnlyAdvance(Step(c, Approved(t), false), steps, end, t);
  }

  /** A child that has timed out has a job whose worker raised a timeout, and which then failed. */
  lemma {:induction false} TimeoutWasRaised(c: Control, steps: seq<(Event, bool)>, end: Control) returns (j: nat)
    requires ControlInv(c) && Run(c, steps, end) && end.state.TimedOut? && !c.state.TimedOut?
    ensures exists k, x, settled :: 0 <= k < |steps| && steps[k] == (Fails(j, settled), x)
    ensures (j in c.jobs && c.jobs[j].phase == Raised(true)) || exists i, x :: 0 <= i < |steps| && steps[i] == (Raises(j, true), x)
    decreases |steps|
  {
    var e, x := steps[0].0, steps[0].1;
    var c' := Step(c, e, x);
    StepInv(c, e, x);
    if c'.state.TimedOut? {
      StateIsEnteredIff(c, e, x);
      j := e.job;
      assert steps[0] == (Fails(j, e.settled), x);
    } else {
      j := TimeoutWasRaised(c', steps[1..], end);
      var k, y, settled :| 0 <= k < |steps[1..]| && steps[1..][k] == (Fails(j, settled), y);
      assert steps[k + 1] == (Fails(j, settled), y);
      if i, z :| 0 <= i < |steps[1..]| && steps[1..][i] == (Raises(j, true), z) {
        assert steps[i + 1] == (Raises(j, true), z);
      } else {
        RaisedTimeoutComesFrom(c, e, x, j);
        assert e == Raises(j, true) ==> steps[0] == (Raises(j, true), x);
      }
    }
  }

  lemma {:induction false} RaisedTimeoutComesFrom(c: Control, e: Event, x: bool, j: nat)
    requires Enabled(c, e) && j in Step(c, e, x).jobs && Step(c, e, x).jobs[j].phase == Raised(true)
    ensures (j in c.jobs && c.jobs[j].phase == Raised(true)) || e == Raises(j, true)
  {
  }

  /** How often a run enters COMPLETED. */
  ghost function Completions(c: Control, steps: seq<(Event, bool)>, end: Control): nat
    requires Run(c, steps, end)
    decreases |steps|
  {
    if steps == [] then 0
    else
      var c' := Step(c, steps[0].0, steps[0].1);
      (if !c.state.Completed? && c'.state.Completed? then 1 else 0) + Completions(c', steps[1..], end)
  }

  lemma {:induction false} CompletionStoresArtifact(c: Control, e: Event, x: bool)
    requires ControlInv(c) && Enabled(c, e)
    ensures var c' := Step(c, e, x);
            c'.artifacts == c.artifacts + if !c.state.Completed? && c'.state.Completed? then 1 else 0
  {
    var owner :| Owned(c, owner);
    if e.Returns? { assert JobOk(c, owner, e.job); }
  }

  /** One result artifact is stored per entry into COMPLETED, no more and no fewer. */
  lemma {:induction false} OneArtifactPerCompletion(c: Control, steps: seq<(Event, bool)>, end: Control)
    requires ControlInv(c) && Run(c, steps, end)
    ensures end.artifacts == c.artifacts + Completions(c, steps, end)
    decreases |steps|
  {
    if steps != [] {
      var e, x := steps[0].0, steps[0].1;
      StepInv(c, e, x);
      CompletionStoresArtifact(c, e, x);
      OneArtifactPerCompletion(Step(c, e, x), steps[1..], end);
    }
  }

  /** A child has no artifact before its first completion, and from its spawn on one for each. */
  lemma {:induction false} ArtifactsFromSpawn(admitted: bool, steps: seq<(Event, bool)>, end: Control)
    requires Run(Spawn(admitted), steps, end)
    ensures end.artifacts == Completions(Spawn(admitted), steps, end)
    ensures Spawn(admitted).state == if admitted then Queued else Failed
  {
    SpawnInv(admitted);
    OneArtifactPerCompletion(Spawn(admitted), steps, end);
  }

  // ---- all children and the pool ----

  /** The children and the size of the thread pool they share. */
  datatype World = World(children: map<nat, Control>, poolSize: nat)

  datatype Move = SpawnChild(id: nat, admitted: bool) | Act(id: nat, event: Event, exhausted: bool)

  /** Pool threads in use: one per job that was started and has not finished. */
  function Busy(w: World): set<(nat, nat)> {
    set id, j | id in w.children && j in w.children[id].jobs && !w.children[id].jobs[j].phase.Pending? :: (id, j)
  }

  ghost predicate CanMove(w: World, m: Move) {
    match m
    case SpawnChild(id, _) => id !in w.children
    case Act(id, e, _) => id in w.children && Enabled(w.children[id], e) && (e.Start? ==> |Busy(w)| < w.poolSize)
  }

  ghost function Moved(w: World, m: Move): World
    requires CanMove(w, m)
  {
    match m
    case SpawnChild(id, admitted) => w.(children := w.children[id := Spawn(admitted)])
    case Act(id, e, x) => w.(children := w.children[id := Step(w.children[id], e, x)])
  }

  ghost predicate WorldInv(w: World) {
    (forall id :: id in w.children ==> ControlInv(w.children[id])) && |Busy(w)| <= w.poolSize
  }

  lemma {:induction false} SubsetSize<T>(a: set<T>, b: set<T>)
    requires a <= b
    ensures |a| <= |b|
  {
    assert b == a + (b - a);
  }

  function BusyJobs(c: Control): set<nat> {
    set j | j in c.jobs && !c.jobs[j].phase.Pending?
  }

  /** Only `Start` takes a thread, and it takes one. */
  lemma {:induction false} StepTakesThread(c: Control, e: Event, x: bool)
    requires Enabled(c, e)
    ensures BusyJobs(Step(c, e, x)) <= BusyJobs(c) + (if e.Start? then {e.job} else {})
  {
  }

  lemma {:induction false} BusyAfter(w: World, m: Move)
    requires CanMove(w, m)
    ensures Busy(Moved(w, m)) <= Busy(w) + (if m.Act? && m.event.Start? then {(m.id, m.event.job)} else {})
  {
    var w' := Moved(w, m);
    var extra := if m.Act? && m.event.Start? then {(m.id, m.event.job)} else {};
    if m.Act? { StepTakesThread(w.children[m.id], m.event, m.exhausted); }
    forall id, j | (id, j) in Busy(w') ensures (id, j) in Busy(w) + extra {
      assert j in BusyJobs(w'.children[id]);
      assert id == m.id || j in BusyJobs(w.children[id]);
    }
  }

  lemma {:induction false} WorldInvKept(w: World, m: Move)
    requires WorldInv(w) && CanMove(w, m)
    ensures WorldInv(Moved(w, m))
  {
    var w' := Moved(w, m);
    forall id | id in w'.children ensures ControlInv(w'.children[id]) {
      if id == m.id {
        match m {
          case SpawnChild(_, admitted) => SpawnInv(admitted);
          case Act(_, e, x) => StepInv(w.children[id], e, x);
        }
      }
    }
    BusyAfter(w, m);
    SubsetSize(Busy(w'), Busy(w) + (if m.Act? && m.event.Start? then {(m.id, m.event.job)} else {}));
  }

  ghost predicate WorldRun(w: World, moves: seq<Move>, end: World)
    decreases |moves|
  {
    if moves == [] then w == end
    else CanMove(w, moves[0]) && WorldRun(Moved(w, moves[0]), moves[1..], end)
  }

  lemma {:induction false} WorldRunInv(w: World, moves: seq<Move>, end: World)
    requires WorldInv(w) && WorldRun(w, moves, end)
    ensures WorldInv(end) && end.poolSize == w.poolSize
    decreases |moves|
  {
    if moves != [] {
      WorldInvKept(w, moves[0]);
      WorldRunInv(Moved(w, moves[0]), moves[1..], end);
    }
  }

  function RunningChildren(w: World): set<nat> {
    set id | id in w.children && w.children[id].state.Running?
  }

  lemma {:induction false} ProjectionSize(pairs: set<(nat, nat)>)
    ensures |set p | p in pairs :: p.0| <= |pairs|
    decreases |pairs|
  {
    if pairs != {} {
      var p :| p in pairs;
      var rest := pairs - {p};
      ProjectionSize(rest);
      var whole, part := set q | q in pairs :: q.0, set q | q in rest :: q.0;
      assert whole <= part + {p.0};
      SubsetSize(whole, part + {p.0});
    }
  }

  /** What the state of a child says about its jobs and artifacts. */
  ghost predicate StateTellsJobs(c: Control) {
    && |LiveJobs(c)| <= 1
    && (c.state.Queued? || c.state.Running? <==> LiveJobs(c) != {} && !Absorbing(c.state))
    && (c.state.Queued? ==> forall j :: j in LiveJobs(c) ==> c.jobs[j].phase.Pending?)
    && (c.state.Running? ==> forall j :: j in LiveJobs(c) ==> Begun(c.jobs[j]))
    && (Reusable(c.state) ==> c.artifacts > 0)
  }

  /** Safety of every run from an empty manager: each child has at most one job that can write its
      state, not yet started when the child is queued and started when it runs; every finished child
      has its result artifact, and no more children run than the pool has threads. */
  lemma {:induction false} EveryRunIsSafe(poolSize: nat, moves: seq<Move>, end: World)
    requires WorldRun(World(map[], poolSize), moves, end)
    ensures |RunningChildren(end)| <= poolSize
    ensures forall id :: id in end.children ==> StateTellsJobs(end.children[id])
  {
    WorldRunInv(World(map[], poolSize), moves, end);
    forall id | id in end.children ensures StateTellsJobs(end.children[id]) { JobsMatchState(end.children[id]); }
    var busy := set p | p in Busy(end) :: p.0;
    forall id | id in RunningChildren(end) ensures id in busy {
      var c := end.children[id];
      JobsMatchState(c);
      assert LiveJobs(c) != {};
      var j :| j in LiveJobs(c);
      assert (id, j) in Busy(end);
    }
    SubsetSize(RunningChildren(end), busy);
    ProjectionSize(Busy(end));
  }
}
