/**
 The lock-held sections of kitt/children/lifecycle.py and kitt/children/manager.py as they are
 written: each reads the child's row, updates its columns one after the other, settles the budget
 and submits or ends jobs. Every method is proved to be the one event of the lifecycle it stands
 for; `Perform` calls the method of an event, and `PerformAll` carries what is proved of runs of
 events over to any sequence of these calls.
 */
module ChildRow {
  import opened Common
  import opened ChildLifecycle
  import opened ChildBudget

  lemma {:induction false} AdvanceWaits(s: Slot, j: nat, u: Usage, hasTurn: bool, s': Slot)
    requires Enabled(s.control, Waits(j, u, hasTurn))
    requires s'.control == MarkWaiting(s.control, j, hasTurn)
    requires s'.ledger == if Terminal(s.control.state) || !hasTurn then s.ledger else Charge(s.ledger, u)
    ensures s' == Advance(s, Waits(j, u, hasTurn))
  {
  }

  lemma {:induction false} SpawnedView(lease: Lease, tokenBudget: int, admitted: bool, settled: bool, s: Slot)
    requires s.control == Spawn(admitted)
    requires s.ledger == SpawnSlot(lease, tokenBudget, admitted, settled).ledger
    ensures s == SpawnSlot(lease, tokenBudget, admitted, settled)
    ensures !lease.settled ==> forall works :: SettleInv(s, works)
    ensures lease.present && lease.consumed == ZERO && Within(ZERO, lease.caps) ==> LeaseInv(s)
  {
    if !lease.settled {
      forall works ensures SettleInv(s, works) { SpawnedUnsettled(lease, tokenBudget, admitted, settled, works); }
    }
    if lease.present && lease.consumed == ZERO && Within(ZERO, lease.caps) {
      SpawnedWithLease(lease, tokenBudget, admitted, settled);
    }
  }

  lemma {:induction false} SlotRunSnoc(s: Slot, events: seq<Event>, mid: Slot, e: Event)
    requires SlotRun(s, events, mid) && Enabled(mid.control, e)
    ensures SlotRun(s, events + [e], Advance(mid, e))
    decreases |events|
  {
    if events == [] {
      assert ([] + [e])[1..] == [];
    } else {
      SlotRunSnoc(Advance(s, events[0]), events[1..], mid, e);
      assert (events + [e])[1..] == events[1..] + [e];
    }
  }

  class ChildRow {
    var state: ChildState
    var assignment: nat
    var turn: Option<nat>
    var artifacts: nat
    var tokensUsed: int
    var tokenBudget: int
    var lease: Lease
    var settlements: seq<Usage>
    var jobs: map<nat, Job>
    var supply: nat
    ghost var grant: Grant
    ghost var end: Option<End>
    ghost var settledByEnd: nat

    ghost function Row(): Control
      reads this
    {
      Control(state, assignment, turn, artifacts, jobs, supply)
    }

    ghost function Money(): Ledger
      reads this
    {
      Ledger(tokensUsed, tokenBudget, lease, grant, settlements, end, settledByEnd)
    }

    ghost function View(): Slot
      reads this
    {
      Slot(Row(), Money())
    }

    /** `spawn`; a child whose job is not admitted has failed, and its lease is settled at zero. */
    constructor Spawn(lease: Lease, tokenBudget: int, admitted: bool, settled: bool)
      ensures View() == SpawnSlot(lease, tokenBudget, admitted, settled)
      ensures !lease.settled ==> forall works :: SettleInv(View(), works)
      ensures lease.present && lease.consumed == ZERO && Within(ZERO, lease.caps) ==> LeaseInv(View())
    {
      assignment, turn, artifacts := 1, None, 0;
      tokensUsed, this.tokenBudget, grant := 0, tokenBudget, NoLimit;
      if admitted {
        state, jobs, supply := Queued, map[0 := Job(RunJob, 1, Pending)], 1;
        this.lease, settlements, end, settledByEnd := lease, [], None, 0;
      } else {
        state, jobs, supply := Failed, map[], 0;
        this.lease := if settled then lease.(settled := true, present := true) else lease;
        settlements := if settled then [ZERO] else [];
        end, settledByEnd := Some(ByAdmission), if settled then 1 else 0;
      }
      new;
      SpawnedView(lease, tokenBudget, admitted, settled, View());
    }

    /** Bookkeeping for the first end. */
    ghost method Note(before: ChildState, e: Event)
      modifies `end, `settledByEnd
      ensures Money() == NoteEnd(old(Money()), before, state, e)
    {
      if end.None? && Active(before) && !Active(state) {
        end, settledByEnd := Some(EndCause(e)), |settlements|;
      }
    }

    /** `_settle_child_budget`. */
    method SettleBudget(amount: Usage, ok: bool)
      modifies `lease, `settlements
      ensures Money() == Settle(old(Money()), amount, ok)
    {
      if ok {
        settlements := settlements + [Clamp(amount)];
        lease := lease.(settled := true, present := true);
      }
    }

    /** `_accumulate_tokens` and `_accumulate_budget_usage`. */
    method AccumulateUsage(u: Usage)
      modifies `tokensUsed, `lease
      ensures Money() == Charge(old(Money()), u)
    {
      tokensUsed := NonNeg(tokensUsed) + NonNeg(u.tokens);
      lease := lease.(present := true, consumed := Plus(Clamp(lease.consumed), Clamp(u)));
    }

    /** `_exhaust_budget_usage` followed by the settlement. */
    method ExhaustBudget(ok: bool)
      modifies `lease, `settlements
      ensures Money() == ExhaustAndSettle(old(Money()), ok)
    {
      lease := lease.(present := true, consumed := Clamp(lease.caps));
      SettleBudget(lease.consumed, ok);
    }

    method SubmitJob(kind: Kind)
      modifies `jobs, `supply, `state
      ensures Row() == Submit(old(Row()), kind)
    {
      state := Queued;
      jobs := jobs[supply := Job(kind, assignment, Pending)];
      supply := supply + 1;
    }

    /** The first section of `_run_child` and of `_resume_child`. */
    method BeginJob(j: nat)
      requires Enabled(Row(), Start(j))
      modifies this
      ensures View() == Advance(old(View()), Start(j))
    {
      if Terminal(state) {
        jobs := jobs - {j};
        return;
      }
      grant := if jobs[j].kind.ResumeJob? then Upto(ZERO) else GrantFor(lease);
      jobs := jobs[j := jobs[j].(phase := Executing(turn))];
      state := Running;
    }

    /** `_mark_waiting_approval`. */
    method MarkWaitingApproval(j: nat, u: Usage, hasTurn: bool)
      requires Enabled(Row(), Waits(j, u, hasTurn))
      modifies this
      ensures View() == Advance(old(View()), Waits(j, u, hasTurn))
    {
      ghost var s := View();
      ChargeWaiting(u, hasTurn);
      WaitForApproval(j, hasTurn);
      AdvanceWaits(s, j, u, hasTurn, View());
    }

    method ChargeWaiting(u: Usage, hasTurn: bool)
      modifies `tokensUsed, `lease
      ensures Money() == if Terminal(state) || !hasTurn then old(Money()) else Charge(old(Money()), u)
    {
      if !Terminal(state) && hasTurn { AccumulateUsage(u); }
    }

    method WaitForApproval(j: nat, hasTurn: bool)
      requires j in jobs && jobs[j].phase.Executing?
      modifies `turn, `supply, `state, `jobs
      ensures Row() == MarkWaiting(old(Row()), j, hasTurn)
    {
      if Terminal(state) {
        jobs := jobs - {j};
      } else if !hasTurn {
        RaiseFrom(j);
      } else {
        turn := if jobs[j].kind.ResumeJob? then jobs[j].phase.turn else Some(supply);
        supply := supply + 1;
        state := WaitingApproval;
        jobs := jobs - {j};
      }
    }

    /** `_complete_child`. An exception leaves the job on its way to `FailChild`. */
    method CompleteChild(j: nat, u: Usage, success: bool, integrated: bool, settled: bool, stored: bool)
      requires Enabled(Row(), Returns(j, u, success, integrated, settled, stored))
      modifies this
      ensures View() == Advance(old(View()), Returns(j, u, success, integrated, settled, stored))
    {
      ghost var before, e := state, Returns(j, u, success, integrated, settled, stored);
      if Absorbing(state) || (state.Completed? && artifacts > 0) {
        jobs := jobs - {j};
      } else {
        ConcludeTurn(j, u, success, integrated, settled, stored);
        Note(before, e);
      }
    }

    /** The usage is charged first; integration comes next and may raise; then the budget is settled
        and the result stored. A failed turn is settled as well before its error is raised. */
    method ConcludeTurn(j: nat, u: Usage, success: bool, integrated: bool, settled: bool, stored: bool)
      requires j in jobs && !AlreadyOver(Row())
      modifies `tokensUsed, `lease, `settlements, `jobs, `state, `artifacts
      ensures Row() == Complete(old(Row()), j, success, integrated, stored)
      ensures Money() == if success && !integrated then Charge(old(Money()), u)
                         else Settle(Charge(old(Money()), u), Charge(old(Money()), u).lease.consumed, settled)
    {
      AccumulateUsage(u);
      if success && !integrated {
        RaiseFrom(j);
        return;
      }
      SettleBudget(lease.consumed, settled);
      if success && stored { RecordResult(j); } else { RaiseFrom(j); }
    }

    method RaiseFrom(j: nat)
      requires j in jobs
      modifies `jobs
      ensures Row() == SetPhase(old(Row()), j, Raised(false))
    {
      jobs := jobs[j := jobs[j].(phase := Raised(false))];
    }

    method RecordResult(j: nat)
      modifies `artifacts, `state, `jobs
      ensures Row() == Drop(old(Row()), j).(state := Completed, artifacts := old(artifacts) + 1)
    {
      artifacts := artifacts + 1;
      state := Completed;
      jobs := jobs - {j};
    }

    /** `_fail_child`. */
    method FailChild(j: nat, settled: bool)
      requires Enabled(Row(), Fails(j, settled))
      modifies this
      ensures View() == Advance(old(View()), Fails(j, settled))
    {
      ghost var before := state;
      if Terminal(state) {
        jobs := jobs - {j};
        return;
      }
      state := if jobs[j].phase.timeout then TimedOut else Failed;
      if !lease.settled { ExhaustBudget(settled); }
      jobs := jobs - {j};
      Note(before, Fails(j, settled));
    }

    /** The end of `_resume_child` up to its call of `OnApprovedActionExecuted`. */
    method FinishResumedTurn(j: nat, success: bool)
      requires Enabled(Row(), Resumed(j, success))
      modifies this
      ensures View() == Advance(old(View()), Resumed(j, success))
    {
      var pending := jobs[j].phase.turn;
      if !success || pending.None? {
        jobs := jobs[j := jobs[j].(phase := Raised(false))];
        return;
      }
      if Terminal(state) {
        jobs := jobs - {j};
        return;
      }
      state := WaitingApproval;
      turn := pending;
      jobs := jobs[j := jobs[j].(phase := Handoff(pending.value))];
    }

    /** `on_approved_action_executed`. */
    method OnApprovedActionExecuted(approved: nat)
      modifies this
      ensures View() == Advance(old(View()), Approved(approved))
    {
      ghost var before := state;
      if !state.WaitingApproval? || turn != Some(approved) { return; }
      if tokensUsed >= tokenBudget {
        state := Failed;
        Note(before, Approved(approved));
        return;
      }
      turn := Some(supply);
      supply := supply + 1;
      SubmitJob(RunJob);
    }

    method CancelChild(settled: bool) returns (cancelled: bool)
      modifies this
      ensures View() == Advance(old(View()), Cancel(settled))
      ensures cancelled <==> !Terminal(old(state))
    {
      ghost var before := state;
      if Terminal(state) { return false; }
      state := Cancelled;
      ExhaustBudget(settled);
      Note(before, Cancel(settled));
      return true;
    }

    /** `assign_task`; the result says whether the task was taken. */
    method AssignTask() returns (taken: bool)
      modifies this
      ensures View() == Advance(old(View()), Assign)
      ensures taken <==> Reusable(old(state)) && !Exhausted(old(Money()))
    {
      if !Reusable(state) || tokensUsed >= tokenBudget { return false; }
      assignment := assignment + 1;
      turn := Some(supply);
      supply := supply + 1;
      SubmitJob(RunJob);
      return true;
    }

    /** The worker of job `j` raises. */
    method RaiseWith(j: nat, timedOut: bool)
      requires Enabled(Row(), Raises(j, timedOut))
      modifies this
      ensures View() == Advance(old(View()), Raises(j, timedOut))
    {
      jobs := jobs[j := jobs[j].(phase := Raised(timedOut))];
    }

    /** The end of `_resume_child`: the hand-off to `on_approved_action_executed`. */
    method ContinueAfterResume(j: nat)
      requires Enabled(Row(), Continues(j))
      modifies this
      ensures View() == Advance(old(View()), Continues(j))
    {
      ghost var before := state;
      var approved := jobs[j].phase.approved;
      if state.WaitingApproval? && turn == Some(approved) {
        if tokensUsed >= tokenBudget {
          state := Failed;
        } else {
          turn := Some(supply);
          supply := supply + 1;
          SubmitJob(RunJob);
        }
      }
      jobs := jobs - {j};
      Note(before, Continues(j));
    }

    method RetainChild()
      modifies this
      ensures View() == Advance(old(View()), Retain)
    {
      if state.Completed? || state.Retained? { state := Retained; }
    }

    method PassivateChild()
      modifies this
      ensures View() == Advance(old(View()), Passivate)
    {
      if Reusable(state) { state := Passivated; }
    }

    method ReviveChild()
      modifies this
      ensures View() == Advance(old(View()), Revive)
    {
      if state.Passivated? { state := Retained; }
    }

    /** Calls the method that stands for the event. */
    method Perform(e: Event)
      requires Enabled(Row(), e)
      modifies this
      ensures View() == Advance(old(View()), e)
    {
      match e
      case Start(j) => BeginJob(j);
      case Waits(j, u, hasTurn) => MarkWaitingApproval(j, u, hasTurn);
      case Returns(j, u, success, integrated, settled, stored) => CompleteChild(j, u, success, integrated, settled, stored);
      case Raises(j, timedOut) => RaiseWith(j, timedOut);
      case Resumed(j, success) => FinishResumedTurn(j, success);
      case Continues(j) => ContinueAfterResume(j);
      case Fails(j, settled) => FailChild(j, settled);
      case Cancel(settled) => var cancelled := CancelChild(settled);
      case Retain => RetainChild();
      case Passivate => PassivateChild();
      case Revive => ReviveChild();
      case Assign => var taken := AssignTask();
      case ResumeAfterApproval(t) => var resumed := ResumeWithGrant(t);
      case Approved(t) => OnApprovedActionExecuted(t);
    }

    /** Any sequence of calls is a run of the lifecycle: it keeps the row sane, a leased child within
        its lease with consumption that only grows, and the count of settlements. */
    method PerformAll(events: seq<Event>, ghost kinds: nat -> WorkerKind)
      requires Possible(View(), events)
      modifies this
      ensures SlotRun(old(View()), events, View())
      ensures old(LeaseInv(View())) && HonestRun(kinds, old(View()), events) ==>
                LeaseInv(View()) && lease.caps == old(lease.caps) && Within(old(lease.consumed), lease.consumed)
      ensures old(SettleInv(View(), true)) && SettlerAlwaysWorks(events) ==> SettleInv(View(), true)
    {
      ghost var s := View();
      for k := 0 to |events|
        invariant SlotRun(s, events[..k], View()) && Possible(View(), events[k..])
      {
        assert events[k..][0] == events[k] && events[k..][1..] == events[k + 1..];
        SlotRunSnoc(s, events[..k], View(), events[k]);
        assert events[..k] + [events[k]] == events[..k + 1];
        Perform(events[k]);
      }
      assert events[..|events|] == events;
      if LeaseInv(s) && HonestRun(kinds, s, events) { LeaseRunKept(kinds, s, events, View()); }
      if SettleInv(s, true) && SettlerAlwaysWorks(events) { SettledOnceByFirstEnd(s, events, View(), true); }
    }

    /** `resume_after_approval` with a grant for turn `granted`. */
    method ResumeWithGrant(granted: nat) returns (resumed: bool)
      modifies this
      ensures View() == Advance(old(View()), ResumeAfterApproval(granted))
      ensures resumed <==> old(state).WaitingApproval? && old(turn) == Some(granted)
    {
      if !state.WaitingApproval? || turn != Some(granted) { return false; }
      SubmitJob(ResumeJob);
      return true;
    }
  }
}
