/**
 Messages to a child over its whole life: the lifecycle of kitt/children/lifecycle.py and the delivery
 at the start of a turn in kitt/children/worker.py, together.

 A job that runs a new turn lists its messages once, marks them, and reports only after that; a worker
 may die at any point, which its thread notices as an exception. Resumed turns deliver nothing.
 */
module ChildDelivery {
  import opened Common
  import L = ChildLifecycle
  import B = ChildBudget
  import I = ChildInbox

  /** `delivering` is the job whose worker has listed its messages and not marked them all; `served`
      holds the jobs that have had their delivery. */
  datatype Family = Family(control: L.Control, inbox: I.State, delivering: Option<nat>, served: set<nat>)

  datatype Action =
    | Life(event: L.Event, exhausted: bool)
    | Send(recipient: nat, time: int)
    | Deliver(job: nat)
    | Mark
    | Done

  /** The job runs a new turn and has not had its delivery. */
  predicate MayDeliver(f: Family, j: nat) {
    j in f.control.jobs && f.control.jobs[j].kind.RunJob? && f.control.jobs[j].phase.Executing? && j !in f.served
  }

  predicate Enabled(f: Family, a: Action) {
    match a
    case Life(e, _) => L.Enabled(f.control, e) && (e.Waits? || e.Returns? ==> f.delivering != Some(e.job))
    case Send(_, _) => true
    case Deliver(j) => MayDeliver(f, j) && !f.inbox.open
    case Mark => f.delivering.Some? && I.Enabled(f.inbox, I.Mark)
    case Done => f.delivering.Some? && I.Enabled(f.inbox, I.Close)
  }

  /** The event is the end of the worker that is delivering. */
  predicate Kills(f: Family, e: L.Event) { e.Raises? && f.delivering == Some(e.job) && f.inbox.open }

  function Apply(f: Family, r: nat, a: Action): Family
    requires Enabled(f, a)
  {
    match a
    case Life(e, x) =>
      var g := f.(control := L.Step(f.control, e, x));
      if Kills(f, e) then g.(inbox := I.Apply(f.inbox, r, I.Die), delivering := None) else g
    case Send(to, time) => f.(inbox := I.Apply(f.inbox, r, I.Send(to, time)))
    case Deliver(j) => f.(inbox := I.Apply(f.inbox, r, I.Open), delivering := Some(j), served := f.served + {j})
    case Mark => f.(inbox := I.Apply(f.inbox, r, I.Mark))
    case Done => f.(inbox := I.Apply(f.inbox, r, I.Close), delivering := None)
  }

  ghost predicate Run(f: Family, r: nat, actions: seq<Action>, end: Family)
    decreases |actions|
  {
    if actions == [] then f == end
    else Enabled(f, actions[0]) && Run(Apply(f, r, actions[0]), r, actions[1..], end)
  }

  // ---- a child whose worker died has no further turn ----

  /** The child has ended, or an exception is on its way to end it; no job works on it any more. */
  ghost predicate Over(c: L.Control) {
    && (L.Absorbing(c.state) || (c.state.Running? && B.HasRaised(c)))
    && (forall j :: j in c.jobs && L.Live(c.jobs[j]) ==> c.jobs[j].phase.Raised?)
  }

  lemma {:induction false} OverStays(c: L.Control, e: L.Event, x: bool)
    requires L.ControlInv(c) && L.Enabled(c, e) && Over(c)
    ensures Over(L.Step(c, e, x))
  {
    if !L.Absorbing(c.state) { B.RaisedOwns(c, e, x); }
  }

  /** The worker that runs the current turn dies: the turn's job is the only one, so the child is over. */
  lemma {:induction false} DeathEndsChild(c: L.Control, j: nat, timedOut: bool, x: bool)
    requires L.ControlInv(c) && L.Enabled(c, L.Raises(j, timedOut))
    ensures Over(L.Step(c, L.Raises(j, timedOut), x))
  {
    var owner :| L.Owned(c, owner);
    assert L.JobOk(c, owner, j);
    var c' := L.Step(c, L.Raises(j, timedOut), x);
    forall k | k in c'.jobs && L.Live(c'.jobs[k]) ensures c'.jobs[k].phase.Raised? { assert L.JobOk(c, owner, k); }
    assert j in c'.jobs && c'.jobs[j].phase.Raised?;
  }

  // ---- every message enters at most one prompt, whatever the clock does ----

  /** A delivery belongs to a turn in progress. */
  ghost predicate Working(f: Family) {
    && L.ControlInv(f.control) && (f.delivering.Some? <==> f.inbox.open)
    && (f.delivering.Some? ==>
          && f.delivering.value in f.control.jobs && f.control.jobs[f.delivering.value].phase.Executing?
          && f.control.jobs[f.delivering.value].kind.RunJob? && f.delivering.value in f.served)
  }

  ghost predicate SentTo(rows: I.Table, r: nat, id: nat) { id < |rows| && rows[id].recipient == r }

  /** What was prompted was sent to `r`, each message once, and includes all that is delivered; the open
      delivery holds the last ones prompted, all still undelivered. */
  ghost predicate Tidy(s: I.State, r: nat) {
    && I.Distinct(s.prompted)
    && (forall k :: 0 <= k < |s.prompted| ==> SentTo(s.rows, r, s.prompted[k]))
    && (forall id: nat :: SentTo(s.rows, r, id) && s.rows[id].delivered ==> id in s.prompted)
    && |s.batch| <= |s.prompted| && s.batch == s.prompted[|s.prompted| - |s.batch|..]
    && (forall k :: 0 <= k < |s.batch| ==> !s.rows[s.batch[k]].delivered)
    && (!s.open ==> s.batch == [])
  }

  ghost predicate StrandedAt(s: I.State, id: nat) {
    id in s.prompted && id !in s.batch && id < |s.rows| && !s.rows[id].delivered
  }

  /** Some message was prompted, is not marked, and is not in an open delivery. */
  ghost predicate Stranded(s: I.State) {
    exists id: nat :: StrandedAt(s, id)
  }

  ghost predicate Inv(f: Family, r: nat) {
    Working(f) && Tidy(f.inbox, r) && (Stranded(f.inbox) ==> Over(f.control))
  }

  /** The action is the death of a worker that has prompted messages and not marked them all. */
  predicate DiesMidway(f: Family, a: Action) { a.Life? && Kills(f, a.event) && f.inbox.batch != [] }

  lemma {:induction false} TidySend(s: I.State, r: nat, to: nat, time: int)
    requires Tidy(s, r)
    ensures var s' := I.Apply(s, r, I.Send(to, time)); Tidy(s', r) && (Stranded(s') <==> Stranded(s))
  {
    var s' := I.Apply(s, r, I.Send(to, time));
    forall id: nat ensures StrandedAt(s', id) <==> StrandedAt(s, id) {
      if id in s.prompted {
        var k :| 0 <= k < |s.prompted| && s.prompted[k] == id;
        assert SentTo(s.rows, r, s.prompted[k]);
      }
    }
    forall id: nat | SentTo(s'.rows, r, id) && s'.rows[id].delivered ensures id in s'.prompted {
      assert SentTo(s.rows, r, id);
    }
    forall k | 0 <= k < |s'.prompted| ensures SentTo(s'.rows, r, s'.prompted[k]) {
      assert SentTo(s.rows, r, s.prompted[k]);
    }
  }

  /** With nothing stranded everything prompted is delivered, so a new listing repeats nothing. */
  lemma {:induction false} TidyOpen(s: I.State, r: nat)
    requires Tidy(s, r) && !s.open && !Stranded(s)
    ensures var s' := I.Apply(s, r, I.Open); Tidy(s', r) && !Stranded(s')
  {
    I.ListIsFresh(s.rows, r);
    TidyOpenWith(s, r, I.ListPending(s.rows, r, I.BATCH));
  }

  lemma {:induction false} TidyOpenWith(s: I.State, r: nat, list: seq<nat>)
    requires Tidy(s, r) && !s.open && !Stranded(s) && I.Distinct(list)
    requires forall k :: 0 <= k < |list| ==> SentTo(s.rows, r, list[k]) && !s.rows[list[k]].delivered
    ensures var s' := s.(open := true, batch := list, prompted := s.prompted + list); Tidy(s', r) && !Stranded(s')
  {
    var s' := s.(open := true, batch := list, prompted := s.prompted + list);
    forall k | 0 <= k < |s.prompted| ensures s.rows[s.prompted[k]].delivered {
      assert SentTo(s.rows, r, s.prompted[k]) && !StrandedAt(s, s.prompted[k]);
    }
    assert s'.prompted[|s.prompted|..] == list;
    forall id: nat ensures !StrandedAt(s', id) {
      if id in s'.prompted && id !in list {
        var k :| 0 <= k < |s.prompted| && s.prompted[k] == id;
      }
    }
    forall k | 0 <= k < |s'.prompted| ensures SentTo(s'.rows, r, s'.prompted[k]) {
      if k < |s.prompted| { assert SentTo(s.rows, r, s.prompted[k]); }
    }
  }

  lemma {:induction false} TidyMark(s: I.State, r: nat)
    requires Tidy(s, r) && I.Enabled(s, I.Mark)
    ensures var s' := I.Apply(s, r, I.Mark); Tidy(s', r) && (Stranded(s') <==> Stranded(s))
  {
    var n := |s.prompted| - |s.batch|;
    assert s.batch[0] == s.prompted[n] && SentTo(s.rows, r, s.prompted[n]);
    assert s.prompted[n..][1..] == s.prompted[n + 1..];
    MarkedTidy(s, r, s.batch[0], n, I.Apply(s, r, I.Mark));
  }

  ghost predicate Marked(s: I.State, m: nat, s': I.State) {
    && m < |s.rows| && s'.rows == s.rows[m := s.rows[m].(delivered := true)]
    && s'.prompted == s.prompted && s.batch == [m] + s'.batch && s.open && s'.open
  }

  lemma {:induction false} MarkedTidy(s: I.State, r: nat, m: nat, n: nat, s': I.State)
    requires Tidy(s, r) && Marked(s, m, s') && n < |s.prompted| && m == s.prompted[n] && s'.batch == s.prompted[n + 1..]
    ensures Tidy(s', r) && (Stranded(s') <==> Stranded(s))
  {
    forall k | 0 <= k < |s'.batch| ensures s'.batch[k] != m && !s'.rows[s'.batch[k]].delivered {
      assert s'.batch[k] == s.prompted[n + 1 + k] && s.batch[k + 1] == s'.batch[k];
      assert SentTo(s.rows, r, s.prompted[n + 1 + k]) && !s.rows[s.batch[k + 1]].delivered;
    }
    forall k | 0 <= k < |s'.prompted| ensures SentTo(s'.rows, r, s'.prompted[k]) { assert SentTo(s.rows, r, s.prompted[k]); }
    forall id: nat | SentTo(s'.rows, r, id) && s'.rows[id].delivered ensures id in s'.prompted { assert SentTo(s.rows, r, id); }
    MarkedStranded(s, m, s');
  }

  lemma {:induction false} MarkedStranded(s: I.State, m: nat, s': I.State)
    requires Marked(s, m, s')
    ensures Stranded(s') <==> Stranded(s)
  {
    forall id: nat ensures StrandedAt(s', id) <==> StrandedAt(s, id) {}
  }

  /** A death leaves what the delivery held. */
  lemma {:induction false} TidyDie(s: I.State, r: nat)
    requires Tidy(s, r) && s.open
    ensures var s' := I.Apply(s, r, I.Die); Tidy(s', r) && (Stranded(s') <==> Stranded(s) || s.batch != [])
  {
    var s' := I.Apply(s, r, I.Die);
    assert s.prompted[|s.prompted|..] == [];
    if Stranded(s) {
      var id: nat :| StrandedAt(s, id);
      assert StrandedAt(s', id);
    }
    if s.batch != [] {
      var n := |s.prompted| - |s.batch|;
      assert s.batch[0] == s.prompted[n] && SentTo(s.rows, r, s.prompted[n]);
      assert StrandedAt(s', s.batch[0]);
    }
    if Stranded(s') {
      var id: nat :| StrandedAt(s', id);
      if s.batch == [] { assert StrandedAt(s, id); }
    }
  }

  /** The executing turn's job is the only one that may deliver, so deliveries never overlap, and nothing
      is stranded then. */
  lemma {:induction false} DeliveryIsExclusive(f: Family, r: nat, j: nat)
    requires Inv(f, r) && MayDeliver(f, j)
    ensures !f.inbox.open && !Over(f.control) && !Stranded(f.inbox)
    ensures forall k :: 0 <= k < |f.inbox.prompted| ==> f.inbox.prompted[k] < |f.inbox.rows| && f.inbox.rows[f.inbox.prompted[k]].delivered
  {
    var owner :| L.Owned(f.control, owner);
    assert L.JobOk(f.control, owner, j);
    forall k | k in f.control.jobs && f.control.jobs[k].phase.Executing? ensures k == j {
      assert L.JobOk(f.control, owner, k);
    }
    forall k | 0 <= k < |f.inbox.prompted|
      ensures f.inbox.prompted[k] < |f.inbox.rows| && f.inbox.rows[f.inbox.prompted[k]].delivered
    {
      assert SentTo(f.inbox.rows, r, f.inbox.prompted[k]) && !StrandedAt(f.inbox, f.inbox.prompted[k]);
    }
  }

  /** Events of other jobs leave an executing job alone. */
  lemma {:induction false} LifeKeepsWorking(f: Family, r: nat, event: L.Event, x: bool)
    requires Working(f) && Enabled(f, Life(event, x))
    ensures Working(Apply(f, r, Life(event, x)))
  {
    L.StepInv(f.control, event, x);
    if f.delivering.Some? {
      var owner :| L.Owned(f.control, owner);
      var k := f.delivering.value;
      assert L.JobOk(f.control, owner, k);
      if event.Start? || event.Waits? || event.Returns? || event.Raises? || event.Resumed? || event.Continues? || event.Fails? {
        assert L.JobOk(f.control, owner, event.job);
      }
    }
  }

  lemma {:induction false} LifeKeepsInv(f: Family, r: nat, event: L.Event, x: bool)
    requires Inv(f, r) && Enabled(f, Life(event, x))
    ensures var f' := Apply(f, r, Life(event, x));
            Inv(f', r) && (Stranded(f'.inbox) <==> Stranded(f.inbox) || DiesMidway(f, Life(event, x)))
  {
    LifeKeepsWorking(f, r, event, x);
    if Kills(f, event) {
      TidyDie(f.inbox, r);
      DeathEndsChild(f.control, event.job, event.timedOut, x);
    } else if Over(f.control) {
      OverStays(f.control, event, x);
    }
  }

  /** Every action keeps all that; a message is stranded only by a worker that dies midway. */
  lemma {:induction false} ActionKeepsInv(f: Family, r: nat, a: Action)
    requires Inv(f, r) && Enabled(f, a)
    ensures Inv(Apply(f, r, a), r)
    ensures Stranded(Apply(f, r, a).inbox) <==> Stranded(f.inbox) || DiesMidway(f, a)
  {
    match a
    case Life(event, x) => LifeKeepsInv(f, r, event, x);
    case Send(to, time) => TidySend(f.inbox, r, to, time);
    case Deliver(j) =>
      DeliveryIsExclusive(f, r, j);
      TidyOpen(f.inbox, r);
    case Mark => TidyMark(f.inbox, r);
    case Done => CloseStrands(f.inbox, r);
  }

  lemma {:induction false} CloseStrands(s: I.State, r: nat)
    requires Tidy(s, r) && I.Enabled(s, I.Close)
    ensures var s' := I.Apply(s, r, I.Close); Tidy(s', r) && (Stranded(s') <==> Stranded(s))
  {
    var s' := I.Apply(s, r, I.Close);
    forall id: nat ensures StrandedAt(s', id) <==> StrandedAt(s, id) {}
  }

  ghost predicate SomeoneDiesMidway(f: Family, r: nat, actions: seq<Action>)
    decreases |actions|
  {
    actions != [] && Enabled(f, actions[0])
    && (DiesMidway(f, actions[0]) || SomeoneDiesMidway(Apply(f, r, actions[0]), r, actions[1..]))
  }

  lemma {:induction false} RunKeepsInv(f: Family, r: nat, actions: seq<Action>, end: Family)
    requires Inv(f, r) && Run(f, r, actions, end)
    ensures Inv(end, r)
    ensures Stranded(end.inbox) <==> Stranded(f.inbox) || SomeoneDiesMidway(f, r, actions)
    decreases |actions|
  {
    if actions != [] {
      ActionKeepsInv(f, r, actions[0]);
      RunKeepsInv(Apply(f, r, actions[0]), r, actions[1..], end);
    }
  }

  function NewFamily(admitted: bool): Family {
    Family(L.Spawn(admitted), I.State([], false, [], []), None, {})
  }

  lemma {:induction false} EmptyInboxTidy(s: I.State, r: nat)
    requires s.rows == [] && s.prompted == [] && s.batch == []
    ensures Tidy(s, r) && !Stranded(s)
  {
    assert s.prompted[|s.prompted| - |s.batch|..] == [];
  }

  lemma {:induction false} NewFamilyInv(admitted: bool, r: nat)
    ensures Inv(NewFamily(admitted), r) && !Stranded(NewFamily(admitted).inbox)
  {
    L.SpawnInv(admitted);
    EmptyInboxTidy(NewFamily(admitted).inbox, r);
  }

  /** Over the whole life of a child, with approvals, reassignments, cancels and dying workers, whatever
      the clock does: each message enters at most one prompt, only messages sent to the child do, and
      none is marked that was not prompted. */
  lemma {:induction false} EveryMessageAtMostOnce(r: nat, admitted: bool, actions: seq<Action>, end: Family)
    requires Run(NewFamily(admitted), r, actions, end)
    ensures I.Distinct(end.inbox.prompted)
    ensures forall k :: 0 <= k < |end.inbox.prompted| ==> SentTo(end.inbox.rows, r, end.inbox.prompted[k])
    ensures forall id: nat :: SentTo(end.inbox.rows, r, id) && end.inbox.rows[id].delivered ==> id in end.inbox.prompted
  {
    NewFamilyInv(admitted, r);
    RunKeepsInv(NewFamily(admitted), r, actions, end);
  }

  /** With no delivery open, some prompted message is unmarked if and only if a worker died between
      prompting its messages and marking them. */
  lemma {:induction false} UnmarkedIffWorkerDied(r: nat, admitted: bool, actions: seq<Action>, end: Family)
    requires Run(NewFamily(admitted), r, actions, end) && !end.inbox.open
    ensures (exists id: nat :: id in end.inbox.prompted && id < |end.inbox.rows| && !end.inbox.rows[id].delivered)
        <==> SomeoneDiesMidway(NewFamily(admitted), r, actions)
  {
    NewFamilyInv(admitted, r);
    RunKeepsInv(NewFamily(admitted), r, actions, end);
    if id: nat :| id in end.inbox.prompted && id < |end.inbox.rows| && !end.inbox.rows[id].delivered {
      assert StrandedAt(end.inbox, id);
    }
    if Stranded(end.inbox) {
      var id: nat :| StrandedAt(end.inbox, id);
    }
  }

  // ---- prompts in the order sent ----

  /** If the action lists messages, it lists them in the order sent. */
  ghost predicate DeliversInOrder(f: Family, r: nat, a: Action) { a.Deliver? ==> I.InOrder(f.inbox.rows, r) }

  ghost predicate InOrderThroughout(f: Family, r: nat, actions: seq<Action>)
    decreases |actions|
  {
    actions == [] || (Enabled(f, actions[0]) && DeliversInOrder(f, r, actions[0])
                      && InOrderThroughout(Apply(f, r, actions[0]), r, actions[1..]))
  }

  /** The first `d` messages sent are the delivered ones and what was prompted is a prefix of the inbox. */
  ghost predicate Sequential(s: I.State, r: nat, d: nat) {
    && I.DeliveredPrefix(s.rows, I.Inbox(s.rows, r), d) && s.prompted <= I.Inbox(s.rows, r)
    && d <= |s.prompted| && (|s.batch| > 0 ==> d + |s.batch| == |s.prompted|)
  }

  lemma {:induction false} SequentialSend(s: I.State, r: nat, d: nat, to: nat, time: int)
    requires Sequential(s, r, d)
    ensures Sequential(I.Apply(s, r, I.Send(to, time)), r, d)
  {
    var m := I.Message(to, time, false);
    I.InboxAfterSend(s.rows, m, r);
    var ids, ids' := I.Inbox(s.rows, r), I.Inbox(s.rows + [m], r);
    assert forall k :: 0 <= k < |ids| ==> ids'[k] == ids[k] && (s.rows + [m])[ids[k]] == s.rows[ids[k]];
  }

  lemma {:induction false} SequentialMark(s: I.State, r: nat, d: nat)
    requires Sequential(s, r, d) && Tidy(s, r) && I.Enabled(s, I.Mark)
    ensures Sequential(I.Apply(s, r, I.Mark), r, d + 1)
  {
    var ids := I.Inbox(s.rows, r);
    assert s.batch[0] == s.prompted[d] == ids[d];
    I.MarkExtendsPrefix(s.rows, r, ids, d);
  }

  /** At a listing everything prompted is delivered, so the delivered prefix is what was prompted. */
  lemma {:induction false} AllPromptedDelivered(s: I.State, r: nat, d: nat)
    requires Sequential(s, r, d)
    requires forall k :: 0 <= k < |s.prompted| ==> s.prompted[k] < |s.rows| && s.rows[s.prompted[k]].delivered
    ensures d == |s.prompted| && I.Waiting(s.rows, r) == I.Inbox(s.rows, r)[d..]
  {
    var ids := I.Inbox(s.rows, r);
    if s.prompted != [] {
      var last := |s.prompted| - 1;
      assert s.prompted[last] == ids[last] && s.rows[ids[last]].delivered;
    }
    I.UndeliveredIsSuffix(s.rows, ids, d);
  }

  lemma {:induction false} SequentialOpen(s: I.State, r: nat, d: nat, list: seq<nat>)
    requires Sequential(s, r, d) && d == |s.prompted| && d + |list| <= |I.Inbox(s.rows, r)|
    requires list == I.Inbox(s.rows, r)[d..d + |list|]
    ensures Sequential(s.(open := true, batch := list, prompted := s.prompted + list), r, d)
  {
  }

  /** The listing continues the inbox exactly when it is in order. */
  lemma {:induction false} ListContinuesIff(rows: I.Table, r: nat, d: nat, ids: seq<nat>, list: seq<nat>)
    requires ids == I.Inbox(rows, r) && d <= |ids| && I.Waiting(rows, r) == ids[d..] && list == I.ListPending(rows, r, I.BATCH)
    ensures d + |list| <= |ids| && (list == ids[d..d + |list|] <==> I.InOrder(rows, r))
  {
    I.ListInOrderIff(rows, r);
    assert |list| == Min(I.BATCH, |ids| - d);
    assert I.First(ids[d..], I.BATCH) == ids[d..d + |list|];
  }

  lemma {:induction false} DeliverSequential(f: Family, r: nat, d: nat, j: nat)
    requires Inv(f, r) && Sequential(f.inbox, r, d) && Enabled(f, Deliver(j)) && I.InOrder(f.inbox.rows, r)
    ensures Sequential(Apply(f, r, Deliver(j)).inbox, r, d)
  {
    DeliveryIsExclusive(f, r, j);
    AllPromptedDelivered(f.inbox, r, d);
    var list := I.ListPending(f.inbox.rows, r, I.BATCH);
    ListContinuesIff(f.inbox.rows, r, d, I.Inbox(f.inbox.rows, r), list);
    SequentialOpen(f.inbox, r, d, list);
  }

  lemma {:induction false} ActionSequential(f: Family, r: nat, d: nat, a: Action) returns (d': nat)
    requires Inv(f, r) && Sequential(f.inbox, r, d) && Enabled(f, a) && DeliversInOrder(f, r, a)
    ensures Sequential(Apply(f, r, a).inbox, r, d') && d <= d'
  {
    d' := d;
    match a
    case Send(to, time) => SequentialSend(f.inbox, r, d, to, time);
    case Deliver(j) => DeliverSequential(f, r, d, j);
    case Mark =>
      SequentialMark(f.inbox, r, d);
      d' := d + 1;
    case _ =>
  }

  lemma {:induction false} RunSequential(f: Family, r: nat, actions: seq<Action>, end: Family, d: nat) returns (d': nat)
    requires Inv(f, r) && Sequential(f.inbox, r, d) && Run(f, r, actions, end) && InOrderThroughout(f, r, actions)
    ensures Sequential(end.inbox, r, d')
    decreases |actions|
  {
    d' := d;
    if actions != [] {
      ActionKeepsInv(f, r, actions[0]);
      d' := ActionSequential(f, r, d, actions[0]);
      d' := RunSequential(Apply(f, r, actions[0]), r, actions[1..], end, d');
    }
  }

  lemma {:induction false} InboxGrows(f: Family, r: nat, actions: seq<Action>, end: Family)
    requires Run(f, r, actions, end)
    ensures f.inbox.prompted <= end.inbox.prompted && I.Inbox(f.inbox.rows, r) <= I.Inbox(end.inbox.rows, r)
    decreases |actions|
  {
    if actions != [] {
      var a := actions[0];
      if a.Send? { I.InboxAfterSend(f.inbox.rows, I.Message(a.recipient, a.time, false), r); }
      if a.Mark? { I.InboxAfterMark(f.inbox.rows, f.inbox.batch[0], r); }
      InboxGrows(Apply(f, r, a), r, actions[1..], end);
    }
  }

  /** A listing out of order is still visible at the end of the run. */
  lemma {:induction false} OutOfOrderShows(f: Family, r: nat, d: nat, j: nat, rest: seq<Action>, end: Family)
    requires Inv(f, r) && Sequential(f.inbox, r, d) && Enabled(f, Deliver(j)) && Run(Apply(f, r, Deliver(j)), r, rest, end)
    requires end.inbox.prompted <= I.Inbox(end.inbox.rows, r)
    ensures I.InOrder(f.inbox.rows, r)
  {
    DeliveryIsExclusive(f, r, j);
    AllPromptedDelivered(f.inbox, r, d);
    var list := I.ListPending(f.inbox.rows, r, I.BATCH);
    InboxGrows(Apply(f, r, Deliver(j)), r, rest, end);
    ShownInOrder(f.inbox, r, list, end.inbox);
  }

  lemma {:induction false} ShownInOrder(s: I.State, r: nat, list: seq<nat>, end: I.State)
    requires list == I.ListPending(s.rows, r, I.BATCH) && |s.prompted| <= |I.Inbox(s.rows, r)|
    requires I.Waiting(s.rows, r) == I.Inbox(s.rows, r)[|s.prompted|..]
    requires s.prompted + list <= end.prompted <= I.Inbox(end.rows, r) && I.Inbox(s.rows, r) <= I.Inbox(end.rows, r)
    ensures I.InOrder(s.rows, r)
  {
    var ids := I.Inbox(s.rows, r);
    ListContinuesIff(s.rows, r, |s.prompted|, ids, list);
    PrefixContinues(s.prompted, list, ids, I.Inbox(end.rows, r));
  }

  lemma {:induction false} PrefixContinues(prompted: seq<nat>, list: seq<nat>, ids: seq<nat>, all: seq<nat>)
    requires prompted + list <= all && ids <= all && |prompted| + |list| <= |ids|
    ensures list == ids[|prompted|..|prompted| + |list|]
  {
    forall k | 0 <= k < |list| ensures list[k] == ids[|prompted| + k] {
      assert (prompted + list)[|prompted| + k] == all[|prompted| + k];
    }
  }

  lemma {:induction false} PrefixMeansInOrder(f: Family, r: nat, actions: seq<Action>, end: Family, d: nat)
    requires Inv(f, r) && Sequential(f.inbox, r, d) && Run(f, r, actions, end)
    requires end.inbox.prompted <= I.Inbox(end.inbox.rows, r)
    ensures InOrderThroughout(f, r, actions)
    decreases |actions|
  {
    if actions != [] {
      var a := actions[0];
      if a.Deliver? { OutOfOrderShows(f, r, d, a.job, actions[1..], end); }
      ActionKeepsInv(f, r, a);
      var d' := ActionSequential(f, r, d, a);
      PrefixMeansInOrder(Apply(f, r, a), r, actions[1..], end, d');
    }
  }

  /** Over the whole life of a child: what was prompted is a prefix of the inbox in the order sent, with
      no message skipped, if and only if at each listing every message listed was no later than all the
      waiting ones sent after it. */
  lemma {:induction false} PromptedInOrderIff(r: nat, admitted: bool, actions: seq<Action>, end: Family)
    requires Run(NewFamily(admitted), r, actions, end)
    ensures end.inbox.prompted <= I.Inbox(end.inbox.rows, r) <==> InOrderThroughout(NewFamily(admitted), r, actions)
  {
    NewFamilyInv(admitted, r);
    NewInboxSequential(NewFamily(admitted).inbox, r);
    if InOrderThroughout(NewFamily(admitted), r, actions) {
      var d := RunSequential(NewFamily(admitted), r, actions, end, 0);
    }
    if end.inbox.prompted <= I.Inbox(end.inbox.rows, r) {
      PrefixMeansInOrder(NewFamily(admitted), r, actions, end, 0);
    }
  }

  lemma {:induction false} NewInboxSequential(s: I.State, r: nat)
    requires s.rows == [] && s.prompted == [] && s.batch == []
    ensures Sequential(s, r, 0)
  {
    assert I.Inbox([], r) == [];
  }

  /** Then the messages marked delivered are the first ones sent, too. */
  lemma {:induction false} DeliveredInOrder(r: nat, admitted: bool, actions: seq<Action>, end: Family) returns (d: nat)
    requires Run(NewFamily(admitted), r, actions, end) && InOrderThroughout(NewFamily(admitted), r, actions)
    ensures d <= |end.inbox.prompted| && I.DeliveredPrefix(end.inbox.rows, I.Inbox(end.inbox.rows, r), d)
  {
    NewFamilyInv(admitted, r);
    NewInboxSequential(NewFamily(admitted).inbox, r);
    d := RunSequential(NewFamily(admitted), r, actions, end, 0);
  }

  // ---- a dead worker's messages ----

  /** Once the child is over nothing is prompted and nothing is marked. */
  lemma {:induction false} NothingDeliveredWhenOver(f: Family, r: nat, actions: seq<Action>, end: Family)
    requires L.ControlInv(f.control) && Over(f.control) && !f.inbox.open && f.delivering.None? && Run(f, r, actions, end)
    ensures end.inbox.prompted == f.inbox.prompted && f.inbox.rows <= end.inbox.rows
    decreases |actions|
  {
    if actions != [] {
      var a := actions[0];
      if a.Life? {
        OverStays(f.control, a.event, a.exhausted);
        L.StepInv(f.control, a.event, a.exhausted);
      }
      NothingDeliveredWhenOver(Apply(f, r, a), r, actions[1..], end);
    }
  }

  /** Wherever in its life a child's worker dies, the messages it left unmarked stay pending and are
      never prompted again: nothing is prompted and nothing is marked after the death. */
  lemma {:induction false} NothingDeliveredAfterDeath(
    r: nat, admitted: bool, before: seq<Action>, f: Family, j: nat, timedOut: bool, x: bool, after: seq<Action>, end: Family)
    requires Run(NewFamily(admitted), r, before, f) && Enabled(f, Life(L.Raises(j, timedOut), x))
    requires Run(Apply(f, r, Life(L.Raises(j, timedOut), x)), r, after, end)
    ensures end.inbox.prompted == f.inbox.prompted && f.inbox.rows <= end.inbox.rows
  {
    NewFamilyInv(admitted, r);
    RunKeepsInv(NewFamily(admitted), r, before, f);
    LifeKeepsWorking(f, r, L.Raises(j, timedOut), x);
    DeathEndsChild(f.control, j, timedOut, x);
    NothingDeliveredWhenOver(Apply(f, r, Life(L.Raises(j, timedOut), x)), r, after, end);
  }

  lemma {:induction false} OneAction(f: Family, r: nat, a: Action, rest: seq<Action>, end: Family)
    requires Enabled(f, a) && Run(Apply(f, r, a), r, rest, end)
    ensures Run(f, r, [a] + rest, end)
  {
    assert ([a] + rest)[1..] == rest;
  }

  lemma {:induction false} OneMessageListed(m: I.Message, r: nat)
    requires m.recipient == r && !m.delivered
    ensures I.ListPending([m], r, I.BATCH) == [0]
  {
    assert [m][..0] == [] && I.Inbox([], r) == [] && I.Inbox([m], r) == [0];
    assert I.Undelivered([m], [0]) == [0];
    I.ListInOrderIff([m], r);
  }

  /** A worker that prompts its one message and dies. */
  lemma {:induction false} PromptThenDie(f: Family, r: nat, m: I.Message) returns (end: Family)
    requires MayDeliver(f, 0) && !f.inbox.open && f.inbox.rows == [m] && f.inbox.prompted == []
    requires m.recipient == r && !m.delivered
    ensures Run(f, r, [Deliver(0)] + ([Life(L.Raises(0, false), false)] + []), end)
    ensures !end.inbox.open && end.inbox.prompted == [0] && end.inbox.rows == [m]
  {
    var death := Life(L.Raises(0, false), false);
    OneMessageListed(m, r);
    var g := Apply(f, r, Deliver(0));
    end := Apply(g, r, death);
    OneAction(g, r, death, [], end);
    OneAction(f, r, Deliver(0), [death] + [], end);
  }

  /** A run that strands one: a message is sent, the first turn prompts it, and its worker dies. */
  lemma {:induction false} DeathStrandsMessage(r: nat, time: int)
    ensures exists end ::
              && Run(NewFamily(true), r,
                     [Send(r, time)] + ([Life(L.Start(0), false)] + ([Deliver(0)] + ([Life(L.Raises(0, false), false)] + []))), end)
              && !end.inbox.open && end.inbox.prompted == [0] && |end.inbox.rows| == 1 && !end.inbox.rows[0].delivered
  {
    var f0, m := NewFamily(true), I.Message(r, time, false);
    var f1 := Apply(f0, r, Send(r, time));
    var f2 := Apply(f1, r, Life(L.Start(0), false));
    assert f2.inbox.rows == [m];
    var end := PromptThenDie(f2, r, m);
    var rest := [Deliver(0)] + ([Life(L.Raises(0, false), false)] + []);
    OneAction(f1, r, Life(L.Start(0), false), rest, end);
    OneAction(f0, r, Send(r, time), [Life(L.Start(0), false)] + rest, end);
  }
}
