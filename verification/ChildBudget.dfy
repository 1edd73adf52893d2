/**
 Budget lease of a child agent: charged, exhausted and settled by kitt/children/lifecycle.py, turned
 into caps for each turn by kitt/children/worker.py.
 */
module ChildBudget {
  import opened Common
  import opened ChildLifecycle

  const ZERO := Usage(0, 0, 0.0, 0)

  function NonNeg(x: int): int { if x < 0 then 0 else x }

  function NonNegCost(x: real): real { if x < 0.0 then 0.0 else x }

  function Clamp(u: Usage): Usage {
    Usage(NonNeg(u.tokens), NonNeg(u.calls), NonNegCost(u.cost), NonNeg(u.tools))
  }

  function Plus(a: Usage, b: Usage): Usage {
    Usage(a.tokens + b.tokens, a.calls + b.calls, a.cost + b.cost, a.tools + b.tools)
  }

  function Minus(a: Usage, b: Usage): Usage {
    Usage(a.tokens - b.tokens, a.calls - b.calls, a.cost - b.cost, a.tools - b.tools)
  }

  predicate Within(a: Usage, b: Usage) {
    a.tokens <= b.tokens && a.calls <= b.calls && a.cost <= b.cost && a.tools <= b.tools
  }

  /** The stored lease; `present` says it is not the empty object. The cap of tools is the reserved one. */
  datatype Lease = Lease(present: bool, caps: Usage, consumed: Usage, settled: bool)

  /** `_accumulate_budget_usage`. */
  function Accumulate(lease: Lease, u: Usage): Lease {
    lease.(present := true, consumed := Plus(Clamp(lease.consumed), Clamp(u)))
  }

  /** `_exhaust_budget_usage`. */
  function Exhaust(lease: Lease): Lease {
    lease.(present := true, consumed := Clamp(lease.caps))
  }

  /** What the worker lets a turn use: the caps it computes from the lease, nothing when tokens or
      calls are used up, no limit without a lease. */
  datatype Grant = NoLimit | Refused | Upto(caps: Usage)

  function GrantFor(lease: Lease): Grant {
    var left := Clamp(Minus(lease.caps, lease.consumed));
    if !lease.present then NoLimit
    else if left.tokens <= 0 || left.calls <= 0 then Refused
    else Upto(left)
  }

  /** How a child first left its active states. */
  datatype End = ByWorker | ByCancel | ByExhaustion | ByAdmission

  /** `grant` is that of the turn started last; `settlements` the amounts settled so far;
      `settledByEnd` how many there were at the first end. */
  datatype Ledger = Ledger(
    tokensUsed: int, tokenBudget: int, lease: Lease, grant: Grant,
    settlements: seq<Usage>, end: Option<End>, settledByEnd: nat)

  predicate Exhausted(l: Ledger) { l.tokensUsed >= l.tokenBudget }

  /** `_accumulate_tokens` and `_accumulate_budget_usage`. */
  function Charge(l: Ledger, u: Usage): Ledger {
    l.(tokensUsed := NonNeg(l.tokensUsed) + NonNeg(u.tokens), lease := Accumulate(l.lease, u))
  }

  /** `_settle_child_budget`; a settler that is absent or raises leaves no trace. */
  function Settle(l: Ledger, amount: Usage, ok: bool): Ledger {
    if !ok then l
    else l.(lease := l.lease.(settled := true, present := true), settlements := l.settlements + [Clamp(amount)])
  }

  function ExhaustAndSettle(l: Ledger, ok: bool): Ledger {
    Settle(l.(lease := Exhaust(l.lease)), Exhaust(l.lease).consumed, ok)
  }

  /** What an event does to the money, the row being as in `c`. */
  function Pay(c: Control, l: Ledger, e: Event): Ledger
    requires Enabled(c, e)
  {
    match e
    case Start(j) =>
      if Terminal(c.state) then l
      else l.(grant := if c.jobs[j].kind.ResumeJob? then Upto(ZERO) else GrantFor(l.lease))
    case Waits(_, u, hasTurn) => if Terminal(c.state) || !hasTurn then l else Charge(l, u)
    case Returns(_, u, success, integrated, settled, _) =>
      if AlreadyOver(c) then l
      else if success && !integrated then Charge(l, u)
      else Settle(Charge(l, u), Charge(l, u).lease.consumed, settled)
    case Fails(_, settled) => if Terminal(c.state) || l.lease.settled then l else ExhaustAndSettle(l, settled)
    case Cancel(settled) => if Terminal(c.state) then l else ExhaustAndSettle(l, settled)
    case _ => l
  }

  function EndCause(e: Event): End {
    if e.Cancel? then ByCancel else if e.Approved? || e.Continues? then ByExhaustion else ByWorker
  }

  /** The first time the child stops being active. */
  function NoteEnd(l: Ledger, before: ChildState, after: ChildState, e: Event): Ledger {
    if l.end.None? && Active(before) && !Active(after)
    then l.(end := Some(EndCause(e)), settledByEnd := |l.settlements|) else l
  }

  datatype Slot = Slot(control: Control, ledger: Ledger)

  function Advance(s: Slot, e: Event): Slot
    requires Enabled(s.control, e)
  {
    var control := Step(s.control, e, Exhausted(s.ledger));
    Slot(control, NoteEnd(Pay(s.control, s.ledger, e), s.control.state, control.state, e))
  }

  function NewLedger(lease: Lease, tokenBudget: int): Ledger {
    Ledger(0, tokenBudget, lease, NoLimit, [], None, 0)
  }

  /** `spawn`; a child that is not admitted has its lease settled at zero. */
  function SpawnSlot(lease: Lease, tokenBudget: int, admitted: bool, settled: bool): Slot {
    var l := NewLedger(lease, tokenBudget);
    if admitted then Slot(Spawn(true), l)
    else
      var paid := Settle(l, ZERO, settled);
      Slot(Spawn(false), paid.(end := Some(ByAdmission), settledByEnd := |paid.settlements|))
  }

  ghost predicate SlotRun(s: Slot, events: seq<Event>, end: Slot)
    decreases |events|
  {
    if events == [] then s == end
    else Enabled(s.control, events[0]) && SlotRun(Advance(s, events[0]), events[1..], end)
  }

  /** Who does the work of a job: the worker process, a callable handed in, or an external backend. */
  datatype WorkerKind = Subprocess | InProcess | External

  /** What a worker can report. The worker process stays within the caps it computed, and a refused turn
      fails without usage; the other two know nothing of the lease, report no usage, and never wait for
      an approval. A callable that returns has succeeded. */
  predicate Honest(kinds: nat -> WorkerKind, l: Ledger, e: Event) {
    match e
    case Waits(j, u, _) => kinds(j).Subprocess? && ((l.grant.Upto? && Within(Clamp(u), l.grant.caps)) || l.grant.NoLimit?)
    case Returns(j, u, success, _, _, _) =>
      if kinds(j).Subprocess? then
        && (l.grant.Upto? ==> Within(Clamp(u), l.grant.caps))
        && (l.grant.Refused? ==> !success && Clamp(u) == ZERO)
      else
        u == ZERO && (kinds(j).InProcess? ==> success)
    case _ => true
  }

  ghost predicate HonestRun(kinds: nat -> WorkerKind, s: Slot, events: seq<Event>)
    decreases |events|
  {
    events == [] || (Enabled(s.control, events[0]) && Honest(kinds, s.ledger, events[0])
                     && HonestRun(kinds, Advance(s, events[0]), events[1..]))
  }

  // ---- the lease is never exceeded ----

  ghost predicate ExecutesUnder(c: Control, l: Ledger, j: nat)
    requires j in c.jobs
  {
    c.jobs[j].phase.Executing? && !Absorbing(c.state) ==>
      l.grant == if c.jobs[j].kind.ResumeJob? then Upto(ZERO) else GrantFor(l.lease)
  }

  /** Whatever executes does so under the grant computed from the lease as it is now. */
  ghost predicate GrantsOk(s: Slot) {
    forall j :: j in s.control.jobs ==> ExecutesUnder(s.control, s.ledger, j)
  }

  /** A leased child: consumed within the caps, the executing turn granted exactly what is left, and
      every settlement between zero and the caps. */
  ghost predicate LeaseInv(s: Slot) {
    var lease := s.ledger.lease;
    && ControlInv(s.control)
    && lease.present && Within(ZERO, lease.consumed) && Within(lease.consumed, lease.caps)
    && GrantsOk(s)
    && (forall i :: 0 <= i < |s.ledger.settlements| ==>
          Within(ZERO, s.ledger.settlements[i]) && Within(s.ledger.settlements[i], lease.caps))
  }

  lemma {:induction false} ChargeStaysWithin(lease: Lease, grant: Grant, u: Usage)
    requires lease.present && Within(ZERO, lease.consumed) && Within(lease.consumed, lease.caps)
    requires grant == Upto(ZERO) || grant == GrantFor(lease)
    requires (grant.Upto? && Within(Clamp(u), grant.caps)) || Clamp(u) == ZERO
    ensures var lease' := Accumulate(lease, u);
            && Within(lease.consumed, lease'.consumed) && Within(lease'.consumed, lease.caps)
            && Within(ZERO, lease'.consumed)
  {
  }

  /** The executing job is the child's only live one, so no other event has changed the lease. */
  lemma {:induction false} ExecutingGrant(s: Slot, e: Event)
    requires LeaseInv(s) && Enabled(s.control, e) && (e.Waits? || e.Returns?)
    ensures !Absorbing(s.control.state) ==>
              s.ledger.grant == if s.control.jobs[e.job].kind.ResumeJob? then Upto(ZERO) else GrantFor(s.ledger.lease)
  {
    assert ExecutesUnder(s.control, s.ledger, e.job);
  }

  /** The money side of one honest event. */
  lemma {:induction false} PayKeepsLease(kinds: nat -> WorkerKind, s: Slot, e: Event)
    requires LeaseInv(s) && Enabled(s.control, e) && Honest(kinds, s.ledger, e)
    ensures var l, l' := s.ledger, Pay(s.control, s.ledger, e);
            && l'.lease.caps == l.lease.caps && l'.lease.present
            && Within(l.lease.consumed, l'.lease.consumed) && Within(l'.lease.consumed, l.lease.caps)
            && (forall i :: 0 <= i < |l'.settlements| ==>
                  Within(ZERO, l'.settlements[i]) && Within(l'.settlements[i], l.lease.caps))
  {
    if e.Waits? || e.Returns? {
      ExecutingGrant(s, e);
      if !Absorbing(s.control.state) { ChargeStaysWithin(s.ledger.lease, s.ledger.grant, e.usage); }
    }
  }

  /** A job that executes after the event either has just started under a new grant, or was
      executing before, and then the event did not touch the lease. */
  lemma {:induction false} GrantStillHolds(s: Slot, e: Event, j: nat)
    requires ControlInv(s.control) && GrantsOk(s) && Enabled(s.control, e)
    requires j in Advance(s, e).control.jobs
    ensures ExecutesUnder(Advance(s, e).control, Advance(s, e).ledger, j)
  {
    if e.Start? || e.Waits? || e.Returns? || e.Raises? || e.Resumed? || e.Continues? || e.Fails? {
      GrantHoldsForWorker(s, e, j);
    } else {
      GrantHoldsForCaller(s, e, j);
    }
  }

  lemma {:induction false} GrantHoldsForWorker(s: Slot, e: Event, j: nat)
    requires ControlInv(s.control) && GrantsOk(s) && Enabled(s.control, e)
    requires e.Start? || e.Waits? || e.Returns? || e.Raises? || e.Resumed? || e.Continues? || e.Fails?
    requires j in Advance(s, e).control.jobs
    ensures ExecutesUnder(Advance(s, e).control, Advance(s, e).ledger, j)
  {
    var owner :| Owned(s.control, owner);
    if j in s.control.jobs {
      assert ExecutesUnder(s.control, s.ledger, j) && JobOk(s.control, owner, j);
    }
    assert JobOk(s.control, owner, e.job);
  }

  lemma {:induction false} GrantHoldsForCaller(s: Slot, e: Event, j: nat)
    requires ControlInv(s.control) && GrantsOk(s) && Enabled(s.control, e)
    requires !(e.Start? || e.Waits? || e.Returns? || e.Raises? || e.Resumed? || e.Continues? || e.Fails?)
    requires j in Advance(s, e).control.jobs
    ensures ExecutesUnder(Advance(s, e).control, Advance(s, e).ledger, j)
  {
    var owner :| Owned(s.control, owner);
    if j in s.control.jobs {
      assert ExecutesUnder(s.control, s.ledger, j) && JobOk(s.control, owner, j);
    }
  }

  lemma {:induction false} GrantsKept(s: Slot, e: Event)
    requires ControlInv(s.control) && GrantsOk(s) && Enabled(s.control, e)
    ensures GrantsOk(Advance(s, e))
  {
    var s' := Advance(s, e);
    forall j | j in s'.control.jobs ensures ExecutesUnder(s'.control, s'.ledger, j) {
      GrantStillHolds(s, e, j);
    }
  }

  lemma {:induction false} LeaseInvKept(kinds: nat -> WorkerKind, s: Slot, e: Event)
    requires LeaseInv(s) && Enabled(s.control, e) && Honest(kinds, s.ledger, e)
    ensures LeaseInv(Advance(s, e))
    ensures Within(s.ledger.lease.consumed, Advance(s, e).ledger.lease.consumed)
    ensures Advance(s, e).ledger.lease.caps == s.ledger.lease.caps
  {
    StepInv(s.control, e, Exhausted(s.ledger));
    PayKeepsLease(kinds, s, e);
    GrantsKept(s, e);
  }

  lemma {:induction false} LeaseRunKept(kinds: nat -> WorkerKind, s: Slot, events: seq<Event>, end: Slot)
    requires LeaseInv(s) && SlotRun(s, events, end) && HonestRun(kinds, s, events)
    ensures LeaseInv(end) && end.ledger.lease.caps == s.ledger.lease.caps
    ensures Within(s.ledger.lease.consumed, end.ledger.lease.consumed)
    decreases |events|
  {
    if events != [] {
      LeaseInvKept(kinds, s, events[0]);
      LeaseRunKept(kinds, Advance(s, events[0]), events[1..], end);
    }
  }

  lemma {:induction false} SpawnedWithLease(lease: Lease, tokenBudget: int, admitted: bool, settled: bool)
    requires lease.present && lease.consumed == ZERO && Within(ZERO, lease.caps)
    ensures LeaseInv(SpawnSlot(lease, tokenBudget, admitted, settled))
  {
    SpawnInv(admitted);
  }

  /** From its spawn on, whoever does its work: over every run what a leased child consumed never goes
      down and never exceeds the lease, and neither does any settlement. The run is cut anywhere to
      compare two moments. */
  lemma {:induction false} LeaseIsNeverExceeded(
    kinds: nat -> WorkerKind, lease: Lease, tokenBudget: int, admitted: bool, settled: bool,
    before: seq<Event>, mid: Slot, events: seq<Event>, end: Slot)
    requires lease.present && lease.consumed == ZERO && Within(ZERO, lease.caps)
    requires var s := SpawnSlot(lease, tokenBudget, admitted, settled);
             SlotRun(s, before, mid) && HonestRun(kinds, s, before)
    requires SlotRun(mid, events, end) && HonestRun(kinds, mid, events)
    ensures Within(ZERO, mid.ledger.lease.consumed) && Within(mid.ledger.lease.consumed, end.ledger.lease.consumed)
    ensures Within(end.ledger.lease.consumed, lease.caps)
    ensures forall i :: 0 <= i < |end.ledger.settlements| ==>
              Within(ZERO, end.ledger.settlements[i]) && Within(end.ledger.settlements[i], lease.caps)
  {
    SpawnedWithLease(lease, tokenBudget, admitted, settled);
    LeaseRunKept(kinds, SpawnSlot(lease, tokenBudget, admitted, settled), before, mid);
    LeaseRunKept(kinds, mid, events, end);
  }

  // ---- what was reported is what is charged ----

  /** The usage that an event reports and that takes effect, negative amounts counted as none. */
  function Reported(c: Control, e: Event): Usage {
    match e
    case Waits(_, u, hasTurn) => if Terminal(c.state) || !hasTurn then Usage(0, 0, 0.0, 0) else Counted(u)
    case Returns(_, u, _, _, _, _) =>
      if Absorbing(c.state) || (c.state.Completed? && c.artifacts > 0) then Usage(0, 0, 0.0, 0) else Counted(u)
    case _ => Usage(0, 0, 0.0, 0)
  }

  // The sums below are written out by amount, apart from the arithmetic that the code does on the lease.

  function Counted(u: Usage): Usage {
    Usage(Max(0, u.tokens), Max(0, u.calls), if u.cost > 0.0 then u.cost else 0.0, Max(0, u.tools))
  }

  function Sum(a: Usage, b: Usage): Usage {
    Usage(a.tokens + b.tokens, a.calls + b.calls, a.cost + b.cost, a.tools + b.tools)
  }

  /** The sum of what the run reports. */
  function Total(s: Slot, events: seq<Event>): Usage
    requires Possible(s, events)
    decreases |events|
  {
    if events == [] then Usage(0, 0, 0.0, 0)
    else Sum(Reported(s.control, events[0]), Total(Advance(s, events[0]), events[1..]))
  }

  /** The events can happen one after the other. */
  predicate Possible(s: Slot, events: seq<Event>)
    decreases |events|
  {
    events == [] || (Enabled(s.control, events[0]) && Possible(Advance(s, events[0]), events[1..]))
  }

  lemma {:induction false} RunIsPossible(s: Slot, events: seq<Event>, end: Slot)
    requires SlotRun(s, events, end)
    ensures Possible(s, events)
    decreases |events|
  {
    if events != [] { RunIsPossible(Advance(s, events[0]), events[1..], end); }
  }

  /** The event exhausts the lease: a failure of a child not settled yet, or a cancel. */
  predicate Exhausts(s: Slot, e: Event) {
    !Terminal(s.control.state) && (e.Cancel? || (e.Fails? && !s.ledger.lease.settled))
  }

  ghost predicate SomeExhausts(s: Slot, events: seq<Event>)
    decreases |events|
  {
    events != [] && Enabled(s.control, events[0])
    && (Exhausts(s, events[0]) || SomeExhausts(Advance(s, events[0]), events[1..]))
  }

  /** The books after a run that reported `total` in all: the tokens used are its tokens, and so is what
      the lease consumed, unless the lease was exhausted, which only the end of the child does. */
  ghost predicate Books(s: Slot, total: Usage, exhausted: bool) {
    && ControlInv(s.control) && total.tokens >= 0 && total.calls >= 0 && total.cost >= 0.0 && total.tools >= 0
    && s.ledger.tokensUsed == total.tokens
    && (exhausted ==> Absorbing(s.control.state))
    && s.ledger.lease.consumed == if exhausted then Counted(s.ledger.lease.caps) else total
  }

  lemma {:induction false} PayKeepsBooks(c: Control, l: Ledger, total: Usage, exhausted: bool, e: Event)
    requires Books(Slot(c, l), total, exhausted) && Enabled(c, e)
    ensures var l', all := Pay(c, l, e), Sum(total, Reported(c, e));
            && l'.tokensUsed == all.tokens && l'.lease.caps == l.lease.caps
            && l'.lease.consumed == if exhausted || Exhausts(Slot(c, l), e) then Counted(l.lease.caps) else all
  {
  }

  lemma {:induction false} BooksKept(s: Slot, total: Usage, exhausted: bool, e: Event)
    requires Books(s, total, exhausted) && Enabled(s.control, e)
    ensures Books(Advance(s, e), Sum(total, Reported(s.control, e)), exhausted || Exhausts(s, e))
    ensures Advance(s, e).ledger.lease.caps == s.ledger.lease.caps
  {
    PayKeepsBooks(s.control, s.ledger, total, exhausted, e);
    StepInv(s.control, e, Exhausted(s.ledger));
  }

  lemma {:induction false} BooksOfRun(s: Slot, total: Usage, exhausted: bool, events: seq<Event>, end: Slot)
    requires Books(s, total, exhausted) && SlotRun(s, events, end) && Possible(s, events)
    ensures Books(end, Sum(total, Total(s, events)), exhausted || SomeExhausts(s, events))
    ensures end.ledger.lease.caps == s.ledger.lease.caps
    decreases |events|
  {
    if events != [] {
      var s', all := Advance(s, events[0]), Sum(total, Reported(s.control, events[0]));
      BooksKept(s, total, exhausted, events[0]);
      BooksOfRun(s', all, exhausted || Exhausts(s, events[0]), events[1..], end);
    }
  }

  /** A slot as `spawn` leaves it. */
  ghost predicate Newborn(s: Slot, lease: Lease) {
    exists tokenBudget, admitted, settled :: s == SpawnSlot(lease, tokenBudget, admitted, settled)
  }

  lemma {:induction false} NewbornBooks(s: Slot, lease: Lease)
    requires Newborn(s, lease) && lease.consumed == Usage(0, 0, 0.0, 0)
    ensures Books(s, Usage(0, 0, 0.0, 0), false) && s.ledger.lease.caps == lease.caps
    ensures lease.present && Within(ZERO, lease.caps) ==> LeaseInv(s)
  {
    var tokenBudget, admitted, settled :| s == SpawnSlot(lease, tokenBudget, admitted, settled);
    SpawnInv(admitted);
    if lease.present && Within(ZERO, lease.caps) { SpawnedWithLease(lease, tokenBudget, admitted, settled); }
  }

  /** From the spawn, over every run, whatever is reported: the tokens used are the tokens reported, and
      the lease's consumption is exactly the sum of the usage reported until a failure or a cancel
      exhausts the lease, and its caps from then on. */
  lemma {:induction false} ConsumedIsReported(lease: Lease, s: Slot, events: seq<Event>, end: Slot)
    requires Newborn(s, lease) && lease.consumed == Usage(0, 0, 0.0, 0) && SlotRun(s, events, end)
    ensures Possible(s, events) && Books(end, Total(s, events), SomeExhausts(s, events))
    ensures end.ledger.tokensUsed == Total(s, events).tokens && end.ledger.lease.caps == lease.caps
    ensures end.ledger.lease.consumed == if SomeExhausts(s, events) then Counted(lease.caps) else Total(s, events)
    ensures SomeExhausts(s, events) ==> Absorbing(end.control.state)
  {
    NewbornBooks(s, lease);
    BooksFromNothing(s, events, end);
    BooksTell(end, Total(s, events), SomeExhausts(s, events));
  }

  lemma {:induction false} BooksFromNothing(s: Slot, events: seq<Event>, end: Slot)
    requires Books(s, Usage(0, 0, 0.0, 0), false) && SlotRun(s, events, end)
    ensures Possible(s, events) && Books(end, Total(s, events), SomeExhausts(s, events))
    ensures end.ledger.lease.caps == s.ledger.lease.caps
  {
    RunIsPossible(s, events, end);
    BooksOfRun(s, Usage(0, 0, 0.0, 0), false, events, end);
    SameBooks(end, Sum(Usage(0, 0, 0.0, 0), Total(s, events)), Total(s, events), false || SomeExhausts(s, events));
  }

  lemma {:induction false} SameBooks(s: Slot, a: Usage, b: Usage, exhausted: bool)
    requires Books(s, a, exhausted) && a == Sum(Usage(0, 0, 0.0, 0), b)
    ensures Books(s, b, exhausted)
  {
  }

  lemma {:induction false} BooksTell(s: Slot, total: Usage, exhausted: bool)
    requires Books(s, total, exhausted)
    ensures s.ledger.tokensUsed == total.tokens && (exhausted ==> Absorbing(s.control.state))
    ensures s.ledger.lease.consumed == if exhausted then Counted(s.ledger.lease.caps) else total
  {
  }

  /** What a report settles is the sum reported up to and including it; what a failure or a cancel
      settles is the whole lease. */
  lemma {:induction false} SettlesWhatWasReported(lease: Lease, s0: Slot, events: seq<Event>, s: Slot, e: Event)
    requires Newborn(s0, lease) && lease.consumed == Usage(0, 0, 0.0, 0) && SlotRun(s0, events, s) && Enabled(s.control, e)
    requires |Advance(s, e).ledger.settlements| > |s.ledger.settlements|
    ensures Possible(s0, events)
    ensures Advance(s, e).ledger.settlements == s.ledger.settlements +
              [if e.Returns? then Sum(Total(s0, events), Reported(s.control, e)) else Counted(lease.caps)]
  {
    ConsumedIsReported(lease, s0, events, s);
    SettledAmount(s, Total(s0, events), SomeExhausts(s0, events), e);
  }

  lemma {:induction false} SettledAmount(s: Slot, total: Usage, exhausted: bool, e: Event)
    requires Books(s, total, exhausted) && Enabled(s.control, e)
    requires |Advance(s, e).ledger.settlements| > |s.ledger.settlements|
    ensures Advance(s, e).ledger.settlements == s.ledger.settlements +
              [if e.Returns? then Sum(total, Reported(s.control, e)) else Counted(s.ledger.lease.caps)]
  {
  }

  ghost predicate Affordable(total: Usage, caps: Usage) {
    total.tokens <= caps.tokens && total.calls <= caps.calls && total.cost <= caps.cost && total.tools <= caps.tools
  }

  lemma {:induction false} StepStaysWithin(kinds: nat -> WorkerKind, s: Slot, total: Usage, exhausted: bool, e: Event)
    requires LeaseInv(s) && Books(s, total, exhausted) && Affordable(total, s.ledger.lease.caps)
    requires Enabled(s.control, e) && Honest(kinds, s.ledger, e)
    ensures Affordable(Sum(total, Reported(s.control, e)), s.ledger.lease.caps)
  {
    PayKeepsLease(kinds, s, e);
    PayKeepsBooks(s.control, s.ledger, total, exhausted, e);
  }

  lemma {:induction false} TotalStaysWithin(
    kinds: nat -> WorkerKind, s: Slot, total: Usage, exhausted: bool, events: seq<Event>, end: Slot)
    requires LeaseInv(s) && Books(s, total, exhausted) && Affordable(total, s.ledger.lease.caps)
    requires SlotRun(s, events, end) && Possible(s, events) && HonestRun(kinds, s, events)
    ensures Affordable(Sum(total, Total(s, events)), s.ledger.lease.caps)
    ensures Books(end, Sum(total, Total(s, events)), exhausted || SomeExhausts(s, events))
    decreases |events|
  {
    if events != [] {
      var e, all := events[0], Sum(total, Reported(s.control, events[0]));
      BooksKept(s, total, exhausted, e);
      StepStaysWithin(kinds, s, total, exhausted, e);
      LeaseInvKept(kinds, s, e);
      TotalStaysWithin(kinds, Advance(s, e), all, exhausted || Exhausts(s, e), events[1..], end);
    }
  }

  ghost predicate WithinLease(total: Usage, caps: Usage) {
    && 0 <= total.tokens <= caps.tokens && 0 <= total.calls <= caps.calls
    && 0.0 <= total.cost <= caps.cost && 0 <= total.tools <= caps.tools
  }

  lemma {:induction false} BooksWithinLease(s: Slot, a: Usage, b: Usage, exhausted: bool, caps: Usage)
    requires Books(s, a, exhausted) && a == Sum(Usage(0, 0, 0.0, 0), b) && Affordable(a, caps)
    ensures WithinLease(b, caps)
  {
  }

  lemma {:induction false} WithinFromNothing(
    kinds: nat -> WorkerKind, s: Slot, none: Usage, events: seq<Event>, end: Slot, total: Usage, exhausted: bool)
    requires LeaseInv(s) && Books(s, none, false) && none == Usage(0, 0, 0.0, 0) && Affordable(none, s.ledger.lease.caps)
    requires SlotRun(s, events, end) && HonestRun(kinds, s, events) && Possible(s, events)
    requires total == Total(s, events) && exhausted == SomeExhausts(s, events)
    ensures WithinLease(total, s.ledger.lease.caps)
  {
    TotalStaysWithin(kinds, s, none, false, events, end);
    BooksWithinLease(end, Sum(none, total), total, false || exhausted, s.ledger.lease.caps);
  }

  /** A leased child, from its spawn on: all the usage that its turns report stays within the lease. */
  lemma {:induction false} ReportedStaysWithinLease(
    kinds: nat -> WorkerKind, lease: Lease, s: Slot, events: seq<Event>, end: Slot)
    requires Newborn(s, lease) && lease.present && lease.consumed == Usage(0, 0, 0.0, 0) && Within(ZERO, lease.caps)
    requires SlotRun(s, events, end) && HonestRun(kinds, s, events)
    ensures Possible(s, events) && WithinLease(Total(s, events), lease.caps)
  {
    NewbornBooks(s, lease);
    RunIsPossible(s, events, end);
    WithinFromNothing(kinds, s, Usage(0, 0, 0.0, 0), events, end, Total(s, events), SomeExhausts(s, events));
  }

  lemma {:induction false} GrantLeft(s: Slot, total: Usage, j: nat)
    requires LeaseInv(s) && Books(s, total, false) && Affordable(total, s.ledger.lease.caps)
    requires Enabled(s.control, Start(j)) && s.control.jobs[j].kind.RunJob? && !Terminal(s.control.state)
    ensures var caps := s.ledger.lease.caps;
            Advance(s, Start(j)).ledger.grant ==
              if total.tokens == caps.tokens || total.calls == caps.calls then Refused
              else Upto(Usage(caps.tokens - total.tokens, caps.calls - total.calls, caps.cost - total.cost, caps.tools - total.tools))
  {
  }

  /** What the worker process is told when a new turn of a leased child starts: it is refused when the
      tokens or the calls reported so far use up the lease, and else may use what they leave. */
  lemma {:induction false} GrantIsWhatIsLeft(
    kinds: nat -> WorkerKind, lease: Lease, s0: Slot, events: seq<Event>, s: Slot, j: nat)
    requires Newborn(s0, lease) && lease.present && lease.consumed == Usage(0, 0, 0.0, 0) && Within(ZERO, lease.caps)
    requires SlotRun(s0, events, s) && HonestRun(kinds, s0, events)
    requires Enabled(s.control, Start(j)) && s.control.jobs[j].kind.RunJob? && !Terminal(s.control.state)
    ensures Possible(s0, events)
    ensures var total, caps := Total(s0, events), lease.caps;
            Advance(s, Start(j)).ledger.grant ==
              if total.tokens == caps.tokens || total.calls == caps.calls then Refused
              else Upto(Usage(caps.tokens - total.tokens, caps.calls - total.calls, caps.cost - total.cost, caps.tools - total.tools))
  {
    ConsumedIsReported(lease, s0, events, s);
    ReportedStaysWithinLease(kinds, lease, s0, events, s);
    NewbornBooks(s0, lease);
    LeaseRunKept(kinds, s0, events, s);
    GrantLeft(s, Total(s0, events), j);
  }

  lemma {:induction false} BudgetStays(s: Slot, events: seq<Event>, end: Slot)
    requires SlotRun(s, events, end)
    ensures end.ledger.tokenBudget == s.ledger.tokenBudget
    decreases |events|
  {
    if events != [] { BudgetStays(Advance(s, events[0]), events[1..], end); }
  }

  /** Over every run: a child that may be reused takes another task, and an approved turn continues, if and
      only if the tokens reported so far are below the token budget it was spawned with. */
  lemma {:induction false} TokenBudgetDecides(lease: Lease, s0: Slot, events: seq<Event>, s: Slot, e: Event)
    requires Newborn(s0, lease) && lease.consumed == Usage(0, 0, 0.0, 0) && SlotRun(s0, events, s) && Enabled(s.control, e)
    ensures Possible(s0, events)
    ensures var room, after := Total(s0, events).tokens < s0.ledger.tokenBudget, Advance(s, e).control.state;
            && (e.Assign? && Reusable(s.control.state) ==> after == if room then Queued else s.control.state)
            && (Continuing(s.control, e) ==> after == if room then Queued else ChildState.Failed)
  {
    ConsumedIsReported(lease, s0, events, s);
    BudgetStays(s0, events, s);
    BudgetTells(s, Total(s0, events).tokens, e);
  }

  lemma {:induction false} BudgetTells(s: Slot, tokens: int, e: Event)
    requires s.ledger.tokensUsed == tokens && Enabled(s.control, e)
    ensures var room, after := tokens < s.ledger.tokenBudget, Advance(s, e).control.state;
            && (e.Assign? && Reusable(s.control.state) ==> after == if room then Queued else s.control.state)
            && (Continuing(s.control, e) ==> after == if room then Queued else ChildState.Failed)
  {
  }

  // ---- settled exactly once ----

  /** The settler call an event makes, if any, succeeds. */
  predicate SettlerWorks(e: Event) {
    match e
    case Returns(_, _, _, _, settled, _) => settled
    case Fails(_, settled) => settled
    case Cancel(settled) => settled
    case _ => true
  }

  ghost predicate SettlerAlwaysWorks(events: seq<Event>) {
    forall i :: 0 <= i < |events| ==> SettlerWorks(events[i])
  }

  /** An exception is on its way to `_fail_child`. */
  ghost predicate HasRaised(c: Control) {
    exists j :: j in c.jobs && c.jobs[j].phase.Raised?
  }

  /** How many settlements a first end of each kind can have seen; `works` says the settler never
      failed. */
  predicate EndOk(end: End, count: nat, works: bool) {
    match end
    case ByWorker => count <= 1 && (works ==> count == 1)
    case ByExhaustion => count == 0
    case ByCancel => count <= 2 && (works ==> count >= 1)
    case ByAdmission => count <= 1
  }

  /** Before its first end a child is active and unsettled, except between a completion that settled
      and raised and the failure handler it raises into. */
  ghost predicate SettleInv(s: Slot, works: bool) {
    var l := s.ledger;
    && ControlInv(s.control)
    && (l.end.None? ==>
          && Active(s.control.state)
          && |l.settlements| == (if l.lease.settled then 1 else 0)
          && (l.lease.settled ==> HasRaised(s.control)))
    && (l.end.Some? ==> EndOk(l.end.value, l.settledByEnd, works))
  }

  /** While an exception is on its way the child is running and its job is the raised one, so only
      the failure handler or a cancel can move it. */
  lemma {:induction false} RaisedOwns(c: Control, e: Event, x: bool)
    requires ControlInv(c) && Enabled(c, e) && Active(c.state) && HasRaised(c)
    ensures c.state.Running?
    ensures !(e.Start? || e.Waits? || e.Returns? || e.Raises? || e.Resumed?)
    ensures !e.Fails? && !e.Cancel? ==> HasRaised(Step(c, e, x)) && Step(c, e, x).state.Running?
    ensures e.Fails? ==> Absorbing(Step(c, e, x).state)
  {
    var owner :| Owned(c, owner);
    var j :| j in c.jobs && c.jobs[j].phase.Raised?;
    assert JobOk(c, owner, j);
    if e.Start? || e.Waits? || e.Returns? || e.Raises? || e.Resumed? || e.Continues? || e.Fails? {
      assert JobOk(c, owner, e.job);
    }
    if !e.Fails? && !e.Cancel? {
      assert j in Step(c, e, x).jobs && Step(c, e, x).jobs[j].phase.Raised?;
    }
  }

  lemma {:induction false} SettledBeforeEnd(s: Slot, e: Event, works: bool)
    requires SettleInv(s, works) && s.ledger.end.None? && Enabled(s.control, e)
    requires s.ledger.lease.settled && (works ==> SettlerWorks(e))
    ensures SettleInv(Advance(s, e), works)
  {
    StepInv(s.control, e, Exhausted(s.ledger));
    RaisedOwns(s.control, e, Exhausted(s.ledger));
  }

  /** Which events leave an unsettled child active, and what its row looks like then. */
  lemma {:induction false} UnsettledStep(c: Control, e: Event, x: bool)
    requires ControlInv(c) && Enabled(c, e) && Active(c.state)
    ensures e.Returns? ==> !AlreadyOver(c)
    ensures var c' := Step(c, e, x);
            && (e.Returns? && !(e.success && e.integrated && e.stored) ==> Active(c'.state) && HasRaised(c'))
            && (e.Fails? || e.Cancel? ==> !Active(c'.state))
            && (e.Continues? || e.Approved? || e.Start? || e.Waits? || e.Raises? || e.Resumed? || e.Retain?
                || e.Passivate? || e.Revive? || e.Assign? || e.ResumeAfterApproval? ==>
                  Active(c'.state) || e.Continues? || e.Approved?)
  {
    var owner :| Owned(c, owner);
    if e.Returns? {
      assert JobOk(c, owner, e.job);
      var c' := Step(c, e, x);
      if !(e.success && e.integrated && e.stored) {
        assert e.job in c'.jobs && c'.jobs[e.job].phase.Raised?;
      }
    }
  }

  ghost predicate Unsettled(s: Slot, e: Event, works: bool) {
    SettleInv(s, works) && s.ledger.end.None? && Enabled(s.control, e)
    && !s.ledger.lease.settled && (works ==> SettlerWorks(e))
  }

  /** What a report does to an unsettled child: completes it, or leaves an exception on its way. */
  lemma {:induction false} ReturnsControl(c: Control, e: Event, x: bool)
    requires ControlInv(c) && Enabled(c, e) && Active(c.state) && e.Returns?
    ensures var c' := Step(c, e, x);
            if e.success && e.integrated && e.stored then c'.state.Completed?
            else c'.state == c.state && HasRaised(c')
  {
    var owner :| Owned(c, owner);
    assert JobOk(c, owner, e.job);
    var c' := Step(c, e, x);
    if !(e.success && e.integrated && e.stored) { assert e.job in c'.jobs && c'.jobs[e.job].phase.Raised?; }
  }

  lemma {:induction false} ReturnsMoney(c: Control, l: Ledger, e: Event)
    requires Enabled(c, e) && Active(c.state) && e.Returns? && !l.lease.settled && l.settlements == []
    ensures var l' := Pay(c, l, e);
            && l'.end == l.end && l'.lease.settled == ((!e.success || e.integrated) && e.settled)
            && |l'.settlements| == if l'.lease.settled then 1 else 0
  {
  }

  lemma {:induction false} UnsettledReturns(s: Slot, e: Event, works: bool)
    requires Unsettled(s, e, works) && e.Returns?
    ensures SettleInv(Advance(s, e), works)
  {
    var x := Exhausted(s.ledger);
    StepInv(s.control, e, x);
    ReturnsControl(s.control, e, x);
    ReturnsMoney(s.control, s.ledger, e);
    NotedSettleInv(Step(s.control, e, x), Pay(s.control, s.ledger, e), s.control.state, e, works);
  }

  /** The invariant after an event, from what it did to the row and to the money. */
  lemma {:induction false} NotedSettleInv(c: Control, paid: Ledger, before: ChildState, e: Event, works: bool)
    requires ControlInv(c) && Active(before) && paid.end.None? && e.Returns?
    requires |paid.settlements| == if paid.lease.settled then 1 else 0
    requires Active(c.state) ==> HasRaised(c)
    requires !Active(c.state) && works ==> paid.lease.settled
    ensures SettleInv(Slot(c, NoteEnd(paid, before, c.state, e)), works)
  {
  }

  lemma {:induction false} UnsettledStops(s: Slot, e: Event, works: bool)
    requires Unsettled(s, e, works) && (e.Fails? || e.Cancel?)
    ensures SettleInv(Advance(s, e), works)
  {
    StepInv(s.control, e, Exhausted(s.ledger));
    UnsettledStep(s.control, e, Exhausted(s.ledger));
  }

  lemma {:induction false} UnsettledGoesOn(s: Slot, e: Event, works: bool)
    requires Unsettled(s, e, works) && !e.Returns? && !e.Fails? && !e.Cancel?
    ensures SettleInv(Advance(s, e), works)
  {
    StepInv(s.control, e, Exhausted(s.ledger));
    UnsettledStep(s.control, e, Exhausted(s.ledger));
  }

  lemma {:induction false} UnsettledBeforeEnd(s: Slot, e: Event, works: bool)
    requires Unsettled(s, e, works)
    ensures SettleInv(Advance(s, e), works)
  {
    if e.Returns? {
      UnsettledReturns(s, e, works);
    } else if e.Fails? || e.Cancel? {
      UnsettledStops(s, e, works);
    } else {
      UnsettledGoesOn(s, e, works);
    }
  }

  lemma {:induction false} AfterFirstEnd(s: Slot, e: Event, works: bool)
    requires SettleInv(s, works) && s.ledger.end.Some? && Enabled(s.control, e)
    ensures SettleInv(Advance(s, e), works)
  {
    StepInv(s.control, e, Exhausted(s.ledger));
  }

  /** Over every run: a child whose first end came from its worker was settled at most once by then,
      and exactly once when the settler works, although a failed completion settles and then raises
      into the handler that settles too. An end through an exhausted approval settles nothing. */
  lemma {:induction false} SettledOnceByFirstEnd(s: Slot, events: seq<Event>, end: Slot, works: bool)
    requires SettleInv(s, works) && SlotRun(s, events, end)
    requires works ==> SettlerAlwaysWorks(events)
    ensures SettleInv(end, works)
    decreases |events|
  {
    if events != [] {
      assert works ==> SettlerWorks(events[0]);
      if s.ledger.end.Some? {
        AfterFirstEnd(s, events[0], works);
      } else if s.ledger.lease.settled {
        SettledBeforeEnd(s, events[0], works);
      } else {
        UnsettledBeforeEnd(s, events[0], works);
      }
      SettledOnceByFirstEnd(Advance(s, events[0]), events[1..], end, works);
    }
  }

  lemma {:induction false} SpawnedUnsettled(lease: Lease, tokenBudget: int, admitted: bool, settled: bool, works: bool)
    requires !lease.settled
    ensures SettleInv(SpawnSlot(lease, tokenBudget, admitted, settled), works)
  {
    SpawnInv(admitted);
  }

  /** From its spawn on: a child whose first end came from its worker was settled at most once by then,
      and exactly once when the settler works; before its first end at most once, and then only with an
      exception on its way. */
  lemma {:induction false} SettledOnceFromSpawn(
    lease: Lease, tokenBudget: int, admitted: bool, settled: bool, events: seq<Event>, end: Slot, works: bool)
    requires !lease.settled && SlotRun(SpawnSlot(lease, tokenBudget, admitted, settled), events, end)
    requires works ==> SettlerAlwaysWorks(events)
    ensures end.ledger.end == Some(ByWorker) ==> end.ledger.settledByEnd <= 1 && (works ==> end.ledger.settledByEnd == 1)
    ensures end.ledger.end == Some(ByExhaustion) ==> end.ledger.settledByEnd == 0
    ensures end.ledger.end.None? ==> |end.ledger.settlements| <= 1 && (end.ledger.settlements != [] ==> HasRaised(end.control))
  {
    SpawnedUnsettled(lease, tokenBudget, admitted, settled, works);
    SettledOnceByFirstEnd(SpawnSlot(lease, tokenBudget, admitted, settled), events, end, works);
  }

  // ---- settled again ----

  /** The event calls the settler, and the call succeeds. */
  predicate CallsSettler(c: Control, l: Ledger, e: Event) {
    match e
    case Returns(_, _, success, integrated, settled, _) => !AlreadyOver(c) && (!success || integrated) && settled
    case Fails(_, settled) => !Terminal(c.state) && !l.lease.settled && settled
    case Cancel(settled) => !Terminal(c.state) && settled
    case _ => false
  }

  /** The mark on the lease tells whether the settler was called. */
  ghost predicate MarkTells(l: Ledger) { l.lease.settled <==> l.settlements != [] }

  lemma {:induction false} SettlerCalls(s: Slot, e: Event)
    requires Enabled(s.control, e)
    ensures |Advance(s, e).ledger.settlements| == |s.ledger.settlements| + if CallsSettler(s.control, s.ledger, e) then 1 else 0
    ensures MarkTells(s.ledger) ==> MarkTells(Advance(s, e).ledger)
  {
  }

  lemma {:induction false} RunMarkTells(s: Slot, events: seq<Event>, end: Slot)
    requires MarkTells(s.ledger) && SlotRun(s, events, end)
    ensures MarkTells(end.ledger)
    decreases |events|
  {
    if events != [] {
      SettlerCalls(s, events[0]);
      RunMarkTells(Advance(s, events[0]), events[1..], end);
    }
  }

  /** From its spawn on, at any moment of any run, exactly which events call the settler again: a cancel
      of a child that is not terminal, or the report of a further turn, when the lease is marked settled.
      The failure handler never does. */
  lemma {:induction false} SettlesAgainIff(
    lease: Lease, tokenBudget: int, admitted: bool, settled: bool, events: seq<Event>, s: Slot, e: Event)
    requires !lease.settled && SlotRun(SpawnSlot(lease, tokenBudget, admitted, settled), events, s) && Enabled(s.control, e)
    ensures |Advance(s, e).ledger.settlements| > |s.ledger.settlements| > 0 <==>
              s.ledger.lease.settled
              && ((e.Cancel? && e.settled && !Terminal(s.control.state))
                  || (e.Returns? && e.settled && (!e.success || e.integrated) && !AlreadyOver(s.control)))
  {
    RunMarkTells(SpawnSlot(lease, tokenBudget, admitted, settled), events, s);
    SettlerCalls(s, e);
  }

  /** A cancel is a further settlement if and only if the child is not terminal and its lease is marked
      settled. Before the first end that is so only between a failed completion and its handler. */
  lemma {:induction false} CancelSettlesTwiceIff(
    lease: Lease, tokenBudget: int, admitted: bool, settled: bool, events: seq<Event>, s: Slot)
    requires !lease.settled && SlotRun(SpawnSlot(lease, tokenBudget, admitted, settled), events, s)
    ensures |Advance(s, Cancel(true)).ledger.settlements| > |s.ledger.settlements| > 0 <==>
              !Terminal(s.control.state) && s.ledger.lease.settled
    ensures s.ledger.end.None? && s.ledger.lease.settled ==> HasRaised(s.control)
    ensures s.ledger.end.None? ==>
              && Advance(s, Cancel(true)).ledger.end == Some(ByCancel)
              && Advance(s, Cancel(true)).ledger.settledByEnd == if s.ledger.lease.settled then 2 else 1
  {
    SettlesAgainIff(lease, tokenBudget, admitted, settled, events, s, Cancel(true));
    SpawnedUnsettled(lease, tokenBudget, admitted, settled, false);
    SettledOnceByFirstEnd(SpawnSlot(lease, tokenBudget, admitted, settled), events, s, false);
    SettlerCalls(s, Cancel(true));
  }

  /** A run that does it: the first turn reports failure, its settlement works, and a cancel comes before
      the failure handler. */
  lemma {:induction false} CancelSettlesTwice(lease: Lease, tokenBudget: int, u: Usage)
    requires !lease.settled
    ensures exists end ::
              && SlotRun(SpawnSlot(lease, tokenBudget, true, true),
                         [Start(0)] + ([Returns(0, u, false, true, true, true)] + ([Cancel(true)] + [])), end)
              && end.ledger.end == Some(ByCancel) && end.ledger.settledByEnd == 2
  {
    var s0 := SpawnSlot(lease, tokenBudget, true, true);
    var failure := Returns(0, u, false, true, true, true);
    var s1 := Advance(s0, Start(0));
    FailureSettles(s1, failure);
    var s2 := Advance(s1, failure);
    var s3 := Advance(s2, Cancel(true));
    CancelSettles(s2);
    OneEvent(s2, Cancel(true), [], s3);
    OneEvent(s1, failure, [Cancel(true)] + [], s3);
    OneEvent(s0, Start(0), [failure] + ([Cancel(true)] + []), s3);
  }

  /** A failed turn settles and leaves its exception on its way. */
  lemma {:induction false} FailureSettles(s: Slot, e: Event)
    requires Enabled(s.control, e) && s.control.state.Running? && e.Returns? && !e.success && e.settled
    requires s.ledger.end.None?
    ensures var s' := Advance(s, e);
            s'.control.state.Running? && s'.ledger.end.None? && |s'.ledger.settlements| == |s.ledger.settlements| + 1
  {
  }

  lemma {:induction false} CancelSettles(s: Slot)
    requires s.control.state.Running? && s.ledger.end.None?
    ensures var s' := Advance(s, Cancel(true));
            s'.ledger.end == Some(ByCancel) && s'.ledger.settledByEnd == |s.ledger.settlements| + 1
  {
  }

  lemma {:induction false} RetainThenCancel(s: Slot) returns (end: Slot)
    requires s.control.state.Completed?
    ensures SlotRun(s, [Retain] + ([Cancel(true)] + []), end)
    ensures end.control.state.Cancelled? && |end.ledger.settlements| == |s.ledger.settlements| + 1
  {
    var kept := Advance(s, Retain);
    assert kept.control.state.Retained? && kept.ledger == s.ledger;
    SettlerCalls(kept, Cancel(true));
    end := Advance(kept, Cancel(true));
    OneEvent(kept, Cancel(true), [], end);
    OneEvent(s, Retain, [Cancel(true)] + [], end);
  }

  lemma {:induction false} SuccessSettles(s: Slot, j: nat)
    requires j in s.control.jobs && s.control.jobs[j].phase.Executing? && s.control.jobs[j].kind.RunJob? && s.control.state.Running?
    ensures var s' := Advance(s, Success(j));
            s'.control.state.Completed? && |s'.ledger.settlements| == |s.ledger.settlements| + 1
  {
    TaskSucceeds(s, j);
    SettlerCalls(s, Success(j));
  }

  /** Another one, without any failure: a child completes its task, is retained and then cancelled. */
  lemma {:induction false} RetainedCancelSettlesTwice(lease: Lease, tokenBudget: int)
    requires !lease.settled
    ensures exists end ::
              && SlotRun(SpawnSlot(lease, tokenBudget, true, true),
                         [Start(0)] + ([Success(0)] + ([Retain] + ([Cancel(true)] + []))), end)
              && end.control.state.Cancelled? && |end.ledger.settlements| == 2
  {
    var s0 := SpawnSlot(lease, tokenBudget, true, true);
    TaskStarts(s0, 0);
    var s1 := Advance(s0, Start(0));
    SuccessSettles(s1, 0);
    var s2 := Advance(s1, Success(0));
    var end := RetainThenCancel(s2);
    var rest := [Retain] + ([Cancel(true)] + []);
    OneEvent(s1, Success(0), rest, end);
    OneEvent(s0, Start(0), [Success(0)] + rest, end);
  }

  lemma {:induction false} OneEvent(s: Slot, e: Event, rest: seq<Event>, end: Slot)
    requires Enabled(s.control, e) && SlotRun(Advance(s, e), rest, end)
    ensures SlotRun(s, [e] + rest, end)
  {
    assert ([e] + rest)[1..] == rest;
  }

  // ---- children without a lease ----

  /** A child spawned without a lease has caps of zero; the first charge makes its lease present, and
      from then on the worker process refuses every new turn. */
  ghost predicate UnleasedInv(s: Slot) {
    var lease := s.ledger.lease;
    && ControlInv(s.control)
    && lease.caps == ZERO && Within(ZERO, lease.consumed)
    && (s.control.artifacts >= 1 ==> lease.present)
    && GrantsOk(s)
  }

  /** Every job of the child is done by the same kind of worker. */
  function Always(kind: WorkerKind): nat -> WorkerKind { (j: nat) => kind }

  lemma {:induction false} UnleasedGrant(kinds: nat -> WorkerKind, s: Slot, e: Event)
    requires UnleasedInv(s) && Enabled(s.control, e) && e.Returns? && Honest(kinds, s.ledger, e)
    ensures s.ledger.lease.present && !Absorbing(s.control.state) && e.success ==> !kinds(e.job).Subprocess?
  {
    assert ExecutesUnder(s.control, s.ledger, e.job);
  }

  lemma {:induction false} PayKeepsUnleased(s: Slot, e: Event)
    requires UnleasedInv(s) && Enabled(s.control, e)
    ensures var lease, lease' := s.ledger.lease, Pay(s.control, s.ledger, e).lease;
            && lease'.caps == ZERO && Within(ZERO, lease'.consumed)
            && (lease.present || (e.Returns? && !AlreadyOver(s.control)) ==> lease'.present)
  {
  }

  /** The event is a success reported by a worker that does not look at the lease. */
  predicate OtherSuccess(kinds: nat -> WorkerKind, e: Event) { e.Returns? && e.success && !kinds(e.job).Subprocess? }

  lemma {:induction false} UnleasedInvKept(kinds: nat -> WorkerKind, s: Slot, e: Event)
    requires UnleasedInv(s) && Enabled(s.control, e) && Honest(kinds, s.ledger, e)
    ensures UnleasedInv(Advance(s, e))
    ensures var n, n' := s.control.artifacts, Advance(s, e).control.artifacts;
            n' <= Max(1, n + if OtherSuccess(kinds, e) then 1 else 0)
  {
    StepInv(s.control, e, Exhausted(s.ledger));
    CompletionStoresArtifact(s.control, e, Exhausted(s.ledger));
    PayKeepsUnleased(s, e);
    GrantsKept(s, e);
    if e.Returns? { UnleasedGrant(kinds, s, e); }
  }

  function OtherSuccesses(kinds: nat -> WorkerKind, events: seq<Event>): nat {
    if events == [] then 0
    else (if OtherSuccess(kinds, events[0]) then 1 else 0) + OtherSuccesses(kinds, events[1..])
  }

  lemma {:induction false} UnleasedRun(kinds: nat -> WorkerKind, s: Slot, events: seq<Event>, end: Slot)
    requires UnleasedInv(s) && SlotRun(s, events, end) && HonestRun(kinds, s, events)
    ensures UnleasedInv(end) && end.control.artifacts <= Max(1, s.control.artifacts) + OtherSuccesses(kinds, events)
    decreases |events|
  {
    if events != [] {
      UnleasedInvKept(kinds, s, events[0]);
      UnleasedRun(kinds, Advance(s, events[0]), events[1..], end);
    }
  }

  /** `spawn` without a budget allocator. */
  function SpawnUnleased(tokenBudget: int): Slot {
    SpawnSlot(Lease(false, ZERO, ZERO, false), tokenBudget, true, true)
  }

  /** A run of a child without a lease that completes two tasks. */
  ghost predicate CompletesTwo(kinds: nat -> WorkerKind, tokenBudget: int, events: seq<Event>, end: Slot) {
    && SlotRun(SpawnUnleased(tokenBudget), events, end) && HonestRun(kinds, SpawnUnleased(tokenBudget), events)
    && end.control.artifacts >= 2
  }

  // The life of such a child through two tasks that succeed.

  function Success(j: nat): Event { Returns(j, ZERO, true, true, true, true) }

  lemma {:induction false} TaskStarts(s: Slot, j: nat)
    requires j in s.control.jobs && s.control.jobs[j].phase.Pending? && s.control.jobs[j].kind.RunJob? && s.control.state.Queued?
    ensures Enabled(s.control, Start(j))
    ensures var s' := Advance(s, Start(j));
            && s'.control.state.Running? && s'.control.artifacts == s.control.artifacts && s'.control.supply == s.control.supply
            && j in s'.control.jobs && s'.control.jobs[j].phase.Executing? && s'.control.jobs[j].kind.RunJob?
            && s'.ledger == s.ledger.(grant := GrantFor(s.ledger.lease))
  {
  }

  /** A success stores an artifact, and its charge makes the lease present. */
  lemma {:induction false} TaskSucceeds(s: Slot, j: nat)
    requires j in s.control.jobs && s.control.jobs[j].phase.Executing? && s.control.jobs[j].kind.RunJob? && s.control.state.Running?
    ensures Enabled(s.control, Success(j))
    ensures var s' := Advance(s, Success(j));
            && s'.control.state.Completed? && s'.control.artifacts == s.control.artifacts + 1 && s'.control.supply == s.control.supply
            && s'.ledger.lease.present && s'.ledger.lease.caps == s.ledger.lease.caps
            && s'.ledger.lease.consumed.tokens == NonNeg(s.ledger.lease.consumed.tokens)
            && s'.ledger.tokensUsed == NonNeg(s.ledger.tokensUsed) && s'.ledger.tokenBudget == s.ledger.tokenBudget
  {
  }

  lemma {:induction false} TaskAssigned(s: Slot)
    requires s.control.state.Completed? && !Exhausted(s.ledger)
    ensures var s', j := Advance(s, Assign), s.control.supply + 1;
            && s'.control.state.Queued? && s'.control.artifacts == s.control.artifacts && s'.ledger == s.ledger
            && j in s'.control.jobs && s'.control.jobs[j].phase.Pending? && s'.control.jobs[j].kind.RunJob?
  {
  }

  /** The states of the first task, its success, a second assignment and its start. */
  ghost predicate SecondTurn(tokenBudget: int, s0: Slot, s1: Slot, s2: Slot, s3: Slot, s4: Slot) {
    && s0 == SpawnUnleased(tokenBudget)
    && Enabled(s0.control, Start(0)) && s1 == Advance(s0, Start(0))
    && Enabled(s1.control, Success(0)) && s2 == Advance(s1, Success(0))
    && s3 == Advance(s2, Assign)
    && Enabled(s3.control, Start(2)) && s4 == Advance(s3, Start(2))
  }

  lemma {:induction false} SecondTurnComes(tokenBudget: int) returns (s0: Slot, s1: Slot, s2: Slot, s3: Slot, s4: Slot)
    requires tokenBudget > 0
    ensures SecondTurn(tokenBudget, s0, s1, s2, s3, s4)
    ensures s4.control.artifacts == 1 && s4.control.state.Running? && s4.ledger.grant == Refused
    ensures 2 in s4.control.jobs && s4.control.jobs[2].phase.Executing? && s4.control.jobs[2].kind.RunJob?
  {
    s0 := SpawnUnleased(tokenBudget);
    TaskStarts(s0, 0);
    s1 := Advance(s0, Start(0));
    TaskSucceeds(s1, 0);
    s2 := Advance(s1, Success(0));
    TaskAssigned(s2);
    s3 := Advance(s2, Assign);
    TaskStarts(s3, 2);
    s4 := Advance(s3, Start(2));
  }

  /** The worker process refuses the second task of a child without a lease. */
  lemma {:induction false} SecondTaskRefused(tokenBudget: int)
    requires tokenBudget > 0
    ensures exists s ::
              && SlotRun(SpawnUnleased(tokenBudget), [Start(0)] + ([Success(0)] + ([Assign] + ([Start(2)] + []))), s)
              && s.control.artifacts == 1 && s.control.state.Running? && s.ledger.grant == Refused
  {
    var s0, s1, s2, s3, s4 := SecondTurnComes(tokenBudget);
    OneEvent(s3, Start(2), [], s4);
    OneEvent(s2, Assign, [Start(2)] + [], s4);
    OneEvent(s1, Success(0), [Assign] + ([Start(2)] + []), s4);
    OneEvent(s0, Start(0), [Success(0)] + ([Assign] + ([Start(2)] + [])), s4);
  }

  lemma {:induction false} HonestStep(kinds: nat -> WorkerKind, s: Slot, e: Event, rest: seq<Event>)
    requires Enabled(s.control, e) && Honest(kinds, s.ledger, e) && HonestRun(kinds, Advance(s, e), rest)
    ensures HonestRun(kinds, s, [e] + rest)
  {
    assert ([e] + rest)[1..] == rest;
  }

  /** Any other worker, whoever did the first task, does not look at the lease and completes the second;
      its job is number two. */
  lemma {:induction false} SecondTaskDone(k: nat -> WorkerKind, tokenBudget: int) returns (events: seq<Event>, end: Slot)
    requires tokenBudget > 0 && !k(2).Subprocess?
    ensures CompletesTwo(k, tokenBudget, events, end)
  {
    var s0, s1, s2, s3, s4 := SecondTurnComes(tokenBudget);
    TaskSucceeds(s4, 2);
    end := Advance(s4, Success(2));
    OneEvent(s4, Success(2), [], end);
    HonestStep(k, s4, Success(2), []);
    OneEvent(s3, Start(2), [Success(2)] + [], end);
    HonestStep(k, s3, Start(2), [Success(2)] + []);
    var last := [Start(2)] + ([Success(2)] + []);
    OneEvent(s2, Assign, last, end);
    HonestStep(k, s2, Assign, last);
    OneEvent(s1, Success(0), [Assign] + last, end);
    HonestStep(k, s1, Success(0), [Assign] + last);
    OneEvent(s0, Start(0), [Success(0)] + ([Assign] + last), end);
    HonestStep(k, s0, Start(0), [Success(0)] + ([Assign] + last));
    events := [Start(0)] + ([Success(0)] + ([Assign] + last));
  }

  /** From its spawn on, with any mix of workers: of the tasks that a child without a lease completes, at
      most one was done by the worker process. */
  lemma {:induction false} UnleasedCompletions(kinds: nat -> WorkerKind, tokenBudget: int, events: seq<Event>, end: Slot)
    requires SlotRun(SpawnUnleased(tokenBudget), events, end) && HonestRun(kinds, SpawnUnleased(tokenBudget), events)
    ensures end.control.artifacts <= 1 + OtherSuccesses(kinds, events) && UnleasedInv(end)
  {
    SpawnInv(true);
    UnleasedRun(kinds, SpawnUnleased(tokenBudget), events, end);
  }

  /** At any moment of any run after the first charge: the job that executes can report a success if and
      only if its worker is not the worker process. */
  lemma {:induction false} UnleasedSucceedsIff(kinds: nat -> WorkerKind, tokenBudget: int, events: seq<Event>, s: Slot, j: nat)
    requires SlotRun(SpawnUnleased(tokenBudget), events, s) && HonestRun(kinds, SpawnUnleased(tokenBudget), events)
    requires s.ledger.lease.present && !Absorbing(s.control.state) && Enabled(s.control, Success(j))
    ensures (exists e: Event :: e.Returns? && e.job == j && e.success && Honest(kinds, s.ledger, e)) <==> !kinds(j).Subprocess?
  {
    UnleasedCompletions(kinds, tokenBudget, events, s);
    if !kinds(j).Subprocess? {
      assert Honest(kinds, s.ledger, Success(j));
    } else {
      forall e: Event | e.Returns? && e.job == j && e.success ensures !Honest(kinds, s.ledger, e) {
        if Honest(kinds, s.ledger, e) { UnleasedGrant(kinds, s, e); }
      }
    }
  }

  /** So with one kind of worker a second task can be completed if and only if it is not the worker
      process, however often the child is reassigned. */
  lemma {:induction false} UnleasedCompletesTwoIff(kind: WorkerKind, tokenBudget: int)
    requires tokenBudget > 0
    ensures (exists events, end :: CompletesTwo(Always(kind), tokenBudget, events, end)) <==> !kind.Subprocess?
  {
    if kind.Subprocess? {
      forall events, end | CompletesTwo(Always(kind), tokenBudget, events, end) ensures false {
        UnleasedChildCompletesAtMostOnce(Always(kind), tokenBudget, events, end);
      }
    } else {
      var events, end := SecondTaskDone(Always(kind), tokenBudget);
    }
  }

  /** From its spawn on, a child without a lease whose work the worker process does completes at most
      one task. */
  lemma {:induction false} UnleasedChildCompletesAtMostOnce(
    kinds: nat -> WorkerKind, tokenBudget: int, events: seq<Event>, end: Slot)
    requires forall j :: kinds(j).Subprocess?
    requires SlotRun(SpawnUnleased(tokenBudget), events, end) && HonestRun(kinds, SpawnUnleased(tokenBudget), events)
    ensures end.control.artifacts <= 1
  {
    UnleasedCompletions(kinds, tokenBudget, events, end);
    NoOtherSuccesses(kinds, events);
  }

  lemma {:induction false} NoOtherSuccesses(kinds: nat -> WorkerKind, events: seq<Event>)
    requires forall j :: kinds(j).Subprocess?
    ensures OtherSuccesses(kinds, events) == 0
  {
    if events != [] { NoOtherSuccesses(kinds, events[1..]); }
  }
}
