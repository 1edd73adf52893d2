/**
 Durable messages to a child agent: kitt/children/messaging.py, and their delivery at the start of a
 turn in kitt/children/worker.py.

 A row's id is its position of insertion. A turn lists the pending messages, puts them into its
 prompt and then marks them one by one; messages may arrive in between.
 */
module ChildInbox {
  import opened Common
  import opened Orders

  datatype Message = Message(recipient: nat, time: int, delivered: bool)

  type Table = seq<Message>

  const BATCH := 16

  /** Ids of the messages for `r`, in the order they were sent. */
  function Inbox(rows: Table, r: nat): (ids: seq<nat>)
    ensures forall k :: 0 <= k < |ids| ==> ids[k] < |rows|
  {
    if rows == [] then []
    else
      var n := |rows| - 1;
      Inbox(rows[..n], r) + if rows[n].recipient == r then [n] else []
  }

  function Undelivered(rows: Table, ids: seq<nat>): seq<nat>
    requires forall k :: 0 <= k < |ids| ==> ids[k] < |rows|
  {
    if ids == [] then []
    else (if rows[ids[0]].delivered then [] else [ids[0]]) + Undelivered(rows, ids[1..])
  }

  function TimeOf(rows: Table, id: nat): int { if id < |rows| then rows[id].time else 0 }

  /** `ORDER BY timestamp ASC`, equal times in the order of insertion. */
  function ByTime(rows: Table): (nat, nat) -> bool { (a: nat, b: nat) => TimeOf(rows, a) <= TimeOf(rows, b) }

  function ClampLimit(limit: int): nat { if limit < 1 then 1 else if limit > 32 then 32 else limit }

  function First(ids: seq<nat>, n: nat): seq<nat> { if |ids| <= n then ids else ids[..n] }

  /** The undelivered messages for `r`, in the order they were sent. */
  function Waiting(rows: Table, r: nat): seq<nat> { Undelivered(rows, Inbox(rows, r)) }

  /** `list_pending_for_recipient`: the oldest undelivered messages by timestamp. */
  function ListPending(rows: Table, r: nat, limit: int): seq<nat> {
    First(Sort(Waiting(rows, r), ByTime(rows)), ClampLimit(limit))
  }

  /** Each of the first sixteen waiting messages is no later than every waiting one after it. */
  ghost predicate InOrder(rows: Table, r: nat) { HeadOrdered(Waiting(rows, r), BATCH, ByTime(rows)) }

  /** Exactly the first `d` messages of the inbox are delivered. */
  ghost predicate DeliveredPrefix(rows: Table, ids: seq<nat>, d: nat) {
    && d <= |ids|
    && (forall k :: 0 <= k < |ids| ==> ids[k] < |rows| && (rows[ids[k]].delivered <==> k < d))
  }

  /** Increasing ids of messages for `r`. */
  ghost predicate InboxOk(rows: Table, r: nat, ids: seq<nat>) {
    && (forall k :: 0 <= k < |ids| ==> ids[k] < |rows| && rows[ids[k]].recipient == r)
    && (forall i, j :: 0 <= i < j < |ids| ==> ids[i] < ids[j])
  }

  lemma {:induction false} InboxIncreases(rows: Table, r: nat)
    ensures InboxOk(rows, r, Inbox(rows, r))
  {
    if rows != [] {
      var n := |rows| - 1;
      var before := Inbox(rows[..n], r);
      InboxIncreases(rows[..n], r);
      assert InboxOk(rows, r, before) by {
        assert forall k :: 0 <= k < |before| ==> rows[..n][before[k]] == rows[before[k]];
      }
    }
  }

  lemma {:induction false} UndeliveredIsSuffix(rows: Table, ids: seq<nat>, d: nat)
    requires DeliveredPrefix(rows, ids, d)
    ensures Undelivered(rows, ids) == ids[d..]
  {
    if ids != [] {
      var d' := if d == 0 then 0 else d - 1;
      assert DeliveredPrefix(rows, ids[1..], d') by {
        assert forall k :: 0 <= k < |ids| - 1 ==> ids[1..][k] == ids[k + 1];
      }
      UndeliveredIsSuffix(rows, ids[1..], d');
      assert d > 0 ==> ids[1..][d - 1..] == ids[d..];
    }
  }

  lemma {:induction false} ByTimeIsPreorder(rows: Table)
    ensures TotalPreorder(ByTime(rows))
  {
  }

  /** Exactly when a listing is in the order sent. */
  lemma {:induction false} ListInOrderIff(rows: Table, r: nat)
    ensures |ListPending(rows, r, BATCH)| == Min(BATCH, |Waiting(rows, r)|)
    ensures ListPending(rows, r, BATCH) == First(Waiting(rows, r), BATCH) <==> InOrder(rows, r)
  {
    var xs, le := Waiting(rows, r), ByTime(rows);
    var m := Min(BATCH, |xs|);
    ByTimeIsPreorder(rows);
    SortKeepsHeadIff(xs, m, le);
    assert HeadOrdered(xs, m, le) <==> HeadOrdered(xs, BATCH, le);
    assert First(Sort(xs, le), BATCH) == Sort(xs, le)[..m] && First(xs, BATCH) == xs[..m];
  }

  /** Send times that never decrease are enough. */
  lemma {:induction false} RunningClockKeepsOrder(rows: Table, r: nat)
    requires forall i, j :: 0 <= i < j < |rows| ==> rows[i].time <= rows[j].time
    ensures InOrder(rows, r)
  {
    var xs := Waiting(rows, r);
    InboxIncreases(rows, r);
    UndeliveredIncreases(rows, r, Inbox(rows, r));
    forall i, j | 0 <= i < BATCH && i < j < |xs| ensures ByTime(rows)(xs[i], xs[j]) {
      assert xs[i] < xs[j] < |rows|;
    }
  }

  lemma {:induction false} UndeliveredMembers(rows: Table, ids: seq<nat>, x: nat)
    requires forall k :: 0 <= k < |ids| ==> ids[k] < |rows|
    ensures x in Undelivered(rows, ids) <==> x in ids && !rows[x].delivered
  {
    if ids != [] {
      UndeliveredMembers(rows, ids[1..], x);
      assert ids == [ids[0]] + ids[1..];
    }
  }

  lemma {:induction false} InboxOkTail(rows: Table, r: nat, ids: seq<nat>)
    requires InboxOk(rows, r, ids) && ids != []
    ensures InboxOk(rows, r, ids[1..]) && forall x :: x in ids[1..] ==> ids[0] < x
  {
    var rest := ids[1..];
    assert forall k :: 0 <= k < |rest| ==> rest[k] == ids[k + 1];
  }

  lemma {:induction false} InboxOkCons(rows: Table, r: nat, id: nat, ids: seq<nat>)
    requires InboxOk(rows, r, ids) && id < |rows| && rows[id].recipient == r && forall k :: 0 <= k < |ids| ==> id < ids[k]
    ensures InboxOk(rows, r, [id] + ids)
  {
  }

  /** The waiting messages have increasing ids too. */
  lemma {:induction false} UndeliveredIncreases(rows: Table, r: nat, ids: seq<nat>)
    requires InboxOk(rows, r, ids)
    ensures InboxOk(rows, r, Undelivered(rows, ids))
  {
    if ids != [] {
      InboxOkTail(rows, r, ids);
      UndeliveredIncreases(rows, r, ids[1..]);
      var more := Undelivered(rows, ids[1..]);
      if rows[ids[0]].delivered {
        assert [] + more == more;
      } else {
        forall k | 0 <= k < |more| ensures ids[0] < more[k] { UndeliveredMembers(rows, ids[1..], more[k]); }
        InboxOkCons(rows, r, ids[0], more);
      }
    }
  }

  ghost predicate Distinct(ids: seq<nat>) {
    forall i, j :: 0 <= i < j < |ids| ==> ids[i] != ids[j]
  }

  lemma {:induction false} DistinctAlike(xs: seq<nat>, ys: seq<nat>)
    requires Distinct(xs) && multiset(ys) == multiset(xs)
    ensures Distinct(ys)
  {
    forall i, j | 0 <= i < j < |ys| ensures ys[i] != ys[j] {
      if ys[i] == ys[j] {
        OccursTwice(ys, i, j);
        OccursOnce(xs, ys[i]);
      }
    }
  }

  lemma {:induction false} OccursTwice(ys: seq<nat>, i: nat, j: nat)
    requires i < j < |ys| && ys[i] == ys[j]
    ensures multiset(ys)[ys[i]] >= 2
  {
    assert ys == ys[..j] + [ys[j]] + ys[j + 1..];
    assert ys[..j][i] == ys[i] && ys[i] in multiset(ys[..j]);
  }

  lemma {:induction false} OccursOnce(xs: seq<nat>, x: nat)
    requires Distinct(xs)
    ensures multiset(xs)[x] <= 1
  {
    if xs != [] {
      var init, last := xs[..|xs| - 1], xs[|xs| - 1];
      assert Distinct(init) by { assert forall k :: 0 <= k < |init| ==> init[k] == xs[k]; }
      OccursOnce(init, x);
      assert xs == init + [last];
      if x == last {
        forall k | 0 <= k < |init| ensures init[k] != x { assert init[k] == xs[k]; }
        assert x !in init && x !in multiset(init);
      }
    }
  }

  /** Whatever the clock does, a listing holds distinct undelivered messages for `r`. */
  lemma {:induction false} ListIsFresh(rows: Table, r: nat)
    ensures var list := ListPending(rows, r, BATCH);
            && Distinct(list)
            && (forall k :: 0 <= k < |list| ==> list[k] < |rows| && rows[list[k]].recipient == r && !rows[list[k]].delivered)
  {
    var xs, le := Waiting(rows, r), ByTime(rows);
    var sorted := Sort(xs, le);
    InboxIncreases(rows, r);
    UndeliveredIncreases(rows, r, Inbox(rows, r));
    DistinctAlike(xs, sorted);
    var list := ListPending(rows, r, BATCH);
    forall k | 0 <= k < |list| ensures list[k] < |rows| && rows[list[k]].recipient == r && !rows[list[k]].delivered {
      assert list[k] == sorted[k] && sorted[k] in multiset(sorted) && sorted[k] in multiset(xs);
      var i :| 0 <= i < |xs| && xs[i] == list[k];
      UndeliveredMembers(rows, Inbox(rows, r), list[k]);
    }
  }

  /** The oldest first, whatever the clock did: by send time, at most sixteen, and no waiting message that
      is left out is older than one that is listed. */
  lemma {:induction false} ListIsOldest(rows: Table, r: nat, x: nat)
    requires x < |rows| && rows[x].recipient == r && !rows[x].delivered && x !in ListPending(rows, r, BATCH)
    ensures var list := ListPending(rows, r, BATCH);
            |list| == 16 && forall k :: 0 <= k < 16 ==> list[k] < |rows| && rows[list[k]].time <= rows[x].time
  {
    var xs, le := Waiting(rows, r), ByTime(rows);
    var sorted, list := Sort(xs, le), ListPending(rows, r, BATCH);
    ByTimeIsPreorder(rows);
    SortOrdered(xs, le);
    SortMembers(xs, le);
    InboxHolds(rows, r, x);
    UndeliveredMembers(rows, Inbox(rows, r), x);
    ListIsFresh(rows, r);
    var i :| 0 <= i < |sorted| && sorted[i] == x;
    assert |list| <= i by { assert forall k :: 0 <= k < |list| ==> list[k] == sorted[k] && list[k] in list; }
    forall k | 0 <= k < 16 ensures list[k] < |rows| && rows[list[k]].time <= rows[x].time {
      assert list[k] == sorted[k] && le(sorted[k], sorted[i]);
    }
  }

  lemma {:induction false} ListIsByTime(rows: Table, r: nat, j: nat, k: nat)
    requires j < k < |ListPending(rows, r, BATCH)|
    ensures |ListPending(rows, r, BATCH)| <= 16
    ensures var list := ListPending(rows, r, BATCH);
            list[j] < |rows| && list[k] < |rows| && rows[list[j]].time <= rows[list[k]].time
  {
    var sorted := Sort(Waiting(rows, r), ByTime(rows));
    ByTimeIsPreorder(rows);
    SortOrdered(Waiting(rows, r), ByTime(rows));
    ListIsFresh(rows, r);
    assert ByTime(rows)(sorted[j], sorted[k]);
  }

  /** The inbox of a recipient holds exactly the messages sent to it. */
  lemma {:induction false} InboxHolds(rows: Table, r: nat, x: nat)
    ensures x in Inbox(rows, r) <==> x < |rows| && rows[x].recipient == r
  {
    if rows != [] {
      InboxHolds(rows[..|rows| - 1], r, x);
    }
  }

  /** The limit is brought between 1 and 32. */
  lemma {:induction false} LimitIsClamped(limit: int)
    ensures Nearest(limit, 1, 32, ClampLimit(limit))
  {
  }

  /** In order, the pending messages are the next of the inbox. */
  lemma {:induction false} ListIsNextSlice(rows: Table, r: nat, d: nat)
    requires InOrder(rows, r) && DeliveredPrefix(rows, Inbox(rows, r), d)
    ensures var ids := Inbox(rows, r);
            ListPending(rows, r, BATCH) == if |ids| - d <= BATCH then ids[d..] else ids[d..d + BATCH]
  {
    var ids := Inbox(rows, r);
    UndeliveredIsSuffix(rows, ids, d);
    ListInOrderIff(rows, r);
  }

  lemma {:induction false} InboxAfterSend(rows: Table, m: Message, r: nat)
    ensures Inbox(rows + [m], r) == Inbox(rows, r) + if m.recipient == r then [|rows|] else []
  {
    assert (rows + [m])[..|rows|] == rows;
  }

  lemma {:induction false} InboxAfterMark(rows: Table, id: nat, r: nat)
    requires id < |rows|
    ensures Inbox(rows[id := rows[id].(delivered := true)], r) == Inbox(rows, r)
  {
    var n := |rows| - 1;
    var rows' := rows[id := rows[id].(delivered := true)];
    if id < n {
      InboxAfterMark(rows[..n], id, r);
      assert rows'[..n] == rows[..n][id := rows[..n][id].(delivered := true)];
    } else {
      assert rows'[..n] == rows[..n];
    }
  }

  /** Marking the oldest pending message delivered. */
  lemma {:induction false} MarkExtendsPrefix(rows: Table, r: nat, ids: seq<nat>, d: nat)
    requires ids == Inbox(rows, r) && DeliveredPrefix(rows, ids, d) && d < |ids|
    ensures var rows' := rows[ids[d] := rows[ids[d]].(delivered := true)];
            Inbox(rows', r) == ids && DeliveredPrefix(rows', ids, d + 1)
  {
    InboxAfterMark(rows, ids[d], r);
    InboxIncreases(rows, r);
    var rows' := rows[ids[d] := rows[ids[d]].(delivered := true)];
    forall k | 0 <= k < |ids| ensures rows'[ids[k]].delivered <==> k < d + 1 {
      assert k < d ==> ids[k] < ids[d];
      assert k > d ==> ids[d] < ids[k];
    }
  }

  // ---- runs ----

  /** The inbox of recipient `r` in use: `batch` is what the turn in progress has put into its prompt
      and not yet marked, `prompted` everything ever put into a prompt, in order. */
  datatype State = State(rows: Table, open: bool, batch: seq<nat>, prompted: seq<nat>)

  datatype Step =
    | Send(recipient: nat, time: int)
    | Open
    | Mark
    | Close
    | Die       // the worker goes away during its turn

  predicate Enabled(s: State, step: Step) {
    match step
    case Send(_, time) => true
    case Open => !s.open
    case Mark => s.open && s.batch != [] && s.batch[0] < |s.rows|
    case Close => s.open && s.batch == []
    case Die => s.open
  }

  function Apply(s: State, r: nat, step: Step): State
    requires Enabled(s, step)
  {
    match step
    case Send(recipient, time) => s.(rows := s.rows + [Message(recipient, time, false)])
    case Open =>
      var batch := ListPending(s.rows, r, BATCH);
      s.(open := true, batch := batch, prompted := s.prompted + batch)
    case Mark =>
      s.(rows := s.rows[s.batch[0] := s.rows[s.batch[0]].(delivered := true)], batch := s.batch[1..])
    case Close => s.(open := false)
    case Die => s.(open := false, batch := [])
  }

  ghost predicate Run(s: State, r: nat, steps: seq<Step>, end: State)
    decreases |steps|
  {
    if steps == [] then s == end
    else Enabled(s, steps[0]) && Run(Apply(s, r, steps[0]), r, steps[1..], end)
  }

  /** An open turn can always mark its batch, one message after the other, and close; after that, as after a
      death, another one can open. */
  lemma {:induction false} TurnCompletes(s: State, r: nat) returns (steps: seq<Step>, end: State)
    requires s.open && forall k :: 0 <= k < |s.batch| ==> s.batch[k] < |s.rows|
    ensures Run(s, r, steps, end) && end.batch == [] && end.prompted == s.prompted && |end.rows| == |s.rows|
    ensures forall i :: 0 <= i < |s.rows| ==>
              end.rows[i] == if i in s.batch then s.rows[i].(delivered := true) else s.rows[i]
    ensures Enabled(end, Open) && Enabled(Apply(s, r, Die), Open) && Apply(s, r, Die).rows == s.rows
    decreases |s.batch|
  {
    if s.batch == [] {
      steps, end := [Close], Apply(s, r, Close);
    } else {
      var rest;
      rest, end := TurnCompletes(Apply(s, r, Mark), r);
      steps := [Mark] + rest;
      assert s.batch == [s.batch[0]] + s.batch[1..];
    }
  }

  /** The delivered messages are the first `d` sent; the open turn holds the next ones. */
  ghost predicate Inv(s: State, r: nat, d: nat) {
    var ids := Inbox(s.rows, r);
    && DeliveredPrefix(s.rows, ids, d)
    && |s.batch| <= BATCH && d + |s.batch| <= |ids| && s.batch == ids[d..d + |s.batch|]
    && (!s.open ==> s.batch == [])
  }

  /** Every message has entered exactly one prompt, in the order sent, or none yet. */
  ghost predicate OncePrompted(s: State, r: nat, d: nat) {
    Inv(s, r, d) && s.prompted == Inbox(s.rows, r)[..d + |s.batch|]
  }

  lemma {:induction false} SendKeeps(s: State, r: nat, d: nat, recipient: nat, time: int)
    requires Inv(s, r, d)
    ensures var s' := Apply(s, r, Send(recipient, time));
            Inv(s', r, d) && (OncePrompted(s, r, d) ==> OncePrompted(s', r, d))
  {
    InboxAfterSend(s.rows, Message(recipient, time, false), r);
    var s' := Apply(s, r, Send(recipient, time));
    var ids, ids' := Inbox(s.rows, r), Inbox(s'.rows, r);
    assert forall k :: 0 <= k < |ids| ==> ids'[k] == ids[k] && s'.rows[ids[k]] == s.rows[ids[k]];
    assert ids'[d..d + |s.batch|] == ids[d..d + |s.batch|];
    assert ids'[..d + |s.batch|] == ids[..d + |s.batch|];
  }

  /** Taking the next slice of the inbox into a turn. */
  lemma {:induction false} OpenWith(s: State, r: nat, d: nat, batch: seq<nat>)
    requires Inv(s, r, d) && !s.open && |batch| <= BATCH
    requires d + |batch| <= |Inbox(s.rows, r)| && batch == Inbox(s.rows, r)[d..d + |batch|]
    ensures var s' := s.(open := true, batch := batch, prompted := s.prompted + batch);
            Inv(s', r, d) && (OncePrompted(s, r, d) ==> OncePrompted(s', r, d))
  {
    var ids := Inbox(s.rows, r);
    assert ids[..d] + ids[d..d + |batch|] == ids[..d + |batch|];
  }

  lemma {:induction false} OpenKeeps(s: State, r: nat, d: nat)
    requires Inv(s, r, d) && InOrder(s.rows, r) && !s.open
    ensures var s' := Apply(s, r, Open);
            Inv(s', r, d) && (OncePrompted(s, r, d) ==> OncePrompted(s', r, d))
  {
    ListIsNextSlice(s.rows, r, d);
    OpenWith(s, r, d, ListPending(s.rows, r, BATCH));
  }

  lemma {:induction false} MarkKeeps(s: State, r: nat, d: nat)
    requires Inv(s, r, d) && Enabled(s, Mark)
    ensures var s' := Apply(s, r, Mark);
            Inv(s', r, d + 1) && (OncePrompted(s, r, d) ==> OncePrompted(s', r, d + 1))
  {
    var ids := Inbox(s.rows, r);
    assert s.batch[0] == ids[d];
    MarkExtendsPrefix(s.rows, r, ids, d);
    assert s.batch[1..] == ids[d + 1..d + |s.batch|];
  }

  /** If the step lists messages, it lists them in the order sent. */
  ghost predicate OpensInOrder(s: State, r: nat, step: Step) { step.Open? ==> InOrder(s.rows, r) }

  /** A worker that dies before marking its whole batch leaves messages that were prompted already. */
  predicate DiesMidway(s: State, step: Step) { step.Die? && s.batch != [] }

  lemma {:induction false} StepKeeps(s: State, r: nat, d: nat, step: Step) returns (d': nat)
    requires Inv(s, r, d) && Enabled(s, step) && OpensInOrder(s, r, step)
    ensures Inv(Apply(s, r, step), r, d')
    ensures OncePrompted(s, r, d) && !DiesMidway(s, step) ==> OncePrompted(Apply(s, r, step), r, d')
    ensures d <= d'
  {
    d' := d;
    match step
    case Send(recipient, time) => SendKeeps(s, r, d, recipient, time);
    case Open => OpenKeeps(s, r, d);
    case Mark => MarkKeeps(s, r, d); d' := d + 1;
    case Close =>
    case Die =>
  }

  ghost predicate InOrderThroughout(s: State, r: nat, steps: seq<Step>)
    decreases |steps|
  {
    steps == [] || (Enabled(s, steps[0]) && OpensInOrder(s, r, steps[0])
                    && InOrderThroughout(Apply(s, r, steps[0]), r, steps[1..]))
  }

  ghost predicate NobodyDiesMidway(s: State, r: nat, steps: seq<Step>)
    decreases |steps|
  {
    steps == [] || (Enabled(s, steps[0]) && !DiesMidway(s, steps[0]) && NobodyDiesMidway(Apply(s, r, steps[0]), r, steps[1..]))
  }

  /** In every run the delivered messages are a prefix of the inbox in the order sent. */
  lemma {:induction false} DeliveredIsAlwaysPrefix(s: State, r: nat, steps: seq<Step>, end: State, d: nat)
    returns (d': nat)
    requires Inv(s, r, d) && Run(s, r, steps, end) && InOrderThroughout(s, r, steps)
    ensures Inv(end, r, d') && d <= d'
    decreases |steps|
  {
    d' := d;
    if steps != [] {
      d' := StepKeeps(s, r, d, steps[0]);
      d' := DeliveredIsAlwaysPrefix(Apply(s, r, steps[0]), r, steps[1..], end, d');
    }
  }

  /** If no worker dies midway, what was prompted is exactly a prefix of the inbox: every message
      enters at most one prompt, none is skipped, and the order is the order sent. */
  lemma {:induction false} PromptedExactlyOnce(s: State, r: nat, steps: seq<Step>, end: State, d: nat)
    returns (d': nat)
    requires OncePrompted(s, r, d) && Run(s, r, steps, end)
    requires InOrderThroughout(s, r, steps) && NobodyDiesMidway(s, r, steps)
    ensures OncePrompted(end, r, d')
    decreases |steps|
  {
    d' := d;
    if steps != [] {
      d' := StepKeeps(s, r, d, steps[0]);
      d' := PromptedExactlyOnce(Apply(s, r, steps[0]), r, steps[1..], end, d');
    }
  }

  function Opens(steps: seq<Step>): nat {
    if steps == [] then 0 else (if steps[0].Open? then 1 else 0) + Opens(steps[1..])
  }

  lemma {:induction false} StepDrains(s: State, r: nat, d: nat, step: Step)
    requires OncePrompted(s, r, d) && Enabled(s, step) && OpensInOrder(s, r, step) && !DiesMidway(s, step)
    ensures var s' := Apply(s, r, step);
            && |Inbox(s'.rows, r)| >= |Inbox(s.rows, r)|
            && |s'.prompted| >= Min(|Inbox(s.rows, r)|, |s.prompted| + if step.Open? then BATCH else 0)
  {
    match step
    case Send(recipient, time) => InboxAfterSend(s.rows, Message(recipient, time, false), r);
    case Open => ListIsNextSlice(s.rows, r, d);
    case Mark => InboxAfterMark(s.rows, s.batch[0], r);
    case _ =>
  }

  lemma {:induction false} PromptedGrows(s: State, r: nat, steps: seq<Step>, end: State)
    requires Run(s, r, steps, end)
    ensures |s.prompted| <= |end.prompted|
    decreases |steps|
  {
    if steps != [] { PromptedGrows(Apply(s, r, steps[0]), r, steps[1..], end); }
  }

  /** What is waiting now has been prompted after enough turns, sixteen messages a turn, no matter how
      many more arrive meanwhile. */
  lemma {:induction false} BacklogDrains(s: State, r: nat, steps: seq<Step>, end: State, d: nat, target: nat)
    requires OncePrompted(s, r, d) && Run(s, r, steps, end)
    requires InOrderThroughout(s, r, steps) && NobodyDiesMidway(s, r, steps)
    requires target <= |Inbox(s.rows, r)|
    ensures |end.prompted| >= target || |end.prompted| >= |s.prompted| + BATCH * Opens(steps)
    decreases |steps|
  {
    if steps != [] {
      var s' := Apply(s, r, steps[0]);
      var d' := StepKeeps(s, r, d, steps[0]);
      StepDrains(s, r, d, steps[0]);
      BacklogDrains(s', r, steps[1..], end, d', target);
      PromptedGrows(s', r, steps[1..], end);
    }
  }

  /** When the clock steps back, a later message is delivered first. */
  lemma {:induction false} ClockStepBackReorders(t: int)
    ensures var rows := [Message(0, t, false), Message(0, t - 1, false)];
            ListPending(rows, 0, BATCH) == [1, 0]
  {
    var rows := [Message(0, t, false), Message(0, t - 1, false)];
    TwoInInbox(rows);
    SortTwo(0, 1, ByTime(rows));
  }

  lemma {:induction false} TwoInInbox(rows: Table)
    requires |rows| == 2 && rows[0] == Message(0, rows[0].time, false) && rows[1] == Message(0, rows[1].time, false)
    ensures Inbox(rows, 0) == [0, 1]
    ensures Undelivered(rows, [0, 1]) == [0, 1]
  {
    var one := rows[..1];
    assert one[..0] == [] && Inbox(one[..0], 0) == [];
    assert Inbox(one, 0) == [0];
    assert [0, 1][1..] == [1] && [1][1..] == [];
    assert Undelivered(rows, [1]) == [1];
  }

  lemma {:induction false} SortTwo(a: nat, b: nat, le: (nat, nat) -> bool)
    requires !le(a, b)
    ensures Sort([a, b], le) == [b, a]
  {
    assert [a, b][1..] == [b] && [b][1..] == [];
    assert Sort([b], le) == [b];
    assert Insert(a, [], le) == [a];
    assert Insert(a, [b], le) == [b] + Insert(a, [], le);
  }

  /** The table as the repository updates it. */
  class MessageTable {
    var rows: Table

    constructor ()
      ensures rows == []
    {
      rows := [];
    }

    method SendMessage(recipient: nat, now: int) returns (id: nat)
      modifies this
      ensures rows == old(rows) + [Message(recipient, now, false)] && id == |old(rows)|
    {
      id := |rows|;
      rows := rows + [Message(recipient, now, false)];
    }

    /** `mark_delivered`: says whether there was such a message. */
    method MarkDelivered(id: nat) returns (found: bool)
      modifies this
      ensures found <==> id < |old(rows)|
      ensures rows == if found then old(rows)[id := old(rows)[id].(delivered := true)] else old(rows)
    {
      found := id < |rows|;
      if found { rows := rows[id := rows[id].(delivered := true)]; }
    }

    /** The delivery at the start of a turn: the prompt gets the oldest pending messages, and exactly
        those become delivered. */
    method DeliverBatch(r: nat) returns (prompt: seq<nat>)
      modifies this
      ensures prompt == ListPending(old(rows), r, BATCH)
      ensures rows == MarkAll(old(rows), prompt)
    {
      prompt := ListPending(rows, r, BATCH);
      for k := 0 to |prompt|
        invariant rows == MarkAll(old(rows), prompt[..k])
      {
        assert prompt[..k + 1][..k] == prompt[..k];
        var found := MarkDelivered(prompt[k]);
      }
      assert prompt[..|prompt|] == prompt;
    }
  }

  function MarkAll(rows: Table, ids: seq<nat>): (r: Table)
    ensures |r| == |rows|
  {
    if ids == [] then rows
    else
      var before, id := MarkAll(rows, ids[..|ids| - 1]), ids[|ids| - 1];
      if id < |rows| then before[id := before[id].(delivered := true)] else before
  }

  /** Marking changes nothing but the named messages, and those only by delivering them. */
  lemma {:induction false} MarkAllMarks(rows: Table, ids: seq<nat>, i: nat)
    requires i < |rows|
    ensures MarkAll(rows, ids)[i] == if i in ids then rows[i].(delivered := true) else rows[i]
  {
    if ids != [] {
      MarkAllMarks(rows, ids[..|ids| - 1], i);
      assert ids == ids[..|ids| - 1] + [ids[|ids| - 1]];
    }
  }

  lemma {:induction false} MarkAllExtends(rows: Table, r: nat, ids: seq<nat>, d: nat, prompt: seq<nat>)
    requires ids == Inbox(rows, r) && DeliveredPrefix(rows, ids, d) && d + |prompt| <= |ids|
    requires forall k :: 0 <= k < |prompt| ==> prompt[k] == ids[d + k]
    ensures Inbox(MarkAll(rows, prompt), r) == ids && DeliveredPrefix(MarkAll(rows, prompt), ids, d + |prompt|)
  {
    if prompt != [] {
      var init := prompt[..|prompt| - 1];
      MarkAllExtends(rows, r, ids, d, init);
      MarkExtendsPrefix(MarkAll(rows, init), r, ids, d + |init|);
    }
  }

  /** Listed in order, a delivery extends the delivered prefix by up to sixteen messages. */
  lemma {:induction false} DeliveryExtendsPrefix(rows: Table, r: nat, d: nat, ids: seq<nat>, prompt: seq<nat>)
    requires InOrder(rows, r) && ids == Inbox(rows, r) && DeliveredPrefix(rows, ids, d) && prompt == ListPending(rows, r, BATCH)
    ensures |prompt| == Min(BATCH, |ids| - d)
    ensures Inbox(MarkAll(rows, prompt), r) == ids && DeliveredPrefix(MarkAll(rows, prompt), ids, d + |prompt|)
  {
    PendingIsNext(rows, r, d, ids, prompt);
    MarkAllExtends(rows, r, ids, d, prompt);
  }

  lemma {:induction false} PendingIsNext(rows: Table, r: nat, d: nat, ids: seq<nat>, prompt: seq<nat>)
    requires InOrder(rows, r) && ids == Inbox(rows, r) && DeliveredPrefix(rows, ids, d) && prompt == ListPending(rows, r, BATCH)
    ensures |prompt| == Min(BATCH, |ids| - d) && forall k :: 0 <= k < |prompt| ==> prompt[k] == ids[d + k]
  {
    ListIsNextSlice(rows, r, d);
  }
}
