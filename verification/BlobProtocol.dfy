/**
 Content-addressed blobs shared by concurrent `put` and `collect_garbage` calls
 (kitt/artifacts/store.py).

 The state holds the database rows, the blob directory and the calls in flight. A step is one
 transaction or one file-system operation, so a run is any interleaving of the calls. Every
 `with get_connection()` block is atomic; the recheck of `collect_garbage` runs under
 `BEGIN IMMEDIATE` and keeps other writers out from its recheck until its unlink is over. A blob's
 path is a function of its digest, so the digest stands for the path.
 */
module BlobProtocol {
  import opened Common

  newtype byte = x: int | 0 <= x < 256
  type Bytes = seq<byte>
  type Digest = string
  type Id = nat

  datatype Content = Inline(raw: Bytes) | File

  datatype Row = Row(content: Content, digest: Digest, expires: Option<int>, pinned: bool)

  /** A call in flight. A `put` is named by its artifact id. */
  datatype Call =
    | Staged(raw: Bytes, expires: Option<int>)              // temporary file written, no row yet
    | Inserted(raw: Bytes)                                  // row committed, rename still to come
    | Undoing                                               // rename failed, temporary file gone, row still there
    | Sweeping(pending: set<Digest>)                        // rows deleted, paths to recheck
    | Holding(path: Digest, pending: set<Digest>, keep: bool) // writer reservation held for `path`

  /** `written` remembers what each `put` was given; `lost` the puts whose compensating delete did not
      happen. Neither is read by any step. */
  datatype State = State(
    rows: map<Id, Row>,
    blobs: map<Digest, Bytes>,
    calls: map<Id, Call>,
    written: map<Id, Bytes>,
    lost: set<Id>)

  datatype Step =
    | PutInline(id: Id, raw: Bytes, expires: Option<int>)
    | Stage(id: Id, raw: Bytes, expires: Option<int>)
    | Insert(id: Id)
    | InsertFails(id: Id)
    | Rename(id: Id)
    | RenameFails(id: Id)
    | Undo(id: Id)
    | UndoFails(id: Id)      // rolled back, or never tried because removing the temporary file raised
    | Pin(id: Id, pinned: bool)
    | Sweep(id: Id, now: int)
    | Recheck(id: Id, path: Digest)
    | Unlink(id: Id)
    | Release(id: Id)
    | Finish(id: Id)

  /** The digest function is a parameter; `limit` is the largest content kept inline. */
  datatype Config = Config(digest: Bytes -> Digest, limit: nat)

  const EMPTY := State(map[], map[], map[], map[], {})

  predicate Fresh(s: State, id: Id) { id !in s.written && id !in s.calls }

  /** No writer reservation is held. */
  ghost predicate Unlocked(s: State) {
    forall id :: id in s.calls ==> !s.calls[id].Holding?
  }

  predicate Expired(row: Row, now: int) {
    !row.pinned && row.expires.Some? && row.expires.value < now
  }

  predicate Refers(row: Row, path: Digest) { row.content.File? && row.digest == path }

  predicate Referenced(rows: map<Id, Row>, path: Digest) {
    exists id :: id in rows && Refers(rows[id], path)
  }

  function Survivors(rows: map<Id, Row>, now: int): map<Id, Row> {
    map id | id in rows && !Expired(rows[id], now) :: rows[id]
  }

  function Candidates(rows: map<Id, Row>, now: int): set<Digest> {
    set id | id in rows && Expired(rows[id], now) && rows[id].content.File? :: rows[id].digest
  }

  ghost predicate Enabled(c: Config, s: State, step: Step) {
    match step
    case PutInline(id, raw, _) => Fresh(s, id) && Unlocked(s) && |raw| <= c.limit
    case Stage(id, raw, _) => Fresh(s, id) && |raw| > c.limit
    case Insert(id) => id in s.calls && s.calls[id].Staged? && Unlocked(s)
    case InsertFails(id) => id in s.calls && s.calls[id].Staged?
    case Rename(id) => id in s.calls && s.calls[id].Inserted?
    case RenameFails(id) => id in s.calls && s.calls[id].Inserted?
    case Undo(id) => id in s.calls && s.calls[id].Undoing? && Unlocked(s)
    case UndoFails(id) => id in s.calls && s.calls[id].Undoing?
    case Pin(id, _) => id in s.rows && Unlocked(s)
    case Sweep(id, _) => Fresh(s, id) && Unlocked(s)
    case Recheck(id, path) =>
      id in s.calls && s.calls[id].Sweeping? && path in s.calls[id].pending && Unlocked(s)
    case Unlink(id) => id in s.calls && s.calls[id].Holding? && !s.calls[id].keep
    case Release(id) => id in s.calls && s.calls[id].Holding?
    case Finish(id) => id in s.calls && s.calls[id].Sweeping?
  }

  function Apply(c: Config, s: State, step: Step): State {
    match step
    case PutInline(id, raw, expires) =>
      s.(rows := s.rows[id := Row(Inline(raw), c.digest(raw), expires, false)],
         written := s.written[id := raw])
    case Stage(id, raw, expires) =>
      s.(calls := s.calls[id := Staged(raw, expires)], written := s.written[id := raw])
    case Insert(id) =>
      if id in s.calls && s.calls[id].Staged? then
        s.(rows := s.rows[id := Row(File, c.digest(s.calls[id].raw), s.calls[id].expires, false)],
           calls := s.calls[id := Inserted(s.calls[id].raw)])
      else s
    case InsertFails(id) => s.(calls := s.calls - {id})
    case Rename(id) =>
      if id in s.calls && s.calls[id].Inserted? then
        s.(blobs := s.blobs[c.digest(s.calls[id].raw) := s.calls[id].raw], calls := s.calls - {id})
      else s
    case RenameFails(id) => s.(calls := s.calls[id := Undoing])
    case Undo(id) => s.(rows := s.rows - {id}, calls := s.calls - {id})
    case UndoFails(id) => s.(calls := s.calls - {id}, lost := s.lost + {id})
    case Pin(id, pinned) =>
      if id in s.rows then s.(rows := s.rows[id := s.rows[id].(pinned := pinned)]) else s
    case Sweep(id, now) =>
      s.(rows := Survivors(s.rows, now), calls := s.calls[id := Sweeping(Candidates(s.rows, now))])
    case Recheck(id, path) =>
      if id in s.calls && s.calls[id].Sweeping? then
        s.(calls := s.calls[id := Holding(path, s.calls[id].pending - {path}, Referenced(s.rows, path))])
      else s
    case Unlink(id) =>
      if id in s.calls && s.calls[id].Holding? then
        s.(blobs := s.blobs - {s.calls[id].path}, calls := s.calls[id := s.calls[id].(keep := true)])
      else s
    case Release(id) =>
      if id in s.calls && s.calls[id].Holding? then
        s.(calls := s.calls[id := Sweeping(s.calls[id].pending)])
      else s
    case Finish(id) => s.(calls := s.calls - {id})
  }

  /** A run: any sequence of enabled steps. */
  ghost predicate Run(c: Config, s: State, steps: seq<Step>, end: State)
    decreases |steps|
  {
    if steps == [] then s == end
    else Enabled(c, s, steps[0]) && Run(c, Apply(c, s, steps[0]), steps[1..], end)
  }

  /** A call still at work on row `id`: either its staged copy is there, or it is taking the row back. */
  predicate InFlight(s: State, id: Id) {
    id in s.calls && (s.calls[id].Inserted? || s.calls[id].Undoing?)
  }

  ghost predicate RowOk(c: Config, s: State, id: Id)
    requires id in s.rows
  {
    && id in s.written && s.rows[id].digest == c.digest(s.written[id])
    && (s.rows[id].content.Inline? ==> s.rows[id].content.raw == s.written[id])
    && (s.rows[id].content.File? ==> s.rows[id].digest in s.blobs || InFlight(s, id) || id in s.lost)
  }

  ghost predicate CallOk(c: Config, s: State, id: Id)
    requires id in s.calls
  {
    match s.calls[id]
    case Staged(raw, _) => id in s.written && raw == s.written[id] && id !in s.rows && id !in s.lost
    case Inserted(raw) =>
      id in s.written && raw == s.written[id] && id !in s.lost && (id in s.rows ==> s.rows[id].content.File?)
    case Undoing => id in s.written && id !in s.lost && (id in s.rows ==> s.rows[id].content.File?)
    case Sweeping(_) => id !in s.written && id !in s.rows
    case Holding(path, _, keep) => id !in s.written && id !in s.rows && (keep || !Referenced(s.rows, path))
  }

  ghost predicate Inv(c: Config, s: State) {
    && (forall id :: id in s.rows ==> RowOk(c, s, id))
    && (forall id :: id in s.calls ==> CallOk(c, s, id))
    && (forall path :: path in s.blobs ==> c.digest(s.blobs[path]) == path)
    && s.lost <= s.written.Keys
    && (forall g, h :: g in s.calls && h in s.calls && s.calls[g].Holding? && s.calls[h].Holding? ==> g == h)
  }

  lemma {:induction false} StepKeepsRows(c: Config, s: State, step: Step)
    requires Inv(c, s) && Enabled(c, s, step)
    ensures var s' := Apply(c, s, step); forall id :: id in s'.rows ==> RowOk(c, s', id)
  {
    var s' := Apply(c, s, step);
    forall id | id in s'.rows ensures RowOk(c, s', id) { StepKeepsRow(c, s, step, id); }
  }

  lemma {:induction false} StepKeepsRow(c: Config, s: State, step: Step, id: nat)
    requires Inv(c, s) && Enabled(c, s, step) && id in Apply(c, s, step).rows
    ensures RowOk(c, Apply(c, s, step), id)
  {
    if id == step.id { StepKeepsOwnRow(c, s, step); } else { StepKeepsOtherRow(c, s, step, id); }
  }

  lemma {:induction false} StepKeepsOwnRow(c: Config, s: State, step: Step)
    requires Inv(c, s) && Enabled(c, s, step) && step.id in Apply(c, s, step).rows
    ensures RowOk(c, Apply(c, s, step), step.id)
  {
    if step.id in s.rows { assert RowOk(c, s, step.id); }
    if step.id in s.calls { assert CallOk(c, s, step.id); }
  }

  lemma {:induction false} StepKeepsOtherRow(c: Config, s: State, step: Step, id: nat)
    requires Inv(c, s) && Enabled(c, s, step) && id != step.id && id in Apply(c, s, step).rows
    ensures RowOk(c, Apply(c, s, step), id)
  {
    assert id in s.rows && RowOk(c, s, id);
    if step.id in s.calls { assert CallOk(c, s, step.id); }
  }

  lemma {:induction false} StepKeepsCalls(c: Config, s: State, step: Step)
    requires Inv(c, s) && Enabled(c, s, step)
    ensures var s' := Apply(c, s, step); forall id :: id in s'.calls ==> CallOk(c, s', id)
  {
    var s' := Apply(c, s, step);
    forall id | id in s'.calls ensures CallOk(c, s', id) { StepKeepsCall(c, s, step, id); }
  }

  lemma {:induction false} StepKeepsCall(c: Config, s: State, step: Step, id: nat)
    requires Inv(c, s) && Enabled(c, s, step) && id in Apply(c, s, step).calls
    ensures CallOk(c, Apply(c, s, step), id)
  {
    if id == step.id { StepKeepsOwnCall(c, s, step); } else { StepKeepsOtherCall(c, s, step, id); }
  }

  lemma {:induction false} StepKeepsOwnCall(c: Config, s: State, step: Step)
    requires Inv(c, s) && Enabled(c, s, step) && step.id in Apply(c, s, step).calls
    ensures CallOk(c, Apply(c, s, step), step.id)
  {
    if step.id in s.rows { assert RowOk(c, s, step.id); }
    if step.id in s.calls { assert CallOk(c, s, step.id); }
  }

  lemma {:induction false} StepKeepsOtherCall(c: Config, s: State, step: Step, id: nat)
    requires Inv(c, s) && Enabled(c, s, step) && id != step.id && id in Apply(c, s, step).calls
    ensures CallOk(c, Apply(c, s, step), id)
  {
    assert id in s.calls && CallOk(c, s, id);
  }

  /** No step of any call breaks the invariant, whatever the other calls are doing. */
  lemma {:induction false} StepKeepsInv(c: Config, s: State, step: Step)
    requires Inv(c, s) && Enabled(c, s, step)
    ensures Inv(c, Apply(c, s, step))
  {
    StepKeepsRows(c, s, step);
    StepKeepsCalls(c, s, step);
  }

  lemma {:induction false} RunKeepsInv(c: Config, s: State, steps: seq<Step>, end: State)
    requires Inv(c, s) && Run(c, s, steps, end)
    ensures Inv(c, end)
    decreases |steps|
  {
    if steps != [] {
      StepKeepsInv(c, s, steps[0]);
      RunKeepsInv(c, Apply(c, s, steps[0]), steps[1..], end);
    }
  }

  datatype Read = Missing | ReadExpired | NoBlob | Corrupt | Ok(raw: Bytes)

  /** `read` looks at the row first and opens the blob later: `rows` are those of the first moment and
      `blobs` those of the second. An expiry time of zero counts as none here, though not in `Expired`. */
  function ReadArtifact(c: Config, rows: map<Id, Row>, blobs: map<Digest, Bytes>, id: Id, now: int): Read {
    if id !in rows then Missing
    else
      var row := rows[id];
      if TooOld(row, now) then ReadExpired
      else if row.content.File? && row.digest !in blobs then NoBlob
      else
        var raw := if row.content.Inline? then row.content.raw else blobs[row.digest];
        if c.digest(raw) == row.digest then Ok(raw) else Corrupt
  }

  predicate TooOld(row: Row, now: int) {
    row.expires.Some? && row.expires.value != 0 && row.expires.value < now && !row.pinned
  }

  ghost predicate Injective(digest: Bytes -> Digest) {
    forall a, b :: digest(a) == digest(b) ==> a == b
  }

  /** Safety over whole runs: a read never gives another artifact's content and never finds a corrupt
      blob, whatever runs before it fetches the row and between that and opening the blob. */
  lemma {:induction false} ReadsBackWhatWasPut(
    c: Config, before: seq<Step>, fetch: State, during: seq<Step>, open: State, id: Id, now: int)
    requires Injective(c.digest) && Run(c, EMPTY, before, fetch) && Run(c, fetch, during, open)
    ensures var r := ReadArtifact(c, fetch.rows, open.blobs, id, now);
            r.Missing? || r.ReadExpired? || r.NoBlob? || (id in fetch.written && r == Ok(fetch.written[id]))
  {
    RunKeepsInv(c, EMPTY, before, fetch);
    RunKeepsInv(c, fetch, during, open);
    if id in fetch.rows { assert RowOk(c, fetch, id); }
  }

  /** A row without its blob. */
  predicate Dangles(s: State, id: Id) {
    id in s.rows && s.rows[id].content.File? && s.rows[id].digest !in s.blobs
  }

  lemma {:induction false} LostOnlyByFailedUndo(c: Config, s: State, steps: seq<Step>, end: State, id: Id)
    requires Run(c, s, steps, end)
    ensures id in end.lost <==> id in s.lost || UndoFails(id) in steps
    decreases |steps|
  {
    if steps != [] {
      LostOnlyByFailedUndo(c, Apply(c, s, steps[0]), steps[1..], end, id);
    }
  }

  /** A dangling row belongs to a `put` that is still in flight, or to one whose rename failed and
      whose compensating delete then did not happen. */
  lemma {:induction false} DanglingIsExplained(c: Config, steps: seq<Step>, end: State, id: Id)
    requires Run(c, EMPTY, steps, end) && Dangles(end, id)
    ensures InFlight(end, id) || UndoFails(id) in steps
  {
    RunKeepsInv(c, EMPTY, steps, end);
    LostOnlyByFailedUndo(c, EMPTY, steps, end, id);
    assert RowOk(c, end, id);
  }

  /** At quiescence no row dangles, unless a compensating delete did not happen. */
  lemma {:induction false} QuiescentStoreIsWhole(c: Config, steps: seq<Step>, end: State)
    requires Run(c, EMPTY, steps, end) && end.calls == map[]
    requires forall id :: UndoFails(id) !in steps
    ensures forall id :: id in end.rows ==> !Dangles(end, id)
  {
    forall id | id in end.rows ensures !Dangles(end, id) {
      if Dangles(end, id) { DanglingIsExplained(c, steps, end, id); }
    }
  }

  lemma {:induction false} RunSnoc(c: Config, s: State, steps: seq<Step>, mid: State, step: Step)
    requires Run(c, s, steps, mid) && Enabled(c, mid, step)
    ensures Run(c, s, steps + [step], Apply(c, mid, step))
    decreases |steps|
  {
    if steps == [] {
      assert Run(c, Apply(c, s, step), [], Apply(c, s, step));
      assert [step][1..] == [];
    } else {
      RunSnoc(c, Apply(c, s, steps[0]), steps[1..], mid, step);
      assert (steps + [step])[1..] == steps[1..] + [step];
    }
  }

  /** A run that shows it: a failed rename, then a rolled-back delete. */
  lemma {:induction false} RolledBackUndoDangles(c: Config, raw: Bytes)
    requires |raw| > c.limit
    ensures exists steps, end ::
              && Run(c, EMPTY, steps, end) && end.calls == map[]
              && Dangles(end, 0) && ReadArtifact(c, end.rows, end.blobs, 0, 0) == NoBlob
  {
    var s1 := Apply(c, EMPTY, Stage(0, raw, None));
    var s2 := Apply(c, s1, Insert(0));
    var s3 := Apply(c, s2, RenameFails(0));
    var s4 := Apply(c, s3, UndoFails(0));
    RunSnoc(c, EMPTY, [], EMPTY, Stage(0, raw, None));
    RunSnoc(c, EMPTY, [] + [Stage(0, raw, None)], s1, Insert(0));
    RunSnoc(c, EMPTY, [] + [Stage(0, raw, None)] + [Insert(0)], s2, RenameFails(0));
    RunSnoc(c, EMPTY, [] + [Stage(0, raw, None)] + [Insert(0)] + [RenameFails(0)], s3, UndoFails(0));
    assert s4.calls == map[];
  }

  // ---- which rows dangle at the end of a run ----

  /** The step stores bytes under `path`. */
  predicate StepStores(c: Config, s: State, step: Step, path: Digest) {
    step.Rename? && step.id in s.calls && s.calls[step.id].Inserted? && c.digest(s.calls[step.id].raw) == path
  }

  /** Some rename of the run stores bytes under `path`. */
  predicate RunStores(c: Config, s: State, steps: seq<Step>, path: Digest)
    decreases |steps|
  {
    steps != [] && (StepStores(c, s, steps[0], path) || RunStores(c, Apply(c, s, steps[0]), steps[1..], path))
  }

  /** The state after the steps. */
  function After(c: Config, s: State, steps: seq<Step>): State
    decreases |steps|
  {
    if steps == [] then s else After(c, Apply(c, s, steps[0]), steps[1..])
  }

  /** A row that was written and is gone never comes back. */
  predicate Gone(s: State, id: Id) {
    id in s.written && id !in s.rows && !(id in s.calls && s.calls[id].Staged?)
  }

  lemma {:induction false} GoneForever(c: Config, s: State, steps: seq<Step>, end: State, id: Id)
    requires Run(c, s, steps, end) && Gone(s, id)
    ensures id !in end.rows
    decreases |steps|
  {
    if steps != [] { GoneForever(c, Apply(c, s, steps[0]), steps[1..], end, id); }
  }

  /** A live row pins its blob: one step changes whether the blob is there only by storing it. */
  lemma {:induction false} LiveReferenceKeepsBlob(c: Config, s: State, step: Step, id: Id)
    requires Inv(c, s) && Enabled(c, s, step) && id in s.rows && s.rows[id].content.File?
    ensures var s', path := Apply(c, s, step), s.rows[id].digest;
            && (id in s'.rows ==> s'.rows[id].content.File? && s'.rows[id].digest == path)
            && (id !in s'.rows ==> Gone(s', id))
            && (path in s'.blobs <==> path in s.blobs || StepStores(c, s, step, path))
  {
    assert RowOk(c, s, id);
    if step.id in s.calls { assert CallOk(c, s, step.id); }
    if id in s.calls { assert CallOk(c, s, id); }
    if step.Unlink? {
      assert s.calls[step.id].path == s.rows[id].digest ==> Refers(s.rows[id], s.calls[step.id].path);
    }
  }

  /** Over a run: while a row lives, no collection takes its blob away, and the blob is there at the
      end exactly when it was there before or a rename of the run stored it. */
  lemma {:induction false} LiveRowPinsBlob(c: Config, s: State, steps: seq<Step>, end: State, id: Id)
    requires Inv(c, s) && Run(c, s, steps, end)
    requires id in s.rows && s.rows[id].content.File? && id in end.rows
    ensures end.rows[id].content.File? && end.rows[id].digest == s.rows[id].digest
    ensures s.rows[id].digest in end.blobs <==> s.rows[id].digest in s.blobs || RunStores(c, s, steps, s.rows[id].digest)
    decreases |steps|
  {
    if steps != [] {
      var s' := Apply(c, s, steps[0]);
      StepKeepsInv(c, s, steps[0]);
      LiveReferenceKeepsBlob(c, s, steps[0], id);
      if id !in s'.rows {
        GoneForever(c, s', steps[1..], end, id);
      } else {
        LiveRowPinsBlob(c, s', steps[1..], end, id);
      }
    }
  }

  /** A FILE row that appears during a run was inserted by its own put. */
  lemma {:induction false} RowComesFromInsert(c: Config, s: State, steps: seq<Step>, end: State, id: Id) returns (k: nat)
    requires Inv(c, s) && Run(c, s, steps, end)
    requires id !in s.rows && id in end.rows && end.rows[id].content.File?
    ensures k < |steps| && steps[k] == Insert(id)
    ensures var mid := After(c, s, steps[..k]);
            && Inv(c, mid) && Enabled(c, mid, Insert(id)) && Run(c, mid, steps[k..], end)
    decreases |steps|
  {
    var s' := Apply(c, s, steps[0]);
    StepKeepsInv(c, s, steps[0]);
    if steps[0] == Insert(id) {
      k := 0;
      assert steps[..0] == [] && steps[0..] == steps;
    } else {
      if id in s'.rows { InlineStaysInline(c, s', steps[1..], end, id); }
      var k' := RowComesFromInsert(c, s', steps[1..], end, id);
      k := k' + 1;
      assert steps[..k][0] == steps[0] && steps[..k][1..] == steps[1..][..k'] && steps[k..] == steps[1..][k'..];
    }
  }

  lemma {:induction false} InlineStaysInline(c: Config, s: State, steps: seq<Step>, end: State, id: Id)
    requires Inv(c, s) && Run(c, s, steps, end) && id in s.rows && s.rows[id].content.Inline?
    ensures id in end.rows ==> end.rows[id].content.Inline?
    decreases |steps|
  {
    if steps != [] {
      var s' := Apply(c, s, steps[0]);
      StepKeepsInv(c, s, steps[0]);
      assert RowOk(c, s, id);
      if steps[0].id in s.calls { assert CallOk(c, s, steps[0].id); }
      if id in s'.rows { InlineStaysInline(c, s', steps[1..], end, id); } else { GoneForever(c, s', steps[1..], end, id); }
    }
  }

  /** Exactly which rows dangle, at the end of any run: those whose content was not stored when the
      row was inserted and was not renamed into place by anyone afterwards. */
  lemma {:induction false} RowDanglesIff(c: Config, steps: seq<Step>, end: State, id: Id) returns (k: nat)
    requires Run(c, EMPTY, steps, end) && id in end.rows && end.rows[id].content.File?
    ensures k < |steps| && steps[k] == Insert(id)
    ensures var mid, path := After(c, EMPTY, steps[..k]), end.rows[id].digest;
            Dangles(end, id) <==> path !in mid.blobs && !RunStores(c, mid, steps[k..], path)
  {
    k := RowComesFromInsert(c, EMPTY, steps, end, id);
    var mid := After(c, EMPTY, steps[..k]);
    var s' := Apply(c, mid, Insert(id));
    StepKeepsInv(c, mid, Insert(id));
    assert steps[k..][0] == Insert(id);
    LiveRowPinsBlob(c, s', steps[k..][1..], end, id);
  }

  // ---- what a row holds, and when it goes ----

  /** The call was given these bytes and this expiry, and stores them in this way. */
  ghost predicate GivenTo(steps: seq<Step>, id: Id, raw: Bytes, expires: Option<int>, inline: bool) {
    (if inline then PutInline(id, raw, expires) else Stage(id, raw, expires)) in steps
  }

  lemma {:induction false} GivenToTail(steps: seq<Step>, id: Id, raw: Bytes, expires: Option<int>, inline: bool)
    requires steps != [] && GivenTo(steps[1..], id, raw, expires, inline)
    ensures GivenTo(steps, id, raw, expires, inline)
  {
  }

  /** Where a row at the end of a run comes from: it was there, its put was staged, or its put is in the run. */
  ghost predicate RowTraced(s: State, steps: seq<Step>, id: Id, row: Row, raw: Bytes) {
    || (id in s.rows && s.rows[id].expires == row.expires && s.rows[id].content.Inline? == row.content.Inline?)
    || (id in s.calls && s.calls[id].Staged? && s.calls[id].expires == row.expires && row.content.File?)
    || GivenTo(steps, id, raw, row.expires, row.content.Inline?)
  }

  /** A row after one step was there before, or its own put inserted it. */
  lemma {:induction false} StepTracesRow(c: Config, s: State, step: Step, id: Id)
    requires Enabled(c, s, step) && id in Apply(c, s, step).rows
    ensures var s' := Apply(c, s, step);
            var row := s'.rows[id];
            || (id in s.rows && s.rows[id].expires == row.expires && s.rows[id].content.Inline? == row.content.Inline?)
            || (id in s.calls && s.calls[id].Staged? && s.calls[id].expires == row.expires && row.content.File?)
            || (id in s'.written && step == PutInline(id, s'.written[id], row.expires) && row.content.Inline?)
  {
  }

  lemma {:induction false} StepTracesCall(c: Config, s: State, step: Step, id: Id)
    requires Enabled(c, s, step) && id in Apply(c, s, step).calls && Apply(c, s, step).calls[id].Staged?
    ensures var s' := Apply(c, s, step);
            || (id in s.calls && s.calls[id] == s'.calls[id])
            || (id in s'.written && step == Stage(id, s'.written[id], s'.calls[id].expires))
  {
  }

  lemma {:induction false} RunTraces(c: Config, s: State, steps: seq<Step>, end: State, id: Id)
    requires Run(c, s, steps, end) && id in end.rows && id in end.written
    ensures RowTraced(s, steps, id, end.rows[id], end.written[id])
    decreases |steps|
  {
    if steps != [] {
      var s', row := Apply(c, s, steps[0]), end.rows[id];
      RunTraces(c, s', steps[1..], end, id);
      if id in s'.written { WrittenStays(c, s', steps[1..], end, id); }
      if GivenTo(steps[1..], id, end.written[id], row.expires, row.content.Inline?) {
        GivenToTail(steps, id, end.written[id], row.expires, row.content.Inline?);
      } else if id in s'.rows && s'.rows[id].expires == row.expires && s'.rows[id].content.Inline? == row.content.Inline? {
        StepTracesRow(c, s, steps[0], id);
      } else {
        StepTracesCall(c, s, steps[0], id);
      }
    }
  }

  /** What a put was given is never forgotten or changed. */
  lemma {:induction false} WrittenStays(c: Config, s: State, steps: seq<Step>, end: State, id: Id)
    requires Run(c, s, steps, end) && id in s.written
    ensures id in end.written && end.written[id] == s.written[id]
    decreases |steps|
  {
    if steps != [] { WrittenStays(c, Apply(c, s, steps[0]), steps[1..], end, id); }
  }

  /** A row is pinned only if it was, or if the run pinned it. */
  lemma {:induction false} PinnedWasPinned(c: Config, s: State, steps: seq<Step>, end: State, id: Id)
    requires Run(c, s, steps, end) && id in end.rows && end.rows[id].pinned
    ensures (id in s.rows && s.rows[id].pinned) || Pin(id, true) in steps
    decreases |steps|
  {
    if steps != [] {
      var s' := Apply(c, s, steps[0]);
      PinnedWasPinned(c, s', steps[1..], end, id);
      if id in s'.rows && s'.rows[id].pinned { PinnedByStep(c, s, steps[0], id); }
      assert steps == [steps[0]] + steps[1..];
    }
  }

  lemma {:induction false} PinnedByStep(c: Config, s: State, step: Step, id: Id)
    requires id in Apply(c, s, step).rows && Apply(c, s, step).rows[id].pinned
    ensures (id in s.rows && s.rows[id].pinned) || step == Pin(id, true)
  {
  }

  lemma {:induction false} InlineStepIsSmall(c: Config, s: State, steps: seq<Step>, end: State, step: Step)
    requires Run(c, s, steps, end) && step in steps
    ensures step.PutInline? ==> |step.raw| <= c.limit
    ensures step.Stage? ==> |step.raw| > c.limit
    decreases |steps|
  {
    if step != steps[0] { InlineStepIsSmall(c, Apply(c, s, steps[0]), steps[1..], end, step); }
  }

  /** In every run a row is what its put was given: these bytes, this expiry, inline exactly up to the
      limit, under the digest of the bytes. */
  lemma {:induction false} RowIsAsPut(c: Config, steps: seq<Step>, end: State, id: Id)
    requires Run(c, EMPTY, steps, end) && id in end.rows
    ensures var row := end.rows[id];
            && id in end.written && GivenTo(steps, id, end.written[id], row.expires, row.content.Inline?)
            && (row.content.Inline? <==> |end.written[id]| <= c.limit)
            && (row.content.Inline? ==> row.content.raw == end.written[id]) && row.digest == c.digest(end.written[id])
  {
    RunKeepsInv(c, EMPTY, steps, end);
    assert RowOk(c, end, id);
    var row := end.rows[id];
    RunTraces(c, EMPTY, steps, end, id);
    InlineStepIsSmall(c, EMPTY, steps, end,
      if row.content.Inline? then PutInline(id, end.written[id], row.expires) else Stage(id, end.written[id], row.expires));
  }

  /** Whether the row is pinned after the steps, going by its pin calls alone. */
  function PinAfter(steps: seq<Step>, id: Id, pinned: bool): bool {
    if steps == [] then pinned
    else PinAfter(steps[1..], id, if steps[0].Pin? && steps[0].id == id then steps[0].pinned else pinned)
  }

  /** Some step of the run takes the row away: its put is undone, or a collection comes after its expiry
      while the pin calls so far leave it unpinned. */
  ghost predicate Taken(steps: seq<Step>, id: Id, pinned: bool, expires: Option<int>) {
    exists k :: 0 <= k < |steps| && TakenAt(steps, id, pinned, expires, k)
  }

  ghost predicate TakenAt(steps: seq<Step>, id: Id, pinned: bool, expires: Option<int>, k: nat)
    requires k < |steps|
  {
    || steps[k] == Undo(id)
    || (steps[k].Sweep? && !PinAfter(steps[..k], id, pinned) && expires.Some? && expires.value < steps[k].now)
  }

  lemma {:induction false} TakenCons(steps: seq<Step>, id: Id, pinned: bool, pinned': bool, expires: Option<int>)
    requires steps != []
    requires pinned' == if steps[0].Pin? && steps[0].id == id then steps[0].pinned else pinned
    ensures Taken(steps, id, pinned, expires) <==> TakenAt(steps, id, pinned, expires, 0) || Taken(steps[1..], id, pinned', expires)
  {
    var rest := steps[1..];
    forall k | 0 <= k < |rest| ensures TakenAt(rest, id, pinned', expires, k) <==> TakenAt(steps, id, pinned, expires, k + 1) {
      assert steps[..k + 1][0] == steps[0] && steps[..k + 1][1..] == rest[..k];
    }
    if k :| 0 <= k < |rest| && TakenAt(rest, id, pinned', expires, k) {
      assert TakenAt(steps, id, pinned, expires, k + 1);
    }
    if k :| 0 < k < |steps| && TakenAt(steps, id, pinned, expires, k) {
      assert TakenAt(rest, id, pinned', expires, k - 1);
    }
  }

  /** One step takes a row away, or leaves it with its content, digest and expiry and the pin it sets. */
  lemma {:induction false} RowAfterStep(c: Config, s: State, step: Step, id: Id)
    requires Inv(c, s) && Enabled(c, s, step) && id in s.rows
    ensures var s', row := Apply(c, s, step), s.rows[id];
            && (id !in s'.rows <==>
                  (step == Undo(id) || (step.Sweep? && !row.pinned && row.expires.Some? && row.expires.value < step.now)))
            && (id in s'.rows ==> s'.rows[id] == row.(pinned := if step.Pin? && step.id == id then step.pinned else row.pinned))
            && (id !in s'.rows ==> Gone(s', id))
  {
    if id !in Apply(c, s, step).rows { TakenIsGone(c, s, step, id); }
    RowStays(c, s, step, id);
  }

  lemma {:induction false} TakenIsGone(c: Config, s: State, step: Step, id: Id)
    requires Inv(c, s) && Enabled(c, s, step) && id in s.rows && id !in Apply(c, s, step).rows
    ensures Gone(Apply(c, s, step), id)
  {
    assert RowOk(c, s, id);
    if id in s.calls { assert CallOk(c, s, id); }
  }

  lemma {:induction false} RowStays(c: Config, s: State, step: Step, id: Id)
    requires Inv(c, s) && Enabled(c, s, step) && id in s.rows
    ensures var s', row := Apply(c, s, step), s.rows[id];
            && (id !in s'.rows <==>
                  (step == Undo(id) || (step.Sweep? && !row.pinned && row.expires.Some? && row.expires.value < step.now)))
            && (id in s'.rows ==> s'.rows[id] == row.(pinned := if step.Pin? && step.id == id then step.pinned else row.pinned))
  {
    assert RowOk(c, s, id);
    if step.id in s.calls { assert CallOk(c, s, step.id); }
  }

  /** Exactly when a row is gone at the end of a run. So a row that is pinned at every collection, and
      whose put is not undone, is still there, and its blob with it. */
  lemma {:induction false} RowGoesIff(c: Config, s: State, steps: seq<Step>, end: State, id: Id)
    requires Inv(c, s) && Run(c, s, steps, end) && id in s.rows
    ensures id !in end.rows <==> Taken(steps, id, s.rows[id].pinned, s.rows[id].expires)
    ensures id in end.rows ==> end.rows[id] == s.rows[id].(pinned := PinAfter(steps, id, s.rows[id].pinned))
    decreases |steps|
  {
    if steps != [] {
      var s', row := Apply(c, s, steps[0]), s.rows[id];
      StepKeepsInv(c, s, steps[0]);
      RowAfterStep(c, s, steps[0], id);
      TakenCons(steps, id, row.pinned, if steps[0].Pin? && steps[0].id == id then steps[0].pinned else row.pinned, row.expires);
      assert steps[..0] == [];
      if id in s'.rows { RowGoesIff(c, s', steps[1..], end, id); } else { GoneForever(c, s', steps[1..], end, id); }
    }
  }

  /** A read calls expired exactly what a collection at that time would take, an expiry of zero apart. */
  lemma {:induction false} ReadExpiresIff(c: Config, rows: map<Id, Row>, blobs: map<Digest, Bytes>, id: Id, now: int)
    requires id in rows
    ensures ReadArtifact(c, rows, blobs, id, now).ReadExpired? <==>
              !rows[id].pinned && rows[id].expires.Some? && rows[id].expires.value < now && rows[id].expires.value != 0
    ensures ReadArtifact(c, rows, blobs, id, now).ReadExpired? <==> id !in Survivors(rows, now) && rows[id].expires != Some(0)
  {
  }

  /** A read never returns bytes that do not match the row's digest, and calls corrupt exactly those. */
  lemma {:induction false} ReadChecksDigest(c: Config, rows: map<Id, Row>, blobs: map<Digest, Bytes>, id: Id, now: int)
    requires id in rows && (rows[id].content.File? ==> rows[id].digest in blobs)
    ensures var r, held := ReadArtifact(c, rows, blobs, id, now),
                           if rows[id].content.Inline? then rows[id].content.raw else blobs[rows[id].digest];
            r.ReadExpired? || (if c.digest(held) == rows[id].digest then r == Ok(held) else r.Corrupt?)
  {
  }

  // ---- a read between whose two steps anything may run ----

  /** The step takes the blob under `path` away. */
  predicate StepUnlinks(s: State, step: Step, path: Digest) {
    step.Unlink? && step.id in s.calls && s.calls[step.id].Holding? && s.calls[step.id].path == path
  }

  /** Some collection of the run unlinks `path`, and nobody stores it again. */
  predicate TakenForGood(c: Config, s: State, steps: seq<Step>, path: Digest)
    decreases |steps|
  {
    steps != [] &&
    var s' := Apply(c, s, steps[0]);
    (StepUnlinks(s, steps[0], path) && !RunStores(c, s', steps[1..], path)) || TakenForGood(c, s', steps[1..], path)
  }

  lemma {:induction false} BlobAfterStep(c: Config, s: State, step: Step, path: Digest)
    ensures path in Apply(c, s, step).blobs <==>
              (path in s.blobs && !StepUnlinks(s, step, path)) || StepStores(c, s, step, path)
  {
  }

  /** Exactly when a blob is missing after a run. */
  lemma {:induction false} BlobMissingIff(c: Config, s: State, steps: seq<Step>, end: State, path: Digest)
    requires Run(c, s, steps, end)
    ensures path !in end.blobs <==>
              TakenForGood(c, s, steps, path) || (path !in s.blobs && !RunStores(c, s, steps, path))
    decreases |steps|
  {
    if steps != [] {
      BlobAfterStep(c, s, steps[0], path);
      BlobMissingIff(c, Apply(c, s, steps[0]), steps[1..], end, path);
    }
  }

  /** The row that a read goes on to open a blob for. */
  predicate Fetched(s: State, id: Id, now: int) {
    id in s.rows && s.rows[id].content.File? && !TooOld(s.rows[id], now)
  }

  /** Exactly when a read raises for want of the blob: its row was fetched, and then a collection took the
      blob for good, or it had never been stored. */
  lemma {:induction false} ReadMissesBlobIff(
    c: Config, before: seq<Step>, fetch: State, during: seq<Step>, open: State, id: Id, now: int)
    requires Run(c, EMPTY, before, fetch) && Run(c, fetch, during, open)
    ensures ReadArtifact(c, fetch.rows, open.blobs, id, now).NoBlob? <==>
              Fetched(fetch, id, now) && var path := fetch.rows[id].digest;
              TakenForGood(c, fetch, during, path) || (path !in fetch.blobs && !RunStores(c, fetch, during, path))
  {
    if id in fetch.rows { BlobMissingIff(c, fetch, during, open, fetch.rows[id].digest); }
  }

  /** A read whose row is still there when the blob is opened finds it, unless the row's own put is still
      in flight or its compensating delete did not happen. */
  lemma {:induction false} ReadOfLiveRowFindsBlob(
    c: Config, before: seq<Step>, fetch: State, during: seq<Step>, open: State, id: Id, now: int)
    requires Run(c, EMPTY, before, fetch) && Run(c, fetch, during, open)
    requires id in open.rows && !InFlight(open, id) && id !in open.lost
    ensures !ReadArtifact(c, fetch.rows, open.blobs, id, now).NoBlob?
  {
    RunKeepsInv(c, EMPTY, before, fetch);
    RunKeepsInv(c, fetch, during, open);
    assert RowOk(c, open, id);
    if id in fetch.rows && fetch.rows[id].content.File? { LiveRowPinsBlob(c, fetch, during, open, id); }
  }

  /** A pinned artifact whose put is finished reads back at any time, over any run in which it is not
      taken. */
  lemma {:induction false} PinnedArtifactReads(
    c: Config, before: seq<Step>, fetch: State, during: seq<Step>, open: State, id: Id, now: int)
    requires Injective(c.digest) && Run(c, EMPTY, before, fetch) && Run(c, fetch, during, open)
    requires id in fetch.rows && fetch.rows[id].pinned && !Taken(during, id, true, fetch.rows[id].expires)
    requires !InFlight(open, id) && id !in open.lost
    ensures id in fetch.written && ReadArtifact(c, fetch.rows, open.blobs, id, now) == Ok(fetch.written[id])
  {
    RunKeepsInv(c, EMPTY, before, fetch);
    RowGoesIff(c, fetch, during, open, id);
    ReadOfLiveRowFindsBlob(c, before, fetch, during, open, id, now);
    ReadsBackWhatWasPut(c, before, fetch, during, open, id, now);
  }

  /** So a finished artifact that was whole when its row was fetched is missed only if its row went. */
  lemma {:induction false} MissedMeansCollected(
    c: Config, before: seq<Step>, fetch: State, during: seq<Step>, open: State, id: Id, now: int)
    requires Run(c, EMPTY, before, fetch) && Run(c, fetch, during, open)
    requires id in fetch.rows && !InFlight(fetch, id) && id !in fetch.lost
    requires ReadArtifact(c, fetch.rows, open.blobs, id, now).NoBlob?
    ensures id !in open.rows && TakenForGood(c, fetch, during, fetch.rows[id].digest)
  {
    RunKeepsInv(c, EMPTY, before, fetch);
    assert RowOk(c, fetch, id);
    ReadMissesBlobIff(c, before, fetch, during, open, id, now);
    if id in open.rows { LiveRowPinsBlob(c, fetch, during, open, id); }
  }

  /** The state after a `put` that stored `raw`, on an empty store. */
  function StoredOne(c: Config, raw: Bytes, expires: int): State {
    State(map[0 := Row(File, c.digest(raw), Some(expires), false)], map[c.digest(raw) := raw], map[], map[0 := raw], {})
  }

  lemma {:induction false} PutRuns(c: Config, raw: Bytes, expires: int) returns (steps: seq<Step>)
    requires |raw| > c.limit
    ensures Run(c, EMPTY, steps, StoredOne(c, raw, expires))
  {
    var stage := Stage(0, raw, Some(expires));
    var s1 := Apply(c, EMPTY, stage);
    var s2 := Apply(c, s1, Insert(0));
    var s3 := Apply(c, s2, Rename(0));
    RunSnoc(c, EMPTY, [], EMPTY, stage);
    RunSnoc(c, EMPTY, [] + [stage], s1, Insert(0));
    RunSnoc(c, EMPTY, [] + [stage] + [Insert(0)], s2, Rename(0));
    assert s3 == StoredOne(c, raw, expires);
    steps := [] + [stage] + [Insert(0)] + [Rename(0)];
  }

  lemma {:induction false} CollectRuns(c: Config, raw: Bytes, expires: int, now: int) returns (steps: seq<Step>, end: State)
    requires expires < now
    ensures Run(c, StoredOne(c, raw, expires), steps, end) && end.blobs == map[]
  {
    var s, path := StoredOne(c, raw, expires), c.digest(raw);
    var s1 := Apply(c, s, Sweep(1, now));
    assert 0 in s.rows && Expired(s.rows[0], now) && path in Candidates(s.rows, now);
    assert Candidates(s.rows, now) == {path};
    assert s1.rows == map[] && s1.calls == map[1 := Sweeping({path})];
    var s2 := Apply(c, s1, Recheck(1, path));
    assert {path} - {path} == {} && s2.calls == map[1 := Holding(path, {}, false)];
    end := Apply(c, s2, Unlink(1));
    RunSnoc(c, s, [], s, Sweep(1, now));
    RunSnoc(c, s, [] + [Sweep(1, now)], s1, Recheck(1, path));
    RunSnoc(c, s, [] + [Sweep(1, now)] + [Recheck(1, path)], s2, Unlink(1));
    steps := [] + [Sweep(1, now)] + [Recheck(1, path)] + [Unlink(1)];
  }

  /** A run that shows it: the row is fetched at its expiry time, a collection runs a moment later, and
      the blob is gone when it is opened. */
  lemma {:induction false} CollectedWhileRead(c: Config, raw: Bytes, expires: int)
    requires |raw| > c.limit
    ensures exists before, fetch, during, open ::
              && Run(c, EMPTY, before, fetch) && Run(c, fetch, during, open) && fetch.calls == map[]
              && ReadArtifact(c, fetch.rows, fetch.blobs, 0, expires) == Ok(raw)
              && ReadArtifact(c, fetch.rows, open.blobs, 0, expires) == NoBlob
  {
    var before := PutRuns(c, raw, expires);
    var during, open := CollectRuns(c, raw, expires, expires + 1);
    var fetch := StoredOne(c, raw, expires);
    assert ReadArtifact(c, fetch.rows, fetch.blobs, 0, expires) == Ok(raw);
  }

  datatype PutResult = Stored | TooLarge | InsertRefused | RenameRefused

  /** The calls as a caller sees them on an otherwise idle store. */
  class ArtifactStore {
    const config: Config
    const maxBytes: nat
    var rows: map<Id, Row>
    var blobs: map<Digest, Bytes>

    /** Every FILE row has its blob. */
    ghost predicate Whole()
      reads this
    {
      forall id :: id in rows && rows[id].content.File? ==> rows[id].digest in blobs
    }

    /** Every blob's bytes match its name. */
    ghost predicate Named()
      reads this
    {
      forall path :: path in blobs ==> config.digest(blobs[path]) == path
    }

    constructor (config: Config, maxBytes: nat)
      ensures Whole() && Named() && rows == map[] && blobs == map[]
      ensures this.config == config && this.maxBytes == maxBytes
    {
      this.config, this.maxBytes := config, maxBytes;
      rows, blobs := map[], map[];
    }

    /** `put`; the flags say whether the insert, the rename and the compensating delete succeed. A
        refused call leaves no trace unless its compensating delete was rolled back; a stored
        artifact reads back. */
    method Put(id: Id, raw: Bytes, expires: Option<int>, insertOk: bool, renameOk: bool, undoOk: bool)
      returns (result: PutResult)
      requires id !in rows
      modifies this
      ensures old(Whole()) && (result.Stored? || undoOk) ==> Whole()
      ensures old(Named()) ==> Named()
      ensures result.TooLarge? <==> |raw| > maxBytes
      ensures result.Stored? <==> |raw| <= maxBytes && insertOk && (|raw| <= config.limit || renameOk)
      ensures result.InsertRefused? <==> |raw| <= maxBytes && !insertOk
      ensures result.Stored? || (result.RenameRefused? && !undoOk) ==>
                rows == old(rows)[id := Row(if |raw| <= config.limit then Inline(raw) else File, config.digest(raw), expires, false)]
      ensures result.Stored? && |raw| > config.limit ==> blobs == old(blobs)[config.digest(raw) := raw]
      ensures !result.Stored? && undoOk ==> rows == old(rows) && blobs == old(blobs)
      ensures forall other :: other != id ==> (other in rows <==> other in old(rows))
      ensures forall other :: other in old(rows) ==> rows[other] == old(rows)[other]
      ensures blobs == old(blobs) || (result.Stored? && blobs == old(blobs)[config.digest(raw) := raw])
      ensures old(Named()) && Injective(config.digest) ==>
                forall path :: path in old(blobs) ==> path in blobs && blobs[path] == old(blobs)[path]
      ensures result.Stored? ==> forall now :: (expires.None? || now <= expires.value) ==>
                ReadArtifact(config, rows, blobs, id, now) == Ok(raw)
    {
      if |raw| > maxBytes { return TooLarge; }
      var digest := config.digest(raw);
      if |raw| <= config.limit {
        if !insertOk { return InsertRefused; }
        rows := rows[id := Row(Inline(raw), digest, expires, false)];
        return Stored;
      }
      var staged := raw;
      if !insertOk { return InsertRefused; }
      rows := rows[id := Row(File, digest, expires, false)];
      if renameOk {
        blobs := blobs[digest := staged];
        return Stored;
      }
      if undoOk { rows := rows - {id}; }
      return RenameRefused;
    }

    /** The recheck loop of `collect_garbage`. */
    method UnlinkUnreferenced(candidates: set<Digest>)
      modifies `blobs
      ensures forall path :: path in blobs <==>
                path in old(blobs) && (path !in candidates || Referenced(rows, path))
      ensures forall path :: path in blobs ==> blobs[path] == old(blobs)[path]
    {
      var paths := candidates;
      while paths != {}
        invariant paths <= candidates
        invariant forall path :: path in blobs <==>
                    path in old(blobs) && (path !in candidates || path in paths || Referenced(rows, path))
        invariant forall path :: path in blobs ==> blobs[path] == old(blobs)[path]
        decreases |paths|
      {
        var path :| path in paths;
        paths := paths - {path};
        if !Referenced(rows, path) && path in blobs {
          blobs := blobs - {path};
        }
      }
    }

    /** `collect_garbage`: removes exactly the expired rows and the blobs only they referred to; what
        any other artifact reads as is unchanged. */
    method CollectGarbage(now: int) returns (removed: int)
      modifies this
      ensures old(Whole()) ==> Whole()
      ensures old(Named()) ==> Named()
      ensures rows == Survivors(old(rows), now) && removed == |old(rows)| - |rows|
      ensures forall path :: path in blobs <==>
                path in old(blobs) && (path !in Candidates(old(rows), now) || Referenced(rows, path))
      ensures forall id :: id in old(rows) ==>
                (id in rows <==> old(rows)[id].pinned || old(rows)[id].expires.None? || old(rows)[id].expires.value >= now)
      ensures forall id :: id in rows ==> id in old(rows) && rows[id] == old(rows)[id]
      ensures forall path :: path in blobs ==> path in old(blobs) && blobs[path] == old(blobs)[path]
      ensures forall path :: path in old(blobs) ==>
                (path !in blobs <==>
                 (&& (exists id :: id in old(rows) && id !in rows && old(rows)[id].content.File? && old(rows)[id].digest == path)
                  && !(exists id :: id in rows && rows[id].content.File? && rows[id].digest == path)))
      ensures forall id, t :: id in rows ==>
                ReadArtifact(config, rows, blobs, id, t) == ReadArtifact(config, old(rows), old(blobs), id, t)
    {
      var count := |rows|;
      var paths := Candidates(rows, now);
      rows := Survivors(rows, now);
      removed := count - |rows|;
      UnlinkUnreferenced(paths);
      assert forall id :: id in rows && rows[id].content.File? ==> Refers(rows[id], rows[id].digest);
    }
  }
}
