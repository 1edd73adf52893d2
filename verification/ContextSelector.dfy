/**
 Greedy selection of context candidates under a token budget (kitt/context/candidates.py).

 `terms` are the words the code extracts from path and content; the thresholds 0.80 and 0.85 are
 compared as fractions, and scores are real numbers.
 */
module ContextSelector {
  import opened Common
  import opened Orders

  datatype Representation = Body | SymbolBody | TargetedSlice | Slice | Skeleton | Summary | Unknown

  datatype Candidate = Candidate(
    id: string, path: string, start: Option<int>, end: Option<int>, hash: string, tokens: int,
    relevance: real, confidence: real, freshness: real, mandatory: bool, deps: seq<string>,
    representation: Representation, content: string, terms: set<string>)

  function Cost(c: Candidate): nat { Max(1, c.tokens) }

  /** `_range_overlap_ratio(a, b) >= num / den`, for a positive ratio. */
  predicate OverlapAtLeast(a: Candidate, b: Candidate, num: nat, den: nat) {
    && a.path != "" && a.path == b.path
    && a.start.Some? && a.end.Some? && b.start.Some? && b.end.Some?
    && a.start.value <= a.end.value && b.start.value <= b.end.value
    && var overlap := Min(a.end.value, b.end.value) - Max(a.start.value, b.start.value) + 1;
       var smaller := Min(a.end.value - a.start.value + 1, b.end.value - b.start.value + 1);
       overlap > 0 && den * overlap >= num * Max(1, smaller)
  }

  /** The Jaccard similarity of the terms is at least 0.85. */
  predicate TermsAlike(a: Candidate, b: Candidate) {
    a.terms != {} && b.terms != {} && 20 * |a.terms * b.terms| >= 17 * |a.terms + b.terms|
  }

  predicate Redundant(a: Candidate, b: Candidate) {
    (a.hash != "" && a.hash == b.hash) || OverlapAtLeast(a, b, 4, 5) || TermsAlike(a, b)
  }

  lemma {:induction false} RedundancyIsMutual(a: Candidate, b: Candidate)
    ensures Redundant(a, b) <==> Redundant(b, a)
  {
    assert a.terms * b.terms == b.terms * a.terms && a.terms + b.terms == b.terms + a.terms;
  }

  /** The numbers from `low` to `high`. */
  function Span(low: int, high: int): (r: set<int>)
    ensures forall l :: l in r <==> low <= l <= high
    ensures |r| == Max(0, high - low + 1)
    decreases high - low
  {
    if low <= high then Span(low, high - 1) + {high} else {}
  }

  /** The lines that a candidate covers. */
  function Lines(c: Candidate): set<int>
    requires c.start.Some? && c.end.Some?
  {
    Span(c.start.value, c.end.value)
  }

  ghost predicate Located(a: Candidate, b: Candidate) {
    a.path != "" && a.path == b.path && a.start.Some? && a.end.Some? && b.start.Some? && b.end.Some?
  }

  /** Overlap by sets of lines: at least `num / den` of the smaller one is shared. */
  lemma {:induction false} OverlapIsOfLines(a: Candidate, b: Candidate, num: nat, den: nat)
    requires num > 0
    ensures OverlapAtLeast(a, b, num, den) <==>
              (Located(a, b) && Lines(a) * Lines(b) != {} && den * |Lines(a) * Lines(b)| >= num * Min(|Lines(a)|, |Lines(b)|))
  {
    if Located(a, b) {
      var shared, smaller := SharedLines(a, b);
      assert shared > 0 ==> Max(1, smaller) == smaller;
    }
  }

  lemma {:induction false} SharedLines(a: Candidate, b: Candidate) returns (shared: int, smaller: int)
    requires Located(a, b)
    ensures shared == Min(a.end.value, b.end.value) - Max(a.start.value, b.start.value) + 1
    ensures smaller == Min(a.end.value - a.start.value + 1, b.end.value - b.start.value + 1)
    ensures |Lines(a) * Lines(b)| == Max(0, shared) && (Lines(a) * Lines(b) == {} <==> shared <= 0)
    ensures Min(|Lines(a)|, |Lines(b)|) == Max(0, smaller) && shared <= Max(0, smaller)
  {
    var low, high := Max(a.start.value, b.start.value), Min(a.end.value, b.end.value);
    shared, smaller := high - low + 1, Min(a.end.value - a.start.value + 1, b.end.value - b.start.value + 1);
    assert Lines(a) * Lines(b) == Span(low, high);
    assert shared <= 0 ==> Span(low, high) == {};
  }

  /** Two candidates are redundant when they have the same hash, share four fifths of the lines of the
      shorter, or have terms whose common part is seventeen twentieths of all of them. */
  lemma {:induction false} RedundantIff(a: Candidate, b: Candidate)
    ensures Redundant(a, b) <==>
              (|| (a.hash != "" && a.hash == b.hash)
               || (Located(a, b) && Lines(a) * Lines(b) != {} && 5 * |Lines(a) * Lines(b)| >= 4 * Min(|Lines(a)|, |Lines(b)|))
               || (a.terms != {} && b.terms != {} && 20 * |a.terms * b.terms| >= 17 * |a.terms + b.terms|))
  {
    OverlapIsOfLines(a, b, 4, 5);
  }

  function MarginalValue(c: Candidate): real {
    c.relevance * 0.6 + c.confidence * 0.3 + c.freshness * 0.1
  }

  function Density(c: Candidate): real { MarginalValue(c) / Cost(c) as real }

  /** The sort key, largest first. */
  predicate NoWorse(a: Candidate, b: Candidate) {
    Density(a) > Density(b) || (Density(a) == Density(b) && MarginalValue(a) >= MarginalValue(b))
  }

  /** Ten times the value of a candidate, and its cost in tokens. */
  function Worth(c: Candidate): real { 6.0 * c.relevance + 3.0 * c.confidence + c.freshness }

  function Price(c: Candidate): real { if c.tokens < 1 then 1.0 else c.tokens as real }

  /** More value per token. */
  ghost predicate Denser(c: Candidate, d: Candidate) { Worth(c) * Price(d) > Worth(d) * Price(c) }

  /** More value per token, or as much and no less value. */
  ghost predicate NoLessWorth(a: Candidate, b: Candidate) {
    Worth(a) * Price(b) > Worth(b) * Price(a) || (Worth(a) * Price(b) == Worth(b) * Price(a) && Worth(a) >= Worth(b))
  }

  lemma {:induction false} ScaleOrder(p: real, q: real, m: real)
    requires m > 0.0
    ensures (p > q <==> p * m > q * m) && (p == q <==> p * m == q * m)
  {
    if p > q { assert (p - q) * m > 0.0; }
    if p < q { assert (q - p) * m > 0.0; }
  }

  /** Comparing ratios without dividing. */
  lemma {:induction false} RatioOrder(x: real, a: real, y: real, b: real)
    requires a > 0.0 && b > 0.0
    ensures (x / a > y / b <==> x * b > y * a) && (x / a == y / b <==> x * b == y * a)
  {
    var p, q := x / a, y / b;
    assert p * a == x && q * b == y;
    assert p * (a * b) == x * b && q * (a * b) == y * a;
    assert a * b > 0.0;
    ScaleOrder(p, q, a * b);
  }

  /** The sort key: more value per token first, and more value among those with as much. */
  lemma {:induction false} NoWorseIff(a: Candidate, b: Candidate)
    ensures NoWorse(a, b) <==> NoLessWorth(a, b)
  {
    RatioOrder(MarginalValue(a), Price(a), MarginalValue(b), Price(b));
    TenTimes(a, b);
    TenTimes(b, a);
  }

  lemma {:induction false} TenTimes(a: Candidate, b: Candidate)
    ensures Worth(a) == 10.0 * MarginalValue(a) && Price(a) == Cost(a) as real
    ensures Worth(a) * Price(b) == 10.0 * (MarginalValue(a) * Price(b))
  {
  }

  // ---------------------------------------------------------------- the selection as a value

  /** What the selection depends on: the redundancy test, the order of the queue, the budget and the
      candidates by id. */
  datatype Rules = Rules(
    redundant: (Candidate, Candidate) -> bool, better: (Candidate, Candidate) -> bool, budget: nat, byId: map<string, Candidate>)

  datatype Picks = Picks(selected: seq<Candidate>, discarded: seq<Candidate>, spent: nat)

  predicate HasId(cs: seq<Candidate>, id: string) {
    exists i :: 0 <= i < |cs| && cs[i].id == id
  }

  predicate TooRedundant(r: Rules, c: Candidate, selected: seq<Candidate>) {
    exists i :: 0 <= i < |selected| && r.redundant(c, selected[i])
  }

  /** The candidate cannot be added: it is redundant (where that is checked) or too dear. */
  predicate Blocked(r: Rules, p: Picks, c: Candidate, check: bool) {
    (check && TooRedundant(r, c, p.selected)) || p.spent + Cost(c) > r.budget
  }

  function Offer(r: Rules, p: Picks, c: Candidate, check: bool): Picks {
    if HasId(p.selected, c.id) then p
    else if Blocked(r, p, c, check) then p.(discarded := p.discarded + [c])
    else Picks(p.selected + [c], p.discarded, p.spent + Cost(c))
  }

  function OfferDeps(r: Rules, p: Picks, deps: seq<string>): Picks {
    if deps == [] then p
    else
      var q := OfferDeps(r, p, deps[..|deps| - 1]);
      var dep := deps[|deps| - 1];
      if dep in r.byId then Offer(r, q, r.byId[dep], true) else q
  }

  /** A candidate's turn: itself, then, if it is selected, its direct dependencies. */
  function Turn(r: Rules, p: Picks, c: Candidate, check: bool): Picks {
    var q := Offer(r, p, c, check);
    if HasId(q.selected, c.id) then OfferDeps(r, q, c.deps) else q
  }

  function Turns(r: Rules, p: Picks, cs: seq<Candidate>, check: bool): Picks {
    if cs == [] then p else Turn(r, Turns(r, p, cs[..|cs| - 1], check), cs[|cs| - 1], check)
  }

  function Mandatory(cs: seq<Candidate>): seq<Candidate> {
    if cs == [] then []
    else Mandatory(cs[..|cs| - 1]) + if cs[|cs| - 1].mandatory then [cs[|cs| - 1]] else []
  }

  function Remaining(cs: seq<Candidate>, selected: seq<Candidate>): seq<Candidate> {
    if cs == [] then []
    else
      var c := cs[|cs| - 1];
      Remaining(cs[..|cs| - 1], selected) + if !c.mandatory && !HasId(selected, c.id) then [c] else []
  }

  function ById(cs: seq<Candidate>): map<string, Candidate> {
    if cs == [] then map[] else ById(cs[..|cs| - 1])[cs[|cs| - 1].id := cs[|cs| - 1]]
  }

  const NOTHING := Picks([], [], 0)

  function RulesFor(pool: seq<Candidate>, budget: int): Rules {
    Rules(Redundant, NoWorse, Max(0, budget), ById(pool))
  }

  function AfterMandatory(r: Rules, pool: seq<Candidate>): Picks {
    Turns(r, NOTHING, Mandatory(pool), false)
  }

  function Queue(r: Rules, pool: seq<Candidate>): seq<Candidate> {
    Sort(Remaining(pool, AfterMandatory(r, pool).selected), r.better)
  }

  function Selected(r: Rules, pool: seq<Candidate>): Picks {
    Turns(r, AfterMandatory(r, pool), Queue(r, pool), true)
  }

  // ---------------------------------------------------------------- what every turn keeps

  function TotalCost(cs: seq<Candidate>): nat {
    if cs == [] then 0 else TotalCost(cs[..|cs| - 1]) + Cost(cs[|cs| - 1])
  }

  ghost predicate DistinctIds(cs: seq<Candidate>) {
    forall i, j :: 0 <= i < j < |cs| ==> cs[i].id != cs[j].id
  }

  /** No optional candidate repeats one selected before it. */
  ghost predicate Diverse(r: Rules, selected: seq<Candidate>) {
    forall i, j :: 0 <= i < j < |selected| && !selected[j].mandatory ==> !r.redundant(selected[j], selected[i])
  }

  ghost predicate Drawn(cs: seq<Candidate>, pool: seq<Candidate>) {
    forall i :: 0 <= i < |cs| ==> cs[i] in pool
  }

  ghost predicate Sound(r: Rules, pool: seq<Candidate>, p: Picks) {
    && p.spent == TotalCost(p.selected) <= r.budget
    && Drawn(p.selected, pool) && Drawn(p.discarded, pool)
    && DistinctIds(p.selected) && Diverse(r, p.selected)
  }

  ghost predicate Indexed(r: Rules, pool: seq<Candidate>) {
    forall id :: id in r.byId ==> r.byId[id] in pool && r.byId[id].id == id
  }

  ghost predicate Grown(p: Picks, q: Picks) {
    p.selected <= q.selected && p.discarded <= q.discarded && p.spent <= q.spent
  }

  /** Dealt with: selected, or recorded as discarded and impossible to add. */
  ghost predicate Resolved(r: Rules, p: Picks, c: Candidate) {
    HasId(p.selected, c.id) || (c in p.discarded && Blocked(r, p, c, !c.mandatory))
  }

  lemma {:induction false} DistinctSnoc(cs: seq<Candidate>, c: Candidate)
    requires DistinctIds(cs) && !HasId(cs, c.id)
    ensures DistinctIds(cs + [c])
  {
    var ds := cs + [c];
    forall i, j | 0 <= i < j < |ds| ensures ds[i].id != ds[j].id {
      assert ds[i] == cs[i];
    }
  }

  lemma {:induction false} DiverseSnoc(r: Rules, cs: seq<Candidate>, c: Candidate)
    requires Diverse(r, cs) && (c.mandatory || !TooRedundant(r, c, cs))
    ensures Diverse(r, cs + [c])
  {
    var ds := cs + [c];
    forall i, j | 0 <= i < j < |ds| && !ds[j].mandatory ensures !r.redundant(ds[j], ds[i]) {
      assert ds[i] == cs[i];
      if j < |cs| { assert ds[j] == cs[j]; }
    }
  }

  lemma {:induction false} DrawnSnoc(cs: seq<Candidate>, c: Candidate, pool: seq<Candidate>)
    requires Drawn(cs, pool) && c in pool
    ensures Drawn(cs + [c], pool)
  {
    forall i | 0 <= i < |cs + [c]| ensures (cs + [c])[i] in pool {
      if i < |cs| { assert (cs + [c])[i] == cs[i]; }
    }
  }

  lemma {:induction false} TotalCostSnoc(cs: seq<Candidate>, c: Candidate)
    ensures TotalCost(cs + [c]) == TotalCost(cs) + Cost(c)
  {
    assert (cs + [c])[..|cs|] == cs;
  }

  lemma {:induction false} OfferKeeps(r: Rules, pool: seq<Candidate>, p: Picks, c: Candidate, check: bool)
    requires Sound(r, pool, p) && c in pool && (check || c.mandatory)
    ensures Sound(r, pool, Offer(r, p, c, check)) && Grown(p, Offer(r, p, c, check))
  {
    if HasId(p.selected, c.id) {
    } else if Blocked(r, p, c, check) {
      DrawnSnoc(p.discarded, c, pool);
    } else {
      TakenKeeps(r, pool, p, c);
    }
  }

  lemma {:induction false} TakenKeeps(r: Rules, pool: seq<Candidate>, p: Picks, c: Candidate)
    requires Sound(r, pool, p) && c in pool && !HasId(p.selected, c.id)
    requires c.mandatory || !TooRedundant(r, c, p.selected)
    requires p.spent + Cost(c) <= r.budget
    ensures Sound(r, pool, Picks(p.selected + [c], p.discarded, p.spent + Cost(c)))
  {
    DistinctSnoc(p.selected, c);
    DiverseSnoc(r, p.selected, c);
    DrawnSnoc(p.selected, c, pool);
    TotalCostSnoc(p.selected, c);
  }

  lemma {:induction false} OfferDepsKeeps(r: Rules, pool: seq<Candidate>, p: Picks, deps: seq<string>)
    requires Sound(r, pool, p) && Indexed(r, pool)
    ensures Sound(r, pool, OfferDeps(r, p, deps)) && Grown(p, OfferDeps(r, p, deps))
  {
    if deps != [] {
      var dep := deps[|deps| - 1];
      OfferDepsKeeps(r, pool, p, deps[..|deps| - 1]);
      if dep in r.byId { OfferKeeps(r, pool, OfferDeps(r, p, deps[..|deps| - 1]), r.byId[dep], true); }
    }
  }

  lemma {:induction false} HasIdSnoc(cs: seq<Candidate>, c: Candidate)
    ensures forall id :: HasId(cs + [c], id) <==> HasId(cs, id) || id == c.id
  {
    assert (cs + [c])[|cs|] == c;
    forall id | HasId(cs, id) ensures HasId(cs + [c], id) {
      var i :| 0 <= i < |cs| && cs[i].id == id;
      assert (cs + [c])[i].id == id;
    }
  }

  lemma {:induction false} HasIdGrows(p: Picks, q: Picks, id: string)
    requires Grown(p, q) && HasId(p.selected, id)
    ensures HasId(q.selected, id)
  {
    var i :| 0 <= i < |p.selected| && p.selected[i].id == id;
    assert q.selected[i] == p.selected[i];
  }

  lemma {:induction false} BlockedGrows(r: Rules, p: Picks, q: Picks, c: Candidate, check: bool)
    requires Grown(p, q) && Blocked(r, p, c, check)
    ensures Blocked(r, q, c, check)
  {
    if check && TooRedundant(r, c, p.selected) {
      var i :| 0 <= i < |p.selected| && r.redundant(c, p.selected[i]);
      assert q.selected[i] == p.selected[i];
    }
  }

  lemma {:induction false} ResolvedGrows(r: Rules, p: Picks, q: Picks, c: Candidate)
    requires Grown(p, q) && Resolved(r, p, c)
    ensures Resolved(r, q, c)
  {
    if HasId(p.selected, c.id) {
      HasIdGrows(p, q, c.id);
    } else {
      BlockedGrows(r, p, q, c, !c.mandatory);
    }
  }

  /** One offer resolves its candidate, and refuses it only for cause. */
  lemma {:induction false} OfferResolves(r: Rules, p: Picks, c: Candidate)
    ensures Resolved(r, Offer(r, p, c, !c.mandatory), c)
    ensures HasId(Offer(r, p, c, !c.mandatory).selected, c.id)
         || (Offer(r, p, c, !c.mandatory) == p.(discarded := p.discarded + [c]) && Blocked(r, p, c, !c.mandatory))
  {
    if !HasId(p.selected, c.id) && !Blocked(r, p, c, !c.mandatory) {
      assert (p.selected + [c])[|p.selected|] == c;
    }
  }

  lemma {:induction false} TurnKeeps(r: Rules, pool: seq<Candidate>, p: Picks, c: Candidate)
    requires Sound(r, pool, p) && Indexed(r, pool) && c in pool
    ensures var q := Turn(r, p, c, !c.mandatory);
      Sound(r, pool, q) && Grown(p, q) && Resolved(r, q, c)
      && (HasId(q.selected, c.id) || Blocked(r, p, c, !c.mandatory))
  {
    var o := Offer(r, p, c, !c.mandatory);
    OfferKeeps(r, pool, p, c, !c.mandatory);
    OfferResolves(r, p, c);
    if HasId(o.selected, c.id) {
      OfferDepsKeeps(r, pool, o, c.deps);
      HasIdGrows(o, OfferDeps(r, o, c.deps), c.id);
    }
  }

  /** A list of offers to candidates of one kind. */
  ghost predicate OneKind(cs: seq<Candidate>, pool: seq<Candidate>, check: bool) {
    forall i :: 0 <= i < |cs| ==> cs[i] in pool && cs[i].mandatory == !check
  }

  lemma {:induction false} TurnsKeep(r: Rules, pool: seq<Candidate>, p: Picks, cs: seq<Candidate>, check: bool)
    requires Sound(r, pool, p) && Indexed(r, pool) && OneKind(cs, pool, check)
    ensures Sound(r, pool, Turns(r, p, cs, check)) && Grown(p, Turns(r, p, cs, check))
  {
    if cs != [] {
      TurnsKeep(r, pool, p, cs[..|cs| - 1], check);
      TurnKeeps(r, pool, Turns(r, p, cs[..|cs| - 1], check), cs[|cs| - 1]);
    }
  }

  lemma {:induction false} TurnsGrow(r: Rules, pool: seq<Candidate>, p: Picks, cs: seq<Candidate>, k: nat, check: bool)
    requires Sound(r, pool, p) && Indexed(r, pool) && OneKind(cs, pool, check) && k <= |cs|
    ensures Grown(Turns(r, p, cs[..k], check), Turns(r, p, cs, check))
  {
    if k == |cs| {
      assert cs[..k] == cs;
    } else {
      var init := cs[..|cs| - 1];
      TurnsGrow(r, pool, p, init, k, check);
      assert init[..k] == cs[..k];
      TurnsKeep(r, pool, p, init, check);
      TurnKeeps(r, pool, Turns(r, p, init, check), cs[|cs| - 1]);
    }
  }

  /** Each candidate of the list is resolved at the end, and if refused, was refused at its own turn. */
  lemma {:induction false} TurnsResolve(r: Rules, pool: seq<Candidate>, p: Picks, cs: seq<Candidate>, k: nat, check: bool)
    requires Sound(r, pool, p) && Indexed(r, pool) && OneKind(cs, pool, check) && k < |cs|
    ensures Resolved(r, Turns(r, p, cs, check), cs[k])
    ensures HasId(Turns(r, p, cs, check).selected, cs[k].id) || Blocked(r, Turns(r, p, cs[..k], check), cs[k], check)
  {
    var before, after, end := Turns(r, p, cs[..k], check), Turns(r, p, cs[..k + 1], check), Turns(r, p, cs, check);
    TurnsKeep(r, pool, p, cs[..k], check);
    TurnKeeps(r, pool, before, cs[k]);
    assert cs[..k + 1][..k] == cs[..k];
    TurnsGrow(r, pool, p, cs, k + 1, check);
    ResolvedGrows(r, after, end, cs[k]);
    if HasId(after.selected, cs[k].id) { HasIdGrows(after, end, cs[k].id); }
  }

  // ---------------------------------------------------------------- the whole selection

  lemma {:induction false} ByIdIndexes(pool: seq<Candidate>, k: nat)
    requires k <= |pool|
    ensures forall id :: id in ById(pool[..k]) ==> ById(pool[..k])[id] in pool && ById(pool[..k])[id].id == id
  {
    if k > 0 {
      ByIdIndexes(pool, k - 1);
      assert pool[..k][..k - 1] == pool[..k - 1];
    }
  }

  lemma {:induction false} RulesAreIndexed(pool: seq<Candidate>, budget: int)
    ensures Indexed(RulesFor(pool, budget), pool)
  {
    ByIdIndexes(pool, |pool|);
    assert pool[..|pool|] == pool;
  }

  lemma {:induction false} MandatoryMembers(pool: seq<Candidate>, c: Candidate)
    ensures c in Mandatory(pool) <==> c in pool && c.mandatory
  {
    if pool != [] {
      MandatoryMembers(pool[..|pool| - 1], c);
      assert pool == pool[..|pool| - 1] + [pool[|pool| - 1]];
    }
  }

  lemma {:induction false} RemainingMembers(pool: seq<Candidate>, selected: seq<Candidate>, c: Candidate)
    ensures c in Remaining(pool, selected) <==> c in pool && !c.mandatory && !HasId(selected, c.id)
  {
    if pool != [] {
      RemainingMembers(pool[..|pool| - 1], selected, c);
      assert pool == pool[..|pool| - 1] + [pool[|pool| - 1]];
    }
  }

  lemma {:induction false} PhasesAreOneKind(r: Rules, pool: seq<Candidate>)
    ensures OneKind(Mandatory(pool), pool, false) && OneKind(Queue(r, pool), pool, true)
  {
    var m, q := Mandatory(pool), Queue(r, pool);
    forall i | 0 <= i < |m| ensures m[i] in pool && m[i].mandatory { MandatoryMembers(pool, m[i]); }
    forall i | 0 <= i < |q| ensures q[i] in pool && !q[i].mandatory { QueueMembers(r, pool, q[i]); }
  }

  lemma {:induction false} QueueMembers(r: Rules, pool: seq<Candidate>, c: Candidate)
    ensures c in Queue(r, pool) <==> c in pool && !c.mandatory && !HasId(AfterMandatory(r, pool).selected, c.id)
  {
    SortMembers(Remaining(pool, AfterMandatory(r, pool).selected), r.better);
    RemainingMembers(pool, AfterMandatory(r, pool).selected, c);
  }

  /** The selection stays within the budget, takes each id once and only from the candidates, and no
      optional candidate repeats an earlier choice. */
  lemma {:induction false} SelectionIsSound(r: Rules, pool: seq<Candidate>)
    requires Indexed(r, pool)
    ensures Sound(r, pool, AfterMandatory(r, pool)) && Sound(r, pool, Selected(r, pool))
    ensures Grown(AfterMandatory(r, pool), Selected(r, pool))
  {
    PhasesAreOneKind(r, pool);
    TurnsKeep(r, pool, NOTHING, Mandatory(pool), false);
    TurnsKeep(r, pool, AfterMandatory(r, pool), Queue(r, pool), true);
  }

  /** It is maximal: whatever was left out is in the discarded list and could not be added to the
      final selection either. */
  lemma {:induction false} SelectionIsMaximal(r: Rules, pool: seq<Candidate>, c: Candidate)
    requires Indexed(r, pool) && c in pool
    ensures Resolved(r, Selected(r, pool), c)
  {
    SelectionIsSound(r, pool);
    PhasesAreOneKind(r, pool);
    var first, end := AfterMandatory(r, pool), Selected(r, pool);
    if c.mandatory {
      MandatoryMembers(pool, c);
      var k :| 0 <= k < |Mandatory(pool)| && Mandatory(pool)[k] == c;
      TurnsResolve(r, pool, NOTHING, Mandatory(pool), k, false);
      ResolvedGrows(r, first, end, c);
    } else if HasId(first.selected, c.id) {
      HasIdGrows(first, end, c.id);
    } else {
      QueueMembers(r, pool, c);
      var k :| 0 <= k < |Queue(r, pool)| && Queue(r, pool)[k] == c;
      TurnsResolve(r, pool, first, Queue(r, pool), k, true);
    }
  }

  lemma {:induction false} NoWorseIsPreorder()
    ensures TotalPreorder(NoWorse)
  {
  }

  lemma {:induction false} QueueIsOrdered(r: Rules, pool: seq<Candidate>, j: nat, k: nat)
    requires TotalPreorder(r.better) && j < k < |Queue(r, pool)|
    ensures r.better(Queue(r, pool)[j], Queue(r, pool)[k])
  {
    SortOrdered(Remaining(pool, AfterMandatory(r, pool).selected), r.better);
  }

  /** An optional candidate is only refused on account of the mandatory candidates and of optional
      ones with a key no worse than its own, each with its dependencies. */
  lemma {:induction false} RefusedBehindBetter(r: Rules, pool: seq<Candidate>, c: Candidate) returns (k: nat)
    requires TotalPreorder(r.better)
    requires Indexed(r, pool) && c in pool && !c.mandatory && !HasId(Selected(r, pool).selected, c.id)
    ensures k < |Queue(r, pool)| && Queue(r, pool)[k] == c
    ensures forall j :: 0 <= j < k ==> r.better(Queue(r, pool)[j], c)
    ensures Blocked(r, Turns(r, AfterMandatory(r, pool), Queue(r, pool)[..k], true), c, true)
  {
    var first, q := AfterMandatory(r, pool), Queue(r, pool);
    SelectionIsSound(r, pool);
    PhasesAreOneKind(r, pool);
    if HasId(first.selected, c.id) { HasIdGrows(first, Selected(r, pool), c.id); }
    QueueMembers(r, pool, c);
    k :| 0 <= k < |q| && q[k] == c;
    TurnsResolve(r, pool, first, q, k, true);
    forall j | 0 <= j < k ensures r.better(q[j], c) { QueueIsOrdered(r, pool, j, k); }
  }

  /** An optional candidate that no other is as good as is selected whenever the mandatory ones leave
      room for it. */
  lemma {:induction false} BestIsSelected(r: Rules, pool: seq<Candidate>, c: Candidate)
    requires TotalPreorder(r.better)
    requires Indexed(r, pool) && c in pool && !c.mandatory && !Blocked(r, AfterMandatory(r, pool), c, true)
    requires forall d :: d in pool && !d.mandatory && d != c ==> !r.better(d, c)
    ensures HasId(Selected(r, pool).selected, c.id)
  {
    var first, q := AfterMandatory(r, pool), Queue(r, pool);
    SelectionIsSound(r, pool);
    PhasesAreOneKind(r, pool);
    if HasId(first.selected, c.id) {
      HasIdGrows(first, Selected(r, pool), c.id);
    } else {
      QueueMembers(r, pool, c);
      var k :| 0 <= k < |q| && q[k] == c;
      QueueMembers(r, pool, q[0]);
      if q[0] != c { QueueIsOrdered(r, pool, 0, k); }
      TurnsResolve(r, pool, first, q, 0, true);
      assert q[..0] == [];
    }
  }

  // ---------------------------------------------------------------- value per token

  lemma {:induction false} QueueFollows(r: Rules, pool: seq<Candidate>, rel: (Candidate, Candidate) -> bool, j: nat, k: nat)
    requires TotalPreorder(r.better) && j < k < |Queue(r, pool)|
    requires forall a, b :: r.better(a, b) ==> rel(a, b)
    ensures rel(Queue(r, pool)[j], Queue(r, pool)[k])
  {
    QueueIsOrdered(r, pool, j, k);
  }

  lemma {:induction false} NoWorseFollows()
    ensures forall a, b :: NoWorse(a, b) ==> NoLessWorth(a, b)
  {
    forall a, b | NoWorse(a, b) ensures NoLessWorth(a, b) { NoWorseIff(a, b); }
  }

  /** The queue runs from the most value per token to the least. */
  lemma {:induction false} QueueIsByWorth(pool: seq<Candidate>, budget: int, j: nat, k: nat)
    requires j < k < |Queue(RulesFor(pool, budget), pool)|
    ensures NoLessWorth(Queue(RulesFor(pool, budget), pool)[j], Queue(RulesFor(pool, budget), pool)[k])
  {
    NoWorseIsPreorder();
    NoWorseFollows();
    QueueFollows(RulesFor(pool, budget), pool, NoLessWorth, j, k);
  }

  /** Candidates with the same key queue in the order given. */
  lemma {:induction false} QueueKeepsTies(pool: seq<Candidate>, budget: int, c: Candidate)
    ensures var r, alike := RulesFor(pool, budget), AlikeTo(NoWorse, c);
      Those(Queue(r, pool), alike) == Those(Remaining(pool, AfterMandatory(r, pool).selected), alike)
  {
    NoWorseIsPreorder();
    SortIsStable(Remaining(pool, AfterMandatory(RulesFor(pool, budget), pool).selected), NoWorse, c);
  }

  lemma {:induction false} DenserIsBetter(c: Candidate, d: Candidate)
    requires Denser(c, d)
    ensures !NoWorse(d, c)
  {
    NoWorseIff(d, c);
  }

  /** An optional candidate with more value per token than any other is selected whenever the mandatory
      ones leave room for it. */
  lemma {:induction false} DensestIsSelected(pool: seq<Candidate>, budget: int, c: Candidate)
    requires c in pool && !c.mandatory
    requires var r := RulesFor(pool, budget); !Blocked(r, AfterMandatory(r, pool), c, true)
    requires forall d :: d in pool && !d.mandatory && d != c ==> Denser(c, d)
    ensures HasId(Selected(RulesFor(pool, budget), pool).selected, c.id)
  {
    var r := RulesFor(pool, budget);
    RulesAreIndexed(pool, budget);
    NoWorseIsPreorder();
    forall d | d in pool && !d.mandatory && d != c ensures !r.better(d, c) { DenserIsBetter(c, d); }
    BestIsSelected(r, pool, c);
  }

  lemma {:induction false} TwoCost(cs: seq<Candidate>, i: nat, j: nat)
    requires i < |cs| && j < |cs| && i != j
    ensures TotalCost(cs) >= Cost(cs[i]) + Cost(cs[j])
  {
    var init := cs[..|cs| - 1];
    if i == |init| {
      OneCost(init, j);
    } else if j == |init| {
      OneCost(init, i);
    } else {
      TwoCost(init, i, j);
    }
  }

  lemma {:induction false} OneCost(cs: seq<Candidate>, i: nat)
    requires i < |cs|
    ensures TotalCost(cs) >= Cost(cs[i])
  {
    if i < |cs| - 1 { OneCost(cs[..|cs| - 1], i); }
  }

  lemma {:induction false} BetterOfTwo(r: Rules, pool: seq<Candidate>, a: Candidate, b: Candidate)
    requires TotalPreorder(r.better) && Indexed(r, pool) && (pool == [a, b] || pool == [b, a])
    requires !a.mandatory && !b.mandatory && a.id != b.id && !r.better(b, a)
    requires Cost(a) <= r.budget && Cost(b) <= r.budget < Cost(a) + Cost(b)
    ensures HasId(Selected(r, pool).selected, a.id) && !HasId(Selected(r, pool).selected, b.id)
  {
    NoMandatory(pool);
    BestIsSelected(r, pool, a);
    SelectionIsSound(r, pool);
    NotBoth(r, pool, Selected(r, pool), a, b);
  }

  lemma {:induction false} NotBoth(r: Rules, pool: seq<Candidate>, p: Picks, a: Candidate, b: Candidate)
    requires Sound(r, pool, p) && (pool == [a, b] || pool == [b, a]) && a.id != b.id
    requires r.budget < Cost(a) + Cost(b) && HasId(p.selected, a.id)
    ensures !HasId(p.selected, b.id)
  {
    var s := p.selected;
    if HasId(s, b.id) {
      var i :| 0 <= i < |s| && s[i].id == a.id;
      var j :| 0 <= j < |s| && s[j].id == b.id;
      assert s[i] in pool && s[j] in pool;
      TwoCost(s, i, j);
    }
  }

  /** Of two optional candidates that fit one at a time, the one of more value per token is selected. */
  lemma {:induction false} DenserOfTwo(pool: seq<Candidate>, budget: nat, a: Candidate, b: Candidate)
    requires pool == [a, b] || pool == [b, a]
    requires !a.mandatory && !b.mandatory && a.id != b.id && Denser(a, b)
    requires Cost(a) <= budget && Cost(b) <= budget < Cost(a) + Cost(b)
    ensures var s := Selected(RulesFor(pool, budget), pool).selected; HasId(s, a.id) && !HasId(s, b.id)
  {
    RulesAreIndexed(pool, budget);
    NoWorseIsPreorder();
    DenserIsBetter(a, b);
    BetterOfTwo(RulesFor(pool, budget), pool, a, b);
  }

  lemma {:induction false} NoMandatory(pool: seq<Candidate>)
    requires forall i :: 0 <= i < |pool| ==> !pool[i].mandatory
    ensures Mandatory(pool) == []
  {
    if pool != [] { NoMandatory(pool[..|pool| - 1]); }
  }

  // ---------------------------------------------------------------- dependencies and indexes

  /** The direct dependencies of a candidate that is taken have had their offer when its turn is over. */
  lemma {:induction false} DependenciesFollow(r: Rules, pool: seq<Candidate>, p: Picks, c: Candidate, dep: string)
    requires Sound(r, pool, p) && Indexed(r, pool) && c in pool && dep in c.deps && dep in r.byId
    requires HasId(Turn(r, p, c, !c.mandatory).selected, c.id)
    ensures var q := Turn(r, p, c, !c.mandatory);
      HasId(q.selected, dep) || (r.byId[dep] in q.discarded && Blocked(r, q, r.byId[dep], true))
  {
    var o := Offer(r, p, c, !c.mandatory);
    OfferKeeps(r, pool, p, c, !c.mandatory);
    OfferResolves(r, p, c);
    assert HasId(o.selected, c.id);
    OfferDepsResolves(r, pool, o, c.deps, dep);
  }

  lemma {:induction false} OfferDepsResolves(r: Rules, pool: seq<Candidate>, p: Picks, deps: seq<string>, dep: string)
    requires Sound(r, pool, p) && Indexed(r, pool) && dep in deps && dep in r.byId
    ensures var q := OfferDeps(r, p, deps);
      HasId(q.selected, dep) || (r.byId[dep] in q.discarded && Blocked(r, q, r.byId[dep], true))
  {
    var init, last := deps[..|deps| - 1], deps[|deps| - 1];
    assert deps == init + [last];
    var before, after := OfferDeps(r, p, init), OfferDeps(r, p, deps);
    OfferDepsKeeps(r, pool, p, init);
    if last in r.byId {
      OfferKeeps(r, pool, before, r.byId[last], true);
      HasIdSnoc(before.selected, r.byId[last]);
    }
    if dep != last {
      OfferDepsResolves(r, pool, p, init, dep);
      if HasId(before.selected, dep) { HasIdGrows(before, after, dep); } else { BlockedGrows(r, before, after, r.byId[dep], true); }
    }
  }

  /** The index holds the last candidate under each id. */
  lemma {:induction false} ByIdHoldsLast(pool: seq<Candidate>, id: string)
    ensures id in ById(pool) <==> HasId(pool, id)
    ensures id in ById(pool) ==> exists i: nat :: LastWithId(pool, id, i) && ById(pool)[id] == pool[i]
  {
    if pool != [] {
      var init, last := pool[..|pool| - 1], |pool| - 1;
      ByIdHoldsLast(init, id);
      assert pool == init + [pool[last]];
      HasIdSnoc(init, pool[last]);
      if pool[last].id == id {
        assert LastWithId(pool, id, last);
      } else if id in ById(init) {
        var i: nat :| LastWithId(init, id, i) && ById(init)[id] == init[i];
        assert pool[i] == init[i] && LastWithId(pool, id, i);
      }
    }
  }

  ghost predicate LastWithId(pool: seq<Candidate>, id: string, i: nat) {
    i < |pool| && pool[i].id == id && forall j :: i < j < |pool| ==> pool[j].id != id
  }

  /** The mandatory and the remaining candidates come in the order given. */
  lemma {:induction false} MandatoryKeepsOrder(a: seq<Candidate>, b: seq<Candidate>)
    ensures Mandatory(a + b) == Mandatory(a) + Mandatory(b)
  {
    if b == [] {
      assert a + b == a;
    } else {
      var init, c := b[..|b| - 1], b[|b| - 1];
      MandatoryKeepsOrder(a, init);
      assert (a + b)[..|a + b| - 1] == a + init && (a + b)[|a + b| - 1] == c;
      var last := if c.mandatory then [c] else [];
      assert Mandatory(a + b) == Mandatory(a + init) + last && Mandatory(b) == Mandatory(init) + last;
    }
  }

  lemma {:induction false} RemainingKeepsOrder(a: seq<Candidate>, b: seq<Candidate>, selected: seq<Candidate>)
    ensures Remaining(a + b, selected) == Remaining(a, selected) + Remaining(b, selected)
  {
    if b == [] {
      assert a + b == a;
    } else {
      var init, c := b[..|b| - 1], b[|b| - 1];
      RemainingKeepsOrder(a, init, selected);
      assert (a + b)[..|a + b| - 1] == a + init && (a + b)[|a + b| - 1] == c;
      var last := if !c.mandatory && !HasId(selected, c.id) then [c] else [];
      assert Remaining(a + b, selected) == Remaining(a + init, selected) + last;
      assert Remaining(b, selected) == Remaining(init, selected) + last;
    }
  }

  /** Any two selected optional candidates are mutually non-redundant. */
  lemma {:induction false} SelectionIsDiverse(pool: seq<Candidate>, budget: int, a: Candidate, b: Candidate)
    requires a in Selected(RulesFor(pool, budget), pool).selected && b in Selected(RulesFor(pool, budget), pool).selected
    requires a.id != b.id && !a.mandatory && !b.mandatory
    ensures !Redundant(a, b)
  {
    var r := RulesFor(pool, budget);
    var s := Selected(r, pool).selected;
    RulesAreIndexed(pool, budget);
    SelectionIsSound(r, pool);
    RedundancyIsMutual(a, b);
    var i :| 0 <= i < |s| && s[i] == a;
    var j :| 0 <= j < |s| && s[j] == b;
    assert r.redundant(a, b) == Redundant(a, b) && r.redundant(b, a) == Redundant(b, a);
    if i < j { assert !r.redundant(s[j], s[i]); } else { assert !r.redundant(s[i], s[j]); }
  }

  /** The turn of a mandatory candidate that has no dependencies and fits. */
  lemma {:induction false} FittingTurn(r: Rules, p: Picks, c: Candidate)
    requires c.deps == [] && p.spent + Cost(c) <= r.budget
    ensures HasId(Turn(r, p, c, false).selected, c.id) && Turn(r, p, c, false).spent <= p.spent + Cost(c)
  {
    HasIdSnoc(p.selected, c);
  }

  ghost predicate AllPicked(cs: seq<Candidate>, p: Picks) {
    forall i :: 0 <= i < |cs| ==> HasId(p.selected, cs[i].id)
  }

  lemma {:induction false} AllPickedGrows(cs: seq<Candidate>, p: Picks, q: Picks)
    requires AllPicked(cs, p) && Grown(p, q)
    ensures AllPicked(cs, q)
  {
    forall i | 0 <= i < |cs| ensures HasId(q.selected, cs[i].id) { HasIdGrows(p, q, cs[i].id); }
  }

  /** Mandatory candidates without dependencies are all selected when they fit together. */
  lemma {:induction false} MandatoryAllFit(r: Rules, pool: seq<Candidate>, cs: seq<Candidate>)
    requires Indexed(r, pool) && OneKind(cs, pool, false) && TotalCost(cs) <= r.budget
    requires forall i :: 0 <= i < |cs| ==> cs[i].deps == []
    ensures Turns(r, NOTHING, cs, false).spent <= TotalCost(cs) && AllPicked(cs, Turns(r, NOTHING, cs, false))
  {
    if cs != [] {
      var init, c := cs[..|cs| - 1], cs[|cs| - 1];
      MandatoryAllFit(r, pool, init);
      var p, q := Turns(r, NOTHING, init, false), Turns(r, NOTHING, cs, false);
      FittingTurn(r, p, c);
      TurnsKeep(r, pool, NOTHING, init, false);
      TurnKeeps(r, pool, p, c);
      AllPickedGrows(init, p, q);
    }
  }

  lemma {:induction false} MandatorySurvive(r: Rules, pool: seq<Candidate>, c: Candidate)
    requires Indexed(r, pool) && TotalCost(Mandatory(pool)) <= r.budget
    requires forall d :: d in pool && d.mandatory ==> d.deps == []
    requires c in pool && c.mandatory
    ensures HasId(Selected(r, pool).selected, c.id)
  {
    PhasesAreOneKind(r, pool);
    SelectionIsSound(r, pool);
    MandatoryAllFit(r, pool, Mandatory(pool));
    MandatoryMembers(pool, c);
    HasIdGrows(AfterMandatory(r, pool), Selected(r, pool), c.id);
  }

  // ---------------------------------------------------------------- the code

  /** The variables that `select_candidates` and its two local functions share. */
  class Selection {
    const budget: nat
    const byId: map<string, Candidate>
    var selected: seq<Candidate>
    var discarded: seq<Candidate>
    var ids: set<string>
    var spent: nat

    ghost predicate Valid()
      reads this
    {
      && (forall id :: id in ids <==> HasId(selected, id))
      && (forall id :: id in byId ==> byId[id].id == id)
    }

    ghost function Law(): Rules { Rules(Redundant, NoWorse, budget, byId) }

    ghost function View(): Picks
      reads this
    {
      Picks(selected, discarded, spent)
    }

    constructor (budget: nat, byId: map<string, Candidate>)
      requires forall id :: id in byId ==> byId[id].id == id
      ensures Valid() && View() == NOTHING && this.budget == budget && this.byId == byId
    {
      this.budget, this.byId := budget, byId;
      selected, discarded, ids, spent := [], [], {}, 0;
    }

    /** `_too_redundant`. */
    method CheckRedundant(c: Candidate) returns (redundant: bool)
      ensures redundant <==> TooRedundant(Law(), c, selected)
    {
      for k := 0 to |selected|
        invariant forall i :: 0 <= i < k ==> !Redundant(c, selected[i])
      {
        if Redundant(c, selected[k]) {
          assert Law().redundant(c, selected[k]);
          return true;
        }
      }
      return false;
    }

    method TryAdd(c: Candidate, checkRedundancy: bool) returns (added: bool)
      requires Valid()
      modifies this
      ensures Valid() && View() == Offer(Law(), old(View()), c, checkRedundancy)
      ensures added <==> HasId(selected, c.id)
    {
      if c.id in ids { return true; }
      var refused := false;
      if checkRedundancy { refused := CheckRedundant(c); }
      if refused || spent + Cost(c) > budget {
        discarded := discarded + [c];
        return false;
      }
      HasIdSnoc(selected, c);
      selected := selected + [c];
      ids := ids + {c.id};
      spent := spent + Cost(c);
      return true;
    }

    /** `add_dependencies`. */
    method AddDependencies(c: Candidate)
      requires Valid()
      modifies this
      ensures Valid() && View() == OfferDeps(Law(), old(View()), c.deps)
    {
      for k := 0 to |c.deps|
        invariant Valid() && View() == OfferDeps(Law(), old(View()), c.deps[..k])
      {
        assert c.deps[..k + 1][..k] == c.deps[..k];
        if c.deps[k] in byId && c.deps[k] !in ids { var added := TryAdd(byId[c.deps[k]], true); }
      }
      assert c.deps[..|c.deps|] == c.deps;
    }

    method TakeTurn(c: Candidate, checkRedundancy: bool)
      requires Valid()
      modifies this
      ensures Valid() && View() == Turn(Law(), old(View()), c, checkRedundancy)
    {
      var added := TryAdd(c, checkRedundancy);
      if added { AddDependencies(c); }
    }
  }

  /** `by_id`. */
  method IndexCandidates(pool: seq<Candidate>) returns (byId: map<string, Candidate>)
    ensures byId == ById(pool)
  {
    byId := map[];
    for k := 0 to |pool|
      invariant byId == ById(pool[..k])
    {
      assert pool[..k + 1][..k] == pool[..k];
      byId := byId[pool[k].id := pool[k]];
    }
    assert pool[..|pool|] == pool;
  }

  lemma {:induction false} MandatorySnoc(pool: seq<Candidate>, k: nat)
    requires k < |pool|
    ensures Mandatory(pool[..k + 1]) == if pool[k].mandatory then Mandatory(pool[..k]) + [pool[k]] else Mandatory(pool[..k])
  {
    assert pool[..k + 1][..k] == pool[..k];
    assert Mandatory(pool[..k]) + [] == Mandatory(pool[..k]);
  }

  lemma {:induction false} TurnsSnoc(r: Rules, p: Picks, cs: seq<Candidate>, c: Candidate, check: bool)
    ensures Turns(r, p, cs + [c], check) == Turn(r, Turns(r, p, cs, check), c, check)
  {
    assert (cs + [c])[..|cs|] == cs;
  }

  method AddMandatory(s: Selection, pool: seq<Candidate>)
    requires s.Valid() && s.View() == NOTHING
    modifies s
    ensures s.Valid() && s.View() == AfterMandatory(s.Law(), pool)
  {
    for k := 0 to |pool|
      invariant s.Valid() && s.View() == Turns(s.Law(), NOTHING, Mandatory(pool[..k]), false)
    {
      MandatorySnoc(pool, k);
      if pool[k].mandatory {
        TurnsSnoc(s.Law(), NOTHING, Mandatory(pool[..k]), pool[k], false);
        s.TakeTurn(pool[k], false);
      }
    }
    assert pool[..|pool|] == pool;
  }

  method QueueUp(s: Selection, pool: seq<Candidate>) returns (queue: seq<Candidate>)
    requires s.Valid()
    ensures queue == Sort(Remaining(pool, s.selected), NoWorse)
  {
    var remaining := [];
    for k := 0 to |pool|
      invariant remaining == Remaining(pool[..k], s.selected)
    {
      assert pool[..k + 1][..k] == pool[..k];
      if !pool[k].mandatory && pool[k].id !in s.ids { remaining := remaining + [pool[k]]; }
    }
    assert pool[..|pool|] == pool;
    queue := Sort(remaining, NoWorse);
  }

  method AddOptional(s: Selection, queue: seq<Candidate>)
    requires s.Valid()
    modifies s
    ensures s.Valid() && s.View() == Turns(s.Law(), old(s.View()), queue, true)
  {
    for k := 0 to |queue|
      invariant s.Valid() && s.View() == Turns(s.Law(), old(s.View()), queue[..k], true)
    {
      assert queue[..k + 1][..k] == queue[..k];
      s.TakeTurn(queue[k], true);
    }
    assert queue[..|queue|] == queue;
  }

  /** `select_candidates`. */
  method SelectCandidates(pool: seq<Candidate>, maxTokenBudget: int)
    returns (selected: seq<Candidate>, discarded: seq<Candidate>)
    ensures var r := RulesFor(pool, maxTokenBudget);
      Selected(r, pool) == Picks(selected, discarded, TotalCost(selected))
    ensures TotalCost(selected) <= Max(0, maxTokenBudget)
  {
    ghost var r := RulesFor(pool, maxTokenBudget);
    var byId := IndexCandidates(pool);
    RulesAreIndexed(pool, maxTokenBudget);
    var s := new Selection(Max(0, maxTokenBudget), byId);
    AddMandatory(s, pool);
    var queue := QueueUp(s, pool);
    AddOptional(s, queue);
    SelectionIsSound(r, pool);
    selected, discarded := s.selected, s.discarded;
  }
}
