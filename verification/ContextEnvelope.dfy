/**
 Building a context envelope under a token budget (kitt/context/envelope.py).

 The token cost of a serialized body, its digest and the notion of white space are parameters.
 */
module ContextEnvelope {
  import opened Common
  import opened Orders

  /** A body is either a mapping with a string under "text" (its other entries in `rest`) or not. */
  datatype Body = Text(text: string, rest: string, truncated: bool) | Structured(value: string)

  datatype Kind = UserIntent | OtherKind(name: string)

  datatype CacheRegion = FrozenPrefix | SessionPrefix | LiveZone | Uncached

  /** `about` stands for the fields that are only copied. */
  datatype Segment = Segment(
    id: string, kind: Kind, about: string, priority: int, region: CacheRegion, tokenCost: nat, body: Body)

  datatype Error = StructuredTooLarge | MetadataTooLarge | TextTooLarge

  datatype Result<T> = Ok(value: T) | Err(error: Error)

  // ---------------------------------------------------------------- truncation

  function Shortened(b: Body, n: nat): Body
    requires b.Text? && n <= |b.text|
  {
    Text(b.text[..n], b.rest, true)
  }

  /** Longer prefixes never cost less. */
  ghost predicate Monotone(cost: Body -> nat, b: Body)
    requires b.Text?
  {
    forall m, n :: 0 <= m <= n <= |b.text| ==> cost(Shortened(b, m)) <= cost(Shortened(b, n))
  }

  /** Where the binary search ends. */
  function SearchCut(cost: Body -> nat, b: Body, budget: nat, low: nat, high: nat): (n: nat)
    requires b.Text? && low <= high <= |b.text|
    ensures low <= n <= high
    decreases high - low
  {
    if low == high then low
    else
      var middle := (low + high + 1) / 2;
      if cost(Shortened(b, middle)) <= budget then SearchCut(cost, b, budget, middle, high)
      else SearchCut(cost, b, budget, low, middle - 1)
  }

  lemma {:induction false} SearchCutFits(cost: Body -> nat, b: Body, budget: nat, low: nat, high: nat)
    requires b.Text? && low <= high <= |b.text| && cost(Shortened(b, low)) <= budget
    ensures cost(Shortened(b, SearchCut(cost, b, budget, low, high))) <= budget
    decreases high - low
  {
    if low < high {
      var middle := (low + high + 1) / 2;
      if cost(Shortened(b, middle)) <= budget {
        SearchCutFits(cost, b, budget, middle, high);
      } else {
        SearchCutFits(cost, b, budget, low, middle - 1);
      }
    }
  }

  lemma {:induction false} SearchCutIsLongest(cost: Body -> nat, b: Body, budget: nat, low: nat, high: nat, m: nat)
    requires b.Text? && low <= high <= |b.text| && Monotone(cost, b)
    requires high < |b.text| ==> cost(Shortened(b, high + 1)) > budget
    requires SearchCut(cost, b, budget, low, high) < m <= |b.text|
    ensures cost(Shortened(b, m)) > budget
    decreases high - low
  {
    if low == high {
      assert cost(Shortened(b, high + 1)) <= cost(Shortened(b, m));
    } else {
      var middle := (low + high + 1) / 2;
      if cost(Shortened(b, middle)) <= budget {
        SearchCutIsLongest(cost, b, budget, middle, high, m);
      } else {
        SearchCutIsLongest(cost, b, budget, low, middle - 1, m);
      }
    }
  }

  function Truncated(cost: Body -> nat, b: Body, budget: nat): Result<Body> {
    if cost(b) <= budget then Ok(b)
    else if !b.Text? then Err(StructuredTooLarge)
    else if cost(Shortened(b, 0)) > budget then Err(MetadataTooLarge)
    else Ok(Shortened(b, SearchCut(cost, b, budget, 0, |b.text|)))
  }

  /** `_truncate_body`: its last error never happens. */
  method TruncateBody(cost: Body -> nat, b: Body, budget: nat) returns (r: Result<Body>)
    ensures r == Truncated(cost, b, budget)
    ensures r != Err(TextTooLarge)
    ensures r.Ok? ==> cost(r.value) <= budget
  {
    if cost(b) <= budget { return Ok(b); }
    if !b.Text? { return Err(StructuredTooLarge); }
    if cost(Shortened(b, 0)) > budget { return Err(MetadataTooLarge); }
    var low: nat, high: nat := 0, |b.text|;
    while low < high
      invariant low <= high <= |b.text| && cost(Shortened(b, low)) <= budget
      invariant SearchCut(cost, b, budget, low, high) == SearchCut(cost, b, budget, 0, |b.text|)
    {
      var middle := (low + high + 1) / 2;
      if cost(Shortened(b, middle)) <= budget { low := middle; } else { high := middle - 1; }
    }
    if cost(Shortened(b, low)) > budget { return Err(TextTooLarge); }
    return Ok(Shortened(b, low));
  }

  /** What truncation returns fits, is the body or a prefix of its text, and when cost is monotone
      no longer prefix fits. */
  lemma {:induction false} TruncationIsLongest(cost: Body -> nat, b: Body, budget: nat)
    requires Truncated(cost, b, budget).Ok?
    ensures var t := Truncated(cost, b, budget).value;
      && cost(t) <= budget
      && (t == b || (b.Text? && cost(b) > budget && |t.text| <= |b.text| && t == Text(b.text[..|t.text|], b.rest, true)
                     && (Monotone(cost, b) ==>
                           forall m :: |t.text| < m <= |b.text| ==> cost(Text(b.text[..m], b.rest, true)) > budget)))
  {
    if cost(b) > budget {
      SearchCutFits(cost, b, budget, 0, |b.text|);
      var n := SearchCut(cost, b, budget, 0, |b.text|);
      if Monotone(cost, b) {
        forall m | n < m <= |b.text| ensures cost(Text(b.text[..m], b.rest, true)) > budget {
          SearchCutIsLongest(cost, b, budget, 0, |b.text|, m);
        }
      }
    }
  }

  // ---------------------------------------------------------------- fitting

  datatype Fitting = Fitting(fitted: seq<Segment>, remaining: nat)

  predicate Required(s: Segment) { s.priority >= 90 }

  /** One segment's turn. */
  function FitOne(cost: Body -> nat, f: Fitting, s: Segment): Result<Fitting> {
    if s.kind == UserIntent then Ok(f.(fitted := f.fitted + [s]))
    else if s.tokenCost <= f.remaining then Ok(Fitting(f.fitted + [s], f.remaining - s.tokenCost))
    else if !Required(s) then Ok(f)
    else
      match Truncated(cost, s.body, f.remaining)
      case Err(e) => Err(e)
      case Ok(b) => Ok(Fitting(f.fitted + [s.(tokenCost := cost(b), body := b)], 0))
  }

  function Fit(cost: Body -> nat, segments: seq<Segment>, budget: nat): Result<Fitting> {
    if segments == [] then Ok(Fitting([], budget))
    else
      match Fit(cost, segments[..|segments| - 1], budget)
      case Err(e) => Err(e)
      case Ok(f) => FitOne(cost, f, segments[|segments| - 1])
  }

  /** The segment `t` stands for `s` with its text cut. */
  ghost predicate CutOf(cost: Body -> nat, t: Segment, s: Segment) {
    && s.kind != UserIntent && Required(s) && s.body.Text? && t.body.Text?
    && |t.body.text| <= |s.body.text| && t.body == Shortened(s.body, |t.body.text|)
    && t == s.(body := t.body, tokenCost := cost(t.body))
  }

  /** `out` is `segments` in order, less some optional segments that do not fit `left` tokens, and
      with `cuts` required ones cut. */
  ghost predicate Thinned(cost: Body -> nat, out: seq<Segment>, segments: seq<Segment>, left: nat, cuts: nat) {
    if segments == [] then out == [] && cuts == 0
    else
      var init, s := segments[..|segments| - 1], segments[|segments| - 1];
      || (s.kind != UserIntent && !Required(s) && s.tokenCost > left && Thinned(cost, out, init, left, cuts))
      || (out != [] && out[|out| - 1] == s && Thinned(cost, out[..|out| - 1], init, left, cuts))
      || (out != [] && cuts > 0 && CutOf(cost, out[|out| - 1], s) && Thinned(cost, out[..|out| - 1], init, left, cuts - 1))
  }

  lemma {:induction false} ThinnedWithLess(
    cost: Body -> nat, out: seq<Segment>, segments: seq<Segment>, left: nat, less: nat, cuts: nat)
    requires Thinned(cost, out, segments, left, cuts) && less <= left
    ensures Thinned(cost, out, segments, less, cuts)
  {
    if segments != [] {
      var init, s := segments[..|segments| - 1], segments[|segments| - 1];
      if s.kind != UserIntent && !Required(s) && s.tokenCost > left && Thinned(cost, out, init, left, cuts) {
        ThinnedWithLess(cost, out, init, left, less, cuts);
      } else if out[|out| - 1] == s && Thinned(cost, out[..|out| - 1], init, left, cuts) {
        ThinnedWithLess(cost, out[..|out| - 1], init, left, less, cuts);
      } else {
        ThinnedWithLess(cost, out[..|out| - 1], init, left, less, cuts - 1);
      }
    }
  }

  /** The tokens of all segments but the user's intent. */
  function Spent(segments: seq<Segment>): nat {
    if segments == [] then 0
    else
      var s := segments[|segments| - 1];
      Spent(segments[..|segments| - 1]) + if s.kind == UserIntent then 0 else s.tokenCost
  }

  lemma {:induction false} SpentSnoc(segments: seq<Segment>, s: Segment)
    ensures Spent(segments + [s]) == Spent(segments) + if s.kind == UserIntent then 0 else s.tokenCost
  {
    assert (segments + [s])[..|segments|] == segments;
  }

  lemma {:induction false} ThinnedKept(
    cost: Body -> nat, out: seq<Segment>, segments: seq<Segment>, s: Segment, left: nat, cuts: nat)
    requires Thinned(cost, out, segments, left, cuts)
    ensures Thinned(cost, out + [s], segments + [s], left, cuts)
  {
    assert (segments + [s])[..|segments|] == segments && (out + [s])[..|out|] == out;
  }

  lemma {:induction false} ThinnedCut(
    cost: Body -> nat, out: seq<Segment>, t: Segment, segments: seq<Segment>, s: Segment, left: nat, cuts: nat)
    requires Thinned(cost, out, segments, left, cuts) && CutOf(cost, t, s)
    ensures Thinned(cost, out + [t], segments + [s], left, cuts + 1)
  {
    assert (segments + [s])[..|segments|] == segments && (out + [t])[..|out|] == out;
  }

  ghost predicate Priced(cost: Body -> nat, segments: seq<Segment>) {
    forall i :: 0 <= i < |segments| ==> segments[i].tokenCost == cost(segments[i].body)
  }

  /** A required segment that does not fit is replaced by a cut of it that does. */
  lemma {:induction false} TruncationCuts(cost: Body -> nat, s: Segment, remaining: nat)
    requires s.kind != UserIntent && Required(s) && s.tokenCost == cost(s.body) > remaining
    requires Truncated(cost, s.body, remaining).Ok?
    ensures var b := Truncated(cost, s.body, remaining).value;
      CutOf(cost, s.(tokenCost := cost(b), body := b), s) && cost(b) <= remaining
  {
    TruncationIsLongest(cost, s.body, remaining);
  }

  ghost predicate Fits(cost: Body -> nat, f: Fitting, segments: seq<Segment>, budget: nat, cuts: nat) {
    Thinned(cost, f.fitted, segments, f.remaining, cuts) && Spent(f.fitted) + f.remaining <= budget
  }

  /** One segment: kept, dropped or cut, and after a cut nothing is left. */
  lemma {:induction false} FitOneFits(cost: Body -> nat, f: Fitting, segments: seq<Segment>, s: Segment, budget: nat, cuts: nat)
    returns (cuts': nat)
    requires Fits(cost, f, segments, budget, cuts) && s.tokenCost == cost(s.body) && FitOne(cost, f, s).Ok?
    ensures Fits(cost, FitOne(cost, f, s).value, segments + [s], budget, cuts')
    ensures cuts' == cuts || (cuts' == cuts + 1 && FitOne(cost, f, s).value.remaining == 0 && Required(s)
                              && s.tokenCost > f.remaining && Truncated(cost, s.body, f.remaining).Ok?)
    ensures FitOne(cost, f, s).value.remaining <= f.remaining
  {
    var g := FitOne(cost, f, s).value;
    cuts' := cuts;
    ThinnedWithLess(cost, f.fitted, segments, f.remaining, g.remaining, cuts);
    if g == f {
      assert (segments + [s])[..|segments|] == segments;
    } else if s.kind == UserIntent || s.tokenCost <= f.remaining {
      SpentSnoc(f.fitted, s);
      ThinnedKept(cost, f.fitted, segments, s, g.remaining, cuts);
    } else {
      TruncationCuts(cost, s, f.remaining);
      var t := g.fitted[|f.fitted|];
      SpentSnoc(f.fitted, t);
      ThinnedCut(cost, f.fitted, t, segments, s, g.remaining, cuts);
      cuts' := cuts + 1;
    }
  }

  lemma {:induction false} FitSnocFits(
    cost: Body -> nat, segments: seq<Segment>, init: seq<Segment>, s: Segment, budget: nat, before: nat) returns (cuts: nat)
    requires segments == init + [s] && s.tokenCost == cost(s.body) && Fit(cost, segments, budget).Ok?
    requires Fit(cost, init, budget).Ok? ==> Fits(cost, Fit(cost, init, budget).value, init, budget, before)
    ensures Fit(cost, init, budget).Ok? && Fit(cost, segments, budget) == FitOne(cost, Fit(cost, init, budget).value, s)
    ensures Fits(cost, Fit(cost, segments, budget).value, segments, budget, cuts)
    ensures cuts == before || (cuts == before + 1 && Fit(cost, segments, budget).value.remaining == 0
                               && Truncated(cost, s.body, Fit(cost, init, budget).value.remaining).Ok?)
    ensures Fit(cost, segments, budget).value.remaining <= Fit(cost, init, budget).value.remaining
  {
    assert segments[..|segments| - 1] == init;
    cuts := FitOneFits(cost, Fit(cost, init, budget).value, init, s, budget, before);
  }

  /** Whenever fitting succeeds its output is the segments thinned, within the budget. */
  lemma {:induction false} FitThinsWithinBudget(cost: Body -> nat, segments: seq<Segment>, budget: nat) returns (cuts: nat)
    requires Priced(cost, segments) && Fit(cost, segments, budget).Ok?
    ensures Fits(cost, Fit(cost, segments, budget).value, segments, budget, cuts)
  {
    if segments == [] {
      cuts := 0;
    } else {
      var init, s := segments[..|segments| - 1], segments[|segments| - 1];
      var before := FitThinsWithinBudget(cost, init, budget);
      cuts := FitSnocFits(cost, segments, init, s, budget, before);
    }
  }

  /** What thinning means for one segment: the user's intent is there unchanged, a required segment
      is there whole or cut, and an optional one is there unless it exceeds what is left. */
  lemma {:induction false} ThinnedKeeps(
    cost: Body -> nat, out: seq<Segment>, segments: seq<Segment>, left: nat, cuts: nat, s: Segment)
    requires Thinned(cost, out, segments, left, cuts) && s in segments
    ensures s in out || (s.kind != UserIntent && Required(s) && exists t :: t in out && CutOf(cost, t, s))
         || (s.kind != UserIntent && !Required(s) && s.tokenCost > left)
  {
    var init, last := segments[..|segments| - 1], segments[|segments| - 1];
    assert segments == init + [last];
    if last.kind != UserIntent && !Required(last) && last.tokenCost > left && Thinned(cost, out, init, left, cuts) {
      if s in init { ThinnedKeeps(cost, out, init, left, cuts, s); }
    } else {
      var rest := out[..|out| - 1];
      assert out == rest + [out[|out| - 1]];
      if s in init {
        ThinnedKeeps(cost, rest, init, left, if out[|out| - 1] == last && Thinned(cost, rest, init, left, cuts) then cuts else cuts - 1, s);
      } else {
        assert out[|out| - 1] in out;
      }
    }
  }

  /** A cut segment is one of priority 90 or more that is not the user's intent, with a prefix of its text
      marked as truncated, everything else as it was, and the cost of what is left. */
  lemma {:induction false} CutIsPrefix(cost: Body -> nat, t: Segment, s: Segment)
    requires CutOf(cost, t, s)
    ensures s.kind != UserIntent && s.priority >= 90 && s.body.Text? && t.body.Text?
    ensures t.body.text <= s.body.text && t.body.rest == s.body.rest && t.body.truncated
    ensures t.id == s.id && t.kind == s.kind && t.about == s.about && t.priority == s.priority && t.region == s.region
    ensures t.tokenCost == cost(t.body)
  {
  }

  /** What is missing from a fitting: never the user's intent, never a segment of priority 90 or more, which
      is there at least cut, and another one only if it exceeds what is left. */
  lemma {:induction false} PriorityDecides(cost: Body -> nat, segments: seq<Segment>, budget: nat, s: Segment)
    requires Priced(cost, segments) && Fit(cost, segments, budget).Ok? && s in segments
    ensures var f := Fit(cost, segments, budget).value;
      || s in f.fitted
      || (s.kind != UserIntent && s.priority >= 90 && exists t :: t in f.fitted && CutOf(cost, t, s))
      || (s.kind != UserIntent && s.priority < 90 && s.tokenCost > f.remaining)
  {
    var cuts := FitThinsWithinBudget(cost, segments, budget);
    var f := Fit(cost, segments, budget).value;
    ThinnedKeeps(cost, f.fitted, segments, f.remaining, cuts, s);
  }

  // ---------------------------------------------------------------- at most one cut

  /** With nothing left, nothing that costs a token can be cut to fit. */
  lemma {:induction false} NothingFitsNothing(cost: Body -> nat, b: Body)
    requires forall c :: cost(c) >= 1
    ensures Truncated(cost, b, 0).Err?
  {
    assert cost(b) >= 1;
    if b.Text? { assert cost(Shortened(b, 0)) >= 1; }
  }

  lemma {:induction false} NoSecondCut(cost: Body -> nat, b: Body, before: nat, left: nat, cuts: nat, left': nat)
    requires (forall c :: cost(c) >= 1) && before <= 1 && (before == 1 ==> left == 0) && left' <= left
    requires cuts == before || (cuts == before + 1 && left' == 0 && Truncated(cost, b, left).Ok?)
    ensures cuts <= 1 && (cuts == 1 ==> left' == 0)
  {
    NothingFitsNothing(cost, b);
  }

  ghost predicate CutsOnce(cost: Body -> nat, segments: seq<Segment>, budget: nat, cuts: nat) {
    var f := Fit(cost, segments, budget);
    f.Ok? ==> Fits(cost, f.value, segments, budget, cuts) && cuts <= 1 && (cuts == 1 ==> f.value.remaining == 0)
  }

  lemma {:induction false} OneCutMore(
    cost: Body -> nat, segments: seq<Segment>, init: seq<Segment>, s: Segment, budget: nat, before: nat) returns (cuts: nat)
    requires segments == init + [s] && s.tokenCost == cost(s.body) && Fit(cost, segments, budget).Ok?
    requires (forall b :: cost(b) >= 1) && CutsOnce(cost, init, budget, before)
    ensures CutsOnce(cost, segments, budget, cuts)
  {
    cuts := FitSnocFits(cost, segments, init, s, budget, before);
    NoSecondCut(cost, s.body, before, Fit(cost, init, budget).value.remaining, cuts, Fit(cost, segments, budget).value.remaining);
  }

  /** With every body costing at least one token, at most one position of the output is a cut. */
  lemma {:induction false} AtMostOneCut(cost: Body -> nat, segments: seq<Segment>, budget: nat) returns (cuts: nat)
    requires Priced(cost, segments) && Fit(cost, segments, budget).Ok?
    requires forall b :: cost(b) >= 1
    ensures Fits(cost, Fit(cost, segments, budget).value, segments, budget, cuts)
    ensures cuts <= 1 && (cuts == 1 ==> Fit(cost, segments, budget).value.remaining == 0)
  {
    cuts := 0;
    if segments != [] {
      var init, s := segments[..|segments| - 1], segments[|segments| - 1];
      var before := AtMostOneCut(cost, init, budget);
      cuts := OneCutMore(cost, segments, init, s, budget, before);
    }
  }

  // ---------------------------------------------------------------- when fitting fails

  /** A required segment that neither fits nor can be cut to fit. */
  predicate Hopeless(cost: Body -> nat, s: Segment, remaining: nat) {
    && s.kind != UserIntent && Required(s) && s.tokenCost > remaining && cost(s.body) > remaining
    && (s.body.Text? ==> cost(Shortened(s.body, 0)) > remaining)
  }

  lemma {:induction false} FitErrIsLasting(cost: Body -> nat, segments: seq<Segment>, budget: nat, k: nat)
    requires k <= |segments| && Fit(cost, segments[..k], budget).Err?
    ensures Fit(cost, segments, budget) == Fit(cost, segments[..k], budget)
    decreases |segments|
  {
    if k < |segments| {
      assert segments[..|segments| - 1][..k] == segments[..k];
      FitErrIsLasting(cost, segments[..|segments| - 1], budget, k);
    } else {
      assert segments[..k] == segments;
    }
  }

  ghost predicate StuckAt(cost: Body -> nat, segments: seq<Segment>, budget: nat, k: nat)
    requires k < |segments|
  {
    var f := Fit(cost, segments[..k], budget);
    f.Ok? && Hopeless(cost, segments[k], f.value.remaining)
  }

  /** Fitting fails exactly when some required segment's turn comes with too little left even for
      its metadata, or for a body that cannot be cut. */
  lemma {:induction false} FitFailsIff(cost: Body -> nat, segments: seq<Segment>, budget: nat)
    ensures Fit(cost, segments, budget).Err? <==> exists k :: 0 <= k < |segments| && StuckAt(cost, segments, budget, k)
  {
    if Fit(cost, segments, budget).Err? {
      var init := segments[..|segments| - 1];
      if Fit(cost, init, budget).Err? {
        FitFailsIff(cost, init, budget);
        var k :| 0 <= k < |init| && StuckAt(cost, init, budget, k);
        assert init[..k] == segments[..k] && StuckAt(cost, segments, budget, k);
      } else {
        assert StuckAt(cost, segments, budget, |segments| - 1);
      }
    }
    if k :| 0 <= k < |segments| && StuckAt(cost, segments, budget, k) {
      assert segments[..k + 1][..k] == segments[..k];
      FitErrIsLasting(cost, segments, budget, k + 1);
    }
  }

  /** A failed fitting says why: the first segment it is stuck at has a body that cannot be cut, or one
      whose metadata alone exceed what is left. */
  lemma {:induction false} FailureSaysWhy(cost: Body -> nat, segments: seq<Segment>, budget: nat) returns (k: nat)
    requires Fit(cost, segments, budget).Err?
    ensures k < |segments| && StuckAt(cost, segments, budget, k) && segments[k].priority >= 90
    ensures Fit(cost, segments, budget).error == if segments[k].body.Text? then MetadataTooLarge else StructuredTooLarge
  {
    var init := segments[..|segments| - 1];
    if Fit(cost, init, budget).Err? {
      k := FailureSaysWhy(cost, init, budget);
      assert init[..k] == segments[..k];
    } else {
      k := |segments| - 1;
    }
  }

  // ---------------------------------------------------------------- order

  function CacheOrder(r: CacheRegion): nat {
    match r
    case FrozenPrefix => 0
    case SessionPrefix => 1
    case LiveZone => 2
    case Uncached => 3
  }

  /** The order of the key (cache order, -priority, id), given the order of ids. */
  predicate KeyLeBy(lt: (string, string) -> bool, a: Segment, b: Segment) {
    || CacheOrder(a.region) < CacheOrder(b.region)
    || (CacheOrder(a.region) == CacheOrder(b.region)
        && (a.priority > b.priority || (a.priority == b.priority && !lt(b.id, a.id))))
  }

  predicate KeyLe(a: Segment, b: Segment) { KeyLeBy(StrLt, a, b) }

  lemma {:induction false} KeyLeByOrders(lt: (string, string) -> bool, a: Segment, b: Segment, c: Segment)
    requires StrictTotal(lt)
    ensures (KeyLeBy(lt, a, b) || KeyLeBy(lt, b, a)) && (KeyLeBy(lt, a, b) && KeyLeBy(lt, b, c) ==> KeyLeBy(lt, a, c))
  {
  }

  lemma {:induction false} KeyLeIsPreorder()
    ensures TotalPreorder(KeyLe)
  {
    StrLtStrictTotal();
    forall a, b, c ensures (KeyLe(a, b) || KeyLe(b, a)) && (KeyLe(a, b) && KeyLe(b, c) ==> KeyLe(a, c)) {
      KeyLeByOrders(StrLt, a, b, c);
    }
  }

  /** The order of an envelope: the frozen prefix, the session prefix, the live zone, the rest; within a
      region by falling priority; and with the same priority by id. */
  lemma {:induction false} EnvelopeOrder(segments: seq<Segment>, i: nat, j: nat)
    requires i < j < |Sort(segments, KeyLe)|
    ensures var a, b := Sort(segments, KeyLe)[i], Sort(segments, KeyLe)[j];
      && (b.region.FrozenPrefix? ==> a.region.FrozenPrefix?)
      && (b.region.SessionPrefix? ==> a.region.FrozenPrefix? || a.region.SessionPrefix?)
      && (a.region.LiveZone? ==> b.region.LiveZone? || b.region.Uncached?)
      && (a.region.Uncached? ==> b.region.Uncached?)
      && (a.region == b.region ==> a.priority >= b.priority)
      && (a.region == b.region && a.priority == b.priority ==> !StrLt(b.id, a.id))
  {
    KeyLeIsPreorder();
    SortOrdered(segments, KeyLe);
  }

  // ---------------------------------------------------------------- the builder

  /** What a caller may pass as a body. */
  datatype Raw = NoBody | PlainText(text: string) | Given(body: Body)

  datatype Tools = Tools(cost: Body -> nat, id: (Kind, Body) -> string, isSpace: char -> bool)

  predicate Blank(tools: Tools, text: string) {
    forall i :: 0 <= i < |text| ==> tools.isSpace(text[i])
  }

  /** What adding appends: nothing for a missing or blank body. */
  function Added(tools: Tools, kind: Kind, raw: Raw, about: string, priority: int, region: CacheRegion): seq<Segment> {
    match raw
    case NoBody => []
    case PlainText(text) =>
      if Blank(tools, text) then []
      else
        var b := Text(text, "", false);
        [Segment(tools.id(kind, b), kind, about, priority, region, tools.cost(b), b)]
    case Given(b) => [Segment(tools.id(kind, b), kind, about, priority, region, tools.cost(b), b)]
  }

  class ContextEnvelopeBuilder {
    const tools: Tools
    const maxTokens: Option<int>
    var segments: seq<Segment>

    /** Every segment carries the cost of its own body. */
    ghost predicate Valid()
      reads this
    {
      Priced(tools.cost, segments)
    }

    constructor (tools: Tools, maxTokens: Option<int>)
      ensures Valid() && segments == [] && this.tools == tools && this.maxTokens == maxTokens
    {
      this.tools, this.maxTokens, segments := tools, maxTokens, [];
    }

    method Add(kind: Kind, raw: Raw, about: string, priority: int, region: CacheRegion)
      requires Valid()
      modifies this
      ensures Valid() && segments == old(segments) + Added(tools, kind, raw, about, priority, region)
      ensures segments == old(segments) <==>
                raw.NoBody? || (raw.PlainText? && forall i :: 0 <= i < |raw.text| ==> tools.isSpace(raw.text[i]))
      ensures segments != old(segments) ==>
                var s := segments[|segments| - 1];
                && |segments| == |old(segments)| + 1 && old(segments) <= segments
                && s.body == (if raw.PlainText? then Text(raw.text, "", false) else raw.body)
                && s.kind == kind && s.about == about && s.priority == priority && s.region == region
                && s.tokenCost == tools.cost(s.body) && s.id == tools.id(kind, s.body)
    {
      var body;
      match raw {
        case NoBody => return;
        case PlainText(text) =>
          if Blank(tools, text) { return; }
          body := Text(text, "", false);
        case Given(b) => body := b;
      }
      segments := segments + [Segment(tools.id(kind, body), kind, about, priority, region, tools.cost(body), body)];
    }

    method Build() returns (r: Result<seq<Segment>>)
      requires Valid()
      ensures maxTokens.None? ==> r == Ok(Sort(segments, KeyLe))
      ensures maxTokens.Some? ==>
                var f := Fit(tools.cost, Sort(segments, KeyLe), NonNeg(maxTokens.value));
                r == if f.Ok? then Ok(f.value.fitted) else Err(f.error)
      ensures maxTokens.Some? && r.Ok? ==> Spent(r.value) <= NonNeg(maxTokens.value)
    {
      var sorted := Sort(segments, KeyLe);
      if maxTokens.None? { return Ok(sorted); }
      var f := FitAll(tools.cost, sorted, NonNeg(maxTokens.value));
      SortedIsPriced(tools.cost, segments);
      match f {
        case Err(e) => r := Err(e);
        case Ok(g) =>
          ghost var cuts := FitThinsWithinBudget(tools.cost, sorted, NonNeg(maxTokens.value));
          r := Ok(g.fitted);
      }
    }
  }

  function NonNeg(n: int): nat { if n < 0 then 0 else n }

  lemma {:induction false} SortedIsPriced(cost: Body -> nat, segments: seq<Segment>)
    requires Priced(cost, segments)
    ensures Priced(cost, Sort(segments, KeyLe))
  {
    SortMembers(segments, KeyLe);
    var sorted := Sort(segments, KeyLe);
    forall i | 0 <= i < |sorted| ensures sorted[i].tokenCost == cost(sorted[i].body) {
      assert sorted[i] in sorted && sorted[i] in segments;
    }
  }

  /** The loop of `build`. */
  method FitAll(cost: Body -> nat, segments: seq<Segment>, budget: nat) returns (r: Result<Fitting>)
    ensures r == Fit(cost, segments, budget)
  {
    var fitted, remaining: nat := [], budget;
    for k := 0 to |segments|
      invariant Fit(cost, segments[..k], budget) == Ok(Fitting(fitted, remaining))
    {
      var s := segments[k];
      assert segments[..k + 1][..k] == segments[..k];
      if s.kind == UserIntent {
        fitted := fitted + [s];
      } else if s.tokenCost <= remaining {
        fitted, remaining := fitted + [s], remaining - s.tokenCost;
      } else if Required(s) {
        var body := TruncateBody(cost, s.body, remaining);
        if body.Err? {
          FitErrIsLasting(cost, segments, budget, k + 1);
          return Err(body.error);
        }
        fitted, remaining := fitted + [s.(tokenCost := cost(body.value), body := body.value)], 0;
      }
    }
    assert segments[..|segments|] == segments;
    r := Ok(Fitting(fitted, remaining));
  }

  /** A built envelope: the segments in key order, thinned within the budget; the user's intent
      unchanged, every required segment present, at most one cut when every body costs a token. */
  lemma {:induction false} BuiltEnvelope(cost: Body -> nat, segments: seq<Segment>, budget: nat) returns (cuts: nat)
    requires Priced(cost, segments) && Fit(cost, Sort(segments, KeyLe), budget).Ok?
    ensures var sorted := Sort(segments, KeyLe);
      Ordered(sorted, KeyLe) && Fits(cost, Fit(cost, sorted, budget).value, sorted, budget, cuts)
    ensures (forall b :: cost(b) >= 1) ==> cuts <= 1
    ensures forall s :: s in segments ==> Represented(cost, s, Fit(cost, Sort(segments, KeyLe), budget).value.fitted)
  {
    var sorted := Sort(segments, KeyLe);
    KeyLeIsPreorder();
    SortOrdered(segments, KeyLe);
    SortedIsPriced(cost, segments);
    SortMembers(segments, KeyLe);
    if forall b :: cost(b) >= 1 {
      cuts := AtMostOneCut(cost, sorted, budget);
    } else {
      cuts := FitThinsWithinBudget(cost, sorted, budget);
    }
    var f := Fit(cost, sorted, budget).value;
    forall s | s in segments ensures Represented(cost, s, f.fitted) {
      ThinnedKeeps(cost, f.fitted, sorted, f.remaining, cuts, s);
    }
  }

  /** An intent is there as it was, a required segment as it was or cut. */
  ghost predicate Represented(cost: Body -> nat, s: Segment, out: seq<Segment>) {
    && (s.kind == UserIntent ==> s in out)
    && (s.kind != UserIntent && Required(s) ==> s in out || exists t :: t in out && CutOf(cost, t, s))
  }
}
