/**
 What rank fusion does to mandatory candidates (kitt/context/rag/fusion.py).

 Candidates that are the same evidence share one representative. Scores, which only order and weigh
 the optional candidates, are not part of this model.
 */
module RankFusion {
  import opened Common
  import opened ContextSelector

  datatype Key = Located(path: string, start: Option<int>, end: Option<int>) | Named(id: string)

  function Identity(c: Candidate): Key {
    if c.path != "" then Located(c.path, c.start, c.end) else Named(c.id)
  }

  predicate SameEvidence(a: Candidate, b: Candidate) {
    (a.hash != "" && a.hash == b.hash) || OverlapAtLeast(a, b, 13, 20)
  }

  function Rank(r: Representation): nat {
    match r
    case Body => 6
    case SymbolBody => 5
    case TargetedSlice => 4
    case Slice => 3
    case Skeleton => 2
    case Summary => 1
    case Unknown => 0
  }

  /** Whether merging replaces the representative `a` by `b`. */
  predicate Supersedes(b: Candidate, a: Candidate) {
    Rank(b.representation) > Rank(a.representation) || (|b.content| > |a.content| && b.tokens <= a.tokens * 2)
  }

  /** The representations from the fullest to the least. */
  const BY_FULLNESS := [Body, SymbolBody, TargetedSlice, Slice, Skeleton, Summary, Unknown]

  /** A fuller representation supersedes, and among the same a longer content of at most twice the tokens. */
  lemma {:induction false} SupersedesIff(a: Candidate, b: Candidate, i: nat, j: nat)
    requires i < |BY_FULLNESS| && j < |BY_FULLNESS| && a.representation == BY_FULLNESS[i] && b.representation == BY_FULLNESS[j]
    ensures Supersedes(b, a) <==> j < i || (|b.content| > |a.content| && b.tokens <= a.tokens + a.tokens)
  {
  }

  /** Two candidates are the same evidence when they have the same hash or share thirteen twentieths of the
      lines of the shorter. */
  lemma {:induction false} SameEvidenceIff(a: Candidate, b: Candidate)
    ensures SameEvidence(a, b) <==>
              (|| (a.hash != "" && a.hash == b.hash)
               || (ContextSelector.Located(a, b) && Lines(a) * Lines(b) != {}
                   && 20 * |Lines(a) * Lines(b)| >= 13 * Min(|Lines(a)|, |Lines(b)|)))
  {
    OverlapIsOfLines(a, b, 13, 20);
  }

  /** Candidates have the same identity when they are at the same place, or have the same id and no place. */
  lemma {:induction false} IdentityIff(a: Candidate, b: Candidate)
    ensures Identity(a) == Identity(b) <==>
              (if a.path == "" then b.path == "" && a.id == b.id else a.path == b.path && a.start == b.start && a.end == b.end)
  {
  }

  function RealMax(x: real, y: real): real { if x < y then y else x }

  function Distinct(xs: seq<string>): seq<string> {
    if xs == [] then []
    else
      var init, x := Distinct(xs[..|xs| - 1]), xs[|xs| - 1];
      if x in init then init else init + [x]
  }

  function Merge(a: Candidate, b: Candidate): Candidate {
    (if Supersedes(b, a) then b else a).(
      relevance := RealMax(a.relevance, b.relevance),
      confidence := RealMax(a.confidence, b.confidence),
      freshness := RealMax(a.freshness, b.freshness),
      mandatory := a.mandatory || b.mandatory,
      deps := Distinct(a.deps + b.deps))
  }

  /** The first of each, in order. */
  lemma {:induction false} DistinctIsFirsts(xs: seq<string>)
    ensures forall x :: x in Distinct(xs) <==> x in xs
    ensures forall i, j :: 0 <= i < j < |Distinct(xs)| ==> Distinct(xs)[i] != Distinct(xs)[j]
    ensures xs != [] ==> Distinct(xs[..|xs| - 1]) <= Distinct(xs)
  {
    if xs != [] {
      DistinctIsFirsts(xs[..|xs| - 1]);
      assert xs == xs[..|xs| - 1] + [xs[|xs| - 1]];
    }
  }

  lemma {:induction false} DistinctExtends(a: seq<string>, b: seq<string>)
    ensures Distinct(a) <= Distinct(a + b)
  {
    if b == [] {
      assert a + b == a;
    } else {
      var init := b[..|b| - 1];
      DistinctExtends(a, init);
      assert (a + b)[..|a| + |init|] == a + init;
    }
  }

  /** Merging takes what is shown from one of the two, the better of each score, mandatory if either is, and
      the dependencies of both, the first one's before the others. */
  lemma {:induction false} MergeTakesBest(a: Candidate, b: Candidate)
    ensures var m, p := Merge(a, b), if Supersedes(b, a) then b else a;
      && m.id == p.id && m.path == p.path && m.start == p.start && m.end == p.end && m.hash == p.hash
      && m.tokens == p.tokens && m.representation == p.representation && m.content == p.content && m.terms == p.terms
      && (m.relevance == a.relevance || m.relevance == b.relevance) && m.relevance >= a.relevance && m.relevance >= b.relevance
      && (m.confidence == a.confidence || m.confidence == b.confidence) && m.confidence >= a.confidence && m.confidence >= b.confidence
      && (m.freshness == a.freshness || m.freshness == b.freshness) && m.freshness >= a.freshness && m.freshness >= b.freshness
      && (m.mandatory <==> a.mandatory || b.mandatory) && (forall d :: d in m.deps <==> d in a.deps || d in b.deps)
      && Distinct(a.deps) <= m.deps
  {
    DistinctExtends(a.deps, b.deps);
    DistinctIsFirsts(a.deps + b.deps);
  }

  /** The insertion-ordered dictionary of representatives. */
  datatype Reps = Reps(keys: seq<Key>, items: seq<Candidate>)

  /** The first item that is the same evidence, or the length. */
  function FirstEvidence(items: seq<Candidate>, c: Candidate): (i: nat)
    ensures i <= |items|
  {
    if items == [] then 0
    else
      var i := FirstEvidence(items[..|items| - 1], c);
      if i < |items| - 1 || SameEvidence(items[|items| - 1], c) then i else |items|
  }

  function FirstKey(keys: seq<Key>, key: Key): (i: nat)
    ensures i <= |keys| && (i < |keys| ==> keys[i] == key) && (i == |keys| ==> key !in keys)
  {
    if keys == [] then 0
    else
      var i := FirstKey(keys[..|keys| - 1], key);
      if i < |keys| - 1 || keys[|keys| - 1] == key then i
      else
        assert keys == keys[..|keys| - 1] + [keys[|keys| - 1]];
        |keys|
  }

  function Slot(reps: Reps, c: Candidate): (i: nat)
    requires |reps.keys| == |reps.items|
    ensures i <= |reps.items|
  {
    var i := FirstEvidence(reps.items, c);
    if i < |reps.items| then i else FirstKey(reps.keys, Identity(c))
  }

  function Absorb(reps: Reps, c: Candidate): (r: Reps)
    requires |reps.keys| == |reps.items|
    ensures |r.keys| == |r.items|
  {
    var i := Slot(reps, c);
    if i < |reps.items| then reps.(items := reps.items[i := Merge(reps.items[i], c)])
    else Reps(reps.keys + [Identity(c)], reps.items + [c])
  }

  function SlotKey(reps: Reps, c: Candidate): Key
    requires |reps.keys| == |reps.items|
  {
    var i := Slot(reps, c);
    if i < |reps.keys| then reps.keys[i] else Identity(c)
  }

  function AbsorbAll(cs: seq<Candidate>): (r: Reps)
    ensures |r.keys| == |r.items|
  {
    if cs == [] then Reps([], []) else Absorb(AbsorbAll(cs[..|cs| - 1]), cs[|cs| - 1])
  }

  /** A source in progress: within one source each key is absorbed once. */
  datatype Scan = Scan(reps: Reps, seen: set<Key>)

  function ScanSource(reps: Reps, cs: seq<Candidate>): (s: Scan)
    requires |reps.keys| == |reps.items|
    ensures |s.reps.keys| == |s.reps.items|
  {
    if cs == [] then Scan(reps, {})
    else
      var s, c := ScanSource(reps, cs[..|cs| - 1]), cs[|cs| - 1];
      var key := SlotKey(s.reps, c);
      if key in s.seen then s else Scan(Absorb(s.reps, c), s.seen + {key})
  }

  /** The sources whose weight is finite and positive, in order. */
  function Fuse(explicit: seq<Candidate>, sources: seq<seq<Candidate>>): (r: Reps)
    ensures |r.keys| == |r.items|
  {
    if sources == [] then AbsorbAll(explicit)
    else ScanSource(Fuse(explicit, sources[..|sources| - 1]), sources[|sources| - 1]).reps
  }

  // ---------------------------------------------------------------- evidence

  lemma {:induction false} FirstEvidenceIsFirst(items: seq<Candidate>, c: Candidate)
    ensures var i := FirstEvidence(items, c);
      (i < |items| ==> SameEvidence(items[i], c)) && forall j :: 0 <= j < i ==> !SameEvidence(items[j], c)
  {
    if items != [] {
      FirstEvidenceIsFirst(items[..|items| - 1], c);
    }
  }

  /** What merging keeps of a candidate that it does not replace. */
  ghost predicate SameCore(a: Candidate, e: Candidate) {
    && a.id == e.id && a.path == e.path && a.start == e.start && a.end == e.end && a.hash == e.hash
    && a.tokens == e.tokens && a.representation == e.representation && a.content == e.content
    && a.mandatory && a.deps == []
  }

  /** The requested files are different evidence from one another. */
  ghost predicate Apart(explicit: seq<Candidate>) {
    && (forall i :: 0 <= i < |explicit| ==> explicit[i].mandatory && explicit[i].deps == [])
    && (forall i, j :: 0 <= i < j < |explicit| ==> Unrelated(explicit[i], explicit[j]))
  }

  ghost predicate Unrelated(a: Candidate, b: Candidate) {
    a.id != b.id && Identity(a) != Identity(b) && !SameEvidence(a, b)
  }

  /** An optional candidate with an id of its own, whose location matches a file's only as evidence. */
  ghost predicate Foreign(c: Candidate, explicit: seq<Candidate>) {
    && !c.mandatory && c.deps == []
    && forall i :: 0 <= i < |explicit| ==> c.id != explicit[i].id && (Identity(c) == Identity(explicit[i]) ==> SameEvidence(explicit[i], c))
  }

  ghost predicate AllForeign(cs: seq<Candidate>, explicit: seq<Candidate>) {
    forall k :: 0 <= k < |cs| ==> Foreign(cs[k], explicit)
  }

  /** Every requested file is its own representative, ahead of all optional ones. */
  ghost predicate Kept(reps: Reps, explicit: seq<Candidate>) {
    && |explicit| <= |reps.items| == |reps.keys|
    && (forall i :: 0 <= i < |explicit| ==> SameCore(reps.items[i], explicit[i]) && reps.keys[i] == Identity(explicit[i]))
    && (forall i :: |explicit| <= i < |reps.items| ==> OptionalRep(reps, i, explicit))
  }

  ghost predicate OptionalRep(reps: Reps, i: nat, explicit: seq<Candidate>)
    requires i < |reps.items| == |reps.keys|
  {
    !reps.items[i].mandatory && !HasId(explicit, reps.items[i].id) && Claim(explicit, reps.items[i]) == |explicit|
    && forall j :: 0 <= j < |explicit| ==> reps.keys[i] != Identity(explicit[j])
  }

  /** The requested file that a candidate is the same evidence as, if any. */
  function Claim(explicit: seq<Candidate>, c: Candidate): nat { FirstEvidence(explicit, c) }

  lemma {:induction false} ClaimIsSlot(reps: Reps, explicit: seq<Candidate>, c: Candidate)
    requires Kept(reps, explicit) && Foreign(c, explicit)
    ensures if Claim(explicit, c) < |explicit| then Slot(reps, c) == Claim(explicit, c) else Slot(reps, c) >= |explicit|
  {
    FirstEvidenceIsFirst(explicit, c);
    FirstEvidenceIsFirst(reps.items, c);
    var i, j := Claim(explicit, c), FirstEvidence(reps.items, c);
    forall k | 0 <= k < |explicit| ensures SameEvidence(reps.items[k], c) == SameEvidence(explicit[k], c) {
      assert SameCore(reps.items[k], explicit[k]);
    }
    if i < |explicit| {
      assert !(j < i) && !(i < j);
    }
  }

  // ---------------------------------------------------------------- absorbing one candidate

  lemma {:induction false} MergeKeepsCore(a: Candidate, e: Candidate, c: Candidate)
    requires SameCore(a, e) && c.deps == [] && !Supersedes(c, e)
    ensures SameCore(Merge(a, c), e)
  {
    assert a.deps + c.deps == [];
  }

  /** Evidence is a matter of the hash and the location, which a merge takes from one of the two. */
  ghost predicate SamePlace(a: Candidate, b: Candidate) {
    a.id == b.id && a.path == b.path && a.start == b.start && a.end == b.end && a.hash == b.hash
  }

  lemma {:induction false} SamePlaceClaims(a: Candidate, b: Candidate, explicit: seq<Candidate>)
    requires SamePlace(a, b)
    ensures Claim(explicit, a) == Claim(explicit, b)
  {
    if explicit != [] { SamePlaceClaims(a, b, explicit[..|explicit| - 1]); }
  }

  lemma {:induction false} MergeClaims(a: Candidate, c: Candidate, explicit: seq<Candidate>)
    ensures Claim(explicit, Merge(a, c)) == Claim(explicit, if Supersedes(c, a) then c else a)
  {
    SamePlaceClaims(Merge(a, c), if Supersedes(c, a) then c else a, explicit);
  }

  lemma {:induction false} AbsorbKept(reps: Reps, explicit: seq<Candidate>, c: Candidate)
    requires Kept(reps, explicit) && Foreign(c, explicit)
    requires Claim(explicit, c) < |explicit| ==> !Supersedes(c, explicit[Claim(explicit, c)])
    ensures Kept(Absorb(reps, c), explicit)
  {
    ClaimIsSlot(reps, explicit, c);
    var i, r := Slot(reps, c), Absorb(reps, c);
    if i < |explicit| {
      MergeKeepsCore(reps.items[i], explicit[i], c);
    }
    forall j | |explicit| <= j < |r.items| ensures OptionalRep(r, j, explicit) {
      if j < |reps.items| {
        assert OptionalRep(reps, j, explicit);
        if j == i { MergeClaims(reps.items[j], c, explicit); }
      } else {
        forall k | 0 <= k < |explicit| ensures r.keys[j] != Identity(explicit[k]) {
          assert reps.keys[k] == Identity(explicit[k]) && reps.keys[k] in reps.keys;
        }
      }
    }
  }

  ghost predicate Lost(reps: Reps, id: string) {
    forall j :: 0 <= j < |reps.items| ==> reps.items[j].id != id
  }

  lemma {:induction false} LostStays(reps: Reps, c: Candidate, id: string)
    requires |reps.keys| == |reps.items| && Lost(reps, id) && c.id != id
    ensures Lost(Absorb(reps, c), id)
  {
  }

  /** A file whose first claimant supersedes it is no longer anywhere. */
  lemma {:induction false} AbsorbLoses(reps: Reps, explicit: seq<Candidate>, c: Candidate)
    requires Kept(reps, explicit) && Foreign(c, explicit) && Apart(explicit)
    requires Claim(explicit, c) < |explicit| && Supersedes(c, explicit[Claim(explicit, c)])
    ensures Lost(Absorb(reps, c), explicit[Claim(explicit, c)].id)
  {
    ClaimIsSlot(reps, explicit, c);
    var i, r := Claim(explicit, c), Absorb(reps, c);
    assert SameCore(reps.items[i], explicit[i]);
    forall j | 0 <= j < |r.items| ensures r.items[j].id != explicit[i].id {
      if j == i {
      } else if j < |explicit| {
        assert SameCore(reps.items[j], explicit[j]);
        assert j < i ==> Unrelated(explicit[j], explicit[i]);
        assert i < j ==> Unrelated(explicit[i], explicit[j]);
      } else {
        assert OptionalRep(reps, j, explicit);
      }
    }
  }

  // ---------------------------------------------------------------- one source

  ghost predicate Claimed(explicit: seq<Candidate>, cs: seq<Candidate>, i: nat) {
    exists k :: 0 <= k < |cs| && Claim(explicit, cs[k]) == i
  }

  /** The first candidate of the source to claim a requested file does not supersede it. */
  ghost predicate NoTakeover(explicit: seq<Candidate>, cs: seq<Candidate>) {
    forall k :: 0 <= k < |cs| ==> NoTakeoverAt(explicit, cs, k)
  }

  ghost predicate NoTakeoverAt(explicit: seq<Candidate>, cs: seq<Candidate>, k: nat)
    requires k < |cs|
  {
    var i := Claim(explicit, cs[k]);
    i < |explicit| && !Claimed(explicit, cs[..k], i) ==> !Supersedes(cs[k], explicit[i])
  }

  lemma {:induction false} NoTakeoverSnoc(explicit: seq<Candidate>, cs: seq<Candidate>)
    requires cs != []
    ensures NoTakeover(explicit, cs) <==>
              NoTakeover(explicit, cs[..|cs| - 1]) && NoTakeoverAt(explicit, cs, |cs| - 1)
  {
    var init := cs[..|cs| - 1];
    forall k | 0 <= k < |init| ensures NoTakeoverAt(explicit, init, k) <==> NoTakeoverAt(explicit, cs, k) {
      assert init[..k] == cs[..k];
    }
  }

  lemma {:induction false} ClaimedSnoc(explicit: seq<Candidate>, cs: seq<Candidate>, i: nat)
    requires cs != []
    ensures Claimed(explicit, cs, i) <==>
              Claimed(explicit, cs[..|cs| - 1], i) || Claim(explicit, cs[|cs| - 1]) == i
  {
    var init := cs[..|cs| - 1];
    if Claimed(explicit, init, i) {
      var k :| 0 <= k < |init| && Claim(explicit, init[k]) == i;
      assert cs[k] == init[k];
    }
    if Claimed(explicit, cs, i) {
      var k :| 0 <= k < |cs| && Claim(explicit, cs[k]) == i;
      if k < |init| { assert init[k] == cs[k]; }
    }
  }

  /** Within a source, a requested file's key has been seen exactly when the file was claimed. */
  ghost predicate SeenMatches(explicit: seq<Candidate>, cs: seq<Candidate>, seen: set<Key>) {
    forall i :: 0 <= i < |explicit| ==> (Identity(explicit[i]) in seen <==> Claimed(explicit, cs, i))
  }

  lemma {:induction false} KeyOfClaim(reps: Reps, explicit: seq<Candidate>, c: Candidate, i: nat)
    requires Kept(reps, explicit) && Foreign(c, explicit) && Apart(explicit) && i < |explicit|
    ensures SlotKey(reps, c) == Identity(explicit[i]) <==> Claim(explicit, c) == i
  {
    ClaimIsSlot(reps, explicit, c);
    var s := Slot(reps, c);
    assert reps.keys[i] == Identity(explicit[i]) && reps.keys[i] in reps.keys;
    if s < i {
      assert Unrelated(explicit[s], explicit[i]);
    } else if i < s < |explicit| {
      assert Unrelated(explicit[i], explicit[s]);
    } else if |explicit| <= s < |reps.items| {
      assert OptionalRep(reps, s, explicit);
    }
  }

  lemma {:induction false} ScanKept(reps: Reps, explicit: seq<Candidate>, cs: seq<Candidate>)
    requires Kept(reps, explicit) && Apart(explicit) && AllForeign(cs, explicit) && NoTakeover(explicit, cs)
    ensures Kept(ScanSource(reps, cs).reps, explicit) && SeenMatches(explicit, cs, ScanSource(reps, cs).seen)
  {
    if cs != [] {
      var init, c := cs[..|cs| - 1], cs[|cs| - 1];
      NoTakeoverSnoc(explicit, cs);
      ScanKept(reps, explicit, init);
      var s := ScanSource(reps, init);
      forall i | 0 <= i < |explicit|
        ensures Identity(explicit[i]) in ScanSource(reps, cs).seen <==> Claimed(explicit, cs, i)
      {
        ClaimedSnoc(explicit, cs, i);
        KeyOfClaim(s.reps, explicit, c, i);
      }
      if SlotKey(s.reps, c) !in s.seen {
        if Claim(explicit, c) < |explicit| { KeyOfClaim(s.reps, explicit, c, Claim(explicit, c)); }
        AbsorbKept(s.reps, explicit, c);
      }
    }
  }

  lemma {:induction false} ScanLost(reps: Reps, explicit: seq<Candidate>, cs: seq<Candidate>, i: nat)
    requires |reps.keys| == |reps.items| && AllForeign(cs, explicit) && i < |explicit| && Lost(reps, explicit[i].id)
    ensures Lost(ScanSource(reps, cs).reps, explicit[i].id)
  {
    if cs != [] {
      ScanLost(reps, explicit, cs[..|cs| - 1], i);
      LostStays(ScanSource(reps, cs[..|cs| - 1]).reps, cs[|cs| - 1], explicit[i].id);
    }
  }

  lemma {:induction false} ScanTakesOver(reps: Reps, explicit: seq<Candidate>, cs: seq<Candidate>) returns (i: nat)
    requires Kept(reps, explicit) && Apart(explicit) && AllForeign(cs, explicit) && !NoTakeover(explicit, cs)
    ensures i < |explicit| && Lost(ScanSource(reps, cs).reps, explicit[i].id)
  {
    var init, c := cs[..|cs| - 1], cs[|cs| - 1];
    NoTakeoverSnoc(explicit, cs);
    var s := ScanSource(reps, init);
    if NoTakeover(explicit, init) {
      i := Claim(explicit, c);
      ScanKept(reps, explicit, init);
      KeyOfClaim(s.reps, explicit, c, i);
      AbsorbLoses(s.reps, explicit, c);
    } else {
      i := ScanTakesOver(reps, explicit, init);
      LostStays(s.reps, c, explicit[i].id);
    }
  }

  // ---------------------------------------------------------------- the whole fusion

  lemma {:induction false} NewEvidence(reps: Reps, c: Candidate)
    requires |reps.keys| == |reps.items|
    requires forall i :: 0 <= i < |reps.items| ==> !SameEvidence(reps.items[i], c) && reps.keys[i] != Identity(c)
    ensures Absorb(reps, c) == Reps(reps.keys + [Identity(c)], reps.items + [c])
  {
    FirstEvidenceIsFirst(reps.items, c);
  }

  /** The first `k` requested files, each under its own key. */
  ghost predicate AsGiven(reps: Reps, explicit: seq<Candidate>, k: nat)
    requires k <= |explicit|
  {
    |reps.keys| == |reps.items| && reps.items == explicit[..k]
    && forall i :: 0 <= i < k ==> reps.keys[i] == Identity(explicit[i])
  }

  lemma {:induction false} AsGivenStep(reps: Reps, explicit: seq<Candidate>, k: nat)
    requires Apart(explicit) && k < |explicit| && AsGiven(reps, explicit, k)
    ensures AsGiven(Absorb(reps, explicit[k]), explicit, k + 1)
  {
    forall i | 0 <= i < k ensures !SameEvidence(reps.items[i], explicit[k]) && reps.keys[i] != Identity(explicit[k]) {
      assert reps.items[i] == explicit[i] && Unrelated(explicit[i], explicit[k]);
    }
    NewEvidence(reps, explicit[k]);
  }

  lemma {:induction false} ExplicitAreKept(explicit: seq<Candidate>, k: nat)
    requires Apart(explicit) && k <= |explicit|
    ensures AsGiven(AbsorbAll(explicit[..k]), explicit, k)
  {
    if k > 0 {
      ExplicitAreKept(explicit, k - 1);
      assert explicit[..k][..k - 1] == explicit[..k - 1];
      AsGivenStep(AbsorbAll(explicit[..k - 1]), explicit, k - 1);
    }
  }

  ghost predicate SourcesForeign(sources: seq<seq<Candidate>>, explicit: seq<Candidate>) {
    forall s :: 0 <= s < |sources| ==> AllForeign(sources[s], explicit)
  }

  ghost predicate NoTakeovers(explicit: seq<Candidate>, sources: seq<seq<Candidate>>) {
    forall s :: 0 <= s < |sources| ==> NoTakeover(explicit, sources[s])
  }

  lemma {:induction false} FuseKept(explicit: seq<Candidate>, sources: seq<seq<Candidate>>)
    requires Apart(explicit) && SourcesForeign(sources, explicit) && NoTakeovers(explicit, sources)
    ensures Kept(Fuse(explicit, sources), explicit)
  {
    if sources == [] {
      ExplicitAreKept(explicit, |explicit|);
      assert explicit[..|explicit|] == explicit;
    } else {
      FuseKept(explicit, sources[..|sources| - 1]);
      ScanKept(Fuse(explicit, sources[..|sources| - 1]), explicit, sources[|sources| - 1]);
    }
  }

  lemma {:induction false} FuseLoses(explicit: seq<Candidate>, sources: seq<seq<Candidate>>) returns (i: nat)
    requires Apart(explicit) && SourcesForeign(sources, explicit) && !NoTakeovers(explicit, sources)
    ensures i < |explicit| && Lost(Fuse(explicit, sources), explicit[i].id)
  {
    var init, cs := sources[..|sources| - 1], sources[|sources| - 1];
    if NoTakeovers(explicit, init) {
      FuseKept(explicit, init);
      i := ScanTakesOver(Fuse(explicit, init), explicit, cs);
    } else {
      i := FuseLoses(explicit, init);
      ScanLost(Fuse(explicit, init), explicit, cs, i);
    }
  }

  // ---------------------------------------------------------------- files with the same content

  /** Requested files under different paths. */
  ghost predicate DistinctFiles(explicit: seq<Candidate>) {
    && (forall i :: 0 <= i < |explicit| ==> explicit[i].mandatory && explicit[i].deps == [] && explicit[i].path != "")
    && (forall i, j :: 0 <= i < j < |explicit| ==> explicit[i].id != explicit[j].id && explicit[i].path != explicit[j].path)
  }

  predicate Twins(a: Candidate, b: Candidate) { a.hash != "" && a.hash == b.hash }

  ghost predicate NoTwins(explicit: seq<Candidate>) {
    forall i, j :: 0 <= i < j < |explicit| ==> !Twins(explicit[i], explicit[j])
  }

  /** Files under different paths are the same evidence only through their content. */
  lemma {:induction false} ApartIffNoTwins(explicit: seq<Candidate>)
    requires DistinctFiles(explicit)
    ensures Apart(explicit) <==> NoTwins(explicit)
  {
    forall i, j | 0 <= i < j < |explicit| ensures Unrelated(explicit[i], explicit[j]) <==> !Twins(explicit[i], explicit[j]) {
    }
    if Apart(explicit) {
      forall i, j | 0 <= i < j < |explicit| ensures !Twins(explicit[i], explicit[j]) {
        assert Unrelated(explicit[i], explicit[j]);
      }
    }
    if NoTwins(explicit) {
      forall i, j | 0 <= i < j < |explicit| ensures Unrelated(explicit[i], explicit[j]) {
        assert !Twins(explicit[i], explicit[j]);
      }
    }
  }

  /** A file that repeats the content of an earlier one: merging them loses one of the two ids. */
  lemma {:induction false} TwinLosesOne(reps: Reps, explicit: seq<Candidate>, k: nat, twin: nat) returns (i: nat)
    requires DistinctFiles(explicit) && twin < k < |explicit| && AsGiven(reps, explicit, k)
    requires Twins(explicit[twin], explicit[k])
    ensures i <= k && Lost(Absorb(reps, explicit[k]), explicit[i].id)
  {
    var c, items := explicit[k], reps.items;
    FirstEvidenceIsFirst(items, c);
    var slot := FirstEvidence(items, c);
    assert SameEvidence(items[twin], c);
    forall j | 0 <= j < |items| ensures items[j].id == explicit[j].id && items[j].id != c.id {
      assert items[j] == explicit[j];
    }
    i := if Supersedes(c, items[slot]) then slot else k;
  }

  lemma {:induction false} TwinOfLast(explicit: seq<Candidate>, k: nat) returns (twin: nat)
    requires 0 < k <= |explicit| && NoTwins(explicit[..k - 1]) && !NoTwins(explicit[..k])
    ensures twin < k - 1 && Twins(explicit[twin], explicit[k - 1])
  {
    var init, files := explicit[..k - 1], explicit[..k];
    if forall t :: 0 <= t < k - 1 ==> !Twins(explicit[t], explicit[k - 1]) {
      forall a, b | 0 <= a < b < k ensures !Twins(files[a], files[b]) {
        assert files[a] == explicit[a] == init[a];
        if b < k - 1 { assert files[b] == init[b]; }
      }
    }
    twin :| 0 <= twin < k - 1 && Twins(explicit[twin], explicit[k - 1]);
  }

  lemma {:induction false} DistinctFilesSnoc(files: seq<Candidate>, e: Candidate)
    requires DistinctFiles(files) && e.mandatory && e.deps == [] && e.path != ""
    requires forall i :: 0 <= i < |files| ==> files[i].id != e.id && files[i].path != e.path
    ensures DistinctFiles(files + [e])
  {
    var more := files + [e];
    forall i, j | 0 <= i < j < |more| ensures more[i].id != more[j].id && more[i].path != more[j].path {
      assert more[i] == files[i];
      if j < |files| { assert more[j] == files[j]; }
    }
  }

  lemma {:induction false} AbsorbNext(explicit: seq<Candidate>, k: nat)
    requires 0 < k <= |explicit|
    ensures AbsorbAll(explicit[..k]) == Absorb(AbsorbAll(explicit[..k - 1]), explicit[k - 1])
  {
    assert explicit[..k][..k - 1] == explicit[..k - 1];
  }

  lemma {:induction false} LostNext(explicit: seq<Candidate>, k: nat, id: string)
    requires 0 < k <= |explicit| && explicit[k - 1].id != id && Lost(AbsorbAll(explicit[..k - 1]), id)
    ensures Lost(AbsorbAll(explicit[..k]), id)
  {
    AbsorbNext(explicit, k);
    LostStays(AbsorbAll(explicit[..k - 1]), explicit[k - 1], id);
  }

  /** The first file that repeats an earlier one. */
  lemma {:induction false} FirstTwinLost(explicit: seq<Candidate>, k: nat, twin: nat) returns (i: nat)
    requires DistinctFiles(explicit) && twin < k - 1 < |explicit| && Twins(explicit[twin], explicit[k - 1])
    requires AsGiven(AbsorbAll(explicit[..k - 1]), explicit, k - 1)
    ensures i < k && Lost(AbsorbAll(explicit[..k]), explicit[i].id)
  {
    AbsorbNext(explicit, k);
    i := TwinLosesOne(AbsorbAll(explicit[..k - 1]), explicit, k - 1, twin);
  }

  lemma {:induction false} KeptSoFar(explicit: seq<Candidate>, k: nat)
    requires DistinctFiles(explicit) && k <= |explicit| && NoTwins(explicit[..k])
    ensures AsGiven(AbsorbAll(explicit[..k]), explicit, k)
  {
    var init := explicit[..k];
    ApartIffNoTwins(init);
    ExplicitAreKept(init, k);
    assert init[..k] == init;
  }

  /** The first file with an earlier twin, and the twin. */
  lemma {:induction false} FirstTwin(explicit: seq<Candidate>, n: nat) returns (k: nat, twin: nat)
    requires n <= |explicit| && !NoTwins(explicit[..n])
    ensures twin < k - 1 < n && NoTwins(explicit[..k - 1]) && Twins(explicit[twin], explicit[k - 1])
  {
    if NoTwins(explicit[..n - 1]) {
      k := n;
      twin := TwinOfLast(explicit, n);
    } else {
      k, twin := FirstTwin(explicit, n - 1);
    }
  }

  ghost predicate Unnamed(files: seq<Candidate>, id: string) {
    forall j :: 0 <= j < |files| ==> files[j].id != id
  }

  lemma {:induction false} LostUpTo(explicit: seq<Candidate>, k: nat, n: nat, id: string)
    requires k <= n <= |explicit| && Unnamed(explicit[k..], id) && Lost(AbsorbAll(explicit[..k]), id)
    ensures Lost(AbsorbAll(explicit[..n]), id)
  {
    if k < n {
      LostUpTo(explicit, k, n - 1, id);
      assert explicit[k..][n - 1 - k] == explicit[n - 1];
      LostNext(explicit, n, id);
    }
  }

  /** Of files two of which have the same content, one is lost. */
  lemma {:induction false} TwinsLoseOne(explicit: seq<Candidate>, n: nat) returns (i: nat)
    requires DistinctFiles(explicit) && n <= |explicit| && !NoTwins(explicit[..n])
    ensures i < n && Lost(AbsorbAll(explicit[..n]), explicit[i].id)
  {
    var k, twin := FirstTwin(explicit, n);
    KeptSoFar(explicit, k - 1);
    i := FirstTwinLost(explicit, k, twin);
    assert Unnamed(explicit[k..], explicit[i].id);
    LostUpTo(explicit, k, n, explicit[i].id);
  }

  lemma {:induction false} FuseLost(explicit: seq<Candidate>, sources: seq<seq<Candidate>>, i: nat)
    requires SourcesForeign(sources, explicit) && i < |explicit| && Lost(AbsorbAll(explicit), explicit[i].id)
    ensures Lost(Fuse(explicit, sources), explicit[i].id)
  {
    if sources != [] {
      FuseLost(explicit, sources[..|sources| - 1], i);
      ScanLost(Fuse(explicit, sources[..|sources| - 1]), explicit, sources[|sources| - 1], i);
    }
  }

  /** Some requested file is lost when two have the same content or a source takes one over. */
  lemma {:induction false} SomeFileIsLost(explicit: seq<Candidate>, sources: seq<seq<Candidate>>) returns (i: nat)
    requires DistinctFiles(explicit) && SourcesForeign(sources, explicit)
    requires !NoTwins(explicit) || !NoTakeovers(explicit, sources)
    ensures i < |explicit| && Lost(Fuse(explicit, sources), explicit[i].id)
  {
    if NoTwins(explicit) {
      ApartIffNoTwins(explicit);
      i := FuseLoses(explicit, sources);
    } else {
      assert explicit[..|explicit|] == explicit;
      i := TwinsLoseOne(explicit, |explicit|);
      FuseLost(explicit, sources, i);
    }
  }

  /** Every requested file is still there after fusion if and only if no two have the same content and
      no source's first claimant of one supersedes it. */
  lemma {:induction false} FilesSurviveFusionIff(explicit: seq<Candidate>, sources: seq<seq<Candidate>>)
    requires DistinctFiles(explicit) && SourcesForeign(sources, explicit)
    ensures NoTwins(explicit) && NoTakeovers(explicit, sources) <==>
              forall i :: 0 <= i < |explicit| ==> HasId(Fuse(explicit, sources).items, explicit[i].id)
  {
    var r := Fuse(explicit, sources);
    if NoTwins(explicit) && NoTakeovers(explicit, sources) {
      ApartIffNoTwins(explicit);
      FuseKept(explicit, sources);
      forall i | 0 <= i < |explicit| ensures HasId(r.items, explicit[i].id) {
        assert SameCore(r.items[i], explicit[i]);
      }
    } else {
      var i := SomeFileIsLost(explicit, sources);
      assert !HasId(r.items, explicit[i].id);
    }
  }

  // ---------------------------------------------------------------- semantic reranking

  /** The optional candidates of a fusion, with scores changed, in any order: what the semantic source
      holds, which skips the mandatory ones. */
  ghost predicate DrawnFrom(semantic: seq<Candidate>, reps: Reps) {
    forall k :: 0 <= k < |semantic| ==> DrawnAt(semantic[k], reps)
  }

  ghost predicate DrawnAt(c: Candidate, reps: Reps) {
    exists i :: 0 <= i < |reps.items| && !reps.items[i].mandatory && c == reps.items[i].(relevance := c.relevance)
  }

  ghost predicate OptionalAreForeign(reps: Reps, explicit: seq<Candidate>) {
    forall i :: 0 <= i < |reps.items| && !reps.items[i].mandatory ==> Foreign(reps.items[i], explicit)
  }

  lemma {:induction false} SamePlaceForeign(a: Candidate, b: Candidate, explicit: seq<Candidate>)
    requires Foreign(a, explicit) && SamePlace(a, b) && !b.mandatory && b.deps == []
    ensures Foreign(b, explicit)
  {
    forall i | 0 <= i < |explicit|
      ensures b.id != explicit[i].id && (Identity(b) == Identity(explicit[i]) ==> SameEvidence(explicit[i], b))
    {
      assert a.id != explicit[i].id && (Identity(a) == Identity(explicit[i]) ==> SameEvidence(explicit[i], a));
    }
  }

  lemma {:induction false} MergeForeign(a: Candidate, c: Candidate, explicit: seq<Candidate>)
    requires Foreign(a, explicit) && Foreign(c, explicit)
    ensures Foreign(Merge(a, c), explicit)
  {
    assert a.deps + c.deps == [];
    SamePlaceForeign(if Supersedes(c, a) then c else a, Merge(a, c), explicit);
  }

  lemma {:induction false} AbsorbForeign(reps: Reps, explicit: seq<Candidate>, c: Candidate)
    requires |reps.keys| == |reps.items| && OptionalAreForeign(reps, explicit) && (c.mandatory || Foreign(c, explicit))
    ensures OptionalAreForeign(Absorb(reps, c), explicit)
  {
    var i := Slot(reps, c);
    if i < |reps.items| && !reps.items[i].mandatory && !c.mandatory { MergeForeign(reps.items[i], c, explicit); }
  }

  lemma {:induction false} FilesAreMandatory(explicit: seq<Candidate>, cs: seq<Candidate>)
    requires forall i :: 0 <= i < |cs| ==> cs[i].mandatory
    ensures OptionalAreForeign(AbsorbAll(cs), explicit)
  {
    if cs != [] {
      FilesAreMandatory(explicit, cs[..|cs| - 1]);
      AbsorbForeign(AbsorbAll(cs[..|cs| - 1]), explicit, cs[|cs| - 1]);
    }
  }

  lemma {:induction false} ScanForeign(reps: Reps, explicit: seq<Candidate>, cs: seq<Candidate>)
    requires |reps.keys| == |reps.items| && OptionalAreForeign(reps, explicit) && AllForeign(cs, explicit)
    ensures OptionalAreForeign(ScanSource(reps, cs).reps, explicit)
  {
    if cs != [] {
      ScanForeign(reps, explicit, cs[..|cs| - 1]);
      AbsorbForeign(ScanSource(reps, cs[..|cs| - 1]).reps, explicit, cs[|cs| - 1]);
    }
  }

  lemma {:induction false} FuseForeign(explicit: seq<Candidate>, sources: seq<seq<Candidate>>)
    requires (forall i :: 0 <= i < |explicit| ==> explicit[i].mandatory) && SourcesForeign(sources, explicit)
    ensures OptionalAreForeign(Fuse(explicit, sources), explicit)
  {
    if sources == [] {
      FilesAreMandatory(explicit, explicit);
    } else {
      FuseForeign(explicit, sources[..|sources| - 1]);
      ScanForeign(Fuse(explicit, sources[..|sources| - 1]), explicit, sources[|sources| - 1]);
    }
  }

  lemma {:induction false} DrawnForeign(explicit: seq<Candidate>, reps: Reps, semantic: seq<Candidate>)
    requires OptionalAreForeign(reps, explicit) && DrawnFrom(semantic, reps)
    ensures AllForeign(semantic, explicit)
  {
    forall k | 0 <= k < |semantic| ensures Foreign(semantic[k], explicit) {
      assert DrawnAt(semantic[k], reps);
      var i :| 0 <= i < |reps.items| && !reps.items[i].mandatory && semantic[k] == reps.items[i].(relevance := semantic[k].relevance);
      SamePlaceForeign(reps.items[i], semantic[k], explicit);
    }
  }

  lemma {:induction false} DrawnClaimsNothing(explicit: seq<Candidate>, reps: Reps, semantic: seq<Candidate>)
    requires Kept(reps, explicit) && DrawnFrom(semantic, reps)
    ensures NoTakeover(explicit, semantic)
  {
    forall k | 0 <= k < |semantic| ensures NoTakeoverAt(explicit, semantic, k) {
      assert DrawnAt(semantic[k], reps);
      var i :| 0 <= i < |reps.items| && !reps.items[i].mandatory && semantic[k] == reps.items[i].(relevance := semantic[k].relevance);
      assert i < |explicit| ==> SameCore(reps.items[i], explicit[i]);
      assert OptionalRep(reps, i, explicit);
      SamePlaceClaims(semantic[k], reps.items[i], explicit);
    }
  }

  /** The semantic source is drawn from what the other sources were fused into, and is fused again after
      them: it never takes a requested file over that was still there. */
  lemma {:induction false} RerankingTakesNothing(explicit: seq<Candidate>, sources: seq<seq<Candidate>>, semantic: seq<Candidate>)
    requires DistinctFiles(explicit) && SourcesForeign(sources, explicit) && DrawnFrom(semantic, Fuse(explicit, sources))
    ensures SourcesForeign(sources + [semantic], explicit)
    ensures NoTwins(explicit) ==> (NoTakeovers(explicit, sources + [semantic]) <==> NoTakeovers(explicit, sources))
  {
    FuseForeign(explicit, sources);
    DrawnForeign(explicit, Fuse(explicit, sources), semantic);
    var all := sources + [semantic];
    if NoTwins(explicit) && NoTakeovers(explicit, sources) {
      ApartIffNoTwins(explicit);
      FuseKept(explicit, sources);
      DrawnClaimsNothing(explicit, Fuse(explicit, sources), semantic);
    }
    if NoTakeovers(explicit, all) {
      forall s | 0 <= s < |sources| ensures NoTakeover(explicit, sources[s]) { assert all[s] == sources[s]; }
    }
  }

  // ---------------------------------------------------------------- the code

  datatype Source = Source(usable: bool, candidates: seq<Candidate>)

  /** The sources with a finite positive weight. */
  function Usable(sources: seq<Source>): seq<seq<Candidate>> {
    if sources == [] then []
    else Usable(sources[..|sources| - 1]) + if sources[|sources| - 1].usable then [sources[|sources| - 1].candidates] else []
  }

  /** The sources keep their order, and an unusable one gives nothing. */
  lemma {:induction false} UsableSplits(a: seq<Source>, s: Source, b: seq<Source>)
    ensures Usable(a + [s] + b) == Usable(a) + (if s.usable then [s.candidates] else []) + Usable(b)
  {
    if b == [] {
      assert (a + [s] + b)[..|a|] == a && Usable(b) == [];
    } else {
      var init := b[..|b| - 1];
      UsableSplits(a, s, init);
      assert (a + [s] + b)[..|a| + |b|] == a + [s] + init;
    }
  }

  /** `_resolve_key`, as the position of the representative. */
  method ResolveSlot(reps: Reps, c: Candidate) returns (slot: nat)
    requires |reps.keys| == |reps.items|
    ensures slot == Slot(reps, c)
  {
    FirstEvidenceIsFirst(reps.items, c);
    for k := 0 to |reps.items|
      invariant forall j :: 0 <= j < k ==> !SameEvidence(reps.items[j], c)
    {
      if SameEvidence(reps.items[k], c) { return k; }
    }
    slot := FirstKey(reps.keys, Identity(c));
  }

  /** The loop over one source. */
  method FuseSource(reps: Reps, cs: seq<Candidate>) returns (r: Reps)
    requires |reps.keys| == |reps.items|
    ensures r == ScanSource(reps, cs).reps
  {
    var seen: set<Key> := {};
    r := reps;
    for k := 0 to |cs|
      invariant Scan(r, seen) == ScanSource(reps, cs[..k])
    {
      assert cs[..k + 1][..k] == cs[..k];
      var slot := ResolveSlot(r, cs[k]);
      var key := if slot < |r.keys| then r.keys[slot] else Identity(cs[k]);
      if key !in seen {
        seen := seen + {key};
        if slot < |r.items| {
          r := Reps(r.keys, r.items[slot := Merge(r.items[slot], cs[k])]);
        } else {
          r := Reps(r.keys + [key], r.items + [cs[k]]);
        }
      }
    }
    assert cs[..|cs|] == cs;
  }

  /** `fuse`, up to the scores of the optional candidates. */
  method FuseSources(explicit: seq<Candidate>, sources: seq<Source>) returns (r: Reps)
    ensures r == Fuse(explicit, Usable(sources))
  {
    r := Reps([], []);
    for k := 0 to |explicit|
      invariant r == AbsorbAll(explicit[..k])
    {
      assert explicit[..k + 1][..k] == explicit[..k];
      var slot := ResolveSlot(r, explicit[k]);
      if slot < |r.items| {
        r := Reps(r.keys, r.items[slot := Merge(r.items[slot], explicit[k])]);
      } else {
        r := Reps(r.keys + [Identity(explicit[k])], r.items + [explicit[k]]);
      }
    }
    assert explicit[..|explicit|] == explicit;
    for k := 0 to |sources|
      invariant r == Fuse(explicit, Usable(sources[..k]))
    {
      assert sources[..k + 1][..k] == sources[..k];
      ghost var done := Usable(sources[..k]);
      if sources[k].usable {
        assert (done + [sources[k].candidates])[..|done|] == done;
        r := FuseSource(r, sources[k].candidates);
      } else {
        assert done + [] == done;
      }
    }
    assert sources[..|sources|] == sources;
  }
}
