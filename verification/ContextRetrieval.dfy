/**
 Explicitly requested files on their way into the context: the budget loop, rank fusion and the
 selector under one token budget (kitt/context/retrieval.py, lines 100-118 and 240-263).
 */
module ContextRetrieval {
  import opened Common
  import opened ContextSelector
  import opened ExplicitFiles
  import opened RankFusion

  /** What fusion hands to the selector: the mandatory representatives, then the optional ones. */
  function Pool(reps: Reps, optional: seq<Candidate>): seq<Candidate> { Mandatory(reps.items) + optional }

  ghost predicate NoneMandatory(cs: seq<Candidate>) {
    forall i :: 0 <= i < |cs| ==> !cs[i].mandatory
  }

  lemma {:induction false} MandatoryOfPrefix(cs: seq<Candidate>, m: nat)
    requires m <= |cs| && (forall i :: 0 <= i < m ==> cs[i].mandatory) && NoneMandatory(cs[m..])
    ensures Mandatory(cs) == cs[..m]
  {
    if cs != [] {
      var init := cs[..|cs| - 1];
      if m == |cs| {
        MandatoryOfPrefix(init, m - 1);
        assert init[..m - 1] == cs[..m - 1];
      } else {
        assert cs[|cs| - 1] == cs[m..][|cs| - 1 - m];
        assert init[m..] == cs[m..|cs| - 1] == cs[m..][..|cs| - 1 - m];
        MandatoryOfPrefix(init, m);
        assert init[..m] == cs[..m];
      }
    }
  }

  lemma {:induction false} SameTokensSameCost(a: seq<Candidate>, b: seq<Candidate>)
    requires |a| == |b| && forall i :: 0 <= i < |a| ==> a[i].tokens == b[i].tokens
    ensures TotalCost(a) == TotalCost(b)
  {
    if a != [] { SameTokensSameCost(a[..|a| - 1], b[..|b| - 1]); }
  }

  lemma {:induction false} KeptArePooled(reps: Reps, explicit: seq<Candidate>, optional: seq<Candidate>)
    requires Kept(reps, explicit) && NoneMandatory(optional)
    ensures Mandatory(reps.items) == reps.items[..|explicit|] == Mandatory(Pool(reps, optional))
    ensures TotalCost(Mandatory(Pool(reps, optional))) == TotalCost(explicit)
  {
    var m := |explicit|;
    KeptComeFirst(reps, explicit);
    var items, kept := reps.items, reps.items[..m];
    MandatoryOfPrefix(items, m);
    MandatoryThenRest(kept, optional);
    SameTokensSameCost(kept, explicit);
  }

  lemma {:induction false} KeptComeFirst(reps: Reps, explicit: seq<Candidate>)
    requires Kept(reps, explicit)
    ensures |explicit| <= |reps.items| && NoneMandatory(reps.items[|explicit|..])
    ensures forall i :: 0 <= i < |explicit| ==> reps.items[i].mandatory && reps.items[i].tokens == explicit[i].tokens
  {
    var rest := reps.items[|explicit|..];
    forall i | 0 <= i < |rest| ensures !rest[i].mandatory { assert OptionalRep(reps, |explicit| + i, explicit); }
    forall i | 0 <= i < |explicit| ensures reps.items[i].mandatory && reps.items[i].tokens == explicit[i].tokens {
      assert SameCore(reps.items[i], explicit[i]);
    }
  }

  lemma {:induction false} MandatoryThenRest(first: seq<Candidate>, rest: seq<Candidate>)
    requires (forall i :: 0 <= i < |first| ==> first[i].mandatory) && NoneMandatory(rest)
    ensures Mandatory(first + rest) == first
  {
    assert (first + rest)[|first|..] == rest && (first + rest)[..|first|] == first;
    MandatoryOfPrefix(first + rest, |first|);
  }

  /** A requested file that fusion keeps is never discarded by the selector. */
  lemma {:induction false} KeptFilesAreSelected(explicit: seq<Candidate>, reps: Reps, optional: seq<Candidate>, maxTokens: int, i: nat)
    requires Kept(reps, explicit) && NoneMandatory(optional) && TotalCost(explicit) <= Max(0, maxTokens) && i < |explicit|
    ensures var pool := Pool(reps, optional);
      HasId(Selected(RulesFor(pool, maxTokens), pool).selected, explicit[i].id)
  {
    var pool := Pool(reps, optional);
    KeptArePooled(reps, explicit, optional);
    RulesAreIndexed(pool, maxTokens);
    forall c | c in pool && c.mandatory ensures c.deps == [] {
      MandatoryMembers(pool, c);
      var k :| 0 <= k < |explicit| && reps.items[k] == c;
      assert SameCore(reps.items[k], explicit[k]);
    }
    assert SameCore(reps.items[i], explicit[i]);
    assert pool[i] == reps.items[i];
    MandatorySurvive(RulesFor(pool, maxTokens), pool, pool[i]);
  }

  /** The optional candidates are representatives too, with their scores changed. */
  ghost predicate OptionalOf(reps: Reps, optional: seq<Candidate>) {
    NoneMandatory(optional) && forall i :: 0 <= i < |optional| ==> HasId(reps.items, optional[i].id)
  }

  /** An id that fusion lost cannot be selected. */
  lemma {:induction false} LostIsNotSelected(reps: Reps, optional: seq<Candidate>, maxTokens: int, id: string)
    requires Lost(reps, id) && OptionalOf(reps, optional)
    ensures var pool := Pool(reps, optional); !HasId(Selected(RulesFor(pool, maxTokens), pool).selected, id)
  {
    var pool := Pool(reps, optional);
    RulesAreIndexed(pool, maxTokens);
    SelectionIsSound(RulesFor(pool, maxTokens), pool);
    forall c | c in pool ensures c.id != id {
      if c in Mandatory(reps.items) { MandatoryMembers(reps.items, c); }
    }
  }

  /** Requests for different files. */
  ghost predicate DistinctRequests(requests: seq<Request>) {
    && (forall i :: 0 <= i < |requests| && requests[i].File? ==> requests[i].rel != "")
    && (forall i, j :: 0 <= i < j < |requests| && requests[i].File? && requests[j].File? ==> requests[i].rel != requests[j].rel)
  }

  lemma {:induction false} IdIsPath(a: string, b: string)
    requires "file:" + a == "file:" + b
    ensures a == b
  {
    assert ("file:" + a)[5..] == a && ("file:" + b)[5..] == b;
  }

  lemma {:induction false} ServedDiffers(w: Workspace, requests: seq<Request>, maxTokens: int, k: nat, c: Candidate)
    requires DistinctRequests(requests) && k < |requests| && requests[k].File?
    requires c in After(w, requests, maxTokens, k).candidates
    ensures c.path != requests[k].rel && c.id != "file:" + requests[k].rel
  {
    var j := ServedAre(w, requests, maxTokens, k, c);
    if c.id == "file:" + requests[k].rel { IdIsPath(c.path, requests[k].rel); }
  }

  lemma {:induction false} ServedAreDistinct(w: Workspace, requests: seq<Request>, maxTokens: int, k: nat)
    requires DistinctRequests(requests) && k <= |requests|
    ensures DistinctFiles(After(w, requests, maxTokens, k).candidates)
  {
    if k > 0 {
      ServedAreDistinct(w, requests, maxTokens, k - 1);
      var p := After(w, requests, maxTokens, k - 1);
      if p.remaining > 0 && requests[k - 1].File? {
        var e := CandidateFor(w, requests[k - 1].rel, FairShare(p.remaining, |requests| - (k - 1)));
        forall i | 0 <= i < |p.candidates| ensures p.candidates[i].path != e.path && p.candidates[i].id != e.id {
          ServedDiffers(w, requests, maxTokens, k - 1, p.candidates[i]);
        }
        DistinctFilesSnoc(p.candidates, e);
      }
    }
  }

  /** The path of `retrieve_with_rejections`, for requests of different files: every file that the
      budget loop served ends up selected under the same budget if and only if no two of them have
      the same content and no source's first claimant of one supersedes it. Semantic reranking, whose
      source is empty when it is off, changes nothing about that. */
  lemma {:induction false} ExplicitFilesSurviveIff(
    w: Workspace, requests: seq<Request>, maxTokens: int, sources: seq<seq<Candidate>>, semantic: seq<Candidate>,
    optional: seq<Candidate>)
    requires DistinctRequests(requests)
    requires var explicit := After(w, requests, maxTokens, |requests|).candidates;
      && SourcesForeign(sources, explicit) && DrawnFrom(semantic, Fuse(explicit, sources))
      && OptionalOf(Fuse(explicit, sources + [semantic]), optional)
    ensures var explicit := After(w, requests, maxTokens, |requests|).candidates;
      var pool := Pool(Fuse(explicit, sources + [semantic]), optional);
      NoTwins(explicit) && NoTakeovers(explicit, sources) <==>
        AllPicked(explicit, Selected(RulesFor(pool, maxTokens), pool))
  {
    var explicit := After(w, requests, maxTokens, |requests|).candidates;
    ServedAreDistinct(w, requests, maxTokens, |requests|);
    TokensAreConserved(w, requests, maxTokens, |requests|);
    RerankingTakesNothing(explicit, sources, semantic);
    PickedIff(explicit, sources + [semantic], optional, maxTokens);
  }

  /** From distinct files that fit the budget together. */
  lemma {:induction false} PickedIff(explicit: seq<Candidate>, sources: seq<seq<Candidate>>, optional: seq<Candidate>, maxTokens: int)
    requires DistinctFiles(explicit) && SourcesForeign(sources, explicit) && TotalCost(explicit) <= Max(0, maxTokens)
    requires OptionalOf(Fuse(explicit, sources), optional)
    ensures var pool := Pool(Fuse(explicit, sources), optional);
      NoTwins(explicit) && NoTakeovers(explicit, sources) <==>
        AllPicked(explicit, Selected(RulesFor(pool, maxTokens), pool))
  {
    var reps := Fuse(explicit, sources);
    if NoTwins(explicit) && NoTakeovers(explicit, sources) {
      ApartIffNoTwins(explicit);
      FuseKept(explicit, sources);
      forall i | 0 <= i < |explicit|
        ensures HasId(Selected(RulesFor(Pool(reps, optional), maxTokens), Pool(reps, optional)).selected, explicit[i].id)
      {
        KeptFilesAreSelected(explicit, reps, optional, maxTokens, i);
      }
    } else {
      var i := SomeFileIsLost(explicit, sources);
      LostIsNotSelected(reps, optional, maxTokens, explicit[i].id);
    }
  }

  // ---------------------------------------------------------------- when files do not survive

  lemma {:induction false} AbsorbOne(e: Candidate)
    ensures AbsorbAll([e]) == Reps([Identity(e)], [e])
  {
    assert [e][..0] == [];
    assert AbsorbAll([]) == Reps([], []);
  }

  lemma {:induction false} MergeOne(e: Candidate, c: Candidate)
    requires SameEvidence(e, c)
    ensures Absorb(Reps([Identity(e)], [e]), c) == Reps([Identity(e)], [Merge(e, c)])
  {
    FirstEvidenceIsFirst([e], c);
    assert [e][0] == e;
  }

  lemma {:induction false} FuseOne(e: Candidate, c: Candidate)
    requires SameEvidence(e, c)
    ensures Fuse([e], [[c]]).items == [Merge(e, c)]
  {
    var r0 := Reps([Identity(e)], [e]);
    AbsorbOne(e);
    MergeOne(e, c);
    assert [c][..0] == [] && [[c]][..0] == [];
    assert ScanSource(r0, []) == Scan(r0, {});
    assert Fuse([e], []) == r0;
  }

  /** A mandatory candidate on its own that costs more than the budget is not selected. */
  lemma {:induction false} TooDearAlone(m: Candidate, budget: nat)
    requires m.mandatory && Cost(m) > budget
    ensures Mandatory([m]) == [m] && Selected(RulesFor([m], budget), [m]).selected == []
  {
    var r := RulesFor([m], budget);
    assert [m][..0] == [];
    assert Mandatory([]) == [] && [] + [m] == [m];
    assert Turns(r, NOTHING, [], false) == NOTHING;
    assert AfterMandatory(r, [m]).selected == [];
    assert Remaining([m], []) == [];
  }

  /** One requested file under a budget: what the loop serves. */
  lemma {:induction false} ServesOne(w: Workspace, rel: string, budget: nat)
    requires budget >= 1
    ensures After(w, [File(rel)], budget, 1).candidates == [CandidateFor(w, rel, budget)]
  {
    assert After(w, [File(rel)], budget, 0) == Progress([], budget);
    assert FairShare(budget, 1) == budget;
  }

  /** What `_symbol_candidates` makes of an indexed symbol. */
  predicate IsSymbol(c: Candidate) {
    !c.mandatory && c.deps == [] && c.representation == SymbolBody && c.tokens == Max(1, |c.content| / 4)
  }

  /** In any workspace: a requested file that the budget cuts short, and a symbol of the same evidence
      that costs more than the budget. The symbol takes the file's place and nothing is selected. */
  lemma {:induction false} SymbolDisplacesFile(w: Workspace, rel: string, budget: nat, symbol: Candidate)
    requires budget >= 1
    requires var e := CandidateFor(w, rel, budget); e.representation == TargetedSlice && SameEvidence(e, symbol)
    requires IsSymbol(symbol) && Cost(symbol) > budget
    ensures var explicit := After(w, [File(rel)], budget, 1).candidates;
      var pool := Pool(Fuse(explicit, [[symbol]]), []);
      |explicit| == 1 && TotalCost(explicit) <= budget && Selected(RulesFor(pool, budget), pool).selected == []
  {
    var e := CandidateFor(w, rel, budget);
    ServesOne(w, rel, budget);
    TokensAreConserved(w, [File(rel)], budget, 1);
    FuseOne(e, symbol);
    var m := Merge(e, symbol);
    TooDearAlone(m, budget);
    assert Pool(Fuse([e], [[symbol]]), []) == [m];
  }

  /** A workspace whose one file is longer than a budget of ten tokens, and a function of forty lines
      and four hundred characters at its top. */
  function LongFile(): Workspace {
    Workspace(1000000, (rel: string, max: nat) => Prefix("def function_with_a_very_long_name(argument)", false),
      (rel: string, text: string) => "file hash", (text: string) => 2, (rel: string, text: string) => {})
  }

  function LongFunction(): Candidate {
    Candidate("symbol:f:a.py:0", "a.py", Some(1), Some(40), "symbol hash", 100, 0.96, 1.0, 1.0, false, [], SymbolBody,
      seq(400, i => 'x'), {})
  }

  lemma {:induction false} SymbolDisplacesLongFile()
    ensures var explicit := After(LongFile(), [File("a.py")], 10, 1).candidates;
      var pool := Pool(Fuse(explicit, [[LongFunction()]]), []);
      IsSymbol(LongFunction()) && |explicit| == 1 && Selected(RulesFor(pool, 10), pool).selected == []
  {
    assert |LongFunction().content| == 400;
    SymbolDisplacesFile(LongFile(), "a.py", 10, LongFunction());
  }

  lemma {:induction false} ServeHash(w: Workspace, p: Progress, request: Request, filesLeft: nat, hash: string, c: Candidate)
    requires (forall rel, text :: w.hash(rel, text) == hash) && c in Serve(w, p, request, filesLeft).candidates
    ensures c in p.candidates || c.hash == hash
  {
  }

  lemma {:induction false} ServedHash(w: Workspace, requests: seq<Request>, maxTokens: int, k: nat, hash: string, c: Candidate)
    requires k <= |requests| && (forall rel, text :: w.hash(rel, text) == hash)
    requires c in After(w, requests, maxTokens, k).candidates
    ensures c.hash == hash
  {
    if k > 0 {
      var p := After(w, requests, maxTokens, k - 1);
      ServeHash(w, p, requests[k - 1], |requests| - (k - 1), hash, c);
      if c in p.candidates { ServedHash(w, requests, maxTokens, k - 1, hash, c); }
    }
  }

  /** Whenever two of the served files have the same content hash, not all of them are selected. */
  lemma {:induction false} TwinFilesMerge(
    w: Workspace, requests: seq<Request>, maxTokens: int, sources: seq<seq<Candidate>>, semantic: seq<Candidate>,
    optional: seq<Candidate>, i: nat, j: nat)
    requires DistinctRequests(requests)
    requires var explicit := After(w, requests, maxTokens, |requests|).candidates;
      && i < j < |explicit| && explicit[i].hash == explicit[j].hash != ""
      && SourcesForeign(sources, explicit) && DrawnFrom(semantic, Fuse(explicit, sources))
      && OptionalOf(Fuse(explicit, sources + [semantic]), optional)
    ensures var explicit := After(w, requests, maxTokens, |requests|).candidates;
      var pool := Pool(Fuse(explicit, sources + [semantic]), optional);
      !AllPicked(explicit, Selected(RulesFor(pool, maxTokens), pool))
  {
    var explicit := After(w, requests, maxTokens, |requests|).candidates;
    assert Twins(explicit[i], explicit[j]);
    ExplicitFilesSurviveIff(w, requests, maxTokens, sources, semantic, optional);
  }

  /** That happens: two readable files with the same content and a token for each. */
  lemma {:induction false} TwinFilesAreServed(w: Workspace, requests: seq<Request>, maxTokens: int, hash: string)
    requires (forall rel, text :: w.hash(rel, text) == hash) && Readable(requests) >= 2 && maxTokens >= 2
    ensures var explicit := After(w, requests, maxTokens, |requests|).candidates;
      |explicit| >= 2 && explicit[0].hash == explicit[1].hash == hash
  {
    var explicit := After(w, requests, maxTokens, |requests|).candidates;
    AllServedIffEnough(w, requests, maxTokens);
    ServedHash(w, requests, maxTokens, |requests|, hash, explicit[0]);
    ServedHash(w, requests, maxTokens, |requests|, hash, explicit[1]);
  }
}
